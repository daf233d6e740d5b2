/**
  What is on record after one upload, column by column (`sync_executor.record_upload_outcome`
  with `record_for` and `_count_reupload_failure`), and what the next scan makes of it.
 */
module Outcomes {
  import opened Prelude
  import opened Strings
  import opened SyncState
  import opened Recording
  import opened Wordings

  function FieldsOf(doc: Doc): Fields { if doc.row.Some? then doc.row.value.fields else Fields(None, false, None, 0) }

  /** The server cannot take fields at the moment. */
  predicate ForNow(answer: Option<FieldsResult>) {
    answer == Some(Refused("doc_fields_ingest_unavailable")) || answer == Some(Refused("doc_fields_unavailable"))
  }

  /**
    The fields columns after an upload that was sent: untouched while fields are off; queued again, and counted, as
    long as the server cannot take them and attempts are left; else settled under the governing digest.
   */
  ghost predicate Settled(before: Fields, answer: Option<FieldsResult>, digest: Option<string>, max: nat, after: Fields) {
    if digest.None? then after == before
    else if ForNow(answer) && before.attempts + 1 < max then after == Fields(Some("requeue"), before.sent, answer, before.attempts + 1)
    else if ForNow(answer) then after == Fields(digest, before.sent, Some(ReuploadFailed("fields_unavailable")), 0)
    else
      && after.digest == digest && after.attempts == 0
      && after.outcome == (if answer.Some? then answer else Some(NothingSent))
      && after.sent == (answer == Some(Staged) || (answer != Some(Cleared) && before.sent))
  }

  /** The row, the note and the counters after an upload that was sent. */
  lemma SentExactly(doc: Doc, file: Fingerprint, upload: Upload, digest: Option<string>, queue: Queue, cfg: Settings)
    requires upload.Sent? && upload.key != "" && upload.stamp.Some?
    ensures var r := RecordOutcome(doc, file, upload, true, digest, queue, cfg);
            && r.outcome == (if upload.partial.Some? then PartialOutcome else SyncedOutcome)
            && r.doc.note == upload.partial && r.doc.retries == 0 && r.doc.row.Some?
            && r.doc.row.value == Row(file, upload.key, r.doc.row.value.fields, upload.stamp, upload.textSha, NotQueued, 0)
            && Settled(FieldsOf(doc), upload.fields, digest, cfg.maxReuploadAttempts, r.doc.row.value.fields)
  {
  }

  /** A failed re-extraction: a verdict takes the stamp and leaves the queue; anything else counts, three times at most. */
  lemma FailedReextraction(doc: Doc, file: Fingerprint, error: string, digest: Option<string>, cfg: Settings)
    requires doc.row.Some? && doc.row.value.resend == Reextract
    ensures var r, row := RecordOutcome(doc, file, Failed(error), true, digest, ReextractQueue, cfg), doc.row.value;
            if Judged(error) then
              r.outcome == SkippedOutcome && r.doc == doc.(row := Some(row.(stamp := Some(cfg.stamp), resend := NotQueued, resendAttempts := 0)))
            else
              && r.outcome == RetryOutcome
              && r.doc == doc.(row := Some(if row.resendAttempts < 2 then row.(resendAttempts := row.resendAttempts + 1)
                                           else row.(resend := NotQueued, resendAttempts := 0)))
  {
    KindExactly(error);
  }

  /** A file that cannot be converted is recorded as it is, so that it is not tried again. */
  lemma Unconvertibles(doc: Doc, file: Fingerprint, error: string, digest: Option<string>, queue: Queue, cfg: Settings)
    requires !queue.ReextractQueue? && Judged(error)
    ensures var r := RecordOutcome(doc, file, Failed(error), true, digest, queue, cfg);
            && r.outcome == SkippedOutcome && r.doc.note == None && r.doc.retries == 0 && r.doc.row.Some?
            && r.doc.row.value.file == file && r.doc.row.value.key == "skip:unconvertible"
            && r.doc.row.value.stamp == Some(cfg.stamp) && r.doc.row.value.resend == NotQueued
            && r.doc.row.value.textSha == (if doc.row.Some? then doc.row.value.textSha else None)
            && Settled(FieldsOf(doc), None, digest, cfg.maxReuploadAttempts, r.doc.row.value.fields)
  {
    KindExactly(error);
  }

  /** A fields re-upload that failed: the text stays as it is; the attempt counts, and the last one settles the digest. */
  lemma FailedReupload(doc: Doc, file: Fingerprint, error: string, digest: string, cfg: Settings)
    requires doc.row.Some? && !Judged(error)
    ensures var r, row := RecordOutcome(doc, file, Failed(error), true, Some(digest), FieldsQueue, cfg), doc.row.value;
            && r.outcome == RetryOutcome
            && r.doc == doc.(row := Some(row.(fields :=
                 if row.fields.attempts + 1 < cfg.maxReuploadAttempts then row.fields.(attempts := row.fields.attempts + 1)
                 else Fields(Some(digest), row.fields.sent, Some(ReuploadFailed(FailureClass(error))), 0))))
  {
    KindExactly(error);
  }

  /** New content that failed: nothing where nobody is at fault; else one more retry, and at last a partial record. */
  lemma FailedContent(doc: Doc, file: Fingerprint, error: string, digest: Option<string>, cfg: Settings)
    requires !Judged(error)
    ensures var r := RecordOutcome(doc, file, Failed(error), true, digest, New, cfg);
            if NobodysFault(error) then r == Recorded(doc, RetryOutcome)
            else if doc.retries < cfg.maxExtractRetries then r == Recorded(doc.(retries := doc.retries + 1), RetryOutcome)
            else
              && r.outcome == PartialOutcome && r.doc.retries == 0 && r.doc.row.Some?
              && r.doc.note == Some(Note(None, None, "extract_retries_exhausted", 0))
              && r.doc.row.value.file == file && r.doc.row.value.key == "partial:extract_retries_exhausted"
              && Settled(FieldsOf(doc), None, digest, cfg.maxReuploadAttempts, r.doc.row.value.fields)
  {
    KindExactly(error);
  }

  /** A full run records no failure. */
  lemma FullRunsRecordNoFailure(doc: Doc, file: Fingerprint, error: string, digest: Option<string>, queue: Queue, cfg: Settings)
    ensures RecordOutcome(doc, file, Failed(error), false, digest, queue, cfg) == Recorded(doc, RetryOutcome)
  {
  }

  /** The state of a file as the scan sees it; the age limit counts only for what is not there yet. */
  lemma StatusExactly(doc: Doc, file: Fingerprint, tooOld: bool, digest: Option<string>)
    ensures var status, known := StatusOf(doc, file, tooOld, digest), doc.row.Some? && doc.row.value.file == file;
            && (known ==> var stored := doc.row.value.fields.digest;
                          status == if digest.Some? && digest.value != (if stored.Some? then stored.value else "") then FieldsChanged else Synced)
            && (!known && tooOld ==> status == ExcludedMaxAge)
            && (!known && !tooOld ==> status == if doc.row.None? then Pending else Modified)
  {
  }

  /** An init error names its status, if that has three digits. */
  predicate HasStatus(error: string) {
    Begins(error, "init failed: ") && |error| >= 16 && IsDigit(error[13]) && IsDigit(error[14]) && IsDigit(error[15])
  }

  /** The class under which a failed re-upload is given up: the status of an init, the server, or the extraction. */
  lemma FailureClassExactly(error: string)
    ensures FailureClass(error)
         == if HasStatus(error) then
              if error[13..16] == "401" then "init_401" else if error[13..16] == "403" then "init_403"
              else if error[13] == '4' then "init_4xx" else if error[13] == '5' then "init_5xx" else "other"
            else if FromTheServer(error) || Mentions(error, "rate limit") then "other"
            else "extract"
  {
    ServerWords(error);
    StatusLowered(error);
    if HasStatus(error) {
      DigitsStay(error, 13);
      assert Lower(error)[13] == error[13];
    }
  }

  lemma StatusLowered(error: string)
    ensures var e := Lower(error);
            HasStatus(error) <==> StartsWith(e, "init failed: ") && |e| >= 16 && IsDigit(e[13]) && IsDigit(e[14]) && IsDigit(e[15])
  {
    BeginsExact(error, "init failed: ");
    if |error| >= 16 {
      DigitsStay(error, 13);
    }
  }

  /** Lower-casing leaves digits alone and makes none. */
  lemma DigitsStay(error: string, i: nat)
    requires i + 3 <= |error|
    ensures forall k :: i <= k < i + 3 ==> (IsDigit(Lower(error)[k]) <==> IsDigit(error[k])) && (IsDigit(error[k]) ==> Lower(error)[k] == error[k])
    ensures IsDigit(error[i]) && IsDigit(error[i + 1]) && IsDigit(error[i + 2]) ==> Lower(error)[i..i + 3] == error[i..i + 3]
  {
  }
}
