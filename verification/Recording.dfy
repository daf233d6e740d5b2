/**
  What one upload's outcome leaves in the sync state, and how the next scan reads it
  (`sync_executor.py`: `_classify_status`, `record_upload_outcome` and its helpers).
 */
module Recording {
  import opened Prelude
  import opened Strings
  import opened SyncState

  const REEXTRACT_MAX_ATTEMPTS: nat := 3

  datatype Settings = Settings(maxExtractRetries: nat, maxReuploadAttempts: nat, stamp: string)

  // ----- error texts ----------------------------------------------------------------

  function Lower(s: string): string { seq(|s|, i requires 0 <= i < |s| => LowerChar(s[i])) }

  predicate StartsWith(s: string, prefix: string) { prefix <= s }

  predicate Contains(s: string, part: string) { part <= s || (s != "" && Contains(s[1..], part)) }

  predicate IsServerSide(error: string) {
    var e := Lower(error);
    || StartsWith(e, "init failed:")
    || (StartsWith(e, "part ") && Contains(e, " failed:"))
    || Contains(e, "rate limit")
  }

  predicate IsConfiguration(error: string) { StartsWith(Lower(error), "extraction configuration invalid") }

  /** `is_unconvertible_error`: the library's verdict on the file, as it words it. */
  predicate IsUnconvertible(error: string) {
    var e := Lower(error);
    && error != ""
    && !StartsWith(e, "init failed:") && !(StartsWith(e, "part ") && Contains(e, " failed:"))
    && !StartsWith(e, "extraction timeout") && !StartsWith(e, "extraction configuration invalid")
    && !StartsWith(e, "extractor died") && !StartsWith(e, "ocr budget exceeded")
    && !StartsWith(e, "resource limit exceeded: ocr")
    && (|| Contains(e, "no extractable text") || Contains(e, "not valid utf-8")
        || StartsWith(e, "unsupported extension") || StartsWith(e, "corrupt ") || StartsWith(e, "encrypted ")
        || StartsWith(e, "resource limit exceeded") || StartsWith(e, "valueerror:")
        || Contains(e, "invalid literal for int") || Contains(e, "not a zip file")
        || Contains(e, "not a valid zip container") || Contains(e, "bad zipfile") || Contains(e, "bad magic number"))
  }

  datatype FailureKind = Unconvertible | NotTheFile | ExtractionSide

  /** The order in which a failure is judged. */
  function KindOf(error: string): FailureKind {
    if IsUnconvertible(error) then Unconvertible
    else if IsServerSide(error) || IsConfiguration(error) then NotTheFile
    else ExtractionSide
  }

  // ----- fields -----------------------------------------------------------------------

  predicate IsTransient(code: string) { code == "doc_fields_ingest_unavailable" || code == "doc_fields_unavailable" }

  /** `_fields_record_for` and `record_for` */
  function FieldsRecordFor(fields: Option<FieldsResult>, digest: string): FieldsRecord {
    match fields
    case None => FieldsRecord(Some(digest), NothingSent, None, false)
    case Some(Staged) => FieldsRecord(Some(digest), Staged, Some(true), false)
    case Some(Cleared) => FieldsRecord(Some(digest), Cleared, Some(false), false)
    case Some(Refused(code)) =>
      if IsTransient(code) then FieldsRecord(Some(REQUEUE_DIGEST), Refused(code), None, true)
      else FieldsRecord(Some(digest), Refused(code), None, false)
    case Some(other) => FieldsRecord(Some(digest), other, None, false)
  }

  /** `_count_reupload_failure`, after the attempt itself was counted. */
  function ReuploadFailure(doc: Doc, digest: string, kind: string, max: nat): Doc {
    if Attempts(doc) < max then doc
    else FieldsUpdated(doc, FieldsRecord(Some(digest), ReuploadFailed(kind), None, false))
  }

  /** `_reupload_failure_class`: the status behind `init failed: `, if there is one. */
  function FailureClass(error: string): string {
    var e := Lower(error);
    if StartsWith(e, "init failed: ") && |e| >= 16 && IsDigit(e[13]) && IsDigit(e[14]) && IsDigit(e[15]) then
      if e[13..16] == "401" then "init_401"
      else if e[13..16] == "403" then "init_403"
      else if e[13] == '4' then "init_4xx"
      else if e[13] == '5' then "init_5xx"
      else "other"
    else if IsServerSide(error) then "other"
    else "extract"
  }

  // ----- classification ----------------------------------------------------------------

  datatype Status = Synced | Pending | Modified | ExcludedMaxAge | FieldsChanged

  function FingerprintStatus(stored: Option<Fingerprint>, file: Fingerprint): Status {
    if stored == None then Pending else if stored.value == file then Synced else Modified
  }

  /** `_classify_status`; `digest` is None while document fields are off. */
  function Classify(stored: Option<Fingerprint>, storedDigest: Option<string>, file: Fingerprint,
                    tooOld: bool, digest: Option<string>): Status
  {
    var status := FingerprintStatus(stored, file);
    if status == Synced then
      if digest.Some? && (if storedDigest.Some? then storedDigest.value else "") != digest.value then FieldsChanged else Synced
    else if tooOld then ExcludedMaxAge
    else status
  }

  function StatusOf(doc: Doc, file: Fingerprint, tooOld: bool, digest: Option<string>): Status {
    match doc.row
    case None => Classify(None, None, file, tooOld, digest)
    case Some(row) => Classify(Some(row.file), row.fields.digest, file, tooOld, digest)
  }

  // ----- one outcome ---------------------------------------------------------------------

  datatype Upload =
    | Sent(key: string, partial: Option<Note>, fields: Option<FieldsResult>, stamp: Option<string>, textSha: Option<string>)
    | UnchangedText(partial: Option<Note>, stamp: Option<string>)
    | KeptText(stamp: Option<string>)
    | Failed(error: string)

  datatype Outcome = SyncedOutcome | PartialOutcome | SkippedOutcome | RetryOutcome | UnchangedOutcome | KeptOutcome

  /** How the document came into the queue. */
  datatype Queue = New | FieldsQueue | ReextractQueue

  datatype Recorded = Recorded(doc: Doc, outcome: Outcome)

  const EXHAUSTED := Note(None, None, "extract_retries_exhausted", 0)

  function Or(stamp: Option<string>, otherwise: string): string { if stamp.Some? then stamp.value else otherwise }

  function NoneRecord(digest: Option<string>): Option<FieldsRecord> {
    if digest.Some? then Some(FieldsRecord(digest, NothingSent, None, false)) else None
  }

  function RecordSent(doc: Doc, file: Fingerprint, upload: Upload, incremental: bool, digest: Option<string>, cfg: Settings): Recorded
    requires upload.Sent?
  {
    var record := if digest.Some? then Some(FieldsRecordFor(upload.fields, digest.value)) else None;
    var stored :=
      if incremental then
        match upload.partial
        case Some(note) => PartialRecorded(doc, file, if upload.key == "" then "partial" else upload.key, note, record)
        case None => if upload.key == "" then doc else UploadRecorded(doc, file, upload.key, record)
      else if record.Some? then FieldsUpdated(doc, record.value)
      else doc;
    var stamped := if upload.stamp.Some? then ExtractionSet(stored, upload.stamp.value, upload.textSha) else stored;
    var counted :=
      if record.Some? && record.value.countAttempt then
        ReuploadFailure(stamped, digest.value, "fields_unavailable", cfg.maxReuploadAttempts)
      else stamped;
    Recorded(counted, if upload.partial.Some? then PartialOutcome else SyncedOutcome)
  }

  function RecordFailure(doc: Doc, file: Fingerprint, failure: FailureKind, failureClass: string,
                         digest: Option<string>, queue: Queue, cfg: Settings): Recorded
  {
    if queue.ReextractQueue? then
      if failure.Unconvertible? then Recorded(StampSet(doc, cfg.stamp), SkippedOutcome)
      else Recorded(ReextractFailed(doc, REEXTRACT_MAX_ATTEMPTS), RetryOutcome)
    else if failure.Unconvertible? then
      Recorded(StampSet(UploadRecorded(doc, file, "skip:unconvertible", NoneRecord(digest)), cfg.stamp), SkippedOutcome)
    else if queue.FieldsQueue? then
      Recorded(if digest.None? then doc
               else ReuploadFailure(AttemptCounted(doc), digest.value, failureClass, cfg.maxReuploadAttempts),
               RetryOutcome)
    else if failure.NotTheFile? then Recorded(doc, RetryOutcome)
    else if doc.retries + 1 > cfg.maxExtractRetries then
      Recorded(PartialRecorded(doc, file, "partial:extract_retries_exhausted", EXHAUSTED, NoneRecord(digest)), PartialOutcome)
    else Recorded(doc.(retries := doc.retries + 1), RetryOutcome)
  }

  function RecordOutcome(doc: Doc, file: Fingerprint, upload: Upload, incremental: bool,
                         digest: Option<string>, queue: Queue, cfg: Settings): Recorded
  {
    match upload
    case UnchangedText(partial, stamp) => Recorded(ReextractUnchanged(doc, Or(stamp, cfg.stamp), partial), UnchangedOutcome)
    case KeptText(stamp) => Recorded(ReextractKept(doc, Or(stamp, cfg.stamp)), KeptOutcome)
    case Sent(_, _, _, _, _) => RecordSent(doc, file, upload, incremental, digest, cfg)
    case Failed(error) =>
      if incremental then RecordFailure(doc, file, KindOf(error), FailureClass(error), digest, queue, cfg)
      else Recorded(doc, RetryOutcome)
  }

  // ----- the same, on the store ------------------------------------------------------------

  method CountReuploadFailure(state: SyncStateStore, path: string, digest: string, kind: string, attempts: nat, max: nat)
    requires state.Valid() && attempts == Attempts(state.At(path))
    modifies state
    ensures state.Valid() && state.OnlyAt(path)
    ensures state.At(path) == ReuploadFailure(old(state.At(path)), digest, kind, max)
  {
    if attempts >= max {
      state.UpdateFields(path, FieldsRecord(Some(digest), ReuploadFailed(kind), None, false));
    }
  }

  method RecordUploadSent(state: SyncStateStore, path: string, file: Fingerprint, upload: Upload, incremental: bool,
                          digest: Option<string>, cfg: Settings) returns (outcome: Outcome)
    requires state.Valid() && upload.Sent?
    modifies state
    ensures state.Valid() && state.OnlyAt(path)
    ensures Recorded(state.At(path), outcome) == RecordSent(old(state.At(path)), file, upload, incremental, digest, cfg)
  {
    var record := None;
    if digest.Some? {
      record := Some(FieldsRecordFor(upload.fields, digest.value));
    }
    if upload.partial.Some? {
      if incremental {
        state.RecordPartial(path, file, if upload.key == "" then "partial" else upload.key, upload.partial.value, record);
      } else if record.Some? {
        state.UpdateFields(path, record.value);
      }
      outcome := PartialOutcome;
    } else {
      if incremental && upload.key != "" {
        state.RecordUpload(path, file, upload.key, record);
      } else if record.Some? && !incremental {
        state.UpdateFields(path, record.value);
      }
      outcome := SyncedOutcome;
    }
    if upload.stamp.Some? {
      state.SetExtraction(path, upload.stamp.value, upload.textSha);
    }
    if record.Some? && record.value.countAttempt {
      var attempts := if path in state.documents then state.documents[path].fields.attempts else 0;
      CountReuploadFailure(state, path, digest.value, "fields_unavailable", attempts, cfg.maxReuploadAttempts);
    }
  }

  /** A failure that is neither a re-extraction's nor the library's verdict on the file. */
  method RecordRetry(state: SyncStateStore, path: string, file: Fingerprint, failure: FailureKind, failureClass: string,
                     digest: Option<string>, queue: Queue, cfg: Settings) returns (outcome: Outcome)
    requires state.Valid() && !queue.ReextractQueue? && !failure.Unconvertible?
    modifies state
    ensures state.Valid() && state.OnlyAt(path)
    ensures Recorded(state.At(path), outcome)
         == RecordFailure(old(state.At(path)), file, failure, failureClass, digest, queue, cfg)
  {
    if queue.FieldsQueue? {
      if digest.Some? {
        var attempts := state.IncrementFieldsAttempts(path);
        CountReuploadFailure(state, path, digest.value, failureClass, attempts, cfg.maxReuploadAttempts);
      }
      return RetryOutcome;
    }
    if failure.NotTheFile? {
      return RetryOutcome;
    }
    var attempts := state.IncrementRetryCount(path);
    if attempts > cfg.maxExtractRetries {
      state.RecordPartial(path, file, "partial:extract_retries_exhausted", EXHAUSTED, NoneRecord(digest));
      return PartialOutcome;
    }
    return RetryOutcome;
  }

  method RecordUploadFailure(state: SyncStateStore, path: string, file: Fingerprint, failure: FailureKind, failureClass: string,
                             digest: Option<string>, queue: Queue, cfg: Settings) returns (outcome: Outcome)
    requires state.Valid()
    modifies state
    ensures state.Valid() && state.OnlyAt(path)
    ensures Recorded(state.At(path), outcome)
         == RecordFailure(old(state.At(path)), file, failure, failureClass, digest, queue, cfg)
  {
    if queue.ReextractQueue? {
      if failure.Unconvertible? {
        state.SetExtractionStamp(path, cfg.stamp);
        return SkippedOutcome;
      }
      state.CountReextractFailure(path, REEXTRACT_MAX_ATTEMPTS);
      return RetryOutcome;
    }
    if failure.Unconvertible? {
      state.RecordSkip(path, file, "unconvertible", NoneRecord(digest));
      state.SetExtractionStamp(path, cfg.stamp);
      assert "skip:" + "unconvertible" == "skip:unconvertible";
      return SkippedOutcome;
    }
    outcome := RecordRetry(state, path, file, failure, failureClass, digest, queue, cfg);
  }

  /** `record_upload_outcome` */
  method RecordUploadOutcome(state: SyncStateStore, path: string, file: Fingerprint, upload: Upload, incremental: bool,
                             digest: Option<string>, queue: Queue, cfg: Settings) returns (outcome: Outcome)
    requires state.Valid()
    modifies state
    ensures state.Valid() && state.OnlyAt(path)
    ensures Recorded(state.At(path), outcome)
         == RecordOutcome(old(state.At(path)), file, upload, incremental, digest, queue, cfg)
  {
    match upload {
      case UnchangedText(partial, stamp) =>
        state.RecordReextractUnchanged(path, Or(stamp, cfg.stamp), partial);
        return UnchangedOutcome;
      case KeptText(stamp) =>
        state.RecordReextractKept(path, Or(stamp, cfg.stamp));
        return KeptOutcome;
      case Sent(_, _, _, _, _) =>
        outcome := RecordUploadSent(state, path, file, upload, incremental, digest, cfg);
      case Failed(error) =>
        if !incremental {
          return RetryOutcome;
        }
        outcome := RecordUploadFailure(state, path, file, KindOf(error), FailureClass(error), digest, queue, cfg);
    }
  }

  // ----- whether Knovas holds field values ----------------------------------------------------

  function SentMark(doc: Doc): bool { doc.row.Some? && doc.row.value.fields.sent }

  /** The document after a sequence of recorded outcomes. */
  function AfterOutcomes(doc: Doc, file: Fingerprint, uploads: seq<Upload>, digest: string, queue: Queue, cfg: Settings): Doc {
    if uploads == [] then doc
    else
      var n := |uploads| - 1;
      RecordOutcome(AfterOutcomes(doc, file, uploads[..n], digest, queue, cfg), file, uploads[n], true, Some(digest), queue, cfg).doc
  }

  /** What the server said last: values staged, or cleared; anything else says nothing. */
  function LastAnswer(uploads: seq<Upload>, before: bool): bool {
    if uploads == [] then before
    else
      var n := |uploads| - 1;
      var u := uploads[n];
      if u.Sent? && u.fields == Some(Staged) then true
      else if u.Sent? && u.fields == Some(Cleared) then false
      else LastAnswer(uploads[..n], before)
  }

  lemma SentMarkStep(doc: Doc, file: Fingerprint, upload: Upload, digest: string, queue: Queue, cfg: Settings)
    requires upload.Sent? ==> upload.key != ""
    ensures SentMark(RecordOutcome(doc, file, upload, true, Some(digest), queue, cfg).doc)
         == if upload.Sent? && upload.fields == Some(Staged) then true
            else if upload.Sent? && upload.fields == Some(Cleared) then false
            else SentMark(doc)
  {
    match upload {
      case Failed(error) =>
        assert SentMark(RecordFailure(doc, file, KindOf(error), FailureClass(error), Some(digest), queue, cfg).doc) == SentMark(doc);
      case _ =>
    }
  }

  /** Through refusals, failures, skips and re-extractions the mark that decides about a clear is the server's last answer. */
  lemma {:induction false} SentMarkIsLastAnswer(doc: Doc, file: Fingerprint, uploads: seq<Upload>, digest: string, queue: Queue, cfg: Settings)
    requires forall u :: u in uploads && u.Sent? ==> u.key != ""
    ensures SentMark(AfterOutcomes(doc, file, uploads, digest, queue, cfg)) == LastAnswer(uploads, SentMark(doc))
    decreases |uploads|
  {
    if uploads != [] {
      var n := |uploads| - 1;
      SentMarkIsLastAnswer(doc, file, uploads[..n], digest, queue, cfg);
      SentMarkStep(AfterOutcomes(doc, file, uploads[..n], digest, queue, cfg), file, uploads[n], digest, queue, cfg);
    }
  }
}
