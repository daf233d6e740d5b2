/**
  How often one document is tried again. The file and the configuration stay as they
  are; what the uploads return does not.
 */
module BoundedAttempts {
  import opened Prelude
  import opened SyncState
  import opened Recording
  import opened Wordings

  // ----- fields re-uploads -----------------------------------------------------------

  /** What the uploader returns for a fields re-upload; a sent one always has a key. */
  predicate FieldsUpload(upload: Upload) { upload.Failed? || (upload.Sent? && upload.key != "") }

  /** The document after cycles that re-upload it for its fields while it is `FieldsChanged`. */
  function Reuploaded(doc: Doc, file: Fingerprint, digest: string, uploads: seq<Upload>, cfg: Settings): Doc
    decreases |uploads|
  {
    if uploads == [] || StatusOf(doc, file, false, Some(digest)) != FieldsChanged then doc
    else Reuploaded(RecordOutcome(doc, file, uploads[0], true, Some(digest), FieldsQueue, cfg).doc, file, digest, uploads[1..], cfg)
  }

  lemma SentAttempt(doc: Doc, file: Fingerprint, digest: string, upload: Upload, cfg: Settings)
    requires StatusOf(doc, file, false, Some(digest)) == FieldsChanged && digest != REQUEUE_DIGEST
    requires upload.Sent? && upload.key != ""
    ensures var after := RecordSent(doc, file, upload, true, Some(digest), cfg).doc;
            || StatusOf(after, file, false, Some(digest)) == Synced
            || (&& StatusOf(after, file, false, Some(digest)) == FieldsChanged
                && Attempts(after) == Attempts(doc) + 1 < cfg.maxReuploadAttempts)
  {
  }

  lemma FailedAttempt(doc: Doc, file: Fingerprint, digest: string, failure: FailureKind, failureClass: string, cfg: Settings)
    requires StatusOf(doc, file, false, Some(digest)) == FieldsChanged && digest != REQUEUE_DIGEST
    ensures var after := RecordFailure(doc, file, failure, failureClass, Some(digest), FieldsQueue, cfg).doc;
            || StatusOf(after, file, false, Some(digest)) == Synced
            || (&& StatusOf(after, file, false, Some(digest)) == FieldsChanged
                && Attempts(after) == Attempts(doc) + 1 < cfg.maxReuploadAttempts)
  {
  }

  /** One recorded attempt makes the document synced, or counts, still below the maximum. */
  lemma OneAttempt(doc: Doc, file: Fingerprint, digest: string, upload: Upload, cfg: Settings)
    requires StatusOf(doc, file, false, Some(digest)) == FieldsChanged && digest != REQUEUE_DIGEST
    requires FieldsUpload(upload)
    ensures var after := RecordOutcome(doc, file, upload, true, Some(digest), FieldsQueue, cfg).doc;
            || StatusOf(after, file, false, Some(digest)) == Synced
            || (&& StatusOf(after, file, false, Some(digest)) == FieldsChanged
                && Attempts(after) == Attempts(doc) + 1 < cfg.maxReuploadAttempts)
  {
    match upload {
      case Sent(_, _, _, _, _) => SentAttempt(doc, file, digest, upload, cfg);
      case Failed(error) => FailedAttempt(doc, file, digest, KindOf(error), FailureClass(error), cfg);
    }
  }

  /** Any mix of refusals, errors and answers: synced again after at most the attempts that are left, and at least one. */
  lemma {:induction false} AttemptsAreBounded(doc: Doc, file: Fingerprint, digest: string, uploads: seq<Upload>, cfg: Settings)
    requires StatusOf(doc, file, false, Some(digest)) == FieldsChanged && digest != REQUEUE_DIGEST
    requires forall u :: u in uploads ==> FieldsUpload(u)
    requires |uploads| >= Max(1, cfg.maxReuploadAttempts - Attempts(doc))
    ensures StatusOf(Reuploaded(doc, file, digest, uploads, cfg), file, false, Some(digest)) == Synced
    decreases |uploads|
  {
    OneAttempt(doc, file, digest, uploads[0], cfg);
    var after := RecordOutcome(doc, file, uploads[0], true, Some(digest), FieldsQueue, cfg).doc;
    if StatusOf(after, file, false, Some(digest)) == FieldsChanged {
      AttemptsAreBounded(after, file, digest, uploads[1..], cfg);
    } else {
      assert Reuploaded(after, file, digest, uploads[1..], cfg) == after;
    }
  }

  /** An attempt that delivers no fields and is no verdict on the file. */
  predicate Fails(upload: Upload) {
    || (upload.Failed? && !KindOf(upload.error).Unconvertible?)
    || (upload.Sent? && upload.key != "" && upload.fields.Some? && upload.fields.value.Refused? && IsTransient(upload.fields.value.code))
  }

  lemma OneFailure(doc: Doc, file: Fingerprint, digest: string, upload: Upload, cfg: Settings)
    requires StatusOf(doc, file, false, Some(digest)) == FieldsChanged && digest != REQUEUE_DIGEST
    requires Fails(upload) && Attempts(doc) + 1 < cfg.maxReuploadAttempts
    ensures var after := RecordOutcome(doc, file, upload, true, Some(digest), FieldsQueue, cfg).doc;
            StatusOf(after, file, false, Some(digest)) == FieldsChanged && Attempts(after) == Attempts(doc) + 1
  {
  }

  /** The bound is reached: failures alone keep the document in the queue until the last attempt. */
  lemma {:induction false} FailuresUseAllAttempts(doc: Doc, file: Fingerprint, digest: string, uploads: seq<Upload>, cfg: Settings)
    requires StatusOf(doc, file, false, Some(digest)) == FieldsChanged && digest != REQUEUE_DIGEST
    requires forall u :: u in uploads ==> Fails(u)
    requires Attempts(doc) + |uploads| < cfg.maxReuploadAttempts
    ensures StatusOf(Reuploaded(doc, file, digest, uploads, cfg), file, false, Some(digest)) == FieldsChanged
    ensures Attempts(Reuploaded(doc, file, digest, uploads, cfg)) == Attempts(doc) + |uploads|
    decreases |uploads|
  {
    if uploads != [] {
      var after := RecordOutcome(doc, file, uploads[0], true, Some(digest), FieldsQueue, cfg).doc;
      OneFailure(doc, file, digest, uploads[0], cfg);
      FailuresUseAllAttempts(after, file, digest, uploads[1..], cfg);
    }
  }

  // ----- extraction failures of new content ------------------------------------------------

  /** The errors that count against the file, by their wording. */
  function CountExtraction(errors: seq<string>): nat {
    if errors == [] then 0 else (if NobodysFault(errors[0]) then 0 else 1) + CountExtraction(errors[1..])
  }

  /** The document after cycles that each try to upload it and fail, while it is new or modified. */
  function Retried(doc: Doc, file: Fingerprint, digest: Option<string>, errors: seq<string>, cfg: Settings): Doc
    decreases |errors|
  {
    var status := StatusOf(doc, file, false, digest);
    if errors == [] || (status != Pending && status != Modified) then doc
    else Retried(RecordOutcome(doc, file, Failed(errors[0]), true, digest, New, cfg).doc, file, digest, errors[1..], cfg)
  }

  /** Recorded partial for the backfill, and not tried again by the cycle. */
  predicate GivenUp(doc: Doc, file: Fingerprint, digest: Option<string>) {
    && doc.note == Some(EXHAUSTED) && doc.retries == 0 && doc.row.Some? && doc.row.value.file == file
    && StatusOf(doc, file, false, digest) == Synced
  }

  lemma OneRetry(doc: Doc, file: Fingerprint, digest: Option<string>, failure: FailureKind, failureClass: string, cfg: Settings)
    requires !failure.Unconvertible? && doc.retries <= cfg.maxExtractRetries
    ensures var after := RecordFailure(doc, file, failure, failureClass, digest, New, cfg).doc;
            && (failure.NotTheFile? ==> after == doc)
            && (failure.ExtractionSide? && doc.retries < cfg.maxExtractRetries ==> after == doc.(retries := doc.retries + 1))
            && (failure.ExtractionSide? && doc.retries == cfg.maxExtractRetries ==> GivenUp(after, file, digest))
  {
  }

  /**
    Errors whose wording is the server's, a rate limit's or the configuration's leave the document as it is. The
    others count, and exactly the one after the last retry records it partial, for the backfill, and ends the run.
   */
  lemma {:induction false} RetriesEndPartial(doc: Doc, file: Fingerprint, digest: Option<string>, errors: seq<string>, cfg: Settings)
    requires StatusOf(doc, file, false, digest) == Pending || StatusOf(doc, file, false, digest) == Modified
    requires forall e :: e in errors ==> !Judged(e)
    requires doc.retries <= cfg.maxExtractRetries
    ensures var end := Retried(doc, file, digest, errors, cfg);
            var failures := doc.retries + CountExtraction(errors);
            if failures <= cfg.maxExtractRetries then end == doc.(retries := failures)
            else GivenUp(end, file, digest)
    decreases |errors|
  {
    if errors != [] {
      var after := RecordOutcome(doc, file, Failed(errors[0]), true, digest, New, cfg).doc;
      KindExactly(errors[0]);
      OneRetry(doc, file, digest, KindOf(errors[0]), FailureClass(errors[0]), cfg);
      if !NobodysFault(errors[0]) && doc.retries == cfg.maxExtractRetries {
        assert Retried(after, file, digest, errors[1..], cfg) == after;
      } else {
        assert StatusOf(after, file, false, digest) == StatusOf(doc, file, false, digest);
        RetriesEndPartial(after, file, digest, errors[1..], cfg);
      }
    }
  }

  /** The connector's settings can be wrong for as long as they like: no file is given up for it. */
  lemma {:induction false} ConfigurationNeverCounts(doc: Doc, file: Fingerprint, digest: Option<string>, errors: seq<string>, cfg: Settings)
    requires forall e :: e in errors ==> Begins(e, "extraction configuration invalid")
    ensures Retried(doc, file, digest, errors, cfg) == doc
    decreases |errors|
  {
    if errors != [] {
      var e := errors[0];
      assert e in errors && e + "" == e;
      ConfigurationIsNotTheFile(e, "");
      ConfigurationNeverCounts(doc, file, digest, errors[1..], cfg);
    }
  }

  // ----- re-extractions -----------------------------------------------------------------------

  /** The document after failed re-extractions while it is queued for one. */
  function Reextracted(doc: Doc, file: Fingerprint, digest: Option<string>, errors: seq<string>, cfg: Settings): Doc
    decreases |errors|
  {
    if errors == [] || doc.row.None? || doc.row.value.resend != Reextract then doc
    else Reextracted(RecordOutcome(doc, file, Failed(errors[0]), true, digest, ReextractQueue, cfg).doc, file, digest, errors[1..], cfg)
  }

  /** Nothing but the place in the queue and the stamp differs. */
  predicate OnlyQueued(doc: Doc, after: Doc)
    requires doc.row.Some?
  {
    && after.row.Some? && after.note == doc.note && after.retries == doc.retries
    && after.row.value.file == doc.row.value.file && after.row.value.fields == doc.row.value.fields
    && after.row.value.textSha == doc.row.value.textSha
  }

  lemma OneReextraction(doc: Doc, file: Fingerprint, digest: Option<string>, error: string, cfg: Settings)
    requires doc.row.Some? && doc.row.value.resend == Reextract && doc.row.value.resendAttempts < 3
    ensures var after := RecordOutcome(doc, file, Failed(error), true, digest, ReextractQueue, cfg).doc;
            && OnlyQueued(doc, after)
            && (|| after.row.value.resend == NotQueued
                || (after.row.value.resend == Reextract && after.row.value.resendAttempts == doc.row.value.resendAttempts + 1 < 3))
  {
  }

  /**
    Failed re-extractions take a document out of their queue after at most three, and change neither
    its fingerprint, nor its fields, note, retries or the hash of what Knovas holds.
   */
  lemma {:induction false} ReextractionsAreBounded(doc: Doc, file: Fingerprint, digest: Option<string>, errors: seq<string>, cfg: Settings)
    requires doc.row.Some? && doc.row.value.resend == Reextract && doc.row.value.resendAttempts < 3
    ensures var end := Reextracted(doc, file, digest, errors, cfg);
            && OnlyQueued(doc, end)
            && (|errors| >= 3 - doc.row.value.resendAttempts ==> end.row.value.resend == NotQueued)
    decreases |errors|
  {
    if errors != [] {
      var after := RecordOutcome(doc, file, Failed(errors[0]), true, digest, ReextractQueue, cfg).doc;
      OneReextraction(doc, file, digest, errors[0], cfg);
      if after.row.value.resend == Reextract {
        ReextractionsAreBounded(after, file, digest, errors[1..], cfg);
      }
    }
  }
}
