/**
  The sync state (`sync_state.py` over `sync_state_db.py`): what is recorded for
  each document. Three tables and a fingerprint cache; every method changes one
  path, and is specified by a function on that path's `Doc`.
 */
module SyncState {
  import opened Prelude

  /** Stored in place of a digest so that the document comes back for its fields. */
  const REQUEUE_DIGEST: string := "requeue"

  datatype Fingerprint = Fingerprint(mtime: string, size: nat)

  /** What became of an upload's fields. */
  datatype FieldsResult =
    | Staged | Cleared | NotAccepted | NothingSent
    | Refused(code: string)
    | ReuploadFailed(kind: string)

  datatype Fields = Fields(digest: Option<string>, sent: bool, outcome: Option<FieldsResult>, attempts: nat)

  /** `None` for `digest` or `sent` keeps the stored value. */
  datatype FieldsRecord = FieldsRecord(digest: Option<string>, outcome: FieldsResult, sent: Option<bool>, countAttempt: bool)

  datatype Resend = NotQueued | Reextract | Kept

  datatype Row = Row(
    file: Fingerprint, key: string, fields: Fields,
    stamp: Option<string>, textSha: Option<string>, resend: Resend, resendAttempts: nat)

  /** A partial note: OCR page counts, a reason, and the backfill runs that did not help. */
  datatype Note = Note(skipped: Option<nat>, failed: Option<nat>, reason: string, backfillUnchanged: nat)

  datatype Doc = Doc(row: Option<Row>, note: Option<Note>, retries: nat)

  const NO_FIELDS := Fields(None, false, None, 0)

  // ----- what each recording does to a document -----------------------------------

  function Upserted(row: Option<Row>, file: Fingerprint, key: string): Row {
    match row
    case Some(r) => r.(file := file, key := key)
    case None => Row(file, key, NO_FIELDS, None, None, NotQueued, 0)
  }

  function Written(fields: Fields, record: FieldsRecord): Fields {
    Fields(
      if record.digest.Some? then record.digest else fields.digest,
      if record.sent.Some? then record.sent.value else fields.sent,
      Some(record.outcome),
      if record.countAttempt then fields.attempts + 1 else 0)
  }

  function WrittenIf(row: Row, record: Option<FieldsRecord>): Row {
    if record.Some? then row.(fields := Written(row.fields, record.value)) else row
  }

  function UploadRecorded(doc: Doc, file: Fingerprint, key: string, record: Option<FieldsRecord>): Doc {
    Doc(Some(WrittenIf(Upserted(doc.row, file, key), record)), None, 0)
  }

  function PartialRecorded(doc: Doc, file: Fingerprint, key: string, note: Note, record: Option<FieldsRecord>): Doc {
    Doc(Some(WrittenIf(Upserted(doc.row, file, key), record)), Some(note), 0)
  }

  function FieldsUpdated(doc: Doc, record: FieldsRecord): Doc {
    match doc.row
    case None => doc
    case Some(r) => doc.(row := Some(r.(fields := Written(r.fields, record))))
  }

  function AttemptCounted(doc: Doc): Doc {
    match doc.row
    case None => doc
    case Some(r) => doc.(row := Some(r.(fields := r.fields.(attempts := r.fields.attempts + 1))))
  }

  function Attempts(doc: Doc): nat { if doc.row.Some? then doc.row.value.fields.attempts else 0 }

  function ExtractionSet(doc: Doc, stamp: string, sha: Option<string>): Doc {
    match doc.row
    case None => doc
    case Some(r) => doc.(row := Some(r.(stamp := Some(stamp), textSha := sha, resend := NotQueued, resendAttempts := 0)))
  }

  function StampSet(doc: Doc, stamp: string): Doc {
    match doc.row
    case None => doc
    case Some(r) => doc.(row := Some(r.(stamp := Some(stamp), resend := NotQueued, resendAttempts := 0)))
  }

  /** The note follows the new extraction, but keeps the backfill's mark. */
  function UnchangedNote(stored: Option<Note>, partial: Option<Note>): Option<Note> {
    match partial
    case None => None
    case Some(note) =>
      if stored.Some? && stored.value.backfillUnchanged > 0 then
        Some(note.(backfillUnchanged := stored.value.backfillUnchanged))
      else partial
  }

  function ReextractUnchanged(doc: Doc, stamp: string, partial: Option<Note>): Doc {
    StampSet(doc, stamp).(note := UnchangedNote(doc.note, partial))
  }

  function ReextractKept(doc: Doc, stamp: string): Doc {
    match doc.row
    case None => doc
    case Some(r) => doc.(row := Some(r.(stamp := Some(stamp), resend := Kept, resendAttempts := 0)))
  }

  function ReextractFailed(doc: Doc, maxAttempts: nat): Doc {
    match doc.row
    case None => doc
    case Some(r) =>
      if r.resend != Reextract then doc
      else if r.resendAttempts + 1 >= maxAttempts then doc.(row := Some(r.(resend := NotQueued, resendAttempts := 0)))
      else doc.(row := Some(r.(resendAttempts := r.resendAttempts + 1)))
  }

  // ----- the store -----------------------------------------------------------------

  class SyncStateStore {
    var documents: map<string, Row>
    var partials: map<string, Note>
    var retries: map<string, nat>
    var fingerprints: Option<map<string, Fingerprint>>

    /** A cached fingerprint is the stored one. */
    ghost predicate Valid() reads this {
      fingerprints.Some? ==>
        forall p :: p in fingerprints.value ==> p in documents && documents[p].file == fingerprints.value[p]
    }

    ghost function At(path: string): (doc: Doc) reads this {
      Doc(if path in documents then Some(documents[path]) else None,
          if path in partials then Some(partials[path]) else None,
          if path in retries then retries[path] else 0)
    }

    /** Nothing but `path` changed. */
    twostate predicate OnlyAt(path: string) reads this {
      forall q :: q != path ==> At(q) == old(At(q))
    }

    constructor ()
      ensures Valid() && forall p :: At(p) == Doc(None, None, 0)
    {
      documents, partials, retries, fingerprints := map[], map[], map[], None;
    }

    /** The stored fingerprint, by way of the cache. */
    method LookupStored(path: string) returns (stored: Option<Fingerprint>)
      requires Valid()
      modifies this
      ensures Valid() && OnlyAt(path) && At(path) == old(At(path))
      ensures stored == if At(path).row.Some? then Some(At(path).row.value.file) else None
    {
      if fingerprints == None {
        fingerprints := Some(map p | p in documents :: documents[p].file);
      }
      if path in fingerprints.value {
        return Some(fingerprints.value[path]);
      }
      if path !in documents {
        return None;
      }
      stored := Some(documents[path].file);
      fingerprints := Some(fingerprints.value[path := documents[path].file]);
    }

    /** `SyncStateDatabase.record_upload`: an upsert that names its columns. */
    method StoreRow(path: string, file: Fingerprint, key: string, record: Option<FieldsRecord>)
      requires Valid()
      modifies this
      ensures Valid() && OnlyAt(path)
      ensures At(path) == old(At(path)).(row := Some(WrittenIf(Upserted(old(At(path)).row, file, key), record)))
    {
      var row := if path in documents then documents[path].(file := file, key := key)
                 else Row(file, key, NO_FIELDS, None, None, NotQueued, 0);
      if record.Some? {
        row := row.(fields := Written(row.fields, record.value));
      }
      documents := documents[path := row];
      if fingerprints.Some? {
        fingerprints := Some(fingerprints.value[path := file]);
      }
    }

    method ClearPartial(path: string)
      requires Valid()
      modifies this`partials
      ensures Valid() && OnlyAt(path) && At(path) == old(At(path)).(note := None)
    {
      partials := partials - {path};
    }

    method RecordUpload(path: string, file: Fingerprint, key: string, record: Option<FieldsRecord>)
      requires Valid()
      modifies this
      ensures Valid() && OnlyAt(path)
      ensures At(path) == UploadRecorded(old(At(path)), file, key, record)
    {
      StoreRow(path, file, key, record);
      ClearPartial(path);
      retries := retries - {path};
    }

    method RecordSkip(path: string, file: Fingerprint, reason: string, record: Option<FieldsRecord>)
      requires Valid()
      modifies this
      ensures Valid() && OnlyAt(path)
      ensures At(path) == UploadRecorded(old(At(path)), file, "skip:" + reason, record)
    {
      RecordUpload(path, file, "skip:" + reason, record);
    }

    method RecordPartial(path: string, file: Fingerprint, key: string, note: Note, record: Option<FieldsRecord>)
      requires Valid()
      modifies this
      ensures Valid() && OnlyAt(path)
      ensures At(path) == PartialRecorded(old(At(path)), file, key, note, record)
    {
      StoreRow(path, file, key, record);
      partials := partials[path := note];
      retries := retries - {path};
    }

    method IncrementRetryCount(path: string) returns (count: nat)
      requires Valid()
      modifies this`retries
      ensures Valid() && OnlyAt(path)
      ensures count == old(At(path)).retries + 1 && At(path) == old(At(path)).(retries := count)
    {
      count := (if path in retries then retries[path] else 0) + 1;
      retries := retries[path := count];
    }

    method UpdateFields(path: string, record: FieldsRecord)
      requires Valid()
      modifies this`documents
      ensures Valid() && OnlyAt(path) && At(path) == FieldsUpdated(old(At(path)), record)
    {
      if path in documents {
        var row := documents[path];
        documents := documents[path := row.(fields := Written(row.fields, record))];
      }
    }

    method IncrementFieldsAttempts(path: string) returns (attempts: nat)
      requires Valid()
      modifies this`documents
      ensures Valid() && OnlyAt(path) && At(path) == AttemptCounted(old(At(path)))
      ensures attempts == Attempts(At(path))
    {
      if path !in documents {
        return 0;
      }
      var row := documents[path];
      attempts := row.fields.attempts + 1;
      documents := documents[path := row.(fields := row.fields.(attempts := attempts))];
    }

    method SetExtraction(path: string, stamp: string, sha: Option<string>)
      requires Valid()
      modifies this`documents
      ensures Valid() && OnlyAt(path) && At(path) == ExtractionSet(old(At(path)), stamp, sha)
    {
      if path in documents {
        documents := documents[path := documents[path].(stamp := Some(stamp), textSha := sha, resend := NotQueued, resendAttempts := 0)];
      }
    }

    method SetExtractionStamp(path: string, stamp: string)
      requires Valid()
      modifies this`documents
      ensures Valid() && OnlyAt(path) && At(path) == StampSet(old(At(path)), stamp)
    {
      if path in documents {
        documents := documents[path := documents[path].(stamp := Some(stamp), resend := NotQueued, resendAttempts := 0)];
      }
    }

    method RecordReextractUnchanged(path: string, stamp: string, partial: Option<Note>)
      requires Valid()
      modifies this
      ensures Valid() && OnlyAt(path) && At(path) == ReextractUnchanged(old(At(path)), stamp, partial)
    {
      SetExtractionStamp(path, stamp);
      if partial.Some? {
        var note := partial.value;
        if path in partials && partials[path].backfillUnchanged > 0 {
          note := note.(backfillUnchanged := partials[path].backfillUnchanged);
        }
        partials := partials[path := note];
      } else {
        ClearPartial(path);
      }
    }

    method RecordReextractKept(path: string, stamp: string)
      requires Valid()
      modifies this`documents
      ensures Valid() && OnlyAt(path) && At(path) == ReextractKept(old(At(path)), stamp)
      ensures At(path).note == old(At(path)).note && At(path).retries == old(At(path)).retries
      ensures old(At(path)).row.Some? ==>
        var was, now := old(At(path)).row.value, At(path).row.value;
        && now.stamp == Some(stamp) && now.resend == Kept
        && now.file == was.file && now.key == was.key && now.fields == was.fields && now.textSha == was.textSha
    {
      if path in documents {
        documents := documents[path := documents[path].(stamp := Some(stamp), resend := Kept, resendAttempts := 0)];
      }
    }

    method CountReextractFailure(path: string, maxAttempts: nat)
      requires Valid()
      modifies this`documents
      ensures Valid() && OnlyAt(path) && At(path) == ReextractFailed(old(At(path)), maxAttempts)
      ensures At(path).note == old(At(path)).note && At(path).retries == old(At(path)).retries
      ensures old(At(path)).row.Some? ==>
        var was, now := old(At(path)).row.value, At(path).row.value;
        && now.file == was.file && now.fields == was.fields && now.textSha == was.textSha && now.stamp == was.stamp
        && (now.resend != was.resend <==> was.resend == Reextract && was.resendAttempts + 1 >= maxAttempts)
    {
      if path in documents && documents[path].resend == Reextract {
        var row := documents[path].(resendAttempts := documents[path].resendAttempts + 1);
        if row.resendAttempts >= maxAttempts {
          row := row.(resend := NotQueued, resendAttempts := 0);
        }
        documents := documents[path := row];
      }
    }
  }
}
