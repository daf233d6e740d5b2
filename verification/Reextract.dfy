/**
  Re-extractions over many cycles: what Knovas holds never gets worse
  (`knovas_uploader.py`, the `kept` and `unchanged` results; `sync_executor.py`, the
  re-extraction queue), and exactly when the record is wrong about the fields it holds.
  Knovas is a ghost: a failed upload leaves its text in place.
 */
module Reextract {
  import opened Prelude
  import opened SyncState
  import opened Recording
  import opened Uploader

  /**
    What Knovas holds of a document: parts, title and description of the last upload, the field values it took
    last, and the OCR pages the text lacked when it was sent, if that was counted.
   */
  datatype Held = Held(last: Carried, fields: Option<FieldValues>, missing: Option<nat>)

  datatype World = World(doc: Doc, held: Held)

  /** One cycle's re-extraction: what was extracted, the server's answers, and the text of an error. */
  datatype Attempt =
    | Attempt(extraction: Extraction, fieldsOn: bool, server: Server, error: string)
    | Requeue        // an administrator queues outdated documents

  /** The extraction says how many pages are missing, if any are. */
  predicate Counted(attempt: Attempt) {
    attempt.Attempt? && attempt.extraction.Extracted? ==> PagesMissing(attempt.extraction.partial).Some?
  }

  /** The upload's answer, as `UploadFile` gives it. */
  function Answer(attempt: Attempt, decision: Decision, stamp: string, sha: string): Upload
    requires attempt.Attempt? && attempt.extraction.Extracted?
  {
    match decision
    case Keep => KeptText(Some(stamp))
    case SameText => UnchangedText(attempt.extraction.partial, Some(stamp))
    case Send =>
      SendResult(attempt.extraction.carried, attempt.extraction.partial, attempt.fieldsOn, attempt.server, stamp, sha, attempt.error)
  }

  /** The values Knovas has after an upload: only a staged or cleared answer changes them. */
  function FieldsAfter(before: Option<FieldValues>, asked: Option<FieldValues>, answer: Option<FieldsResult>): Option<FieldValues> {
    if answer == Some(Staged) then asked else if answer == Some(Cleared) then None else before
  }

  /** The stored hash; an empty one is none. */
  function HeldSha(row: Row): Option<string> { if row.textSha == Some("") then None else row.textSha }

  function Requeued(doc: Doc, stamp: string): Doc {
    match doc.row
    case None => doc
    case Some(r) =>
      if r.stamp != Some(stamp) && r.resend != SyncState.Reextract then
        doc.(row := Some(r.(resend := SyncState.Reextract, resendAttempts := 0)))
      else doc
  }

  /** Queueing outdated documents: what is queued already, or up to date, stays as it is; so does everything else. */
  lemma RequeuedExactly(doc: Doc, stamp: string)
    requires doc.row.Some?
    ensures var row := doc.row.value;
            Requeued(doc, stamp).row == Some(if row.resend == SyncState.Reextract || row.stamp == Some(stamp) then row
                                             else row.(resend := SyncState.Reextract, resendAttempts := 0))
    ensures Requeued(doc, stamp).note == doc.note && Requeued(doc, stamp).retries == doc.retries
  {
  }

  /** One step: a queued document is extracted again, sent or not, and the outcome recorded. */
  function Step(w: World, attempt: Attempt, file: Fingerprint, digest: Option<string>, hash: Carried -> string, cfg: Settings): World {
    if attempt.Requeue? then w.(doc := Requeued(w.doc, cfg.stamp))
    else if w.doc.row.None? || w.doc.row.value.resend != SyncState.Reextract then w
    else match attempt.extraction
      case ExtractError(error) =>
        w.(doc := RecordOutcome(w.doc, file, Failed(error), true, digest, ReextractQueue, cfg).doc)
      case Extracted(carried, partial) =>
        var decision := Decide(carried, partial, PagesMissing(w.doc.note), HeldSha(w.doc.row.value), hash);
        var doc := RecordOutcome(w.doc, file, Answer(attempt, decision, cfg.stamp, hash(carried)), true, digest, ReextractQueue, cfg).doc;
        World(doc,
              if decision == Send && Delivered(carried, attempt.server) then
                Held(carried, FieldsAfter(w.held.fields, carried.fields, FieldsAnswer(carried, attempt.fieldsOn, attempt.server)),
                     PagesMissing(partial))
              else w.held)
  }

  function Run(w: World, attempts: seq<Attempt>, file: Fingerprint, digest: Option<string>, hash: Carried -> string, cfg: Settings): World {
    if attempts == [] then w
    else Step(Run(w, attempts[..|attempts| - 1], file, digest, hash, cfg), attempts[|attempts| - 1], file, digest, hash, cfg)
  }

  /** The record describes what Knovas holds: no fewer pages lacking there than noted, and its hash. */
  predicate Describes(w: World, hash: Carried -> string) {
    && w.doc.row.Some? && PagesMissing(w.doc.note).Some?
    && w.held.missing.Some? && PagesMissing(w.doc.note).value <= w.held.missing.value
    && (w.doc.row.value.textSha.Some? ==> w.doc.row.value.textSha.value == hash(w.held.last))
  }

  lemma FailureEffect(doc: Doc, file: Fingerprint, failure: FailureKind, failureClass: string, digest: Option<string>, cfg: Settings)
    requires doc.row.Some?
    ensures var after := RecordFailure(doc, file, failure, failureClass, digest, ReextractQueue, cfg).doc;
            after.row.Some? && after.note == doc.note && after.row.value.textSha == doc.row.value.textSha
  {
  }

  lemma SentEffect(doc: Doc, file: Fingerprint, upload: Upload, digest: Option<string>, cfg: Settings)
    requires upload.Sent? && upload.key != "" && upload.stamp.Some?
    ensures var after := RecordSent(doc, file, upload, true, digest, cfg).doc;
            after.row.Some? && after.note == upload.partial && after.row.value.textSha == upload.textSha
  {
  }

  lemma StepKeeps(w: World, attempt: Attempt, file: Fingerprint, digest: Option<string>, hash: Carried -> string, cfg: Settings)
    requires Describes(w, hash) && Counted(attempt)
    ensures var next := Step(w, attempt, file, digest, hash, cfg);
            && Describes(next, hash) && next.held.missing.value <= w.held.missing.value
            && PagesMissing(next.doc.note).value <= PagesMissing(w.doc.note).value
  {
    if attempt.Attempt? && w.doc.row.value.resend == SyncState.Reextract {
      match attempt.extraction {
        case ExtractError(error) =>
          FailureEffect(w.doc, file, KindOf(error), FailureClass(error), digest, cfg);
        case Extracted(carried, partial) =>
          SentOrNotKeeps(w, attempt, file, digest, hash, cfg);
      }
    }
  }

  lemma SentOrNotKeeps(w: World, attempt: Attempt, file: Fingerprint, digest: Option<string>, hash: Carried -> string, cfg: Settings)
    requires Describes(w, hash) && Counted(attempt)
    requires attempt.Attempt? && attempt.extraction.Extracted? && w.doc.row.value.resend == SyncState.Reextract
    ensures var next := Step(w, attempt, file, digest, hash, cfg);
            && Describes(next, hash) && next.held.missing.value <= w.held.missing.value
            && PagesMissing(next.doc.note).value <= PagesMissing(w.doc.note).value
  {
    var carried, partial := attempt.extraction.carried, attempt.extraction.partial;
    var decision := Decide(carried, partial, PagesMissing(w.doc.note), HeldSha(w.doc.row.value), hash);
    var answer := Answer(attempt, decision, cfg.stamp, hash(carried));
    match decision {
      case Keep =>
      case SameText => assert PagesMissing(UnchangedNote(w.doc.note, partial)) == PagesMissing(partial);
      case Send =>
        if Delivered(carried, attempt.server) {
          SentEffect(w.doc, file, answer, digest, cfg);
        } else {
          FailureEffect(w.doc, file, KindOf(attempt.error), FailureClass(attempt.error), digest, cfg);
        }
    }
  }

  /**
    Over every run of re-extractions that count their missing pages, failed and successful, the pages
    missing in Knovas's text never grow, and neither does what the state records of them.
   */
  lemma {:induction false} NeverWorse(w: World, attempts: seq<Attempt>, file: Fingerprint, digest: Option<string>,
                                      hash: Carried -> string, cfg: Settings)
    requires Describes(w, hash) && forall a :: a in attempts ==> Counted(a)
    ensures var end := Run(w, attempts, file, digest, hash, cfg);
            && Describes(end, hash) && end.held.missing.value <= w.held.missing.value
            && PagesMissing(end.doc.note).value <= PagesMissing(w.doc.note).value
    decreases |attempts|
  {
    if attempts != [] {
      var init := attempts[..|attempts| - 1];
      assert forall a :: a in init ==> a in attempts;
      NeverWorse(w, init, file, digest, hash, cfg);
      assert attempts[|attempts| - 1] in attempts;
      StepKeeps(Run(w, init, file, digest, hash, cfg), attempts[|attempts| - 1], file, digest, hash, cfg);
    }
  }

  ghost predicate Injective(hash: Carried -> string) {
    forall a, b :: hash(a) == hash(b) ==> a == b
  }

  /** A re-extraction at `w` would be found unchanged. */
  predicate FoundUnchanged(w: World, extraction: Extraction, hash: Carried -> string) {
    && extraction.Extracted? && w.doc.row.Some?
    && Decide(extraction.carried, extraction.partial, PagesMissing(w.doc.note), HeldSha(w.doc.row.value), hash) == SameText
  }

  /** At every point of a run, a re-extraction found unchanged is, to the part, what the last upload brought. */
  lemma UnchangedIsTheSame(w: World, attempts: seq<Attempt>, next: Extraction, file: Fingerprint, digest: Option<string>,
                           hash: Carried -> string, cfg: Settings)
    requires Describes(w, hash) && Injective(hash) && forall a :: a in attempts ==> Counted(a)
    requires FoundUnchanged(Run(w, attempts, file, digest, hash, cfg), next, hash)
    ensures next.carried == Run(w, attempts, file, digest, hash, cfg).held.last
  {
    NeverWorse(w, attempts, file, digest, hash, cfg);
  }

  // ----- when the text at Knovas changes, and when for the worse ---------------------------

  /** A queued document's extraction is sent and reaches Knovas. */
  predicate Arrives(w: World, attempt: Attempt, hash: Carried -> string) {
    && attempt.Attempt? && attempt.extraction.Extracted? && Delivered(attempt.extraction.carried, attempt.server)
    && w.doc.row.Some? && w.doc.row.value.resend == SyncState.Reextract
    && HeldSha(w.doc.row.value) != Some(hash(attempt.extraction.carried))
    && !(PagesMissing(attempt.extraction.partial).Some? && PagesMissing(w.doc.note).Some?
         && PagesMissing(attempt.extraction.partial).value > PagesMissing(w.doc.note).value)
  }

  /** The server took the upload's fields: its first init was accepted, with an echo. */
  predicate Took(attempt: Attempt)
    requires attempt.Attempt? && attempt.extraction.Extracted?
  {
    attempt.fieldsOn && attempt.extraction.carried.fields.Some? && Accepted(attempt.server.init) && attempt.server.init.echo
  }

  /**
    What Knovas holds afterwards: the new text exactly when it differs and is not known to lack more pages, and
    its field values, or none after a clear, exactly when the first init was accepted and echoed them.
   */
  lemma HeldAfterStep(w: World, attempt: Attempt, file: Fingerprint, digest: Option<string>, hash: Carried -> string, cfg: Settings)
    ensures var next := Step(w, attempt, file, digest, hash, cfg).held;
            if Arrives(w, attempt, hash) then
              var fields := attempt.extraction.carried.fields;
              && next.last == attempt.extraction.carried && next.missing == PagesMissing(attempt.extraction.partial)
              && next.fields == if Took(attempt) then (if fields.value.empty then None else fields) else w.held.fields
            else next == w.held
  {
  }

  /** A step that brings nothing to Knovas counts: the document is released after three of them, or by a verdict. */
  lemma FailureCounts(w: World, attempt: Attempt, file: Fingerprint, digest: Option<string>, hash: Carried -> string, cfg: Settings)
    requires attempt.Attempt? && w.doc.row.Some? && w.doc.row.value.resend == SyncState.Reextract
    requires attempt.extraction.ExtractError? && !KindOf(attempt.extraction.error).Unconvertible?
    ensures var row, after := w.doc.row.value, Step(w, attempt, file, digest, hash, cfg).doc;
            after == w.doc.(row := Some(if row.resendAttempts < 2 then row.(resendAttempts := row.resendAttempts + 1)
                                        else row.(resend := NotQueued, resendAttempts := 0)))
  {
  }

  /** The text gets worse: more pages missing, or nobody knows how many. */
  predicate Worse(before: Held, after: Held) {
    before.missing.Some? && (after.missing.None? || after.missing.value > before.missing.value)
  }

  /**
    A step makes the text at Knovas worse exactly when an extraction with another text lands whose pages are
    not counted, or are more than Knovas's text lacks while the record does not say how many that is.
   */
  lemma WorseExactly(w: World, attempt: Attempt, file: Fingerprint, digest: Option<string>, hash: Carried -> string, cfg: Settings)
    requires w.held.missing.Some?
    requires PagesMissing(w.doc.note).Some? ==> PagesMissing(w.doc.note).value <= w.held.missing.value
    ensures Worse(w.held, Step(w, attempt, file, digest, hash, cfg).held)
       <==> && Arrives(w, attempt, hash)
            && var missing := PagesMissing(attempt.extraction.partial);
               missing.None? || (PagesMissing(w.doc.note).None? && missing.value > w.held.missing.value)
  {
    HeldAfterStep(w, attempt, file, digest, hash, cfg);
  }

  // ----- the fields behind an unchanged text ------------------------------------------------

  /** Knovas has what an upload's `fields` ask for: these values, or none; without the key nothing is asked. */
  predicate HasFields(held: Option<FieldValues>, asked: Option<FieldValues>) {
    asked.None? || held == if asked.value.empty then None else asked
  }

  /** Attempt `j` of a run brings nothing to Knovas. */
  predicate Quiet(w: World, attempts: seq<Attempt>, j: nat, file: Fingerprint, digest: Option<string>, hash: Carried -> string, cfg: Settings)
    requires j < |attempts|
  {
    !Arrives(Run(w, attempts[..j], file, digest, hash, cfg), attempts[j], hash)
  }

  lemma {:induction false} NothingArrived(w: World, attempts: seq<Attempt>, k: nat, file: Fingerprint, digest: Option<string>,
                                          hash: Carried -> string, cfg: Settings)
    requires k <= |attempts| && forall j :: k <= j < |attempts| ==> Quiet(w, attempts, j, file, digest, hash, cfg)
    ensures Run(w, attempts, file, digest, hash, cfg).held == Run(w, attempts[..k], file, digest, hash, cfg).held
    decreases |attempts|
  {
    if k == |attempts| {
      assert attempts[..k] == attempts;
    } else {
      var n := |attempts| - 1;
      var init := attempts[..n];
      forall j | k <= j < n ensures Quiet(w, init, j, file, digest, hash, cfg) {
        assert init[..j] == attempts[..j] && Quiet(w, attempts, j, file, digest, hash, cfg);
      }
      assert Quiet(w, attempts, n, file, digest, hash, cfg);
      NothingArrived(w, init, k, file, digest, hash, cfg);
      assert init[..k] == attempts[..k];
      HeldAfterStep(Run(w, init, file, digest, hash, cfg), attempts[n], file, digest, hash, cfg);
    }
  }

  /**
    The hash also covers the fields, whatever the server said of them. An unchanged re-extraction finds its fields
    at Knovas if and only if the last upload that arrived had them taken, or Knovas had them before it.
   */
  lemma UnchangedFieldsExactly(w: World, attempts: seq<Attempt>, k: nat, next: Extraction, file: Fingerprint, digest: Option<string>,
                               hash: Carried -> string, cfg: Settings)
    requires Describes(w, hash) && Injective(hash) && forall a :: a in attempts ==> Counted(a)
    requires k < |attempts| && Arrives(Run(w, attempts[..k], file, digest, hash, cfg), attempts[k], hash)
    requires forall j :: k < j < |attempts| ==> Quiet(w, attempts, j, file, digest, hash, cfg)
    requires FoundUnchanged(Run(w, attempts, file, digest, hash, cfg), next, hash)
    ensures HasFields(Run(w, attempts, file, digest, hash, cfg).held.fields, next.carried.fields)
       <==> Took(attempts[k]) || HasFields(Run(w, attempts[..k], file, digest, hash, cfg).held.fields, attempts[k].extraction.carried.fields)
  {
    UnchangedIsTheSame(w, attempts, next, file, digest, hash, cfg);
    NothingArrived(w, attempts, k + 1, file, digest, hash, cfg);
    assert attempts[..k + 1][..k] == attempts[..k];
    HeldAfterStep(Run(w, attempts[..k], file, digest, hash, cfg), attempts[k], file, digest, hash, cfg);
  }

  /** Fields refused for good or ignored, and the same extraction again: unchanged, and Knovas still without them. */
  lemma RefusedThenUnchanged(w: World, attempt: Attempt, file: Fingerprint, digest: Option<string>, hash: Carried -> string, cfg: Settings)
    requires Arrives(w, attempt, hash) && !Took(attempt) && hash(attempt.extraction.carried) != ""
    requires !HasFields(w.held.fields, attempt.extraction.carried.fields)
    ensures var after := Step(w, attempt, file, digest, hash, cfg);
            FoundUnchanged(after, attempt.extraction, hash) && !HasFields(after.held.fields, attempt.extraction.carried.fields)
  {
    var carried := attempt.extraction.carried;
    HeldAfterStep(w, attempt, file, digest, hash, cfg);
    SentEffect(w.doc, file, Answer(attempt, Send, cfg.stamp, hash(carried)), digest, cfg);
  }

  /** Fields are carried only while they are on, and then the state records what became of them. */
  predicate FieldsRecorded(attempt: Attempt, digest: Option<string>) {
    attempt.Attempt? && attempt.extraction.Extracted? ==>
      attempt.extraction.carried.fields.Some? ==> attempt.fieldsOn && digest.Some?
  }

  /** The row tells that the fields of the last upload were taken, or that it had none. */
  predicate SaysTaken(row: Row) {
    row.fields.outcome in {Some(Staged), Some(Cleared), Some(NothingSent)}
  }

  predicate TellsTheTruth(w: World) {
    w.doc.row.Some? && (SaysTaken(w.doc.row.value) ==> HasFields(w.held.fields, w.held.last.fields))
  }

  lemma SentOutcome(doc: Doc, file: Fingerprint, upload: Upload, digest: Option<string>, cfg: Settings)
    requires upload.Sent? && upload.key != "" && upload.stamp.Some? && digest.Some?
    ensures var after := RecordSent(doc, file, upload, true, digest, cfg).doc;
            after.row.Some? && (SaysTaken(after.row.value) ==> upload.fields in {None, Some(Staged), Some(Cleared), Some(NothingSent)})
  {
  }

  lemma RowFieldsStay(w: World, attempt: Attempt, file: Fingerprint, digest: Option<string>, hash: Carried -> string, cfg: Settings)
    requires w.doc.row.Some? && !Arrives(w, attempt, hash)
    ensures var after := Step(w, attempt, file, digest, hash, cfg).doc;
            after.row.Some? && after.row.value.fields == w.doc.row.value.fields
  {
  }

  lemma StepTellsTheTruth(w: World, attempt: Attempt, file: Fingerprint, digest: Option<string>, hash: Carried -> string, cfg: Settings)
    requires TellsTheTruth(w) && FieldsRecorded(attempt, digest)
    ensures TellsTheTruth(Step(w, attempt, file, digest, hash, cfg))
  {
    HeldAfterStep(w, attempt, file, digest, hash, cfg);
    if Arrives(w, attempt, hash) {
      var upload := Answer(attempt, Send, cfg.stamp, hash(attempt.extraction.carried));
      SentEffect(w.doc, file, upload, digest, cfg);
      if digest.Some? {
        SentOutcome(w.doc, file, upload, digest, cfg);
      }
    } else {
      RowFieldsStay(w, attempt, file, digest, hash, cfg);
    }
  }

  /** Over every run the outcome column knows: where it says taken, an unchanged text has its fields at Knovas too. */
  lemma {:induction false} UnchangedAndSaidTaken(w: World, attempts: seq<Attempt>, file: Fingerprint, digest: Option<string>,
                                                 hash: Carried -> string, cfg: Settings)
    requires TellsTheTruth(w) && forall a :: a in attempts ==> FieldsRecorded(a, digest)
    ensures TellsTheTruth(Run(w, attempts, file, digest, hash, cfg))
    decreases |attempts|
  {
    if attempts != [] {
      var n := |attempts| - 1;
      assert forall a :: a in attempts[..n] ==> a in attempts;
      UnchangedAndSaidTaken(w, attempts[..n], file, digest, hash, cfg);
      assert attempts[n] in attempts;
      StepTellsTheTruth(Run(w, attempts[..n], file, digest, hash, cfg), attempts[n], file, digest, hash, cfg);
    }
  }
}
