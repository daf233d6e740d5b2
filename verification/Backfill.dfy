/**
  The nightly backfill of partial documents (`scripts/backfill_partial_ocr.py`): which
  documents it sends again, what it records, and how often one document is billed.
 */
module Backfill {
  import opened Prelude
  import opened SyncState
  import opened Recording
  import opened Uploader

  const LEGACY_COMPLETE := "ocr_backend_none"

  /** `_unchanged`: still partial, with no fewer pages missing. */
  predicate Unchanged(before: Note, after: Option<Note>) {
    after.Some? && PagesMissing(Some(before)).Some? && PagesMissing(after).Some?
    && PagesMissing(after).value >= PagesMissing(Some(before)).value
  }

  /** A run without `--retry-unchanged` uploads this note's document. */
  predicate Selected(note: Option<Note>) {
    note.Some? && note.value.backfillUnchanged == 0 && note.value.reason != LEGACY_COMPLETE
  }

  /** The upload as it is recorded: one that left the document no better marks its note. */
  function Marked(before: Note, upload: Upload): Upload {
    if upload.Sent? && Unchanged(before, upload.partial) then
      Sent(upload.key, Some(upload.partial.value.(backfillUnchanged := before.backfillUnchanged + 1)),
           upload.fields, upload.stamp, upload.textSha)
    else upload
  }

  /** One document through one run of the script, given what its upload returns. */
  function AfterNight(doc: Doc, upload: Upload, file: Fingerprint, digest: Option<string>, cfg: Settings): Doc {
    if doc.note.None? || doc.note.value.backfillUnchanged > 0 then doc
    else if doc.note.value.reason == LEGACY_COMPLETE then doc.(note := None)
    else RecordOutcome(doc, file, Marked(doc.note.value, upload), true, digest, New, cfg).doc
  }

  function AfterNights(doc: Doc, nights: seq<Upload>, file: Fingerprint, digest: Option<string>, cfg: Settings): Doc
    decreases |nights|
  {
    if nights == [] then doc else AfterNights(AfterNight(doc, nights[0], file, digest, cfg), nights[1..], file, digest, cfg)
  }

  /** Uploads of the document, each of them billed. */
  function Billed(doc: Doc, nights: seq<Upload>, file: Fingerprint, digest: Option<string>, cfg: Settings): nat
    decreases |nights|
  {
    if nights == [] then 0
    else (if Selected(doc.note) then 1 else 0) + Billed(AfterNight(doc, nights[0], file, digest, cfg), nights[1..], file, digest, cfg)
  }

  /** A successful upload whose note, if it has one, carries page counts (the current rule's does). */
  predicate Fresh(upload: Upload) { upload.Sent? && upload.key != "" && PagesMissing(upload.partial).Some? }

  /** The note a night leaves: that of the upload, marked once when both were counted and no fewer pages are missing. */
  ghost predicate NoteAfter(before: Note, partial: Option<Note>, after: Option<Note>) {
    match partial
    case None => after == None
    case Some(note) =>
      var was, now := PagesMissing(Some(before)), PagesMissing(partial);
      after == Some(if was.Some? && now.Some? && now.value >= was.value then note.(backfillUnchanged := before.backfillUnchanged + 1) else note)
  }

  /**
    What a night does to a partial document: nothing to one left unchanged before; it drops the note of one that is
    complete after all, and sends no upload; any other is uploaded, and what the upload says is recorded.
   */
  lemma NightExactly(doc: Doc, night: Upload, file: Fingerprint, digest: Option<string>, cfg: Settings)
    requires doc.note.Some? && night.Sent? && night.key != ""
    ensures var note, after := doc.note.value, AfterNight(doc, night, file, digest, cfg);
            if note.backfillUnchanged > 0 then !Selected(doc.note) && after == doc
            else if note.reason == "ocr_backend_none" then !Selected(doc.note) && after == doc.(note := None)
            else Selected(doc.note) && NoteAfter(note, night.partial, after.note) && after.row.Some? && after.row.value.file == file
  {
  }

  /** A night clears the note, strictly lowers its count, or marks it so that later runs skip it. */
  lemma OneNight(doc: Doc, night: Upload, file: Fingerprint, digest: Option<string>, cfg: Settings)
    requires Selected(doc.note) && PagesMissing(doc.note).Some? && Fresh(night)
    ensures var after := AfterNight(doc, night, file, digest, cfg).note;
            || after.None?
            || (PagesMissing(after).Some? && after.value.backfillUnchanged > 0)
            || (PagesMissing(after).Some? && PagesMissing(after).value < PagesMissing(doc.note).value)
  {
  }

  lemma {:induction false} NothingToDo(doc: Doc, nights: seq<Upload>, file: Fingerprint, digest: Option<string>, cfg: Settings)
    requires doc.note.None? || doc.note.value.backfillUnchanged > 0
    ensures Billed(doc, nights, file, digest, cfg) == 0 && AfterNights(doc, nights, file, digest, cfg) == doc
    decreases |nights|
  {
    if nights != [] {
      NothingToDo(doc, nights[1..], file, digest, cfg);
    }
  }

  /** Over any number of nights a document is uploaded at most once more than the pages it lacked. */
  lemma {:induction false} BillingIsBounded(doc: Doc, nights: seq<Upload>, file: Fingerprint, digest: Option<string>, cfg: Settings)
    requires PagesMissing(doc.note).Some? && forall n :: n in nights ==> Fresh(n)
    ensures Billed(doc, nights, file, digest, cfg) <= PagesMissing(doc.note).value + 1
    decreases |nights|
  {
    if nights != [] {
      var after := AfterNight(doc, nights[0], file, digest, cfg);
      if !Selected(doc.note) {
        NothingToDo(after, nights[1..], file, digest, cfg);
      } else {
        assert nights[0] in nights;
        OneNight(doc, nights[0], file, digest, cfg);
        if after.note.None? || after.note.value.backfillUnchanged > 0 {
          NothingToDo(after, nights[1..], file, digest, cfg);
        } else {
          BillingIsBounded(after, nights[1..], file, digest, cfg);
        }
      }
    }
  }

  function Again(note: Note): Upload { Sent("k", Some(note), None, None, None) }

  /** The bound is exact: a document lacking pages that each night finds one fewer of is sent every night. */
  function Down(m: nat): seq<Upload> {
    [Again(Note(None, Some(m), "", 0))] + if m == 0 then [] else Down(m - 1)
  }

  lemma {:induction false} BoundIsReached(doc: Doc, m: nat, file: Fingerprint, cfg: Settings)
    requires doc.note == Some(Note(None, Some(m), "", 0))
    ensures m > 0 ==> Billed(doc, Down(m - 1) + Down(0), file, None, cfg) == m + 1
    ensures m == 0 ==> Billed(doc, Down(0), file, None, cfg) == 1
    decreases m
  {
    if m > 0 {
      var nights := Down(m - 1) + Down(0);
      var after := AfterNight(doc, nights[0], file, None, cfg);
      assert after.note == Some(Note(None, Some(m - 1), "", 0));
      BoundIsReached(after, m - 1, file, cfg);
      if m == 1 {
        assert nights[1..] == Down(0);
      } else {
        assert nights[1..] == Down(m - 2) + Down(0);
      }
    }
  }

  /** An upload recorded as it came: sent, with no mark and no reason of its own. */
  predicate Plain(upload: Upload) {
    && upload.Sent? && upload.key != ""
    && (upload.partial.Some? ==> upload.partial.value.backfillUnchanged == 0 && upload.partial.value.reason != LEGACY_COMPLETE)
  }

  /** A night leaves the document to the next one exactly when it is still partial and nothing shows that it got no better. */
  lemma StaysSelectedExactly(doc: Doc, night: Upload, file: Fingerprint, digest: Option<string>, cfg: Settings)
    requires Selected(doc.note) && Plain(night)
    ensures Selected(AfterNight(doc, night, file, digest, cfg).note)
       <==> night.partial.Some? && (|| PagesMissing(doc.note).None? || PagesMissing(night.partial).None?
                                    || PagesMissing(night.partial).value < PagesMissing(doc.note).value)
  {
  }

  /** When the uploads of the nights carry no counts every one of them is billed. */
  lemma {:induction false} UncountedIsBilledEveryNight(doc: Doc, nights: seq<Upload>, file: Fingerprint, digest: Option<string>, cfg: Settings)
    requires Selected(doc.note)
    requires forall n :: n in nights ==> Plain(n) && n.partial.Some? && PagesMissing(n.partial).None?
    ensures Billed(doc, nights, file, digest, cfg) == |nights|
    decreases |nights|
  {
    if nights != [] {
      assert nights[0] in nights;
      StaysSelectedExactly(doc, nights[0], file, digest, cfg);
      UncountedIsBilledEveryNight(AfterNight(doc, nights[0], file, digest, cfg), nights[1..], file, digest, cfg);
    }
  }

  // ----- a run over the store ------------------------------------------------------

  /** The documents of a run: those an earlier one did not leave unchanged, at most `limit` of them (0: all). */
  function Waiting(paths: seq<string>, notes: map<string, Note>): seq<string> {
    if paths == [] then []
    else if paths[0] in notes && notes[paths[0]].backfillUnchanged > 0 then Waiting(paths[1..], notes)
    else [paths[0]] + Waiting(paths[1..], notes)
  }

  function Chosen(paths: seq<string>, notes: map<string, Note>, limit: nat): seq<string> {
    var waiting := Waiting(paths, notes);
    if 0 < limit < |waiting| then waiting[..limit] else waiting
  }

  lemma {:induction false} WaitingExact(paths: seq<string>, notes: map<string, Note>)
    requires Distinct(paths)
    ensures forall p :: p in Waiting(paths, notes) <==> p in paths && !(p in notes && notes[p].backfillUnchanged > 0)
    ensures Distinct(Waiting(paths, notes))
  {
    if paths != [] {
      assert Distinct(paths[1..]);
      WaitingExact(paths[1..], notes);
      assert paths == [paths[0]] + paths[1..];
      var rest := Waiting(paths[1..], notes);
      assert paths[0] !in paths[1..];
      assert forall i :: 0 <= i < |rest| ==> rest[i] in rest;
    }
  }

  ghost predicate Distinct(s: seq<string>) { forall i, j :: 0 <= i < j < |s| ==> s[i] != s[j] }

  /** What the night found on the share and the server for one document; None when its file was not located. */
  datatype Attempt = Attempt(upload: Upload, file: Fingerprint, digest: Option<string>)

  function AfterAttempt(doc: Doc, attempt: Option<Attempt>, cfg: Settings): Doc {
    match attempt
    case Some(a) => AfterNight(doc, a.upload, a.file, a.digest, cfg)
    case None => if doc.note.Some? && doc.note.value.reason == LEGACY_COMPLETE then doc.(note := None) else doc
  }

  /** A document whose file is not there any more is left as it is, unless it is complete after all. */
  lemma NotLocated(doc: Doc, cfg: Settings)
    ensures AfterAttempt(doc, None, cfg)
         == if doc.note.Some? && doc.note.value.reason == "ocr_backend_none" then doc.(note := None) else doc
  {
  }

  /** The documents of a list that are sent: their file was located and they are not done with already. */
  function SentOf(list: seq<string>, notes: map<string, Note>, attempts: string -> Option<Attempt>): set<string> {
    set p | p in list && p in notes && notes[p].reason != LEGACY_COMPLETE && attempts(p).Some?
  }

  lemma SentOfMore(list: seq<string>, p: string, notes: map<string, Note>, attempts: string -> Option<Attempt>)
    requires p !in list && p in notes
    ensures |SentOf(list + [p], notes, attempts)|
         == |SentOf(list, notes, attempts)| + if notes[p].reason != LEGACY_COMPLETE && attempts(p).Some? then 1 else 0
  {
    var sent, more := SentOf(list, notes, attempts), SentOf(list + [p], notes, attempts);
    assert more == if notes[p].reason != LEGACY_COMPLETE && attempts(p).Some? then sent + {p} else sent;
  }

  /** One document of the list. */
  method BackfillOne(state: SyncStateStore, path: string, attempt: Option<Attempt>, cfg: Settings) returns (billed: bool)
    requires state.Valid() && path in state.partials
    modifies state
    ensures state.Valid() && state.OnlyAt(path)
    ensures billed <==> attempt.Some? && old(state.At(path)).note.value.reason != LEGACY_COMPLETE
    ensures old(state.At(path)).note.value.backfillUnchanged == 0 ==>
      state.At(path) == AfterAttempt(old(state.At(path)), attempt, cfg)
  {
    var note := state.partials[path];
    if note.reason == LEGACY_COMPLETE {
      state.ClearPartial(path);
      return false;
    }
    if attempt.None? {
      return false;
    }
    var upload := Marked(note, attempt.value.upload);
    var outcome := RecordUploadOutcome(state, path, attempt.value.file, upload, true, attempt.value.digest, New, cfg);
    return true;
  }

  lemma ChosenExact(paths: seq<string>, notes: map<string, Note>, limit: nat)
    requires Distinct(paths) && forall p :: p in paths ==> p in notes
    ensures var waiting, chosen := Waiting(paths, notes), Chosen(paths, notes, limit);
            && Distinct(chosen) && chosen <= waiting
            && |chosen| == (if limit == 0 then |waiting| else Min(limit, |waiting|))
            && forall p :: p in chosen ==> p in notes && notes[p].backfillUnchanged == 0
  {
    WaitingExact(paths, notes);
    var waiting, chosen := Waiting(paths, notes), Chosen(paths, notes, limit);
    assert forall i :: 0 <= i < |chosen| ==> chosen[i] == waiting[i] && waiting[i] in waiting;
  }

  method BackfillList(state: SyncStateStore, chosen: seq<string>, attempts: string -> Option<Attempt>, cfg: Settings)
    returns (billed: nat)
    requires state.Valid() && Distinct(chosen)
    requires forall p :: p in chosen ==> p in state.partials && state.partials[p].backfillUnchanged == 0
    modifies state
    ensures state.Valid() && billed == |SentOf(chosen, old(state.partials), attempts)| <= |chosen|
    ensures forall p :: p !in chosen ==> state.At(p) == old(state.At(p))
    ensures forall p :: p in chosen ==> state.At(p) == AfterAttempt(old(state.At(p)), attempts(p), cfg)
  {
    billed := 0;
    for i := 0 to |chosen|
      invariant state.Valid() && billed == |SentOf(chosen[..i], old(state.partials), attempts)| <= i
      invariant forall p :: p !in chosen ==> state.At(p) == old(state.At(p))
      invariant forall k :: i <= k < |chosen| ==> state.At(chosen[k]) == old(state.At(chosen[k]))
      invariant forall k :: 0 <= k < i ==> state.At(chosen[k]) == AfterAttempt(old(state.At(chosen[k])), attempts(chosen[k]), cfg)
    {
      assert state.At(chosen[i]) == old(state.At(chosen[i]));
      var one := BackfillOne(state, chosen[i], attempts(chosen[i]), cfg);
      if one {
        billed := billed + 1;
      }
      assert chosen[..i + 1] == chosen[..i] + [chosen[i]];
      SentOfMore(chosen[..i], chosen[i], old(state.partials), attempts);
    }
    assert chosen[..|chosen|] == chosen;
  }

  /** `main` without `--retry-unchanged`: the chosen documents, one after another, and no other path. */
  method BackfillRun(state: SyncStateStore, paths: seq<string>, limit: nat, attempts: string -> Option<Attempt>, cfg: Settings)
    returns (billed: nat)
    requires state.Valid() && Distinct(paths) && forall p :: p in paths <==> p in state.partials
    modifies state
    ensures state.Valid() && (limit > 0 ==> billed <= limit)
    ensures var waiting, chosen := Waiting(paths, old(state.partials)), Chosen(paths, old(state.partials), limit);
            chosen <= waiting && |chosen| == (if limit == 0 then |waiting| else Min(limit, |waiting|))
    ensures billed == |SentOf(Chosen(paths, old(state.partials), limit), old(state.partials), attempts)|
    ensures forall p :: p !in Chosen(paths, old(state.partials), limit) ==> state.At(p) == old(state.At(p))
    ensures forall p :: p in Chosen(paths, old(state.partials), limit) ==>
      state.At(p) == AfterAttempt(old(state.At(p)), attempts(p), cfg)
  {
    ChosenExact(paths, state.partials, limit);
    billed := BackfillList(state, Chosen(paths, state.partials, limit), attempts, cfg);
  }
}
