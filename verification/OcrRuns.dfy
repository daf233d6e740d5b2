/** What holds of the OCR cache after any sequence of operations. */
module OcrRuns {
  import opened Prelude
  import opened OcrCache

  datatype Op =
    | Put(key: string, value: string, path: string, now: real)
    | Get(key: string, now: real)
    | Purge(path: string)

  function Next(s: Store, op: Op, cap: nat): Store {
    match op
    case Put(key, value, path, now) => AfterPut(s, key, value, path, now, cap)
    case Get(key, now) => AfterGet(s, key, now, cap)
    case Purge(path) => AfterPurge(s, path, cap)
  }

  function After(ops: seq<Op>, cap: nat): Store {
    if ops == [] then Store([], {}) else Next(After(ops[..|ops| - 1], cap), ops[|ops| - 1], cap)
  }

  // ----- the size cap ---------------------------------------------------------------------

  ghost predicate Fits(s: Store, cap: nat) { Sound(s) && Total(s.entries) <= cap }

  lemma {:induction false} InsertTotal(entry: Entry, s: seq<Entry>)
    ensures Total(Sorting.Insert(entry, s, Earlier)) == entry.size + Total(s)
  {
    if s != [] && !Earlier(entry, s[0]) {
      InsertTotal(entry, s[1..]);
    }
  }

  lemma {:induction false} WithoutTotal(entries: seq<Entry>, key: string)
    requires Ordered(entries)
    ensures Total(Without(entries, key)) + (if Lookup(entries, key).Some? then Lookup(entries, key).value.size else 0) == Total(entries)
  {
    if entries != [] {
      TailLinks(entries, {});
      if entries[0].key == key {
        NoSecond(entries, key);
      } else {
        WithoutTotal(entries[1..], key);
      }
    }
  }

  lemma {:induction false} AbsentStays(entries: seq<Entry>, key: string)
    requires !Has(entries, key)
    ensures Without(entries, key) == entries
  {
    if entries != [] {
      assert entries[0].key != key;
      assert forall i :: 0 <= i < |entries[1..]| ==> entries[1..][i] == entries[i + 1];
      AbsentStays(entries[1..], key);
    }
  }

  lemma NoSecond(entries: seq<Entry>, key: string)
    requires Ordered(entries) && entries != [] && entries[0].key == key
    ensures Without(entries, key) == entries[1..]
  {
    assert forall i :: 0 <= i < |entries[1..]| ==> entries[1..][i] == entries[i + 1];
    AbsentStays(entries[1..], key);
  }

  lemma {:induction false} UnheldTotal(entries: seq<Entry>, index: set<Link>, path: string)
    ensures Total(Unheld(entries, index, path)) <= Total(entries)
  {
    if entries != [] {
      UnheldTotal(entries[1..], index, path);
    }
  }

  lemma TailOrdered(entries: seq<Entry>, n: nat)
    requires Ordered(entries) && n <= |entries|
    ensures Ordered(entries[n..])
  {
    var tail := entries[n..];
    assert forall i :: 0 <= i < |tail| ==> tail[i] == entries[n + i];
  }

  lemma SoundAfterPut(s: Store, key: string, value: string, path: string, now: real, cap: nat)
    requires Sound(s)
    ensures Sound(AfterPut(s, key, value, path, now, cap))
    ensures Accepts(value, cap) ==> Total(AfterPut(s, key, value, path, now, cap).entries) <= cap
  {
    if Accepts(value, cap) {
      var stored := Stored(s.entries, Entry(key, value, Size(value), now));
      StoredExact(s.entries, Entry(key, value, Size(value), now));
      EvictedExact(stored, cap);
      TailOrdered(stored, |stored| - |Evicted(stored, cap)|);
    }
  }

  lemma NextFits(s: Store, op: Op, cap: nat)
    requires Fits(s, cap)
    ensures Fits(Next(s, op, cap), cap)
  {
    match op {
      case Put(key, value, path, now) => SoundAfterPut(s, key, value, path, now, cap);
      case Get(key, now) =>
        LookupExact(s.entries, key);
        if Has(s.entries, key) && cap > 0 {
          var e := Lookup(s.entries, key).value.(lastUsed := now);
          SoundAfterStore(s, e);
          WithoutTotal(s.entries, key);
          InsertTotal(e, Without(s.entries, key));
        }
      case Purge(path) =>
        SoundAfterPurge(s, path, cap);
        UnheldTotal(s.entries, s.index, path);
    }
  }

  /** After every run the stored bytes are within the cap and the index points at entries that are there. */
  lemma {:induction false} EveryRunFits(ops: seq<Op>, cap: nat)
    ensures Fits(After(ops, cap), cap)
    decreases |ops|
  {
    if ops != [] {
      EveryRunFits(ops[..|ops| - 1], cap);
      NextFits(After(ops[..|ops| - 1], cap), ops[|ops| - 1], cap);
    }
  }

  /** A cache without room stays empty, whatever is put. */
  lemma {:induction false} NoRoomNoEntries(ops: seq<Op>)
    ensures After(ops, 0) == Store([], {})
    decreases |ops|
  {
    if ops != [] {
      NoRoomNoEntries(ops[..|ops| - 1]);
    }
  }

  /** An entry put with the newest stamp survives its own eviction. */
  lemma NewestSurvives(s: Store, key: string, value: string, path: string, now: real, cap: nat)
    requires Sound(s) && cap > 0 && Size(value) <= cap
    requires forall e :: e in s.entries ==> Earlier(e, Entry(key, value, Size(value), now))
    ensures Entry(key, value, Size(value), now) in AfterPut(s, key, value, path, now, cap).entries
  {
    var entry := Entry(key, value, Size(value), now);
    WithoutExact(s.entries, key);
    InsertLast(entry, Without(s.entries, key));
    LastSurvives(Stored(s.entries, entry), cap);
  }

  lemma {:induction false} InsertLast(entry: Entry, s: seq<Entry>)
    requires forall e :: e in s ==> Earlier(e, entry) && e.key != entry.key
    ensures var t := Sorting.Insert(entry, s, Earlier); t != [] && t[|t| - 1] == entry
  {
    if s != [] {
      assert Earlier(s[0], entry);
      if Earlier(entry, s[0]) {
        Strings.StringLeAntiSymmetric(entry.key, s[0].key);
        assert false;
      }
      InsertLast(entry, s[1..]);
    }
  }

  // ----- a hit is the last value put -----------------------------------------------------------

  /** The value of the last put of `key` that the cache accepted. */
  function LastPut(ops: seq<Op>, key: string, cap: nat): Option<string> {
    if ops == [] then None
    else
      var op := ops[|ops| - 1];
      if op.Put? && op.key == key && Accepts(op.value, cap) then Some(op.value)
      else LastPut(ops[..|ops| - 1], key, cap)
  }

  lemma NextValue(s: Store, op: Op, cap: nat, e: Entry)
    requires Sound(s) && e in Next(s, op, cap).entries
    ensures (op.Put? && Accepts(op.value, cap) && op.key == e.key && op.value == e.value)
         || (!(op.Put? && Accepts(op.value, cap) && op.key == e.key)
             && exists x :: x in s.entries && x.key == e.key && x.value == e.value)
  {
    match op {
      case Put(key, value, path, now) =>
        if Accepts(value, cap) {
          var entry := Entry(key, value, Size(value), now);
          StoredExact(s.entries, entry);
          EvictedExact(Stored(s.entries, entry), cap);
        }
      case Get(key, now) =>
        LookupExact(s.entries, key);
        if Has(s.entries, key) && cap > 0 {
          StoredExact(s.entries, Lookup(s.entries, key).value.(lastUsed := now));
        }
      case Purge(path) =>
        UnheldExact(s.entries, s.index, path);
    }
  }

  lemma {:induction false} EntryIsLastPut(ops: seq<Op>, cap: nat, e: Entry)
    requires e in After(ops, cap).entries
    ensures LastPut(ops, e.key, cap) == Some(e.value)
    decreases |ops|
  {
    if ops != [] {
      var init, op := ops[..|ops| - 1], ops[|ops| - 1];
      EveryRunFits(init, cap);
      NextValue(After(init, cap), op, cap, e);
      if !(op.Put? && Accepts(op.value, cap) && op.key == e.key) {
        var x :| x in After(init, cap).entries && x.key == e.key && x.value == e.value;
        EntryIsLastPut(init, cap, x);
      }
    }
  }

  /** After every run a hit returns the last value put under its key, of those the cache took. */
  lemma HitIsLastPut(ops: seq<Op>, cap: nat, key: string)
    ensures var row := Lookup(After(ops, cap).entries, key);
            row.Some? ==> LastPut(ops, key, cap) == Some(row.value.value)
  {
    LookupExact(After(ops, cap).entries, key);
    if Lookup(After(ops, cap).entries, key).Some? {
      EntryIsLastPut(ops, cap, Lookup(After(ops, cap).entries, key).value);
    }
  }

  /** The value of the last put of `key`, taken or not. */
  function LastOffered(ops: seq<Op>, key: string): Option<string> {
    if ops == [] then None
    else
      var op := ops[|ops| - 1];
      if op.Put? && op.key == key then Some(op.value) else LastOffered(ops[..|ops| - 1], key)
  }

  lemma {:induction false} OfferedOrTaken(ops: seq<Op>, key: string, cap: nat)
    ensures LastPut(ops, key, cap).Some? ==> LastOffered(ops, key).Some?
    ensures LastOffered(ops, key).Some? && Accepts(LastOffered(ops, key).value, cap) ==> LastPut(ops, key, cap) == LastOffered(ops, key)
    decreases |ops|
  {
    if ops != [] {
      OfferedOrTaken(ops[..|ops| - 1], key, cap);
    }
  }

  /** After every run a hit is the value put last, exactly when that one was taken or was no other than the one taken before. */
  lemma HitIsLastOfferedExactly(ops: seq<Op>, cap: nat, key: string)
    ensures var row := Lookup(After(ops, cap).entries, key);
            row.Some? ==>
              && LastOffered(ops, key).Some? && LastPut(ops, key, cap).Some?
              && (row.value.value == LastOffered(ops, key).value
                  <==> Accepts(LastOffered(ops, key).value, cap) || LastOffered(ops, key) == LastPut(ops, key, cap))
  {
    HitIsLastPut(ops, cap, key);
    OfferedOrTaken(ops, key, cap);
  }

  /** A value too large for the cache changes nothing: whatever its key held is still served. */
  lemma OversizedPutLeavesTheOld(ops: seq<Op>, cap: nat, key: string, large: string, path: string, now: real)
    requires Size(large) > cap
    ensures After(ops + [Put(key, large, path, now)], cap) == After(ops, cap)
  {
    var all := ops + [Put(key, large, path, now)];
    assert all[..|all| - 1] == ops;
  }

  // ----- purging ----------------------------------------------------------------------------------

  ghost predicate Owned(s: Store) { forall e :: e in s.entries ==> exists l :: l in s.index && l.key == e.key }

  predicate NamesDocument(op: Op) { op.Put? ==> op.path != "" }

  lemma NextOwned(s: Store, op: Op, cap: nat)
    requires Sound(s) && Owned(s) && NamesDocument(op)
    ensures Owned(Next(s, op, cap))
  {
    var next := Next(s, op, cap);
    forall e | e in next.entries ensures exists l :: l in next.index && l.key == e.key {
      NextValue(s, op, cap, e);
      match op {
        case Put(key, value, path, now) =>
          if Accepts(value, cap) {
            assert Has(next.entries, e.key);
            if e.key == key {
              assert Link(key, path) in next.index;
            } else {
              var x :| x in s.entries && x.key == e.key && x.value == e.value;
              var l :| l in s.index && l.key == x.key;
              assert l in next.index;
            }
          }
        case Get(key, now) =>
          var x :| x in s.entries && x.key == e.key && x.value == e.value;
        case Purge(path) =>
          if path != "" && cap > 0 {
            UnheldExact(s.entries, s.index, path);
            var l :| l in s.index && l.key == e.key;
            if l.path == path {
              assert !OnlyHolder(s.index, e.key, path);
            }
          }
      }
    }
  }

  lemma {:induction false} EveryRunOwned(ops: seq<Op>, cap: nat)
    requires forall op :: op in ops ==> NamesDocument(op)
    ensures Owned(After(ops, cap))
    decreases |ops|
  {
    if ops != [] {
      var init := ops[..|ops| - 1];
      assert forall op :: op in init ==> op in ops;
      EveryRunOwned(init, cap);
      EveryRunFits(init, cap);
      assert ops[|ops| - 1] in ops;
      NextOwned(After(init, cap), ops[|ops| - 1], cap);
    }
  }

  function PurgeAll(s: Store, paths: seq<string>, cap: nat): Store
    decreases |paths|
  {
    if paths == [] then s else PurgeAll(AfterPurge(s, paths[0], cap), paths[1..], cap)
  }

  lemma {:induction false} PurgedLinks(s: Store, paths: seq<string>, cap: nat)
    requires Sound(s) && Owned(s) && cap > 0
    ensures Owned(PurgeAll(s, paths, cap))
    ensures forall l :: l in PurgeAll(s, paths, cap).index ==> l in s.index && (l.path in paths ==> l.path == "")
    decreases |paths|
  {
    if paths != [] {
      NextOwned(s, Purge(paths[0]), cap);
      SoundAfterPurge(s, paths[0], cap);
      PurgedLinks(AfterPurge(s, paths[0], cap), paths[1..], cap);
    }
  }

  lemma HasFirst(entries: seq<Entry>)
    requires entries != []
    ensures exists e :: e in entries
  {
    assert entries[0] in entries;
  }

  /** When every put named its document, purging every document of the index empties the cache. */
  lemma PurgingAllEmpties(ops: seq<Op>, paths: seq<string>, cap: nat)
    requires cap > 0 && forall op :: op in ops ==> NamesDocument(op)
    requires forall l :: l in After(ops, cap).index ==> l.path in paths && l.path != ""
    ensures PurgeAll(After(ops, cap), paths, cap) == Store([], {})
  {
    var s := After(ops, cap);
    EveryRunFits(ops, cap);
    EveryRunOwned(ops, cap);
    PurgedLinks(s, paths, cap);
    var end := PurgeAll(s, paths, cap);
    assert end.index == {};
    if end.entries != [] {
      HasFirst(end.entries);
    }
  }
}
