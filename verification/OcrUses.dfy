/** The order in which the OCR cache forgets: by the last use of an entry, over every run. */
module OcrUses {
  import opened Prelude
  import opened OcrCache
  import opened OcrRuns

  /** The time of the last put of `key` that was taken, or of the last get of it, whichever came later in the run. */
  function LastUse(ops: seq<Op>, key: string, cap: nat): Option<real> {
    if ops == [] then None
    else
      var op := ops[|ops| - 1];
      if op.Put? && op.key == key && Accepts(op.value, cap) then Some(op.now)
      else if op.Get? && op.key == key then Some(op.now)
      else LastUse(ops[..|ops| - 1], key, cap)
  }

  lemma NextUse(s: Store, op: Op, cap: nat, e: Entry)
    requires Sound(s) && cap > 0 && e in Next(s, op, cap).entries
    ensures if (op.Put? && Accepts(op.value, cap) && op.key == e.key) || (op.Get? && op.key == e.key)
            then e.lastUsed == op.now
            else e in s.entries
  {
    match op {
      case Put(key, value, path, now) =>
        if Accepts(value, cap) {
          var entry := Entry(key, value, Size(value), now);
          StoredExact(s.entries, entry);
          EvictedExact(Stored(s.entries, entry), cap);
        }
      case Get(key, now) =>
        LookupExact(s.entries, key);
        if Has(s.entries, key) {
          StoredExact(s.entries, Lookup(s.entries, key).value.(lastUsed := now));
        }
      case Purge(path) =>
        UnheldExact(s.entries, s.index, path);
    }
  }

  /** After every run an entry's stamp is the time of its last use. */
  lemma {:induction false} StampIsLastUse(ops: seq<Op>, cap: nat, e: Entry)
    requires cap > 0 && e in After(ops, cap).entries
    ensures LastUse(ops, e.key, cap) == Some(e.lastUsed)
    decreases |ops|
  {
    if ops != [] {
      var init, op := ops[..|ops| - 1], ops[|ops| - 1];
      EveryRunFits(init, cap);
      NextUse(After(init, cap), op, cap, e);
      if e in After(init, cap).entries && !(op.Put? && Accepts(op.value, cap) && op.key == e.key) && !(op.Get? && op.key == e.key) {
        StampIsLastUse(init, cap, e);
      }
    }
  }

  /** A tail of the order that holds an entry holds every later one. */
  lemma TailKeepsLater(entries: seq<Entry>, n: nat, y: Entry, x: Entry)
    requires Ordered(entries) && n <= |entries| && y in entries[n..] && x in entries && y.lastUsed < x.lastUsed
    ensures x in entries[n..]
  {
    var j :| n <= j < |entries| && entries[j] == y;
    var i :| 0 <= i < |entries| && entries[i] == x;
    assert !Earlier(entries[i], entries[j]);
    assert entries[n..][i - n] == x;
  }

  lemma PutKeepsLater(s: Store, put: Op, cap: nat, x: Entry, y: Entry)
    requires Sound(s) && put.Put? && x in s.entries && y in s.entries && y.lastUsed < x.lastUsed
    requires put.key != x.key && y in Next(s, put, cap).entries
    ensures x in Next(s, put, cap).entries
  {
    if Accepts(put.value, cap) {
      var entry := Entry(put.key, put.value, Size(put.value), put.now);
      var stored := Stored(s.entries, entry);
      StoredExact(s.entries, entry);
      EvictedExact(stored, cap);
      TailKeepsLater(stored, |stored| - |Evicted(stored, cap)|, y, x);
    }
  }

  /**
    After every run, a put that forgets anything forgets it in the order of last use: whatever was used later than
    an entry that stays, stays.
   */
  lemma LaterUsedStays(ops: seq<Op>, cap: nat, put: Op, x: Entry, y: Entry)
    requires cap > 0 && put.Put? && put.key != x.key
    requires x in After(ops, cap).entries && y in After(ops, cap).entries && y in Next(After(ops, cap), put, cap).entries
    ensures LastUse(ops, x.key, cap).Some? && LastUse(ops, y.key, cap).Some?
    ensures LastUse(ops, y.key, cap).value < LastUse(ops, x.key, cap).value ==> x in Next(After(ops, cap), put, cap).entries
  {
    EveryRunFits(ops, cap);
    StampIsLastUse(ops, cap, x);
    StampIsLastUse(ops, cap, y);
    if y.lastUsed < x.lastUsed {
      PutKeepsLater(After(ops, cap), put, cap, x, y);
    }
  }
}
