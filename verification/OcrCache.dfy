/**
  The OCR cache (`sync/ocr_cache.py`): a size-capped LRU store of page texts with an
  index of the documents that put them. `entries` is the table in the order in which
  eviction reads it, by last use and then key.
 */
module OcrCache {
  import opened Prelude
  import opened Sorting
  import opened Strings

  const EVICT_BATCH: nat := 64

  datatype Entry = Entry(key: string, value: string, size: nat, lastUsed: real)

  /** A row of the index: the document at `path` put the entry `key`. */
  datatype Link = Link(key: string, path: string)

  function Size(text: string): nat {
    if text == "" then 0 else Utf8Size(text[0]) + Size(text[1..])
  }

  function Total(entries: seq<Entry>): nat {
    if entries == [] then 0 else entries[0].size + Total(entries[1..])
  }

  predicate Earlier(a: Entry, b: Entry) {
    a.lastUsed < b.lastUsed || (a.lastUsed == b.lastUsed && StringLe(a.key, b.key))
  }

  ghost predicate Ordered(entries: seq<Entry>) {
    && (forall i, j :: 0 <= i < j < |entries| ==> entries[i].key != entries[j].key)
    && Sorted(entries, Earlier)
  }

  predicate Has(entries: seq<Entry>, key: string) { exists i :: 0 <= i < |entries| && entries[i].key == key }

  function Lookup(entries: seq<Entry>, key: string): Option<Entry> {
    if entries == [] then None
    else if entries[0].key == key then Some(entries[0])
    else Lookup(entries[1..], key)
  }

  function Without(entries: seq<Entry>, key: string): seq<Entry> {
    if entries == [] then []
    else if entries[0].key == key then Without(entries[1..], key)
    else [entries[0]] + Without(entries[1..], key)
  }

  /** The table with this row in place of any other with its key. */
  function Stored(entries: seq<Entry>, entry: Entry): seq<Entry> {
    Insert(entry, Without(entries, entry.key), Earlier)
  }

  /** Eviction: the least recently used go, one by one, until the rest fits. */
  function Evicted(entries: seq<Entry>, cap: nat): seq<Entry> {
    if Total(entries) <= cap then entries else Evicted(entries[1..], cap)
  }

  function LinksOf(entries: seq<Entry>, index: set<Link>): set<Link> {
    set l | l in index && Has(entries, l.key)
  }

  // ----- facts about the table ---------------------------------------------------------

  lemma EarlierOrders()
    ensures TotalPreorder(Earlier)
  {
    forall a: Entry, b: Entry ensures Earlier(a, b) || Earlier(b, a) {
      StringLeTotal(a.key, b.key);
    }
    forall a: Entry, b: Entry, c: Entry | Earlier(a, b) && Earlier(b, c) ensures Earlier(a, c) {
      if a.lastUsed == c.lastUsed {
        StringLeTransitive(a.key, b.key, c.key);
      }
    }
  }

  lemma {:induction false} LookupExact(entries: seq<Entry>, key: string)
    ensures Lookup(entries, key).Some? <==> Has(entries, key)
    ensures Lookup(entries, key).Some? ==> Lookup(entries, key).value in entries && Lookup(entries, key).value.key == key
  {
    if entries != [] {
      LookupExact(entries[1..], key);
      if entries[0].key != key && Has(entries, key) {
        var i :| 0 <= i < |entries| && entries[i].key == key;
        assert entries[1..][i - 1].key == key;
      }
      if Has(entries[1..], key) {
        var i :| 0 <= i < |entries[1..]| && entries[1..][i].key == key;
        assert entries[i + 1].key == key;
      }
    }
  }

  lemma {:induction false} WithoutExact(entries: seq<Entry>, key: string)
    requires Ordered(entries)
    ensures Ordered(Without(entries, key))
    ensures forall e :: e in Without(entries, key) <==> e in entries && e.key != key
  {
    if entries != [] {
      var rest := entries[1..];
      assert Ordered(rest) by {
        assert forall i :: 0 <= i < |rest| ==> rest[i] == entries[i + 1];
      }
      WithoutExact(rest, key);
      var kept := Without(rest, key);
      assert entries == [entries[0]] + rest;
      if entries[0].key != key {
        forall e | e in kept ensures Earlier(entries[0], e) && e.key != entries[0].key {
          var i :| 0 <= i < |rest| && rest[i] == e;
          assert e == entries[i + 1];
        }
        OrderedFromHead(entries[0], kept);
      }
    }
  }

  lemma OrderedFromHead(first: Entry, kept: seq<Entry>)
    requires Ordered(kept) && forall e :: e in kept ==> Earlier(first, e) && e.key != first.key
    ensures Ordered([first] + kept)
  {
    var out := [first] + kept;
    assert forall i :: 0 < i < |out| ==> out[i] == kept[i - 1] && out[i] in kept;
  }

  lemma StoredExact(entries: seq<Entry>, entry: Entry)
    requires Ordered(entries)
    ensures Ordered(Stored(entries, entry))
    ensures forall e :: e in Stored(entries, entry) <==> e == entry || (e in entries && e.key != entry.key)
  {
    var rest := Without(entries, entry.key);
    WithoutExact(entries, entry.key);
    EarlierOrders();
    InsertSorts(entry, rest, Earlier);
    InsertElements(entry, rest);
    InsertKeepsDistinct(entry, rest);
  }

  lemma {:induction false} InsertElements(entry: Entry, s: seq<Entry>)
    ensures forall e :: e in Insert(entry, s, Earlier) <==> e == entry || e in s
  {
    if s != [] && !Earlier(entry, s[0]) {
      InsertElements(entry, s[1..]);
      assert s == [s[0]] + s[1..];
    }
  }

  ghost predicate DistinctKeys(s: seq<Entry>) { forall i, j :: 0 <= i < j < |s| ==> s[i].key != s[j].key }

  lemma {:induction false} InsertKeepsDistinct(entry: Entry, s: seq<Entry>)
    requires DistinctKeys(s) && forall e :: e in s ==> e.key != entry.key
    ensures DistinctKeys(Insert(entry, s, Earlier))
  {
    if s != [] && !Earlier(entry, s[0]) {
      var rest := Insert(entry, s[1..], Earlier);
      InsertKeepsDistinct(entry, s[1..]);
      InsertElements(entry, s[1..]);
      forall j | 0 <= j < |rest| ensures rest[j].key != s[0].key {
        assert rest[j] in rest;
      }
      var out := [s[0]] + rest;
      assert forall j :: 0 < j < |out| ==> out[j] == rest[j - 1];
    } else {
      var out := [entry] + s;
      assert forall j :: 0 < j < |out| ==> out[j] == s[j - 1] && out[j] in s;
    }
  }

  /** What stays is a tail of the order that fits, and the longest one that does. */
  lemma {:induction false} EvictedExact(entries: seq<Entry>, cap: nat)
    ensures var kept := Evicted(entries, cap);
            && |kept| <= |entries| && kept == entries[|entries| - |kept|..] && Total(kept) <= cap
            && (|kept| < |entries| ==> Total(entries[|entries| - |kept| - 1..]) > cap)
  {
    if Total(entries) > cap {
      EvictedExact(entries[1..], cap);
      var kept := Evicted(entries, cap);
      var n := |entries| - |kept|;
      assert entries[1..][n - 1..] == entries[n..];
      if n > 1 {
        assert entries[1..][n - 2..] == entries[n - 1..];
      } else {
        assert entries[0..] == entries;
      }
    }
  }

  /** The last row of the order survives every eviction it fits into. */
  lemma {:induction false} LastSurvives(entries: seq<Entry>, cap: nat)
    requires entries != [] && entries[|entries| - 1].size <= cap
    ensures Evicted(entries, cap) != [] && entries[|entries| - 1] in Evicted(entries, cap)
  {
    if |entries| == 1 {
      assert entries[1..] == [];
    } else if Total(entries) > cap {
      LastSurvives(entries[1..], cap);
    }
  }

  // ----- the operations on values --------------------------------------------------------------

  datatype Store = Store(entries: seq<Entry>, index: set<Link>)

  predicate Accepts(value: string, cap: nat) { cap > 0 && Size(value) <= cap }

  function Linked(index: set<Link>, key: string, path: string): set<Link> {
    if path == "" then index else index + {Link(key, path)}
  }

  function AfterPut(s: Store, key: string, value: string, path: string, now: real, cap: nat): Store {
    if !Accepts(value, cap) then s
    else
      var kept := Evicted(Stored(s.entries, Entry(key, value, Size(value), now)), cap);
      Store(kept, LinksOf(kept, Linked(s.index, key, path)))
  }

  function AfterGet(s: Store, key: string, now: real, cap: nat): Store {
    match Lookup(s.entries, key)
    case None => s
    case Some(e) => if cap == 0 then s else s.(entries := Stored(s.entries, e.(lastUsed := now)))
  }

  /** The document holds the entry, and no other does. */
  predicate OnlyHolder(index: set<Link>, key: string, path: string) {
    Link(key, path) in index && forall l :: l in index && l.key == key ==> l.path == path
  }

  function Unheld(entries: seq<Entry>, index: set<Link>, path: string): seq<Entry> {
    if entries == [] then []
    else if OnlyHolder(index, entries[0].key, path) then Unheld(entries[1..], index, path)
    else [entries[0]] + Unheld(entries[1..], index, path)
  }

  function AfterPurge(s: Store, path: string, cap: nat): Store {
    if path == "" || cap == 0 then s
    else Store(Unheld(s.entries, s.index, path), set l | l in s.index && l.path != path)
  }

  // ----- the cache --------------------------------------------------------------------------------

  /** Distinct keys in order of use, and index rows that point at entries. */
  ghost predicate Sound(s: Store) {
    Ordered(s.entries) && forall l :: l in s.index ==> Has(s.entries, l.key)
  }

  class OcrDiskCache {
    const maxBytes: nat
    var entries: seq<Entry>
    var index: set<Link>
    var hits: nat
    var misses: nat

    ghost predicate Valid() reads this { Sound(Store(entries, index)) }

    ghost function Abstract(): Store reads this { Store(entries, index) }

    constructor (maxBytes: nat)
      ensures Valid() && this.maxBytes == maxBytes && Abstract() == Store([], {}) && hits == misses == 0
    {
      this.maxBytes, entries, index, hits, misses := maxBytes, [], {}, 0, 0;
    }

    method Get(key: string, now: real) returns (value: Option<string>)
      requires Valid()
      modifies this
      ensures Valid() && Abstract() == AfterGet(old(Abstract()), key, now, maxBytes)
      ensures value.Some? <==> maxBytes > 0 && Has(old(entries), key)
      ensures value.Some? ==> Lookup(old(entries), key).Some? && value == Some(Lookup(old(entries), key).value.value)
      ensures hits + misses == old(hits + misses) + 1 && (hits > old(hits) <==> value.Some?)
    {
      LookupExact(entries, key);
      if maxBytes == 0 {
        misses := misses + 1;
        return None;
      }
      var row := Lookup(entries, key);
      if row == None {
        misses := misses + 1;
        return None;
      }
      SoundAfterStore(Abstract(), row.value.(lastUsed := now));
      entries := Stored(entries, row.value.(lastUsed := now));
      hits := hits + 1;
      return Some(row.value.value);
    }

    /** `_evict_locked`: batches of the least recently used, until the rest fits. */
    method Evict()
      requires Valid()
      modifies this`entries, this`index
      ensures Valid() && entries == Evicted(old(entries), maxBytes) && index == LinksOf(entries, old(index))
    {
      var total := Total(entries);
      AllLive(entries, index);
      while total > maxBytes
        invariant Ordered(entries) && total == Total(entries)
        invariant Evicted(entries, maxBytes) == Evicted(old(entries), maxBytes)
        invariant index == LinksOf(entries, old(index))
        decreases |entries|
      {
        var batch := if |entries| < EVICT_BATCH then |entries| else EVICT_BATCH;
        ghost var before := entries;
        var i := 0;
        while i < batch && total > maxBytes
          invariant 0 <= i <= batch <= |before| && entries == before[i..] && batch > 0
          invariant i > 0 || total > maxBytes
          invariant Ordered(entries) && total == Total(entries)
          invariant Evicted(entries, maxBytes) == Evicted(old(entries), maxBytes)
          invariant index == LinksOf(entries, old(index))
          decreases batch - i
        {
          TailLinks(entries, old(index));
          index := set l | l in index && l.key != entries[0].key;
          total := total - entries[0].size;
          entries := entries[1..];
          i := i + 1;
        }
      }
    }

    method Put(key: string, value: string, path: string, now: real)
      requires Valid()
      modifies this`entries, this`index
      ensures Valid() && Abstract() == AfterPut(old(Abstract()), key, value, path, now, maxBytes)
      ensures Accepts(value, maxBytes) ==> Total(entries) <= maxBytes
    {
      if maxBytes == 0 || Size(value) > maxBytes {
        return;
      }
      var entry := Entry(key, value, Size(value), now);
      SoundAfterStore(Abstract(), entry);
      StoredHas(entries, entry);
      entries := Stored(entries, entry);
      index := Linked(index, key, path);
      Evict();
      EvictedExact(Stored(old(entries), entry), maxBytes);
    }

    /** `purge_document`: the entries only this document put; the number removed. */
    method PurgeDocument(path: string) returns (removed: nat)
      requires Valid()
      modifies this`entries, this`index
      ensures Valid() && Abstract() == AfterPurge(old(Abstract()), path, maxBytes)
      ensures removed == |old(entries)| - |entries|
    {
      if path == "" || maxBytes == 0 {
        return 0;
      }
      removed := 0;
      var kept, i := [], 0;
      while i < |entries|
        invariant 0 <= i <= |entries| && |kept| + removed == i
        invariant Unheld(entries, index, path) == kept + Unheld(entries[i..], index, path)
      {
        assert entries[i..][1..] == entries[i + 1..];
        if OnlyHolder(index, entries[i].key, path) {
          removed := removed + 1;
        } else {
          kept := kept + [entries[i]];
        }
        i := i + 1;
      }
      assert kept + [] == kept;
      SoundAfterPurge(Abstract(), path, maxBytes);
      entries, index := kept, set l | l in index && l.path != path;
    }
  }

  lemma AllLive(entries: seq<Entry>, index: set<Link>)
    requires forall l :: l in index ==> Has(entries, l.key)
    ensures LinksOf(entries, index) == index
  {
  }

  lemma TailLinks(entries: seq<Entry>, index: set<Link>)
    requires entries != [] && Ordered(entries)
    ensures LinksOf(entries[1..], index) == set l | l in LinksOf(entries, index) && l.key != entries[0].key
    ensures Ordered(entries[1..])
  {
    var rest := entries[1..];
    forall key ensures Has(rest, key) <==> Has(entries, key) && key != entries[0].key {
      if Has(rest, key) {
        var i :| 0 <= i < |rest| && rest[i].key == key;
        assert entries[i + 1].key == key;
      }
      if Has(entries, key) && key != entries[0].key {
        var i :| 0 <= i < |entries| && entries[i].key == key;
        assert rest[i - 1].key == key;
      }
    }
  }

  lemma StoredHas(entries: seq<Entry>, entry: Entry)
    requires Ordered(entries)
    ensures forall key :: Has(Stored(entries, entry), key) <==> key == entry.key || Has(entries, key)
  {
    StoredExact(entries, entry);
    var now := Stored(entries, entry);
    forall key ensures Has(now, key) <==> key == entry.key || Has(entries, key) {
      if Has(now, key) {
        var i :| 0 <= i < |now| && now[i].key == key;
        assert now[i] in now;
      }
      if Has(entries, key) && key != entry.key {
        var i :| 0 <= i < |entries| && entries[i].key == key;
        assert entries[i] in now;
      }
      assert entry in now;
    }
  }

  lemma SoundAfterStore(s: Store, entry: Entry)
    requires Sound(s)
    ensures Sound(s.(entries := Stored(s.entries, entry)))
    ensures forall path :: Sound(Store(Stored(s.entries, entry), Linked(s.index, entry.key, path)))
  {
    StoredExact(s.entries, entry);
    StoredHas(s.entries, entry);
  }

  /** What a purge removes: exactly the entries this document alone holds. */
  lemma {:induction false} UnheldExact(entries: seq<Entry>, index: set<Link>, path: string)
    requires Ordered(entries)
    ensures Ordered(Unheld(entries, index, path))
    ensures forall e :: e in Unheld(entries, index, path) <==> e in entries && !OnlyHolder(index, e.key, path)
  {
    if entries != [] {
      var rest := entries[1..];
      TailLinks(entries, index);
      UnheldExact(rest, index, path);
      var kept := Unheld(rest, index, path);
      assert entries == [entries[0]] + rest;
      forall e | e in kept ensures Earlier(entries[0], e) && e.key != entries[0].key {
        var i :| 0 <= i < |rest| && rest[i] == e;
        assert e == entries[i + 1];
      }
      OrderedFromHead(entries[0], kept);
    }
  }

  lemma SoundAfterPurge(s: Store, path: string, cap: nat)
    requires Sound(s)
    ensures Sound(AfterPurge(s, path, cap))
  {
    if path != "" && cap > 0 {
      UnheldExact(s.entries, s.index, path);
      var kept := Unheld(s.entries, s.index, path);
      forall l | l in s.index && l.path != path ensures Has(kept, l.key) {
        var i :| 0 <= i < |s.entries| && s.entries[i].key == l.key;
        assert s.entries[i] in kept;
      }
    }
  }
}
