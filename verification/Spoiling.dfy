/**
  Which single files the shared cache of the path resolver can cost their place in the listing
  (`inventory.py`, `_path_resolver` and `files`): the exact condition, file by file.
 */
module Spoiling {
  import opened Prelude
  import opened Inventory
  import opened Paths

  /** `a` is the file itself or a folder above it, below the configured folder. */
  ghost predicate OnChain(items: View, folder: string, f: string, a: string) {
    a != folder && exists j: nat :: Climbs(items, folder, f, j, a)
  }

  /** Asking for `x` first leaves an item of the file's chain without its path. */
  ghost predicate SpoiledBy(items: View, folder: string, f: string, x: string, n: nat, a: string) {
    && x in items && items[x].kind == File && Beyond(items, folder, x, 0)
    && n <= 256 && Climbs(items, folder, x, n, a) && OnChain(items, folder, f, a)
  }

  /** Some file beyond the bound has an item of this file's chain at most 256 steps above it. */
  ghost predicate Spoilable(items: View, folder: string, f: string) {
    exists x, n: nat, a :: SpoiledBy(items, folder, f, x, n, a)
  }

  lemma ChainParent(items: View, folder: string, f: string, a: string)
    requires OnChain(items, folder, f, a) && Linked(items, a)
    ensures items[a].parent == folder || OnChain(items, folder, f, items[a].parent)
  {
    var j: nat :| Climbs(items, folder, f, j, a);
    ClimbOne(items, folder, f, j, a);
  }

  lemma ChainReaches(items: View, folder: string, f: string, k: nat, a: string) returns (m: nat)
    requires Reaches(items, folder, f, k) && OnChain(items, folder, f, a)
    ensures 0 < m <= k && Reaches(items, folder, a, m)
  {
    var j: nat :| Climbs(items, folder, f, j, a);
    ClimbTakesSteps(items, folder, f, j, a, k);
    m := k - j;
  }

  // ----- never spoiled ------------------------------------------------------------------------

  /** What the cache knows of the file's chain is right. */
  ghost predicate ChainRight(items: View, folder: string, f: string, cache: Cache) {
    && folder in cache && cache[folder] == Some("")
    && forall a :: a in cache && OnChain(items, folder, f, a) ==> cache[a] == PathOf(items, folder, a)
  }

  /** Asked for at `depth`, `y` meets the file's chain only where the rest of the chain is within the bound. */
  ghost predicate Harmless(items: View, folder: string, f: string, y: string, depth: nat) {
    forall n: nat, a, k: nat ::
      Climbs(items, folder, y, n, a) && OnChain(items, folder, f, a) && Reaches(items, folder, a, k) ==>
      depth + n <= MAX_DEPTH ==> depth + n + k <= MAX_DEPTH
  }

  lemma HarmlessParent(items: View, folder: string, f: string, y: string, depth: nat)
    requires Harmless(items, folder, f, y, depth) && y != folder && Linked(items, y)
    ensures Harmless(items, folder, f, items[y].parent, depth + 1)
  {
    var parent := items[y].parent;
    forall n: nat, a, k: nat
      | Climbs(items, folder, parent, n, a) && OnChain(items, folder, f, a) && Reaches(items, folder, a, k) && depth + 1 + n <= MAX_DEPTH
      ensures depth + 1 + n + k <= MAX_DEPTH
    {
      assert Climbs(items, folder, y, n + 1, a);
    }
  }

  /** A harmless question keeps the chain right, and is answered right if it is for an item of the chain. */
  lemma {:induction false} ChainStaysRight(items: View, folder: string, f: string, k: nat, cache: Cache, y: string, depth: nat)
    requires Reaches(items, folder, f, k) && ChainRight(items, folder, f, cache)
    requires depth <= MAX_DEPTH && Harmless(items, folder, f, y, depth)
    ensures var l := Look(items, cache, y, depth);
            && ChainRight(items, folder, f, l.cache)
            && (y == folder || OnChain(items, folder, f, y) ==> l.path == PathOf(items, folder, y))
    decreases MAX_DEPTH - depth
  {
    PathStep(items, folder, y);
    if y !in cache {
      if OnChain(items, folder, f, y) {
        var m := ChainReaches(items, folder, f, k, y);
        assert Climbs(items, folder, y, 0, y);
        assert depth + 0 + m <= MAX_DEPTH;
        ChainParent(items, folder, f, y);
      }
      if depth < MAX_DEPTH && Linked(items, y) {
        HarmlessParent(items, folder, f, y, depth);
        ChainStaysRight(items, folder, f, k, cache, items[y].parent, depth + 1);
      }
    }
  }

  lemma AllHarmless(items: View, folder: string, f: string, y: string)
    requires !Spoilable(items, folder, f) && y in items && items[y].kind == File
    ensures Harmless(items, folder, f, y, 0)
  {
    forall n: nat, a, k: nat
      | Climbs(items, folder, y, n, a) && OnChain(items, folder, f, a) && Reaches(items, folder, a, k) && 0 + n <= MAX_DEPTH
      ensures 0 + n + k <= MAX_DEPTH
    {
      ClimbReaches(items, folder, y, n, a, k);
      assert n + k > MAX_DEPTH ==> Beyond(items, folder, y, 0);
      assert n + k > MAX_DEPTH ==> SpoiledBy(items, folder, f, y, n, a);
    }
  }

  lemma {:induction false} ListedUnspoiled(items: View, folder: string, rel: string, f: string, ids: seq<string>)
    requires FileAt(items, folder, rel, f) && !Spoilable(items, folder, f)
    ensures var l := Listed(items, folder, ids);
            ChainRight(items, folder, f, l.cache) && (f in ids ==> rel in l.files)
    decreases |ids|
  {
    var k: nat :| Reaches(items, folder, f, k);
    if ids == [] {
      PathFound(items, folder, f, k);
    } else {
      var init, last := ids[..|ids| - 1], ids[|ids| - 1];
      assert ids == init + [last];
      ListedUnspoiled(items, folder, rel, f, init);
      if last in items && items[last].kind == File {
        AllHarmless(items, folder, f, last);
        ChainStaysRight(items, folder, f, k, Listed(items, folder, init).cache, last, 0);
        if last == f {
          OwnChain(items, folder, rel, f);
        }
      }
    }
  }

  lemma OwnChain(items: View, folder: string, rel: string, f: string)
    requires FileAt(items, folder, rel, f)
    ensures OnChain(items, folder, f, f)
  {
    PathStep(items, folder, f);
    assert Climbs(items, folder, f, 0, f);
  }

  // ----- spoiled --------------------------------------------------------------------------------

  /** `a` is known as having no path, and so is everything below it that is known at all. */
  ghost predicate Lost(items: View, folder: string, a: string, cache: Cache) {
    && a in cache && cache[a] == None
    && forall b, j: nat :: b in cache && Climbs(items, folder, b, j, a) ==> cache[b] == None
  }

  /** What is lost stays lost, whatever is asked, and nothing below it gets a path. */
  lemma {:induction false} StaysLost(items: View, folder: string, a: string, cache: Cache, y: string, depth: nat)
    requires Lost(items, folder, a, cache) && depth <= MAX_DEPTH
    ensures Lost(items, folder, a, Look(items, cache, y, depth).cache)
    ensures (exists j: nat :: Climbs(items, folder, y, j, a)) ==> Look(items, cache, y, depth).path == None
    decreases MAX_DEPTH - depth
  {
    if y !in cache && depth < MAX_DEPTH && Linked(items, y) {
      StaysLost(items, folder, a, cache, items[y].parent, depth + 1);
      if j: nat :| Climbs(items, folder, y, j, a) {
        assert j > 0;
        assert Climbs(items, folder, items[y].parent, j - 1, a);
      }
    }
  }

  /** Asking for a file beyond the bound first loses everything at most 256 steps above it. */
  lemma LostAtOnce(items: View, folder: string, f: string, x: string, n: nat, a: string, k: nat)
    requires SpoiledBy(items, folder, f, x, n, a) && Reaches(items, folder, f, k)
    ensures Lost(items, folder, a, Look(items, NewCache(folder), x, 0).cache)
    ensures Look(items, NewCache(folder), x, 0).path == None
  {
    var m := ChainReaches(items, folder, f, k, a);
    ClimbReaches(items, folder, x, n, a, m);
    ChainUnasked(items, folder, x, n + m);
    AskedAncestors(items, folder, NewCache(folder), x, 0, n, a, m);
    NewCacheIsExact(items, folder);
    NothingBeyond(items, folder, NewCache(folder), x, 0);
    assert forall j: nat :: !Climbs(items, folder, folder, j, a);
  }

  lemma {:induction false} StaysUnlisted(items: View, folder: string, rel: string, f: string, a: string, x: string, rest: seq<string>)
    requires FileAt(items, folder, rel, f) && OneFilePerPath(items, folder) && OnChain(items, folder, f, a)
    requires Lost(items, folder, a, Listed(items, folder, [x]).cache) && rel !in Listed(items, folder, [x]).files
    ensures Lost(items, folder, a, Listed(items, folder, [x] + rest).cache) && rel !in Listed(items, folder, [x] + rest).files
    decreases |rest|
  {
    if rest == [] {
      assert [x] + rest == [x];
    } else {
      var init, last := rest[..|rest| - 1], rest[|rest| - 1];
      assert ([x] + rest)[..|[x] + rest| - 1] == [x] + init;
      StaysUnlisted(items, folder, rel, f, a, x, init);
      var before := Listed(items, folder, [x] + init);
      if last in items && items[last].kind == File {
        StaysLost(items, folder, a, before.cache, last, 0);
        ListedAreFiles(items, folder, [x] + init);
        NeverWrong(items, folder, before.cache, last, 0);
        assert Look(items, before.cache, last, 0).path == Some(rel) ==> FileAt(items, folder, rel, last);
      }
    }
  }

  /** An order that begins with the file beyond the bound does not list the path. */
  lemma SpoiledIsMissed(items: View, folder: string, rel: string, f: string) returns (ids: seq<string>)
    requires FileAt(items, folder, rel, f) && OneFilePerPath(items, folder) && Spoilable(items, folder, f)
    ensures Orders(ids, items) && rel !in Listed(items, folder, ids).files
  {
    var k: nat :| Reaches(items, folder, f, k);
    var x, n: nat, a :| SpoiledBy(items, folder, f, x, n, a);
    var rest := SomeOrder(items.Keys - {x});
    ids := [x] + rest;
    assert forall i :: 0 <= i < |rest| ==> rest[i] in items.Keys - {x};
    LostAtOnce(items, folder, f, x, n, a, k);
    assert [x][..0] == [];
    assert Listed(items, folder, [x]) == ListOne(items, Listing(map[], NewCache(folder)), x);
    StaysUnlisted(items, folder, rel, f, a, x, rest);
  }

  /**
    A file's path is listed in every order of the dictionary if and only if no file beyond the bound, itself
    included, lies at most 256 steps below an item of its chain.
   */
  lemma ListedInEveryOrderExactly(items: View, folder: string, rel: string, f: string)
    requires FileAt(items, folder, rel, f) && OneFilePerPath(items, folder)
    ensures (forall ids :: Orders(ids, items) ==> rel in Listed(items, folder, ids).files) <==> !Spoilable(items, folder, f)
  {
    if Spoilable(items, folder, f) {
      var ids := SpoiledIsMissed(items, folder, rel, f);
    } else {
      forall ids | Orders(ids, items) ensures rel in Listed(items, folder, ids).files {
        ListedUnspoiled(items, folder, rel, f, ids);
      }
    }
  }
}
