/**
  Paths derived from the parent chain (`inventory.py`, `_path_resolver` and `files`).

  `PathOf` is the plain definition: an item has a path when following its parents
  arrives at the configured folder. The resolver is memoised and bounded in depth.
 */
module Paths {
  import opened Prelude
  import opened Inventory

  const MAX_DEPTH: nat := 256

  predicate SafeName(name: string) {
    && name != "" && name != "." && name != ".."
    && '/' !in name && '\\' !in name && '\0' !in name
  }

  /** The item can have a path if its parent has one. */
  predicate Linked(items: View, id: string) {
    id in items && items[id].kind != Root && items[id].parent != "" && SafeName(items[id].name)
  }

  /** The parent chain of `id` arrives at the folder after `k` steps. */
  predicate Reaches(items: View, folder: string, id: string, k: nat)
    decreases k
  {
    if id == folder then k == 0
    else k > 0 && Linked(items, id) && Reaches(items, folder, items[id].parent, k - 1)
  }

  function Join(parent: string, name: string): string { if parent == "" then name else parent + "/" + name }

  function PathAt(items: View, folder: string, id: string, k: nat): string
    requires Reaches(items, folder, id, k)
    decreases k
  {
    if id == folder then "" else Join(PathAt(items, folder, items[id].parent, k - 1), items[id].name)
  }

  ghost function PathOf(items: View, folder: string, id: string): Option<string> {
    if exists k: nat :: Reaches(items, folder, id, k) then
      var k: nat :| Reaches(items, folder, id, k);
      Some(PathAt(items, folder, id, k))
    else None
  }

  lemma {:induction false} ReachesOnce(items: View, folder: string, id: string, k: nat, m: nat)
    requires Reaches(items, folder, id, k) && Reaches(items, folder, id, m)
    ensures k == m
    decreases k
  {
    if id != folder {
      ReachesOnce(items, folder, items[id].parent, k - 1, m - 1);
    }
  }

  lemma PathFound(items: View, folder: string, id: string, k: nat)
    requires Reaches(items, folder, id, k)
    ensures PathOf(items, folder, id) == Some(PathAt(items, folder, id, k))
  {
    var m: nat :| Reaches(items, folder, id, m) && PathOf(items, folder, id) == Some(PathAt(items, folder, id, m));
    ReachesOnce(items, folder, id, k, m);
  }

  /** The path of an item is its parent's path and its name; there is none without a parent, a path there and a safe name. */
  lemma PathStep(items: View, folder: string, id: string)
    ensures id == folder ==> PathOf(items, folder, id) == Some("")
    ensures id != folder && !Linked(items, id) ==> PathOf(items, folder, id) == None
    ensures id != folder && Linked(items, id) ==>
      var above := PathOf(items, folder, items[id].parent);
      PathOf(items, folder, id) == if above.Some? then Some(Join(above.value, items[id].name)) else None
  {
    if id == folder {
      PathFound(items, folder, id, 0);
    } else if Linked(items, id) {
      var parent := items[id].parent;
      if k: nat :| Reaches(items, folder, parent, k) {
        PathFound(items, folder, parent, k);
        PathFound(items, folder, id, k + 1);
      } else {
        forall k: nat ensures !Reaches(items, folder, id, k) {
          assert k > 0 ==> !Reaches(items, folder, parent, k - 1);
        }
      }
    }
  }

  /** A component that cannot leave its folder: not empty, no dots alone, no separator of either kind, no NUL. */
  predicate HarmlessName(name: string) {
    name !in {"", ".", ".."} && forall i :: 0 <= i < |name| ==> name[i] !in {'/', '\\', '\0'}
  }

  function JoinAll(names: seq<string>): string {
    if names == [] then "" else Join(JoinAll(names[..|names| - 1]), names[|names| - 1])
  }

  /** A path is made of harmless components, one for every step of the chain; so nothing leads out of the folder. */
  lemma {:induction false} PathIsHarmless(items: View, folder: string, id: string, k: nat) returns (names: seq<string>)
    requires Reaches(items, folder, id, k)
    ensures |names| == k && PathAt(items, folder, id, k) == JoinAll(names)
    ensures forall i :: 0 <= i < k ==> HarmlessName(names[i])
    decreases k
  {
    if id == folder {
      names := [];
    } else {
      var above := PathIsHarmless(items, folder, items[id].parent, k - 1);
      names := above + [items[id].name];
      assert names[..k - 1] == above;
    }
  }

  /** Anything but the folder itself has a path only as an item with a parent, other than the root, and a harmless name. */
  lemma LinkedExactly(items: View, folder: string, id: string)
    ensures Linked(items, id) <==> id in items && items[id].kind != Root && items[id].parent != "" && HarmlessName(items[id].name)
    ensures id != folder && PathOf(items, folder, id).Some? ==> Linked(items, id)
  {
    PathStep(items, folder, id);
  }

  // ----- cycles ---------------------------------------------------------------------

  /** `n` steps up the parent chain from `id` lead to `top`, by way of linked items other than the folder. */
  predicate Climbs(items: View, folder: string, id: string, n: nat, top: string)
    decreases n
  {
    if n == 0 then id == top
    else id != folder && Linked(items, id) && Climbs(items, folder, items[id].parent, n - 1, top)
  }

  lemma {:induction false} ClimbTakesSteps(items: View, folder: string, id: string, n: nat, top: string, k: nat)
    requires Climbs(items, folder, id, n, top) && Reaches(items, folder, id, k)
    ensures n <= k && Reaches(items, folder, top, k - n)
    decreases n
  {
    if n > 0 {
      ClimbTakesSteps(items, folder, items[id].parent, n - 1, top, k - 1);
    }
  }

  /** An item whose chain comes back to it, at any distance, has no path. */
  lemma CycleHasNoPath(items: View, folder: string, id: string, n: nat)
    requires n > 0 && Climbs(items, folder, id, n, id)
    ensures PathOf(items, folder, id) == None
  {
    if k: nat :| Reaches(items, folder, id, k) {
      ClimbTakesSteps(items, folder, id, n, id, k);
      ReachesOnce(items, folder, id, k, k - n);
    }
  }

  // ----- the resolver -----------------------------------------------------------------

  type Cache = map<string, Option<string>>

  datatype Answer = Answer(path: Option<string>, cache: Cache)

  function NewCache(folder: string): Cache { map[folder := Some("")] }

  /** `path_of`: the answer, and the cache it leaves -- which also remembers where it gave up. */
  function Look(items: View, cache: Cache, id: string, depth: nat): Answer
    requires depth <= MAX_DEPTH
    decreases MAX_DEPTH - depth
  {
    if id in cache then Answer(cache[id], cache)
    else if depth < MAX_DEPTH && Linked(items, id) then
      var above := Look(items, cache, items[id].parent, depth + 1);
      var path := if above.path.Some? then Some(Join(above.path.value, items[id].name)) else None;
      Answer(path, above.cache[id := path])
    else Answer(None, cache[id := None])
  }

  class PathResolver {
    const items: View
    var cache: Cache

    constructor (items: View, folder: string)
      ensures this.items == items && cache == NewCache(folder)
    {
      this.items, cache := items, map[folder := Some("")];
    }

    /** `path_of`, on the shared cache. */
    method Resolve(id: string, depth: nat) returns (path: Option<string>)
      requires depth <= MAX_DEPTH
      modifies this
      ensures Answer(path, cache) == Look(items, old(cache), id, depth)
      decreases MAX_DEPTH - depth
    {
      if id in cache {
        return cache[id];
      }
      path := None;
      if depth < MAX_DEPTH && Linked(items, id) {
        var above := Resolve(items[id].parent, depth + 1);
        if above.Some? {
          path := Some(Join(above.value, items[id].name));
        }
      }
      cache := cache[id := path];
    }
  }

  /** A path the cache holds is the item's path. */
  ghost predicate Sound(items: View, folder: string, cache: Cache) {
    && folder in cache && cache[folder] == Some("")
    && forall id :: id in cache && cache[id].Some? ==> cache[id] == PathOf(items, folder, id)
  }

  /** And what it holds as having no path has none. */
  ghost predicate Exact(items: View, folder: string, cache: Cache) {
    Sound(items, folder, cache) && forall id :: id in cache ==> cache[id] == PathOf(items, folder, id)
  }

  /** Nothing but the folder itself has a path in the cache. */
  ghost predicate Barren(folder: string, cache: Cache) {
    folder in cache && cache[folder] == Some("") && forall id :: id in cache && id != folder ==> cache[id] == None
  }

  lemma NewCacheIsExact(items: View, folder: string)
    ensures Exact(items, folder, NewCache(folder)) && Barren(folder, NewCache(folder))
  {
    PathStep(items, folder, folder);
  }

  /** Asked for at `depth`, an item that has a path is within the bound. */
  ghost predicate Within(items: View, folder: string, id: string, depth: nat) {
    forall k: nat :: Reaches(items, folder, id, k) ==> depth + k <= 256
  }

  /** It has a path, beyond the bound. */
  ghost predicate Beyond(items: View, folder: string, id: string, depth: nat) {
    exists k: nat :: Reaches(items, folder, id, k) && depth + k > 256
  }

  /** Whatever was asked before, an answer is never a wrong path. */
  lemma {:induction false} NeverWrong(items: View, folder: string, cache: Cache, id: string, depth: nat)
    requires Sound(items, folder, cache) && depth <= MAX_DEPTH
    ensures var a := Look(items, cache, id, depth);
            && Sound(items, folder, a.cache) && id in a.cache && a.cache[id] == a.path
            && (a.path.Some? ==> a.path == PathOf(items, folder, id))
            && (forall x :: x in cache ==> x in a.cache && a.cache[x] == cache[x])
    decreases MAX_DEPTH - depth
  {
    if id !in cache && depth < MAX_DEPTH && Linked(items, id) {
      PathStep(items, folder, id);
      NeverWrong(items, folder, cache, items[id].parent, depth + 1);
    }
  }

  lemma WithinParent(items: View, folder: string, id: string, depth: nat)
    requires id != folder && Linked(items, id) && Within(items, folder, id, depth)
    ensures Within(items, folder, items[id].parent, depth + 1)
  {
    forall k: nat | Reaches(items, folder, items[id].parent, k) ensures depth + 1 + k <= MAX_DEPTH {
      assert Reaches(items, folder, id, k + 1);
    }
  }

  /** Within the bound an exact cache gives the item's path and stays exact. */
  lemma {:induction false} RightWithin(items: View, folder: string, cache: Cache, id: string, depth: nat)
    requires Exact(items, folder, cache) && depth <= MAX_DEPTH && Within(items, folder, id, depth)
    ensures var a := Look(items, cache, id, depth);
            Exact(items, folder, a.cache) && a.path == PathOf(items, folder, id)
    decreases MAX_DEPTH - depth
  {
    PathStep(items, folder, id);
    if id !in cache {
      if depth < MAX_DEPTH && Linked(items, id) {
        WithinParent(items, folder, id, depth);
        RightWithin(items, folder, cache, items[id].parent, depth + 1);
      } else {
        assert forall k: nat :: !Reaches(items, folder, id, k);
      }
    }
  }

  /** Beyond the bound a barren cache gives nothing and stays barren. */
  lemma {:induction false} NothingBeyond(items: View, folder: string, cache: Cache, id: string, depth: nat)
    requires Barren(folder, cache) && depth <= MAX_DEPTH && Beyond(items, folder, id, depth)
    ensures var a := Look(items, cache, id, depth);
            Barren(folder, a.cache) && a.path == None
    decreases MAX_DEPTH - depth
  {
    var k: nat :| Reaches(items, folder, id, k) && depth + k > MAX_DEPTH;
    if id !in cache && depth < MAX_DEPTH {
      assert Reaches(items, folder, items[id].parent, k - 1);
      NothingBeyond(items, folder, cache, items[id].parent, depth + 1);
    }
  }

  /** Asked first, an item gets its path exactly when its chain is not longer than the bound. */
  lemma FirstAnswer(items: View, folder: string, id: string)
    ensures Look(items, NewCache(folder), id, 0).path == PathOf(items, folder, id) <==> Within(items, folder, id, 0)
  {
    NewCacheIsExact(items, folder);
    if Within(items, folder, id, 0) {
      RightWithin(items, folder, NewCache(folder), id, 0);
    } else {
      var k: nat :| Reaches(items, folder, id, k) && 0 + k > MAX_DEPTH;
      NothingBeyond(items, folder, NewCache(folder), id, 0);
      PathFound(items, folder, id, k);
    }
  }

  /** The cache after a sequence of questions. */
  function Asked(items: View, folder: string, ids: seq<string>): Cache {
    if ids == [] then NewCache(folder)
    else Look(items, Asked(items, folder, ids[..|ids| - 1]), ids[|ids| - 1], 0).cache
  }

  /** While nothing beyond the bound was asked for, every answer is right, in any order of questions. */
  lemma {:induction false} Answers(items: View, folder: string, ids: seq<string>, id: string)
    requires Within(items, folder, id, 0) && forall x :: x in ids ==> Within(items, folder, x, 0)
    ensures Exact(items, folder, Asked(items, folder, ids))
    ensures Look(items, Asked(items, folder, ids), id, 0).path == PathOf(items, folder, id)
    decreases |ids|
  {
    if ids == [] {
      NewCacheIsExact(items, folder);
    } else {
      var init, last := ids[..|ids| - 1], ids[|ids| - 1];
      assert last in ids && forall x :: x in init ==> x in ids;
      Answers(items, folder, init, last);
      RightWithin(items, folder, Asked(items, folder, init), last, 0);
    }
    RightWithin(items, folder, Asked(items, folder, ids), id, 0);
  }

  // ----- answers that spoil later ones ----------------------------------------------------

  /** The first `n` items of the chain of `id` have not been asked for. */
  predicate Unasked(items: View, cache: Cache, id: string, n: nat)
    decreases n
  {
    n == 0 || (id !in cache && (id in items ==> Unasked(items, cache, items[id].parent, n - 1)))
  }

  lemma {:induction false} ChainUnasked(items: View, folder: string, id: string, k: nat)
    requires Reaches(items, folder, id, k)
    ensures Unasked(items, NewCache(folder), id, k)
    decreases k
  {
    if k > 0 {
      ChainUnasked(items, folder, items[id].parent, k - 1);
    }
  }

  /** Asking for an item asks for its ancestors up to the bound, and for nothing else. */
  lemma {:induction false} AskedAncestors(items: View, folder: string, cache: Cache, id: string, depth: nat, n: nat, a: string, k: nat)
    requires depth <= MAX_DEPTH && Climbs(items, folder, id, n, a) && Reaches(items, folder, a, k) && k > 0
    requires Unasked(items, cache, id, n + k)
    ensures a in Look(items, cache, id, depth).cache <==> depth + n <= MAX_DEPTH
    ensures depth + n > MAX_DEPTH ==> Unasked(items, Look(items, cache, id, depth).cache, a, k)
    decreases n
  {
    ClimbUnasked(items, folder, cache, id, n, a, k);
    if n == 0 {
    } else if depth == MAX_DEPTH {
      StillUnasked(items, folder, cache, id, None, a, n, k);
    } else {
      AskedAncestors(items, folder, cache, items[id].parent, depth + 1, n - 1, a, k);
      var above := Look(items, cache, items[id].parent, depth + 1);
      NotItsAncestor(items, folder, id, n, a, k);
      if depth + n > MAX_DEPTH {
        StillUnasked(items, folder, above.cache, id, Look(items, cache, id, depth).path, a, n, k);
      }
    }
  }

  lemma {:induction false} ClimbUnasked(items: View, folder: string, cache: Cache, id: string, n: nat, a: string, k: nat)
    requires Climbs(items, folder, id, n, a) && Unasked(items, cache, id, n + k)
    ensures Unasked(items, cache, a, k)
    decreases n
  {
    if n > 0 {
      ClimbUnasked(items, folder, cache, items[id].parent, n - 1, a, k);
    }
  }

  lemma NotItsAncestor(items: View, folder: string, id: string, n: nat, a: string, k: nat)
    requires n > 0 && Climbs(items, folder, id, n, a) && Reaches(items, folder, a, k)
    ensures id != a
  {
    if id == a {
      CycleHasNoPath(items, folder, a, n);
      PathFound(items, folder, a, k);
    }
  }

  /** An entry for a descendant leaves an ancestor's chain unasked. */
  lemma {:induction false} StillUnasked(items: View, folder: string, cache: Cache, id: string, path: Option<string>,
                                        a: string, n: nat, k: nat)
    requires n > 0 && Climbs(items, folder, id, n, a) && Reaches(items, folder, a, k) && Unasked(items, cache, a, k)
    ensures Unasked(items, cache[id := path], a, k)
    decreases k
  {
    if k > 0 {
      NotItsAncestor(items, folder, id, n, a, k);
      ClimbOne(items, folder, id, n, a);
      StillUnasked(items, folder, cache, id, path, items[a].parent, n + 1, k - 1);
    }
  }

  lemma {:induction false} ClimbOne(items: View, folder: string, id: string, n: nat, a: string)
    requires Climbs(items, folder, id, n, a) && a != folder && Linked(items, a)
    ensures Climbs(items, folder, id, n + 1, items[a].parent)
    decreases n
  {
    if n > 0 {
      ClimbOne(items, folder, items[id].parent, n - 1, a);
    }
  }

  /** With its chain unasked, an item within the bound gets its path. */
  lemma {:induction false} RightWhenUnasked(items: View, folder: string, cache: Cache, id: string, depth: nat, k: nat)
    requires folder in cache && cache[folder] == Some("")
    requires Reaches(items, folder, id, k) && Unasked(items, cache, id, k) && depth + k <= MAX_DEPTH
    ensures Look(items, cache, id, depth).path == Some(PathAt(items, folder, id, k))
    decreases k
  {
    if k > 0 {
      RightWhenUnasked(items, folder, cache, items[id].parent, depth + 1, k - 1);
    }
  }

  /**
    Asked after an item `n` steps below it whose chain is beyond the bound, an item within the bound gets
    its path exactly when it is too far up to have been asked for on the way.
   */
  lemma DeepItemSpoilsAncestors(items: View, folder: string, x: string, n: nat, a: string, k: nat)
    requires Climbs(items, folder, x, n, a) && Reaches(items, folder, a, k) && 0 < k <= MAX_DEPTH < n + k
    ensures Within(items, folder, a, 0) && PathOf(items, folder, a).Some?
    ensures Look(items, Look(items, NewCache(folder), x, 0).cache, a, 0).path == PathOf(items, folder, a) <==> n > MAX_DEPTH
  {
    ClimbReaches(items, folder, x, n, a, k);
    ChainUnasked(items, folder, x, n + k);
    AskedAncestors(items, folder, NewCache(folder), x, 0, n, a, k);
    PathFound(items, folder, a, k);
    forall m: nat | Reaches(items, folder, a, m) ensures m == k { ReachesOnce(items, folder, a, k, m); }
    NewCacheIsExact(items, folder);
    NeverWrong(items, folder, NewCache(folder), x, 0);
    if n > MAX_DEPTH {
      RightWhenUnasked(items, folder, Look(items, NewCache(folder), x, 0).cache, a, 0, k);
    } else {
      assert Beyond(items, folder, x, 0);
      NothingBeyond(items, folder, NewCache(folder), x, 0);
    }
  }

  lemma {:induction false} ClimbReaches(items: View, folder: string, x: string, n: nat, a: string, k: nat)
    requires Climbs(items, folder, x, n, a) && Reaches(items, folder, a, k)
    ensures Reaches(items, folder, x, n + k)
    decreases n
  {
    if n > 0 {
      ClimbReaches(items, folder, items[x].parent, n - 1, a, k);
    }
  }

  /** A drive that is one line of `n` folders, and its member at depth `i`; the configured folder is at depth 0. */
  function Member(i: nat): string { Repeat('x', i + 1) }

  function Line(n: nat): View {
    if n == 0 then map[] else Line(n - 1)[Member(n) := Record("n", Member(n - 1), Folder, 0, "", "")]
  }

  lemma {:induction false} LineHas(n: nat, i: nat)
    ensures Member(i) in Line(n) <==> 1 <= i <= n
    ensures 1 <= i <= n ==> Line(n)[Member(i)] == Record("n", Member(i - 1), Folder, 0, "", "")
    decreases n
  {
    if n > 0 {
      LineHas(n - 1, i);
      assert |Member(i)| == i + 1 && |Member(n)| == n + 1;
    }
  }

  lemma {:induction false} LineReaches(n: nat, i: nat)
    requires i <= n
    ensures Reaches(Line(n), Member(0), Member(i), i)
    decreases i
  {
    if i > 0 {
      LineHas(n, i);
      assert |Member(i)| == i + 1 && |Member(0)| == 1 && |Member(i - 1)| == i;
      LineReaches(n, i - 1);
    }
  }

  lemma {:induction false} LineClimbs(n: nat, i: nat, j: nat)
    requires 1 <= i <= j <= n
    ensures Climbs(Line(n), Member(0), Member(j), j - i, Member(i))
    decreases j
  {
    if i < j {
      LineHas(n, j);
      assert |Member(j)| == j + 1 && |Member(0)| == 1 && |Member(j - 1)| == j;
      LineClimbs(n, i, j - 1);
    }
  }

  /** On a line of 257 folders, asking for the last one leaves the first without its path. */
  lemma DeepestSpoilsFirst()
    ensures var items := Line(MAX_DEPTH + 1);
            && PathOf(items, Member(0), Member(1)).Some? && Within(items, Member(0), Member(1), 0)
            && Look(items, Look(items, NewCache(Member(0)), Member(MAX_DEPTH + 1), 0).cache, Member(1), 0).path
               != PathOf(items, Member(0), Member(1))
  {
    LineReaches(MAX_DEPTH + 1, 1);
    LineClimbs(MAX_DEPTH + 1, 1, MAX_DEPTH + 1);
    DeepItemSpoilsAncestors(Line(MAX_DEPTH + 1), Member(0), Member(MAX_DEPTH + 1), MAX_DEPTH, Member(1), 1);
  }

  // ----- files ------------------------------------------------------------------------

  /** `id` is a file at `rel` below the folder. */
  ghost predicate FileAt(items: View, folder: string, rel: string, id: string) {
    id in items && items[id].kind == File && rel != "" && PathOf(items, folder, id) == Some(rel)
  }

  /** No two files of the drive share a path. */
  ghost predicate OneFilePerPath(items: View, folder: string) {
    forall rel, a, b :: FileAt(items, folder, rel, a) && FileAt(items, folder, rel, b) ==> a == b
  }

  datatype Listing = Listing(files: map<string, string>, cache: Cache)

  function ListOne(items: View, l: Listing, id: string): Listing {
    if id !in items || items[id].kind != File then l
    else
      var a := Look(items, l.cache, id, 0);
      Listing(if a.path.Some? && a.path.value != "" then l.files[a.path.value := id] else l.files, a.cache)
  }

  /** The listing when the dictionary is walked in the order `ids`. */
  function Listed(items: View, folder: string, ids: seq<string>): Listing {
    if ids == [] then Listing(map[], NewCache(folder))
    else ListOne(items, Listed(items, folder, ids[..|ids| - 1]), ids[|ids| - 1])
  }

  /** `files`: relative path to item. */
  method Files(items: View, folder: string, ids: seq<string>) returns (files: map<string, string>)
    requires forall id :: id in ids ==> id in items
    ensures files == Listed(items, folder, ids).files
  {
    var resolver := new PathResolver(items, folder);
    files := map[];
    for i := 0 to |ids|
      invariant fresh(resolver) && resolver.items == items
      invariant Listing(files, resolver.cache) == Listed(items, folder, ids[..i])
    {
      assert ids[..i + 1][..i] == ids[..i];
      if items[ids[i]].kind == File {
        var rel := resolver.Resolve(ids[i], 0);
        if rel.Some? && rel.value != "" {
          files := files[rel.value := ids[i]];
        }
      }
    }
    assert ids[..|ids|] == ids;
  }

  /** An order of the dictionary: every key once. */
  ghost predicate Orders(ids: seq<string>, items: View) {
    (forall id :: id in ids <==> id in items) && forall i, j :: 0 <= i < j < |ids| ==> ids[i] != ids[j]
  }

  /** In every order, what is listed are files at their paths. */
  lemma {:induction false} ListedAreFiles(items: View, folder: string, ids: seq<string>)
    ensures var l := Listed(items, folder, ids);
            Sound(items, folder, l.cache) && forall rel :: rel in l.files ==> FileAt(items, folder, rel, l.files[rel])
    decreases |ids|
  {
    if ids == [] {
      NewCacheIsExact(items, folder);
    } else {
      ListedAreFiles(items, folder, ids[..|ids| - 1]);
      NeverWrong(items, folder, Listed(items, folder, ids[..|ids| - 1]).cache, ids[|ids| - 1], 0);
    }
  }

  /** No file's chain is longer than the bound. */
  ghost predicate FilesWithin(items: View, folder: string) {
    forall id :: id in items && items[id].kind == File ==> Within(items, folder, id, 0)
  }

  /** No path of a file is missing. */
  ghost predicate Complete(items: View, folder: string, files: map<string, string>) {
    forall rel, id :: FileAt(items, folder, rel, id) ==> rel in files
  }

  lemma {:induction false} ListedWithin(items: View, folder: string, ids: seq<string>)
    requires FilesWithin(items, folder)
    ensures var l := Listed(items, folder, ids);
            Exact(items, folder, l.cache) && forall rel, id :: id in ids && FileAt(items, folder, rel, id) ==> rel in l.files
    decreases |ids|
  {
    if ids == [] {
      NewCacheIsExact(items, folder);
    } else {
      var init, last := ids[..|ids| - 1], ids[|ids| - 1];
      ListedWithin(items, folder, init);
      assert ids == init + [last];
      if last in items && items[last].kind == File {
        RightWithin(items, folder, Listed(items, folder, init).cache, last, 0);
      }
    }
  }

  lemma {:induction false} ListedBeyond(items: View, folder: string, ids: seq<string>)
    requires forall id :: id in ids ==> Beyond(items, folder, id, 0)
    ensures var l := Listed(items, folder, ids); Barren(folder, l.cache) && l.files == map[]
    decreases |ids|
  {
    if ids == [] {
      NewCacheIsExact(items, folder);
    } else {
      var init, last := ids[..|ids| - 1], ids[|ids| - 1];
      assert forall id :: id in init ==> id in ids;
      ListedBeyond(items, folder, init);
      assert last in ids;
      NothingBeyond(items, folder, Listed(items, folder, init).cache, last, 0);
    }
  }

  ghost predicate AllFrom(files: map<string, string>, ids: seq<string>) { forall rel :: rel in files ==> files[rel] in ids }

  lemma FromMore(items: View, l: Listing, init: seq<string>, last: string)
    requires AllFrom(l.files, init)
    ensures AllFrom(ListOne(items, l, last).files, init + [last])
  {
    var files := ListOne(items, l, last).files;
    forall rel | rel in files ensures files[rel] in init + [last] {
      if rel in l.files && files[rel] == l.files[rel] {
        assert l.files[rel] in init;
      } else {
        assert files[rel] == last;
      }
    }
  }

  /** What is listed after a start that listed nothing belongs to items asked for since. */
  lemma {:induction false} ListedFromRest(items: View, folder: string, first: seq<string>, rest: seq<string>)
    requires Listed(items, folder, first).files == map[]
    ensures AllFrom(Listed(items, folder, first + rest).files, rest)
    decreases |rest|
  {
    if rest == [] {
      assert first + rest == first;
    } else {
      var init, last := rest[..|rest| - 1], rest[|rest| - 1];
      assert rest == init + [last];
      assert (first + rest)[..|first + rest| - 1] == first + init;
      ListedFromRest(items, folder, first, init);
      FromMore(items, Listed(items, folder, first + init), init, last);
    }
  }

  function Slashes(s: string): nat {
    if s == "" then 0 else Slashes(s[..|s| - 1]) + if s[|s| - 1] == '/' then 1 else 0
  }

  lemma {:induction false} SlashesAppend(a: string, b: string)
    ensures Slashes(a + b) == Slashes(a) + Slashes(b)
    decreases |b|
  {
    if b == "" {
      assert a + b == a;
    } else {
      assert (a + b)[..|a + b| - 1] == a + b[..|b| - 1];
      SlashesAppend(a, b[..|b| - 1]);
    }
  }

  lemma {:induction false} NoSlashes(s: string)
    requires '/' !in s
    ensures Slashes(s) == 0
  {
    if s != "" {
      NoSlashes(s[..|s| - 1]);
    }
  }

  /** A path has one component for every step of its chain. */
  lemma {:induction false} PathSlashes(items: View, folder: string, id: string, k: nat)
    requires Reaches(items, folder, id, k) && k > 0
    ensures PathAt(items, folder, id, k) != "" && Slashes(PathAt(items, folder, id, k)) == k - 1
    decreases k
  {
    var name := items[id].name;
    NoSlashes(name);
    if k > 1 {
      PathSlashes(items, folder, items[id].parent, k - 1);
      var above := PathAt(items, folder, items[id].parent, k - 1);
      SlashesAppend(above, "/");
      SlashesAppend(above + "/", name);
      assert "/"[..0] == "";
      assert Slashes("/") == Slashes("/"[..0]) + 1;
    }
  }

  lemma SamePathSameDepth(items: View, folder: string, rel: string, a: string, b: string, k: nat)
    requires FileAt(items, folder, rel, a) && FileAt(items, folder, rel, b) && Reaches(items, folder, a, k)
    ensures Reaches(items, folder, b, k)
  {
    var m: nat :| Reaches(items, folder, b, m);
    PathFound(items, folder, a, k);
    PathFound(items, folder, b, m);
    PathSlashes(items, folder, a, k);
    PathSlashes(items, folder, b, m);
  }

  lemma {:induction false} SomeOrder(ids: set<string>) returns (order: seq<string>)
    ensures (forall id :: id in order <==> id in ids) && forall i, j :: 0 <= i < j < |order| ==> order[i] != order[j]
    decreases ids
  {
    if ids == {} {
      order := [];
    } else {
      var id :| id in ids;
      var rest := SomeOrder(ids - {id});
      order := [id] + rest;
      assert forall i :: 0 < i < |order| ==> order[i] == rest[i - 1] && order[i] in rest;
    }
  }

  /** When a file's chain is beyond the bound, there is an order that does not list its path. */
  lemma DeepFileIsMissed(items: View, folder: string, rel: string, id: string, k: nat) returns (ids: seq<string>)
    requires FileAt(items, folder, rel, id) && Reaches(items, folder, id, k) && k > MAX_DEPTH
    ensures Orders(ids, items) && rel !in Listed(items, folder, ids).files
  {
    var deep := set x | x in items && items[x].kind == File && Beyond(items, folder, x, 0);
    var first := SomeOrder(deep);
    var rest := SomeOrder(items.Keys - deep);
    ids := first + rest;
    assert forall i :: 0 <= i < |first| ==> first[i] in deep;
    assert forall i :: 0 <= i < |rest| ==> rest[i] in items.Keys - deep;
    ListedBeyond(items, folder, first);
    ListedFromRest(items, folder, first, rest);
    ListedAreFiles(items, folder, ids);
    if rel in Listed(items, folder, ids).files {
      var other := Listed(items, folder, ids).files[rel];
      SamePathSameDepth(items, folder, rel, id, other, k);
      assert Beyond(items, folder, other, 0);
    }
  }

  /**
    No path of a file is missing, in whatever order the dictionary is walked, exactly when no file's
    chain is longer than the bound.
   */
  lemma EveryOrderIsComplete(items: View, folder: string)
    ensures (forall ids :: Orders(ids, items) ==> Complete(items, folder, Listed(items, folder, ids).files))
       <==> FilesWithin(items, folder)
  {
    if FilesWithin(items, folder) {
      forall ids | Orders(ids, items) ensures Complete(items, folder, Listed(items, folder, ids).files) {
        ListedWithin(items, folder, ids);
      }
    } else {
      var id, k: nat :| id in items && items[id].kind == File && Reaches(items, folder, id, k) && 0 + k > MAX_DEPTH;
      PathFound(items, folder, id, k);
      PathSlashes(items, folder, id, k);
      var rel := PathOf(items, folder, id).value;
      assert FileAt(items, folder, rel, id);
      var ids := DeepFileIsMissed(items, folder, rel, id, k);
      assert !Complete(items, folder, Listed(items, folder, ids).files);
    }
  }

  // ----- renaming a folder ----------------------------------------------------------

  function Renamed(items: View, f: string, name: string): View
    requires f in items
  {
    items[f := items[f].(name := name)]
  }

  /** The chain of `id` runs through `f`, or `id` is `f`. */
  predicate Under(items: View, folder: string, f: string, id: string, k: nat)
    requires Reaches(items, folder, id, k)
    decreases k
  {
    id != folder && (id == f || Under(items, folder, f, items[id].parent, k - 1))
  }

  /** The part of a path below `f`. */
  function Tail(items: View, folder: string, f: string, id: string, k: nat): string
    requires Reaches(items, folder, id, k) && Under(items, folder, f, id, k)
    decreases k
  {
    if id == f then "" else Tail(items, folder, f, items[id].parent, k - 1) + "/" + items[id].name
  }

  lemma {:induction false} RenamedReaches(items: View, folder: string, f: string, name: string, id: string, k: nat)
    requires f in items && SafeName(items[f].name) && SafeName(name)
    ensures Reaches(Renamed(items, f, name), folder, id, k) <==> Reaches(items, folder, id, k)
    decreases k
  {
    if id != folder && k > 0 && Linked(items, id) {
      RenamedReaches(items, folder, f, name, items[id].parent, k - 1);
    }
  }

  lemma {:induction false} RenamedElsewhere(items: View, folder: string, f: string, name: string, id: string, k: nat)
    requires f in items && SafeName(items[f].name) && SafeName(name) && Reaches(items, folder, id, k)
    requires !Under(items, folder, f, id, k)
    ensures Reaches(Renamed(items, f, name), folder, id, k)
    ensures PathAt(Renamed(items, f, name), folder, id, k) == PathAt(items, folder, id, k)
    decreases k
  {
    RenamedReaches(items, folder, f, name, id, k);
    if id != folder {
      RenamedElsewhere(items, folder, f, name, items[id].parent, k - 1);
    }
  }

  lemma {:induction false} PathThrough(items: View, folder: string, f: string, id: string, k: nat)
    requires Reaches(items, folder, id, k) && Under(items, folder, f, id, k) && f != folder
    ensures PathOf(items, folder, f).Some? && PathOf(items, folder, f).value != ""
    ensures PathAt(items, folder, id, k) == PathOf(items, folder, f).value + Tail(items, folder, f, id, k)
    decreases k
  {
    if id == f {
      PathFound(items, folder, id, k);
      assert PathAt(items, folder, id, k) + "" == PathAt(items, folder, id, k);
    } else {
      PathThrough(items, folder, f, items[id].parent, k - 1);
    }
  }

  lemma {:induction false} RenamedTail(items: View, folder: string, f: string, name: string, id: string, k: nat)
    requires f in items && SafeName(items[f].name) && SafeName(name)
    requires Reaches(items, folder, id, k) && Under(items, folder, f, id, k)
    ensures Reaches(Renamed(items, f, name), folder, id, k)
    ensures Under(Renamed(items, f, name), folder, f, id, k)
    ensures Tail(Renamed(items, f, name), folder, f, id, k) == Tail(items, folder, f, id, k)
    decreases k
  {
    RenamedReaches(items, folder, f, name, id, k);
    if id != f {
      RenamedTail(items, folder, f, name, items[id].parent, k - 1);
    }
  }

  lemma SamePrefixOnly(parent: string, a: string, b: string, tail: string)
    requires Join(parent, a) + tail == Join(parent, b) + tail
    ensures a == b
  {
    var x, y := Join(parent, a), Join(parent, b);
    assert (x + tail)[..|x|] == x && (y + tail)[..|y|] == y;
    var n := if parent == "" then 0 else |parent| + 1;
    assert x[n..] == a && y[n..] == b;
  }

  /**
    Renaming one folder gives every item below it, at any depth, its old path with the folder's
    path exchanged, changes no other path, and leaves the same items without a path.
   */
  lemma RenameMovesSubtree(items: View, folder: string, f: string, name: string, id: string)
    requires f in items && f != folder && SafeName(items[f].name) && SafeName(name)
    ensures PathOf(Renamed(items, f, name), folder, id).Some? <==> PathOf(items, folder, id).Some?
    ensures forall k: nat | Reaches(items, folder, id, k) ::
      var now := Renamed(items, f, name);
      if Under(items, folder, f, id, k) then
        var tail := Tail(items, folder, f, id, k);
        && PathOf(items, folder, f).Some? && PathOf(now, folder, f).Some?
        && PathOf(items, folder, id) == Some(PathOf(items, folder, f).value + tail)
        && PathOf(now, folder, id) == Some(PathOf(now, folder, f).value + tail)
        && (name != items[f].name ==> PathOf(now, folder, id) != PathOf(items, folder, id))
      else PathOf(now, folder, id) == PathOf(items, folder, id)
  {
    var now := Renamed(items, f, name);
    forall k: nat ensures Reaches(now, folder, id, k) <==> Reaches(items, folder, id, k) {
      RenamedReaches(items, folder, f, name, id, k);
    }
    forall k: nat | Reaches(items, folder, id, k)
      ensures if Under(items, folder, f, id, k) then
                var tail := Tail(items, folder, f, id, k);
                && PathOf(items, folder, f).Some? && PathOf(now, folder, f).Some?
                && PathOf(items, folder, id) == Some(PathOf(items, folder, f).value + tail)
                && PathOf(now, folder, id) == Some(PathOf(now, folder, f).value + tail)
                && (name != items[f].name ==> PathOf(now, folder, id) != PathOf(items, folder, id))
              else PathOf(now, folder, id) == PathOf(items, folder, id)
    {
      PathFound(items, folder, id, k);
      PathFound(now, folder, id, k);
      if Under(items, folder, f, id, k) {
        RenamedTail(items, folder, f, name, id, k);
        PathThrough(items, folder, f, id, k);
        PathThrough(now, folder, f, id, k);
        RenamedOwnPath(items, folder, f, name);
        if PathOf(now, folder, id) == PathOf(items, folder, id) {
          var above := PathOf(items, folder, items[f].parent).value;
          SamePrefixOnly(above, name, items[f].name, Tail(items, folder, f, id, k));
        }
      } else {
        RenamedElsewhere(items, folder, f, name, id, k);
      }
    }
  }

  /** The renamed folder's own path: the same parent path, the new name. */
  lemma RenamedOwnPath(items: View, folder: string, f: string, name: string)
    requires f in items && f != folder && SafeName(items[f].name) && SafeName(name)
    requires PathOf(items, folder, f).Some?
    ensures var above := PathOf(items, folder, items[f].parent);
            && above.Some?
            && PathOf(items, folder, f) == Some(Join(above.value, items[f].name))
            && PathOf(Renamed(items, f, name), folder, f) == Some(Join(above.value, name))
  {
    var now := Renamed(items, f, name);
    PathStep(items, folder, f);
    PathStep(now, folder, f);
    var parent := items[f].parent;
    var k: nat :| Reaches(items, folder, parent, k);
    PathFound(items, folder, parent, k);
    if Under(items, folder, f, parent, k) {
      UnderClimbs(items, folder, f, parent, k);
      var n: nat :| Climbs(items, folder, parent, n, f);
      assert Climbs(items, folder, f, n + 1, f);
      CycleHasNoPath(items, folder, f, n + 1);
      assert false;
    } else {
      RenamedElsewhere(items, folder, f, name, parent, k);
      PathFound(now, folder, parent, k);
    }
  }

  lemma {:induction false} UnderClimbs(items: View, folder: string, f: string, id: string, k: nat)
    requires Reaches(items, folder, id, k) && Under(items, folder, f, id, k)
    ensures exists n: nat :: Climbs(items, folder, id, n, f)
    decreases k
  {
    if id == f {
      assert Climbs(items, folder, id, 0, f);
    } else {
      UnderClimbs(items, folder, f, items[id].parent, k - 1);
      var n: nat :| Climbs(items, folder, items[id].parent, n, f);
      assert Climbs(items, folder, id, n + 1, f);
    }
  }
}
