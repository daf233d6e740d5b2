/**
  Folders that lie apart: what a walk has seen, what it has stacked and what a stop made it
  leave out never overlap in a share without duplicate names.
 */
module Apart {
  import opened Prelude
  import opened Sorting
  import opened Share

  /** Neither path lies at or below the other. */
  predicate Incomparable(a: Path, b: Path) { !(a <= b) && !(b <= a) }

  lemma BelowIncomparable(a: Path, b: Path, f: Path)
    requires Incomparable(a, b) && b <= f
    ensures Incomparable(a, f)
  {
  }

  lemma SiblingsIncomparable(path: Path, a: string, b: string)
    requires a != b
    ensures Incomparable(path + [a], path + [b])
  {
    assert (path + [a])[|path|] == a && (path + [b])[|path|] == b;
  }

  lemma {:induction false} DistinctAt(entries: seq<Entry>, i: nat, j: nat)
    requires DistinctNames(entries) && i < j < |entries|
    ensures entries[i].name != entries[j].name
    decreases |entries|
  {
    if i > 0 {
      assert entries[1..][i - 1] == entries[i] && entries[1..][j - 1] == entries[j];
      DistinctAt(entries[1..], i - 1, j - 1);
    }
  }

  lemma {:induction false} DistinctInside(entries: seq<Entry>, i: nat)
    requires DistinctNames(entries) && i < |entries| && entries[i].node.Folder?
    ensures DistinctNames(entries[i].node.entries)
    decreases |entries|
  {
    if i > 0 {
      assert entries[1..][i - 1] == entries[i];
      DistinctInside(entries[1..], i - 1);
    }
  }

  /** Two entries of a folder, by index, lie apart. */
  lemma EntriesApart(d: Dir, i: nat, j: nat)
    requires DistinctNames(d.entries) && i < |d.entries| && j < |d.entries| && i != j
    ensures Incomparable(d.path + [d.entries[i].name], d.path + [d.entries[j].name])
  {
    DistinctAt(d.entries, if i < j then i else j, if i < j then j else i);
    SiblingsIncomparable(d.path, d.entries[i].name, d.entries[j].name);
  }

  /** Stacked folders lie apart from one another and from everything seen so far. */
  ghost predicate Tidy(stack: seq<Dir>, seen: set<Path>) {
    && (forall i, j :: 0 <= i < j < |stack| ==> Incomparable(stack[i].path, stack[j].path))
    && (forall q, s :: q in seen && s in stack ==> Incomparable(q, s.path))
    && (forall s :: s in stack ==> DistinctNames(s.entries))
  }

  function Leaf(path: Path, e: Entry): set<Path> { if SubDir(path, e) == [] then {path + [e.name]} else {} }

  /** The entries before `at` that are looked at and not stacked. */
  function Leaves(d: Dir, at: nat): set<Path>
    requires at <= |d.entries|
  {
    set k | 0 <= k < at && SubDir(d.path, d.entries[k]) == [] :: d.path + [d.entries[k].name]
  }

  /** A folder left after the entries before `at`, apart from what is stacked and seen elsewhere. */
  ghost predicate CutApart(rest: seq<Dir>, seen: set<Path>, d: Dir, at: nat) {
    && at <= |d.entries| && DistinctNames(d.entries) && Tidy(rest, seen)
    && (forall s :: s in rest ==> Incomparable(d.path, s.path))
    && (forall q :: q in seen ==> Incomparable(q, d.path) || q in Leaves(d, at))
  }

  lemma {:induction false} SubDirsAre(path: Path, entries: seq<Entry>, s: Dir)
    requires s in SubDirs(path, entries)
    ensures exists k :: 0 <= k < |entries| && SubDir(path, entries[k]) == [s]
  {
    if s in SubDirs(path, entries[1..]) {
      SubDirsAre(path, entries[1..], s);
      var k :| 0 <= k < |entries[1..]| && SubDir(path, entries[1..][k]) == [s];
      assert SubDir(path, entries[k + 1]) == [s];
    } else {
      assert SubDir(path, entries[0]) == [s];
    }
  }

  ghost predicate Pairwise(s: seq<Dir>) {
    forall i, j :: 0 <= i < j < |s| ==> Incomparable(s[i].path, s[j].path)
  }

  lemma PairwiseCons(x: Dir, s: seq<Dir>)
    requires Pairwise(s) && forall y :: y in s ==> Incomparable(x.path, y.path)
    ensures Pairwise([x] + s)
  {
    var r := [x] + s;
    assert forall i :: 0 < i < |r| ==> r[i] == s[i - 1] && r[i] in s;
  }

  lemma {:induction false} SubDirsPairwise(path: Path, entries: seq<Entry>)
    requires DistinctNames(entries)
    ensures Pairwise(SubDirs(path, entries))
  {
    if entries != [] {
      SubDirsPairwise(path, entries[1..]);
      if SubDir(path, entries[0]) != [] {
        var x, rest := SubDir(path, entries[0])[0], SubDirs(path, entries[1..]);
        forall y | y in rest ensures Incomparable(x.path, y.path) {
          SubDirsAre(path, entries[1..], y);
          var k :| 0 <= k < |entries[1..]| && SubDir(path, entries[1..][k]) == [y];
          assert entries[1..][k] == entries[k + 1];
          SiblingsIncomparable(path, entries[0].name, entries[k + 1].name);
        }
        PairwiseCons(x, rest);
      }
    }
  }

  lemma {:induction false} InsertPairwise(x: Dir, s: seq<Dir>)
    requires Pairwise(s) && forall y :: y in s ==> Incomparable(x.path, y.path)
    ensures Pairwise(Insert(x, s, DirLe))
    ensures forall y :: y in Insert(x, s, DirLe) <==> y == x || y in s
  {
    if s == [] {
    } else if DirLe(x, s[0]) {
      PairwiseCons(x, s);
    } else {
      assert s == [s[0]] + s[1..];
      InsertPairwise(x, s[1..]);
      forall y | y in Insert(x, s[1..], DirLe) ensures Incomparable(s[0].path, y.path) {
        if y != x {
          var i :| 0 <= i < |s[1..]| && s[1..][i] == y;
          assert y == s[i + 1];
        }
      }
      PairwiseCons(s[0], Insert(x, s[1..], DirLe));
    }
  }

  lemma {:induction false} SortPairwise(s: seq<Dir>)
    requires Pairwise(s)
    ensures Pairwise(Sort(s, DirLe)) && forall y :: y in Sort(s, DirLe) <==> y in s
  {
    if s != [] {
      assert s == [s[0]] + s[1..];
      SortPairwise(s[1..]);
      forall y | y in Sort(s[1..], DirLe) ensures Incomparable(s[0].path, y.path) {
        var i :| 0 <= i < |s[1..]| && s[1..][i] == y;
        assert y == s[i + 1];
      }
      InsertPairwise(s[0], Sort(s[1..], DirLe));
    }
  }

  // ----- one folder of a walk -----------------------------------------------------------

  lemma TidyParts(rest: seq<Dir>, d: Dir, seen: set<Path>)
    requires Tidy(rest + [d], seen)
    ensures Tidy(rest, seen) && DistinctNames(d.entries)
    ensures forall s :: s in rest ==> Incomparable(d.path, s.path)
    ensures forall q :: q in seen ==> Incomparable(q, d.path)
  {
    var stack := rest + [d];
    assert stack[|rest|] == d && d in stack;
    assert forall s :: s in rest ==> s in stack;
    assert forall i :: 0 <= i < |rest| ==> stack[i] == rest[i];
    forall s | s in rest ensures Incomparable(d.path, s.path) {
      var i :| 0 <= i < |rest| && rest[i] == s;
      assert Incomparable(stack[i].path, stack[|rest|].path);
    }
  }

  lemma TidyUnlistable(rest: seq<Dir>, d: Dir, seen: set<Path>)
    requires Tidy(rest + [d], seen)
    ensures Tidy(rest, seen + {d.path})
  {
    TidyParts(rest, d, seen);
  }

  lemma LeafBelow(d: Dir, at: nat, q: Path) returns (k: nat)
    requires at <= |d.entries| && q in Leaves(d, at)
    ensures k < at && q == d.path + [d.entries[k].name] && SubDir(d.path, d.entries[k]) == [] && d.path <= q
  {
    k :| 0 <= k < at && SubDir(d.path, d.entries[k]) == [] && q == d.path + [d.entries[k].name];
  }

  lemma TidyCut(rest: seq<Dir>, d: Dir, seen: set<Path>, seen': set<Path>, at: nat)
    requires Tidy(rest + [d], seen) && at <= |d.entries| && seen' <= seen + Leaves(d, at)
    ensures CutApart(rest, seen', d, at)
  {
    TidyParts(rest, d, seen);
    forall q, s | q in seen' && s in rest ensures Incomparable(q, s.path) {
      if q !in seen {
        var k := LeafBelow(d, at, q);
        BelowIncomparable(s.path, d.path, q);
      }
    }
  }

  lemma TidyPushed(rest: seq<Dir>, d: Dir, seen: set<Path>, dirs: seq<Dir>)
    requires CutApart(rest, seen, d, |d.entries|) && (dirs == SubDirs(d.path, d.entries) || dirs == [])
    ensures Tidy(rest + Sort(dirs, DirLe), seen)
  {
    SubDirsPairwise(d.path, d.entries);
    SortPairwise(dirs);
    var sorted := Sort(dirs, DirLe);
    forall s | s in sorted
      ensures DistinctNames(s.entries) && d.path <= s.path
      ensures forall t :: t in rest ==> Incomparable(t.path, s.path)
      ensures forall q :: q in seen ==> Incomparable(q, s.path)
    {
      SubDirsAre(d.path, d.entries, s);
      var k :| 0 <= k < |d.entries| && SubDir(d.path, d.entries[k]) == [s];
      DistinctInside(d.entries, k);
      forall t | t in rest ensures Incomparable(t.path, s.path) {
        BelowIncomparable(t.path, d.path, s.path);
      }
      forall q | q in seen ensures Incomparable(q, s.path) {
        if q in Leaves(d, |d.entries|) {
          var m := LeafBelow(d, |d.entries|, q);
          EntriesApart(d, m, k);
        } else {
          BelowIncomparable(q, d.path, s.path);
        }
      }
    }
    JoinPairwise(rest, sorted);
  }

  lemma JoinPairwise(a: seq<Dir>, b: seq<Dir>)
    requires Pairwise(a) && Pairwise(b) && forall s, t :: s in a && t in b ==> Incomparable(s.path, t.path)
    ensures Pairwise(a + b)
  {
    var r := a + b;
    forall i, j | 0 <= i < j < |r| ensures Incomparable(r[i].path, r[j].path) {
      if i < |a| <= j {
        assert r[i] in a && r[j] in b;
      }
    }
  }

  // ----- files ------------------------------------------------------------------------------

  /** The files of a folder that a stop before entry `at` leaves out: behind it, and in every sub-folder before it. */
  ghost function Unseen(d: Dir, at: nat, rec: bool, filter: Filter): set<Path>
    requires at <= |d.entries|
  {
    Scope(d.path, d.entries[at..], rec, filter)
    + if rec then ScopeOf(SubDirs(d.path, d.entries[..at]), rec, filter) else {}
  }

  lemma {:induction false} ScopeHasEntry(path: Path, entries: seq<Entry>, rec: bool, filter: Filter, f: Path) returns (k: nat)
    requires f in Scope(path, entries, rec, filter)
    ensures k < |entries| && path + [entries[k].name] <= f
  {
    if f in ScopeEntry(path, entries[0], rec, filter) {
      ScopeEntryBelow(path, entries[0], rec, filter);
      k := 0;
    } else {
      k := ScopeHasEntry(path, entries[1..], rec, filter, f);
      k := k + 1;
    }
  }

  lemma {:induction false} ScopeHasDir(stack: seq<Dir>, rec: bool, filter: Filter, f: Path) returns (s: Dir)
    requires f in ScopeOf(stack, rec, filter)
    ensures s in stack && s.path <= f
  {
    if f in Scope(stack[0].path, stack[0].entries, rec, filter) {
      ScopeBelow(stack[0].path, stack[0].entries, rec, filter);
      s := stack[0];
    } else {
      s := ScopeHasDir(stack[1..], rec, filter, f);
    }
  }

  /** The entry through which a file is left out: behind the stop, or a sub-folder. */
  lemma UnseenEntry(d: Dir, at: nat, rec: bool, filter: Filter, f: Path) returns (k: nat)
    requires at <= |d.entries| && f in Unseen(d, at, rec, filter)
    ensures k < |d.entries| && d.path + [d.entries[k].name] <= f
    ensures k >= at || SubDir(d.path, d.entries[k]) != []
  {
    if f in Scope(d.path, d.entries[at..], rec, filter) {
      k := ScopeHasEntry(d.path, d.entries[at..], rec, filter, f);
      k := k + at;
    } else {
      var s := ScopeHasDir(SubDirs(d.path, d.entries[..at]), rec, filter, f);
      SubDirsAre(d.path, d.entries[..at], s);
      k :| 0 <= k < at && SubDir(d.path, d.entries[..at][k]) == [s];
    }
  }

  /** What a stop left out was neither found nor noted, and no stacked folder leads to it. */
  lemma UnseenStaysUnseen(rest: seq<Dir>, seen: set<Path>, d: Dir, at: nat, rec: bool, filter: Filter, f: Path)
    requires CutApart(rest, seen, d, at) && f in Unseen(d, at, rec, filter)
    ensures f !in seen && !CouldNotSee(f, seen) && f !in ScopeOf(rest, rec, filter)
  {
    var k := UnseenEntry(d, at, rec, filter, f);
    assert d.path <= d.path + [d.entries[k].name] <= f;
    forall q | q in seen ensures !(q <= f) {
      if q in Leaves(d, at) {
        var m := LeafBelow(d, at, q);
        EntriesApart(d, m, k);
        BelowIncomparable(q, d.path + [d.entries[k].name], f);
      } else {
        BelowIncomparable(q, d.path, f);
      }
    }
    CouldNotSeeExact(f, seen);
    if f in ScopeOf(rest, rec, filter) {
      var s := ScopeHasDir(rest, rec, filter, f);
      BelowIncomparable(s.path, d.path, f);
    }
  }
}
