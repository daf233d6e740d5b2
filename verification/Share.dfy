/**
  The share the connector walks: an inductive tree in which any folder may refuse
  to be listed, any entry to tell its kind and any file to be stat'ed.
 */
module Share {
  import opened Prelude
  import opened Sorting
  import opened Strings

  /** Path components below the source; the source itself (".") is the empty path. */
  type Path = seq<string>

  datatype Node =
    | Folder(listable: bool, entries: seq<Entry>)
    | File(size: int, statable: bool)
    | Other

  /** A directory entry; `typed` is false where `is_dir` / `is_file` raise. */
  datatype Entry = Entry(name: string, typed: bool, node: Node)

  /** A folder on the walk's stack. */
  datatype Dir = Dir(path: Path, listable: bool, entries: seq<Entry>)

  /** Extension and globs (`accept`), and the size limit. */
  datatype Filter = Filter(accept: Path -> bool, maxBytes: int)

  // ----- folders ---------------------------------------------------------------

  /** The folders of a stack's subtrees that a walk can reach, with multiplicity. */
  function DirsOf(stack: seq<Dir>, rec: bool): multiset<Path> {
    if stack == [] then multiset{} else Tree(stack[0], rec) + DirsOf(stack[1..], rec)
  }

  /** A folder and everything reachable below it. */
  function Tree(d: Dir, rec: bool): multiset<Path>
    decreases d.entries, 1
  {
    multiset{d.path} + (if rec && d.listable then Below(d.path, d.entries) else multiset{})
  }

  /** The folders reachable through a list of entries. */
  function Below(path: Path, entries: seq<Entry>): multiset<Path>
    decreases entries, 0
  {
    if entries == [] then multiset{}
    else
      var e := entries[0];
      (if e.typed && e.node.Folder? then Tree(Dir(path + [e.name], e.node.listable, e.node.entries), true)
       else multiset{})
      + Below(path, entries[1..])
  }

  /** The sub-folders an entry pushes. */
  function SubDir(path: Path, e: Entry): seq<Dir> {
    if e.typed && e.node.Folder? then [Dir(path + [e.name], e.node.listable, e.node.entries)] else []
  }

  function SubDirs(path: Path, entries: seq<Entry>): seq<Dir> {
    if entries == [] then [] else SubDir(path, entries[0]) + SubDirs(path, entries[1..])
  }

  lemma {:induction false} SubDirsAppend(path: Path, a: seq<Entry>, e: Entry)
    ensures SubDirs(path, a + [e]) == SubDirs(path, a) + SubDir(path, e)
  {
    if a == [] {
      assert a + [e] == [e];
      assert [e][1..] == [];
    } else {
      assert (a + [e])[1..] == a[1..] + [e];
      SubDirsAppend(path, a[1..], e);
    }
  }

  lemma {:induction false} DirsOfAppend(a: seq<Dir>, b: seq<Dir>, rec: bool)
    ensures DirsOf(a + b, rec) == DirsOf(a, rec) + DirsOf(b, rec)
  {
    if a == [] {
      assert a + b == b;
    } else {
      assert (a + b)[1..] == a[1..] + b;
      DirsOfAppend(a[1..], b, rec);
    }
  }

  lemma DirsOfOne(d: Dir, rec: bool)
    ensures DirsOf([d], rec) == Tree(d, rec)
  {
    assert [d][1..] == [];
  }

  /** What a listed folder pushes is what lies below it. */
  lemma {:induction false} SubDirsCover(path: Path, entries: seq<Entry>)
    ensures DirsOf(SubDirs(path, entries), true) == Below(path, entries)
  {
    if entries != [] {
      SubDirsCover(path, entries[1..]);
      DirsOfAppend(SubDir(path, entries[0]), SubDirs(path, entries[1..]), true);
      if SubDir(path, entries[0]) != [] {
        DirsOfOne(SubDir(path, entries[0])[0], true);
      }
    }
  }

  /** `sorted(dir_paths, key=as_posix)`: siblings by name. */
  predicate DirLe(a: Dir, b: Dir) {
    StringLe(if a.path == [] then "" else a.path[|a.path| - 1], if b.path == [] then "" else b.path[|b.path| - 1])
  }

  lemma DirLeOrders()
    ensures TotalPreorder(DirLe)
  {
    StringLeOrders();
  }

  lemma {:induction false} SubDirsBelow(path: Path, entries: seq<Entry>)
    ensures forall d :: d in SubDirs(path, entries) ==> |d.path| == |path| + 1 && path <= d.path
  {
    if entries != [] {
      SubDirsBelow(path, entries[1..]);
    }
  }

  /** Sub-folders are pushed in the order of their names; so the last name is visited first. */
  lemma PushedByName(path: Path, entries: seq<Entry>)
    ensures var pushed := Sort(SubDirs(path, entries), DirLe);
            && multiset(pushed) == multiset(SubDirs(path, entries))
            && (forall i :: 0 <= i < |pushed| ==> |pushed[i].path| == |path| + 1 && path <= pushed[i].path)
            && forall i, j :: 0 <= i < j < |pushed| ==> StringLe(pushed[i].path[|path|], pushed[j].path[|path|])
  {
    var dirs := SubDirs(path, entries);
    DirLeOrders();
    SortSorts(dirs, DirLe);
    SortPermutes(dirs, DirLe);
    SameElements(Sort(dirs, DirLe), dirs);
    SubDirsBelow(path, entries);
    ByName(path, Sort(dirs, DirLe));
  }

  lemma ByName(path: Path, pushed: seq<Dir>)
    requires Sorted(pushed, DirLe) && forall d :: d in pushed ==> |d.path| == |path| + 1 && path <= d.path
    ensures forall i :: 0 <= i < |pushed| ==> |pushed[i].path| == |path| + 1 && path <= pushed[i].path
    ensures forall i, j :: 0 <= i < j < |pushed| ==> StringLe(pushed[i].path[|path|], pushed[j].path[|path|])
  {
    forall i | 0 <= i < |pushed| ensures |pushed[i].path| == |path| + 1 && path <= pushed[i].path {
      assert pushed[i] in pushed;
    }
    forall i, j | 0 <= i < j < |pushed| ensures StringLe(pushed[i].path[|path|], pushed[j].path[|path|]) {
      assert DirLe(pushed[i], pushed[j]);
    }
  }

  lemma {:induction false} DirsOfInsert(d: Dir, s: seq<Dir>, rec: bool)
    ensures DirsOf(Insert(d, s, DirLe), rec) == Tree(d, rec) + DirsOf(s, rec)
  {
    var r := Insert(d, s, DirLe);
    if s == [] || DirLe(d, s[0]) {
      assert r == [d] + s && r[1..] == s;
    } else {
      DirsOfInsert(d, s[1..], rec);
      assert r[1..] == Insert(d, s[1..], DirLe);
    }
  }

  lemma {:induction false} DirsOfSorted(s: seq<Dir>, rec: bool)
    ensures DirsOf(Sort(s, DirLe), rec) == DirsOf(s, rec)
  {
    if s != [] {
      DirsOfSorted(s[1..], rec);
      DirsOfInsert(s[0], Sort(s[1..], DirLe), rec);
    }
  }

  // ----- files in scope --------------------------------------------------------

  /** The files a source means to hold below an entry -- readable or not. */
  ghost function ScopeEntry(path: Path, e: Entry, rec: bool, filter: Filter): set<Path>
    decreases e, 1
  {
    match e.node
    case File(size, _) => if filter.accept(path + [e.name]) && size <= filter.maxBytes then {path + [e.name]} else {}
    case Folder(_, entries) => if rec then Scope(path + [e.name], entries, rec, filter) else {}
    case Other => {}
  }

  ghost function Scope(path: Path, entries: seq<Entry>, rec: bool, filter: Filter): set<Path>
    decreases entries, 0
  {
    if entries == [] then {}
    else ScopeEntry(path, entries[0], rec, filter) + Scope(path, entries[1..], rec, filter)
  }

  /** The files in scope below the folders of a stack. */
  ghost function ScopeOf(stack: seq<Dir>, rec: bool, filter: Filter): set<Path> {
    if stack == [] then {}
    else Scope(stack[0].path, stack[0].entries, rec, filter) + ScopeOf(stack[1..], rec, filter)
  }

  lemma {:induction false} ScopeOfAppend(a: seq<Dir>, b: seq<Dir>, rec: bool, filter: Filter)
    ensures ScopeOf(a + b, rec, filter) == ScopeOf(a, rec, filter) + ScopeOf(b, rec, filter)
  {
    if a == [] {
      assert a + b == b;
    } else {
      assert (a + b)[1..] == a[1..] + b;
      ScopeOfAppend(a[1..], b, rec, filter);
    }
  }

  lemma ScopeOfOne(d: Dir, rec: bool, filter: Filter)
    ensures ScopeOf([d], rec, filter) == Scope(d.path, d.entries, rec, filter)
  {
    assert [d][1..] == [];
  }

  lemma {:induction false} ScopeOfInsert(d: Dir, s: seq<Dir>, rec: bool, filter: Filter)
    ensures ScopeOf(Insert(d, s, DirLe), rec, filter) == Scope(d.path, d.entries, rec, filter) + ScopeOf(s, rec, filter)
  {
    var r := Insert(d, s, DirLe);
    if s == [] || DirLe(d, s[0]) {
      assert r == [d] + s && r[1..] == s;
    } else {
      ScopeOfInsert(d, s[1..], rec, filter);
      assert r[1..] == Insert(d, s[1..], DirLe);
    }
  }

  lemma {:induction false} ScopeOfSorted(s: seq<Dir>, rec: bool, filter: Filter)
    ensures ScopeOf(Sort(s, DirLe), rec, filter) == ScopeOf(s, rec, filter)
  {
    if s != [] {
      ScopeOfSorted(s[1..], rec, filter);
      ScopeOfInsert(s[0], Sort(s[1..], DirLe), rec, filter);
    }
  }

  lemma {:induction false} ScopeAppend(path: Path, a: seq<Entry>, e: Entry, rec: bool, filter: Filter)
    ensures Scope(path, a + [e], rec, filter) == Scope(path, a, rec, filter) + ScopeEntry(path, e, rec, filter)
  {
    if a == [] {
      assert a + [e] == [e];
      assert [e][1..] == [];
    } else {
      assert (a + [e])[1..] == a[1..] + [e];
      ScopeAppend(path, a[1..], e, rec, filter);
    }
  }

  /** Everything in scope below an entry has the entry's path as a prefix. */
  lemma {:induction false} ScopeEntryBelow(path: Path, e: Entry, rec: bool, filter: Filter)
    ensures forall f :: f in ScopeEntry(path, e, rec, filter) ==> path + [e.name] <= f
    decreases e, 1
  {
    match e.node
    case Folder(_, entries) =>
      if rec {
        ScopeBelow(path + [e.name], entries, rec, filter);
      }
    case File(_, _) =>
    case Other =>
  }

  lemma {:induction false} ScopeBelow(path: Path, entries: seq<Entry>, rec: bool, filter: Filter)
    ensures forall f :: f in Scope(path, entries, rec, filter) ==> path <= f
    decreases entries, 0
  {
    if entries != [] {
      ScopeEntryBelow(path, entries[0], rec, filter);
      ScopeBelow(path, entries[1..], rec, filter);
    }
  }

  // ----- what a scan could not see ---------------------------------------------

  /** `_scan_could_not_see`: the path or a folder above it was unreadable; "." is above everything. */
  predicate CouldNotSee(path: Path, unreadable: set<Path>) {
    path in unreadable || (path != [] && CouldNotSee(path[..|path| - 1], unreadable))
  }

  /** It looks at every prefix of the path and at nothing else. */
  lemma {:induction false} CouldNotSeeExact(path: Path, unreadable: set<Path>)
    ensures CouldNotSee(path, unreadable) <==> exists u :: u in unreadable && u <= path
  {
    if path != [] {
      var parent := path[..|path| - 1];
      CouldNotSeeExact(parent, unreadable);
      if exists u :: u in unreadable && u <= path && u != path {
        var u :| u in unreadable && u <= path && u != path;
        assert u <= parent;
      }
    }
  }

  lemma CouldNotSeeMore(path: Path, a: set<Path>, b: set<Path>)
    requires a <= b && CouldNotSee(path, a)
    ensures CouldNotSee(path, b)
  {
    CouldNotSeeExact(path, a);
    CouldNotSeeExact(path, b);
  }

  // ----- well-formed shares ----------------------------------------------------

  /** No folder holds two entries of one name. */
  predicate DistinctNames(entries: seq<Entry>)
    decreases entries
  {
    entries == [] ||
    (&& (forall i :: 1 <= i < |entries| ==> entries[i].name != entries[0].name)
     && (entries[0].node.Folder? ==> DistinctNames(entries[0].node.entries))
     && DistinctNames(entries[1..]))
  }

  lemma {:induction false} NotBelow(path: Path, entries: seq<Entry>, p: Path)
    requires forall i :: 0 <= i < |entries| ==> !(path + [entries[i].name] <= p)
    ensures p !in Below(path, entries)
    decreases entries
  {
    if entries != [] {
      NotBelow(path, entries[1..], p);
      var e := entries[0];
      var c := path + [e.name];
      if e.node.Folder? {
        assert forall i :: 0 <= i < |e.node.entries| && c + [e.node.entries[i].name] <= p ==> c <= p;
        NotBelow(c, e.node.entries, p);
      }
    }
  }

  /** In a share with distinct names every folder has one path. */
  lemma {:induction false} BelowDistinct(path: Path, entries: seq<Entry>, p: Path)
    requires DistinctNames(entries)
    ensures Below(path, entries)[p] <= 1
    decreases entries, 0
  {
    if entries != [] {
      var e := entries[0];
      var c := path + [e.name];
      BelowDistinct(path, entries[1..], p);
      if e.typed && e.node.Folder? {
        TreeDistinct(Dir(c, e.node.listable, e.node.entries), true, p);
      }
      if c <= p {
        forall i | 0 <= i < |entries[1..]| ensures !(path + [entries[1..][i].name] <= p) {
          assert c[|path|] == p[|path|] == e.name;
          assert (path + [entries[1..][i].name])[|path|] == entries[i + 1].name;
        }
        NotBelow(path, entries[1..], p);
      } else if e.node.Folder? {
        assert forall i :: 0 <= i < |e.node.entries| && c + [e.node.entries[i].name] <= p ==> c <= p;
        NotBelow(c, e.node.entries, p);
      }
    }
  }

  lemma {:induction false} TreeDistinct(d: Dir, rec: bool, p: Path)
    requires DistinctNames(d.entries)
    ensures Tree(d, rec)[p] <= 1
    decreases d.entries, 1
  {
    BelowDistinct(d.path, d.entries, p);
    if p == d.path {
      NotBelow(d.path, d.entries, p);
    }
  }
}
