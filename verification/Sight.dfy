/**
  What a walk gets to look at: every entry of the folders it can list, and every folder it
  cannot. `Visible` and `Blind` pick from these what it finds and what it has to note.
 */
module Sight {
  import opened Prelude
  import opened Sorting
  import opened Share

  /** What is picked at a path, given whether the entry tells its kind, and what it is. */
  type Pick = (Path, bool, Node) -> set<Path>

  /** The files that are found: accepted, stat'ed and not too large. */
  function Visible(filter: Filter): Pick {
    (p: Path, typed: bool, node: Node) =>
      if typed && node.File? && filter.accept(p) && node.statable && node.size <= filter.maxBytes then {p} else {}
  }

  /** The paths that are noted as unreadable: no kind, no listing, or no stat of an accepted file. */
  function Blind(filter: Filter): Pick {
    (p: Path, typed: bool, node: Node) =>
      if !typed || node.Folder? || (node.File? && filter.accept(p) && !node.statable) then {p} else {}
  }

  ghost function SeenEntry(path: Path, e: Entry, rec: bool, pick: Pick): set<Path>
    decreases e, 1
  {
    if e.typed && e.node.Folder? then
      if !rec then {}
      else if e.node.listable then Seen(path + [e.name], e.node.entries, rec, pick)
      else pick(path + [e.name], true, e.node)
    else pick(path + [e.name], e.typed, e.node)
  }

  ghost function Seen(path: Path, entries: seq<Entry>, rec: bool, pick: Pick): set<Path>
    decreases entries, 0
  {
    if entries == [] then {} else SeenEntry(path, entries[0], rec, pick) + Seen(path, entries[1..], rec, pick)
  }

  ghost function SeenDir(d: Dir, rec: bool, pick: Pick): set<Path> {
    if d.listable then Seen(d.path, d.entries, rec, pick) else pick(d.path, true, Folder(false, d.entries))
  }

  ghost function SeenOf(stack: seq<Dir>, rec: bool, pick: Pick): set<Path> {
    if stack == [] then {} else SeenDir(stack[0], rec, pick) + SeenOf(stack[1..], rec, pick)
  }

  lemma {:induction false} SeenOfAppend(a: seq<Dir>, b: seq<Dir>, rec: bool, pick: Pick)
    ensures SeenOf(a + b, rec, pick) == SeenOf(a, rec, pick) + SeenOf(b, rec, pick)
  {
    if a == [] {
      assert a + b == b;
    } else {
      assert (a + b)[1..] == a[1..] + b;
      SeenOfAppend(a[1..], b, rec, pick);
    }
  }

  lemma SeenOfOne(d: Dir, rec: bool, pick: Pick)
    ensures SeenOf([d], rec, pick) == SeenDir(d, rec, pick)
  {
    assert [d][1..] == [];
  }

  lemma {:induction false} SeenOfInsert(d: Dir, s: seq<Dir>, rec: bool, pick: Pick)
    ensures SeenOf(Insert(d, s, DirLe), rec, pick) == SeenDir(d, rec, pick) + SeenOf(s, rec, pick)
  {
    var r := Insert(d, s, DirLe);
    if s == [] || DirLe(d, s[0]) {
      assert r == [d] + s && r[1..] == s;
    } else {
      SeenOfInsert(d, s[1..], rec, pick);
      assert r[1..] == Insert(d, s[1..], DirLe);
    }
  }

  lemma {:induction false} SeenOfSorted(s: seq<Dir>, rec: bool, pick: Pick)
    ensures SeenOf(Sort(s, DirLe), rec, pick) == SeenOf(s, rec, pick)
  {
    if s != [] {
      SeenOfSorted(s[1..], rec, pick);
      SeenOfInsert(s[0], Sort(s[1..], DirLe), rec, pick);
    }
  }

  lemma {:induction false} SeenAppend(path: Path, a: seq<Entry>, e: Entry, rec: bool, pick: Pick)
    ensures Seen(path, a + [e], rec, pick) == Seen(path, a, rec, pick) + SeenEntry(path, e, rec, pick)
  {
    if a == [] {
      assert a + [e] == [e];
      assert [e][1..] == [];
    } else {
      assert (a + [e])[1..] == a[1..] + [e];
      SeenAppend(path, a[1..], e, rec, pick);
    }
  }

  lemma {:induction false} SeenPrefix(path: Path, entries: seq<Entry>, at: nat, rec: bool, pick: Pick)
    requires at <= |entries|
    ensures Seen(path, entries[..at], rec, pick) <= Seen(path, entries, rec, pick)
    decreases |entries| - at
  {
    if at == |entries| {
      assert entries[..at] == entries;
    } else {
      assert entries[..at + 1] == entries[..at] + [entries[at]];
      SeenAppend(path, entries[..at], entries[at], rec, pick);
      SeenPrefix(path, entries, at + 1, rec, pick);
    }
  }

  /** What is seen in the sub-folders of a folder is seen in the folder. */
  lemma {:induction false} SubSeen(path: Path, entries: seq<Entry>, pick: Pick)
    ensures SeenOf(SubDirs(path, entries), true, pick) <= Seen(path, entries, true, pick)
  {
    if entries != [] {
      SubSeen(path, entries[1..], pick);
      SeenOfAppend(SubDir(path, entries[0]), SubDirs(path, entries[1..]), true, pick);
      if SubDir(path, entries[0]) != [] {
        SeenOfOne(SubDir(path, entries[0])[0], true, pick);
      }
    }
  }

  /** A folder taken off a stack and replaced by what it pushes shows nothing new. */
  lemma PushedSeen(rest: seq<Dir>, d: Dir, rec: bool, pick: Pick)
    requires d.listable
    ensures SeenOf(rest + Sort(if rec then SubDirs(d.path, d.entries) else [], DirLe), rec, pick) <= SeenOf(rest + [d], rec, pick)
  {
    var dirs := if rec then SubDirs(d.path, d.entries) else [];
    SeenOfAppend(rest, Sort(dirs, DirLe), rec, pick);
    SeenOfSorted(dirs, rec, pick);
    SeenOfAppend(rest, [d], rec, pick);
    SeenOfOne(d, rec, pick);
    if rec {
      SubSeen(d.path, d.entries, pick);
    }
  }

  // ----- everything in scope is visible or below something blind ----------------------------

  /** `f` is visible, or lies below something blind. */
  ghost predicate Told(f: Path, visible: set<Path>, blind: set<Path>) { f in visible || exists b :: b in blind && b <= f }

  lemma ToldMore(f: Path, v: set<Path>, b: set<Path>, v': set<Path>, b': set<Path>)
    requires Told(f, v, b) && v <= v' && b <= b'
    ensures Told(f, v', b')
  {
  }

  /** What a source means to hold below a folder it walks is visible, or lies where the walk is blind. */
  lemma {:induction false} ScopeEntrySeen(path: Path, e: Entry, rec: bool, filter: Filter, f: Path)
    requires f in ScopeEntry(path, e, rec, filter)
    ensures Told(f, SeenEntry(path, e, rec, Visible(filter)), SeenEntry(path, e, rec, Blind(filter)))
    decreases e, 1
  {
    var p := path + [e.name];
    ScopeEntryBelow(path, e, rec, filter);
    if e.typed && e.node.Folder? && e.node.listable {
      ScopeSeen(p, e.node.entries, rec, filter, f);
    } else if !e.typed || e.node.Folder? || !e.node.statable {
      assert p in SeenEntry(path, e, rec, Blind(filter)) && p <= f;
    }
  }

  lemma {:induction false} ScopeSeen(path: Path, entries: seq<Entry>, rec: bool, filter: Filter, f: Path)
    requires f in Scope(path, entries, rec, filter)
    ensures Told(f, Seen(path, entries, rec, Visible(filter)), Seen(path, entries, rec, Blind(filter)))
    decreases entries, 0
  {
    var all, blind := Seen(path, entries, rec, Visible(filter)), Seen(path, entries, rec, Blind(filter));
    var e, rest := entries[0], entries[1..];
    if f in ScopeEntry(path, e, rec, filter) {
      ScopeEntrySeen(path, e, rec, filter, f);
      ToldMore(f, SeenEntry(path, e, rec, Visible(filter)), SeenEntry(path, e, rec, Blind(filter)), all, blind);
    } else {
      ScopeSeen(path, rest, rec, filter, f);
      ToldMore(f, Seen(path, rest, rec, Visible(filter)), Seen(path, rest, rec, Blind(filter)), all, blind);
    }
  }
}
