/**
  The resumable directory walk (`sync_executor._walk_text_files`) under a budget,
  and the pass over all sources (`_iter_candidate_files`).
 */
module Walk {
  import opened Prelude
  import opened Sorting
  import opened Share
  import opened Sight
  import opened Apart

  /** `_WalkBudget` */
  class WalkBudget {
    const mayStop: bool       // whether a stop or a deadline can come during this walk
    var maxDirVisits: int
    var dirVisits: int
    var maxFiles: int
    var filesTowardCap: int
    var truncated: bool
    var stopped: bool
    var resumeStack: seq<Dir>
    var unreadable: set<Path>

    constructor (maxDirVisits: int, maxFiles: int, mayStop: bool)
      ensures this.maxDirVisits == maxDirVisits && this.maxFiles == maxFiles && this.mayStop == mayStop
      ensures dirVisits == 0 && filesTowardCap == 0 && !truncated && !stopped
      ensures resumeStack == [] && unreadable == {}
    {
      this.maxDirVisits, this.maxFiles, this.mayStop := maxDirVisits, maxFiles, mayStop;
      dirVisits, filesTowardCap, truncated, stopped := 0, 0, false, false;
      resumeStack, unreadable := [], {};
    }

    method NoteUnreadable(path: Path)
      modifies this`unreadable
      ensures unreadable == old(unreadable) + {path}
    {
      unreadable := unreadable + {path};
    }

    /** Record one directory visit; false when the budget is exhausted. */
    method ConsumeDir() returns (ok: bool)
      modifies this`dirVisits, this`truncated
      ensures dirVisits == old(dirVisits) + 1
      ensures ok <==> !(maxDirVisits > 0 && old(dirVisits) >= maxDirVisits)
      ensures truncated == (old(truncated) || !ok)
    {
      dirVisits := dirVisits + 1;
      if maxDirVisits > 0 && dirVisits > maxDirVisits {
        truncated := true;
        return false;
      }
      return true;
    }

    method NoteFile(countsTowardCap: bool)
      modifies this`filesTowardCap
      ensures filesTowardCap == old(filesTowardCap) + if countsTowardCap then 1 else 0
    {
      if countsTowardCap {
        filesTowardCap := filesTowardCap + 1;
      }
    }

    /** A cap was reached: more visits than allowed, or as many files. */
    predicate Spent()
      reads this
    {
      (maxDirVisits > 0 && dirVisits > maxDirVisits) || FileCapReached()
    }

    predicate FileCapReached()
      reads this
    {
      maxFiles > 0 && filesTowardCap >= maxFiles
    }
  }

  /** Every file in scope was found, or is left for later, or lies where the scan could not see. */
  ghost predicate Accounted(scope: set<Path>, found: set<Path>, unreadable: set<Path>, left: set<Path>) {
    forall f :: f in scope ==> f in found || f in left || CouldNotSee(f, unreadable)
  }

  lemma AccountedMore(scope: set<Path>, found: set<Path>, u: set<Path>, left: set<Path>,
                      found': set<Path>, u': set<Path>, left': set<Path>)
    requires Accounted(scope, found, u, left)
    requires found <= found' && u <= u' && left <= left'
    ensures Accounted(scope, found', u', left')
  {
    forall f | f in scope ensures f in found' || f in left' || CouldNotSee(f, u') {
      if CouldNotSee(f, u) {
        CouldNotSeeMore(f, u, u');
      }
    }
  }

  lemma AccountedJoin(a: set<Path>, b: set<Path>, found: set<Path>, u: set<Path>, left: set<Path>)
    requires Accounted(a, found, u, left) && Accounted(b, found, u, left)
    ensures Accounted(a + b, found, u, left)
  {
  }

  /** Nothing below a path that was noted unreadable is lost from view. */
  lemma CoveredBelow(scope: set<Path>, p: Path, u: set<Path>, found: set<Path>, left: set<Path>)
    requires forall f :: f in scope ==> p <= f
    requires p in u
    ensures Accounted(scope, found, u, left)
  {
    forall f | f in scope ensures CouldNotSee(f, u) {
      CouldNotSeeExact(f, u);
    }
  }

  /** `should_stop()`: if one can come, a stop or a deadline may be seen at any poll. */
  method ShouldStop(mayStop: bool) returns (stop: bool)
    ensures stop ==> mayStop
  {
    stop := false;
    if mayStop {
      stop := *;
    }
  }

  /** One directory entry: what it adds to the files found and to the folders to visit. */
  method ScanEntry(path: Path, e: Entry, rec: bool, filter: Filter, counts: Path -> bool, budget: WalkBudget)
    returns (found: set<Path>, dirs: seq<Dir>)
    modifies budget`unreadable, budget`filesTowardCap
    ensures old(budget.unreadable) <= budget.unreadable
    ensures dirs == if rec then SubDir(path, e) else []
    ensures found <= ScopeEntry(path, e, rec, filter)
    ensures found <= Leaf(path, e) && budget.unreadable <= old(budget.unreadable) + Leaf(path, e)
    ensures found <= SeenEntry(path, e, rec, Visible(filter))
    ensures budget.filesTowardCap == old(budget.filesTowardCap) + if found != {} && counts(path + [e.name]) then 1 else 0
    ensures budget.unreadable <= old(budget.unreadable) + SeenEntry(path, e, rec, Blind(filter))
    ensures Accounted(ScopeEntry(path, e, rec, filter), found, budget.unreadable, ScopeOf(dirs, rec, filter))
  {
    found, dirs := {}, [];
    var p := path + [e.name];
    ScopeEntryBelow(path, e, rec, filter);
    if !e.typed {
      budget.NoteUnreadable(p);
      CoveredBelow(ScopeEntry(path, e, rec, filter), p, budget.unreadable, found, {});
      return;
    }
    if e.node.Folder? {
      if rec {
        dirs := [Dir(p, e.node.listable, e.node.entries)];
        ScopeOfOne(dirs[0], rec, filter);
      }
      return;
    }
    if !e.node.File? {
      return;
    }
    if !filter.accept(p) {
      return;
    }
    if !e.node.statable {
      budget.NoteUnreadable(p);
      CoveredBelow(ScopeEntry(path, e, rec, filter), p, budget.unreadable, found, {});
      return;
    }
    if e.node.size > filter.maxBytes {
      return;
    }
    budget.NoteFile(counts(p));
    found := {p};
  }

  /** The entries of one folder, up to a stop seen before entry `at`; without one `at` is their number. */
  method ScanEntries(d: Dir, rec: bool, filter: Filter, counts: Path -> bool, budget: WalkBudget)
    returns (found: set<Path>, dirs: seq<Dir>, at: nat)
    modifies budget`unreadable, budget`filesTowardCap, budget`stopped
    ensures old(budget.unreadable) <= budget.unreadable
    ensures at <= |d.entries|
    ensures found <= Scope(d.path, d.entries, rec, filter)
    ensures found <= Leaves(d, at) && budget.unreadable <= old(budget.unreadable) + Leaves(d, at)
    ensures found <= Seen(d.path, d.entries, rec, Visible(filter))
    ensures budget.unreadable <= old(budget.unreadable) + Seen(d.path, d.entries, rec, Blind(filter))
    ensures at < |d.entries| ==> budget.stopped || budget.truncated
    ensures old(budget.stopped) ==> budget.stopped
    ensures budget.stopped ==> old(budget.stopped) || budget.mayStop
    ensures budget.filesTowardCap >= old(budget.filesTowardCap)
    ensures at == |d.entries| ==> budget.stopped == old(budget.stopped)
    ensures dirs == if rec then SubDirs(d.path, d.entries[..at]) else []
    ensures Accounted(Scope(d.path, d.entries, rec, filter), found, budget.unreadable, Unseen(d, at, rec, filter))
  {
    ghost var u0 := budget.unreadable;
    found, dirs, at := {}, [], 0;
    while at < |d.entries|
      invariant ScannedTo(d, at, rec, filter, found, dirs, u0, budget.unreadable)
      invariant budget.stopped == old(budget.stopped) && budget.filesTowardCap >= old(budget.filesTowardCap)
    {
      var stop := ShouldStop(budget.mayStop);
      if stop {
        budget.stopped := true;
        break;
      }
      if budget.truncated {
        break;
      }
      ghost var u := budget.unreadable;
      var more, sub := ScanEntry(d.path, d.entries[at], rec, filter, counts, budget);
      ScannedNext(d, at, rec, filter, found, dirs, u0, u, more, sub, budget.unreadable);
      found, dirs, at := found + more, dirs + sub, at + 1;
    }
    ScannedEnd(d, at, rec, filter, found, dirs, u0, budget.unreadable);
  }

  /** Where the scan of a folder's entries stands before entry `at`. */
  ghost predicate ScannedTo(d: Dir, at: nat, rec: bool, filter: Filter, found: set<Path>, dirs: seq<Dir>, u0: set<Path>, u: set<Path>) {
    && at <= |d.entries| && u0 <= u <= u0 + Leaves(d, at) && found <= Leaves(d, at)
    && dirs == (if rec then SubDirs(d.path, d.entries[..at]) else [])
    && found <= Scope(d.path, d.entries[..at], rec, filter)
    && Accounted(Scope(d.path, d.entries[..at], rec, filter), found, u, ScopeOf(dirs, rec, filter))
    && found <= Seen(d.path, d.entries[..at], rec, Visible(filter))
    && u <= u0 + Seen(d.path, d.entries[..at], rec, Blind(filter))
  }

  lemma ScannedNext(d: Dir, at: nat, rec: bool, filter: Filter, found: set<Path>, dirs: seq<Dir>, u0: set<Path>, u: set<Path>,
                    more: set<Path>, sub: seq<Dir>, u': set<Path>)
    requires at < |d.entries| && ScannedTo(d, at, rec, filter, found, dirs, u0, u)
    requires u <= u' <= u + Leaf(d.path, d.entries[at]) && more <= Leaf(d.path, d.entries[at])
    requires sub == (if rec then SubDir(d.path, d.entries[at]) else []) && more <= ScopeEntry(d.path, d.entries[at], rec, filter)
    requires Accounted(ScopeEntry(d.path, d.entries[at], rec, filter), more, u', ScopeOf(sub, rec, filter))
    requires more <= SeenEntry(d.path, d.entries[at], rec, Visible(filter))
    requires u' <= u + SeenEntry(d.path, d.entries[at], rec, Blind(filter))
    ensures ScannedTo(d, at + 1, rec, filter, found + more, dirs + sub, u0, u')
  {
    SeenNext(d, at, rec, Visible(filter));
    SeenNext(d, at, rec, Blind(filter));
    EntryAdds(d.path, d.entries, at, rec, filter);
    EntryAccounted(d, at, rec, filter, found, u, dirs, more, u', sub);
    LeavesNext(d, at);
  }

  lemma SeenNext(d: Dir, at: nat, rec: bool, pick: Pick)
    requires at < |d.entries|
    ensures Seen(d.path, d.entries[..at + 1], rec, pick) == Seen(d.path, d.entries[..at], rec, pick) + SeenEntry(d.path, d.entries[at], rec, pick)
  {
    assert d.entries[..at + 1] == d.entries[..at] + [d.entries[at]];
    SeenAppend(d.path, d.entries[..at], d.entries[at], rec, pick);
  }

  lemma ScannedEnd(d: Dir, at: nat, rec: bool, filter: Filter, found: set<Path>, dirs: seq<Dir>, u0: set<Path>, u: set<Path>)
    requires ScannedTo(d, at, rec, filter, found, dirs, u0, u)
    ensures found <= Scope(d.path, d.entries, rec, filter)
    ensures Accounted(Scope(d.path, d.entries, rec, filter), found, u, Unseen(d, at, rec, filter))
    ensures found <= Seen(d.path, d.entries, rec, Visible(filter)) && u <= u0 + Seen(d.path, d.entries, rec, Blind(filter))
  {
    SeenPrefix(d.path, d.entries, at, rec, Visible(filter));
    SeenPrefix(d.path, d.entries, at, rec, Blind(filter));
    ScopeSplit(d.path, d.entries, at, rec, filter);
    AccountedMore(Scope(d.path, d.entries[..at], rec, filter), found, u, ScopeOf(dirs, rec, filter),
                  found, u, Unseen(d, at, rec, filter));
  }

  lemma EntryAccounted(d: Dir, i: nat, rec: bool, filter: Filter, found: set<Path>, u: set<Path>, dirs: seq<Dir>,
                       more: set<Path>, u': set<Path>, sub: seq<Dir>)
    requires i < |d.entries| && u <= u'
    requires Accounted(Scope(d.path, d.entries[..i], rec, filter), found, u, ScopeOf(dirs, rec, filter))
    requires Accounted(ScopeEntry(d.path, d.entries[i], rec, filter), more, u', ScopeOf(sub, rec, filter))
    ensures Accounted(Scope(d.path, d.entries[..i + 1], rec, filter), found + more, u', ScopeOf(dirs + sub, rec, filter))
  {
    EntryAdds(d.path, d.entries, i, rec, filter);
    ScopeOfAppend(dirs, sub, rec, filter);
    AccountedMore(Scope(d.path, d.entries[..i], rec, filter), found, u, ScopeOf(dirs, rec, filter),
                  found + more, u', ScopeOf(dirs + sub, rec, filter));
    AccountedMore(ScopeEntry(d.path, d.entries[i], rec, filter), more, u', ScopeOf(sub, rec, filter),
                  found + more, u', ScopeOf(dirs + sub, rec, filter));
    AccountedJoin(Scope(d.path, d.entries[..i], rec, filter), ScopeEntry(d.path, d.entries[i], rec, filter),
                  found + more, u', ScopeOf(dirs + sub, rec, filter));
  }

  lemma LeavesNext(d: Dir, i: nat)
    requires i < |d.entries|
    ensures Leaves(d, i + 1) == Leaves(d, i) + Leaf(d.path, d.entries[i])
  {
  }

  lemma {:induction false} ScopeSplit(path: Path, entries: seq<Entry>, i: nat, rec: bool, filter: Filter)
    requires i <= |entries|
    ensures Scope(path, entries, rec, filter) == Scope(path, entries[..i], rec, filter) + Scope(path, entries[i..], rec, filter)
  {
    if i == 0 {
      assert entries[i..] == entries;
    } else {
      ScopeSplit(path, entries[1..], i - 1, rec, filter);
      assert entries[..i][1..] == entries[1..][..i - 1] && entries[1..][i - 1..] == entries[i..];
    }
  }

  lemma {:induction false} ScopePrefixes(path: Path, entries: seq<Entry>, i: nat, rec: bool, filter: Filter)
    requires i <= |entries|
    ensures Scope(path, entries[..i], rec, filter) <= Scope(path, entries, rec, filter)
    decreases |entries| - i
  {
    if i == |entries| {
      assert entries[..i] == entries;
    } else {
      assert entries[..i + 1] == entries[..i] + [entries[i]];
      ScopeAppend(path, entries[..i], entries[i], rec, filter);
      ScopePrefixes(path, entries, i + 1, rec, filter);
    }
  }

  lemma EntryAdds(path: Path, entries: seq<Entry>, i: nat, rec: bool, filter: Filter)
    requires i < |entries|
    ensures Scope(path, entries[..i + 1], rec, filter)
         == Scope(path, entries[..i], rec, filter) + ScopeEntry(path, entries[i], rec, filter)
    ensures SubDirs(path, entries[..i + 1]) == SubDirs(path, entries[..i]) + SubDir(path, entries[i])
    ensures Scope(path, entries[..i + 1], rec, filter) <= Scope(path, entries, rec, filter)
  {
    assert entries[..i + 1] == entries[..i] + [entries[i]];
    ScopeAppend(path, entries[..i], entries[i], rec, filter);
    SubDirsAppend(path, entries[..i], entries[i]);
    ScopePrefixes(path, entries, i + 1, rec, filter);
  }

  // ----- the walk --------------------------------------------------------------

  /** A folder taken off the stack and left, by a stop, before its entry `at`. */
  datatype Cut = Cut(dir: Dir, at: nat)

  ghost predicate IsCut(cut: Option<Cut>) { cut.Some? ==> cut.value.dir.listable && cut.value.at < |cut.value.dir.entries| }

  /** The folders below one that was cut: no stack keeps them. */
  function Missed(cut: Option<Cut>, rec: bool): multiset<Path> {
    if cut.Some? && rec then Below(cut.value.dir.path, cut.value.dir.entries) else multiset{}
  }

  /** The files it did not get to. */
  ghost function CutScope(cut: Option<Cut>, rec: bool, filter: Filter): set<Path>
    requires IsCut(cut)
  {
    if cut.Some? then Unseen(cut.value.dir, cut.value.at, rec, filter) else {}
  }

  /** Where a walk over folders that lie apart stands: all still lies apart. */
  ghost predicate TidyEnd(stack: seq<Dir>, seen: set<Path>, cut: Option<Cut>) {
    if cut.Some? then CutApart(stack, seen, cut.value.dir, cut.value.at) else Tidy(stack, seen)
  }

  /** Popping a folder: its own visit and what lies below it. */
  lemma PopDir(stack: seq<Dir>, rec: bool, filter: Filter)
    requires stack != []
    ensures var d, rest := stack[|stack| - 1], stack[..|stack| - 1];
            && DirsOf(stack, rec) == DirsOf(rest, rec) + Tree(d, rec)
            && ScopeOf(stack, rec, filter) == ScopeOf(rest, rec, filter) + Scope(d.path, d.entries, rec, filter)
  {
    var d, rest := stack[|stack| - 1], stack[..|stack| - 1];
    assert stack == rest + [d];
    DirsOfAppend(rest, [d], rec);
    DirsOfOne(d, rec);
    ScopeOfAppend(rest, [d], rec, filter);
    ScopeOfOne(d, rec, filter);
  }

  /** Pushing the sub-folders of a listed folder puts back all but its own visit. */
  lemma PushDirs(rest: seq<Dir>, d: Dir, dirs: seq<Dir>, rec: bool, filter: Filter)
    requires d.listable && dirs == if rec then SubDirs(d.path, d.entries) else []
    ensures DirsOf(rest + Sort(dirs, DirLe), rec) + multiset{d.path} == DirsOf(rest, rec) + Tree(d, rec)
    ensures ScopeOf(rest + Sort(dirs, DirLe), rec, filter) == ScopeOf(rest, rec, filter) + ScopeOf(dirs, rec, filter)
  {
    DirsOfAppend(rest, Sort(dirs, DirLe), rec);
    DirsOfSorted(dirs, rec);
    if rec {
      SubDirsCover(d.path, d.entries);
    }
    ScopeOfAppend(rest, Sort(dirs, DirLe), rec, filter);
    ScopeOfSorted(dirs, rec, filter);
  }

  /** What became of a folder off the stack: visited to the end, or left before its entry `at`. */
  ghost predicate Handled(d: Dir, rest: seq<Dir>, next: seq<Dir>, at: nat, rec: bool, filter: Filter,
                          found: set<Path>, u: set<Path>, u': set<Path>) {
    && at <= |d.entries| && u <= u' && found <= Scope(d.path, d.entries, rec, filter)
    && (at == |d.entries| ==> Visited(d, rest, next, rec, filter, found, u'))
    && (at < |d.entries| ==> d.listable && next == rest)
    && (at < |d.entries| ==> Accounted(Scope(d.path, d.entries, rec, filter), found, u', Unseen(d, at, rec, filter)))
    && (d.listable ==> found + u' <= u + Leaves(d, at))
    && found <= SeenDir(d, rec, Visible(filter)) && u' <= u + SeenDir(d, rec, Blind(filter))
    && (!d.listable ==> found == {} && next == rest && u' == u + {d.path})
    && (d.listable && at == |d.entries| ==> next == rest + Sort(if rec then SubDirs(d.path, d.entries) else [], DirLe))
  }

  /** One folder off the stack: unreadable, cut short, or replaced by its sub-folders. */
  method VisitDir(d: Dir, rest: seq<Dir>, rec: bool, filter: Filter, counts: Path -> bool, budget: WalkBudget)
    returns (found: set<Path>, next: seq<Dir>, at: nat)
    modifies budget`unreadable, budget`filesTowardCap, budget`stopped
    ensures Handled(d, rest, next, at, rec, filter, found, old(budget.unreadable), budget.unreadable)
    ensures at < |d.entries| ==> budget.stopped || budget.truncated
    ensures at == |d.entries| ==> budget.stopped == old(budget.stopped)
    ensures old(budget.stopped) ==> budget.stopped
    ensures budget.stopped ==> old(budget.stopped) || budget.mayStop
    ensures budget.filesTowardCap >= old(budget.filesTowardCap)
  {
    if !d.listable {
      ScopeBelow(d.path, d.entries, rec, filter);
      budget.NoteUnreadable(d.path);
      CoveredBelow(Scope(d.path, d.entries, rec, filter), d.path, budget.unreadable, {}, ScopeOf(rest, rec, filter));
      return {}, rest, |d.entries|;
    }
    var dirs;
    found, dirs, at := ScanEntries(d, rec, filter, counts, budget);
    if at < |d.entries| {
      return found, rest, at;
    }
    assert d.entries[..at] == d.entries && d.entries[at..] == [];
    PushDirs(rest, d, dirs, rec, filter);
    ScopeOfDirs(d, dirs, rec, filter);
    next := rest + Sort(dirs, DirLe);
    AccountedMore(Scope(d.path, d.entries, rec, filter), found, budget.unreadable, Unseen(d, at, rec, filter),
                  found, budget.unreadable, ScopeOf(next, rec, filter));
  }

  /** One folder more keeps folders that lie apart apart. */
  lemma TidyStep(rest: seq<Dir>, d: Dir, seen: set<Path>, seen': set<Path>, next: seq<Dir>, at: nat, rec: bool)
    requires Tidy(rest + [d], seen) && at <= |d.entries|
    requires d.listable ==> seen' <= seen + Leaves(d, at)
    requires !d.listable ==> next == rest && seen' == seen + {d.path}
    requires at < |d.entries| ==> d.listable && next == rest
    requires d.listable && at == |d.entries| ==> next == rest + Sort(if rec then SubDirs(d.path, d.entries) else [], DirLe)
    ensures TidyEnd(next, seen', if at < |d.entries| then Some(Cut(d, at)) else None)
  {
    if !d.listable {
      TidyUnlistable(rest, d, seen);
    } else {
      TidyCut(rest, d, seen, seen', at);
      if at == |d.entries| {
        TidyPushed(rest, d, seen', if rec then SubDirs(d.path, d.entries) else []);
      }
    }
  }

  /** A folder done: its visit and the new stack make up the old one, and none of its files is forgotten. */
  ghost predicate Visited(d: Dir, rest: seq<Dir>, next: seq<Dir>, rec: bool, filter: Filter, found: set<Path>, u: set<Path>) {
    && DirsOf(next, rec) + multiset{d.path} == DirsOf(rest, rec) + Tree(d, rec)
    && ScopeOf(rest, rec, filter) <= ScopeOf(next, rec, filter)
    && ScopeOf(next, rec, filter) <= ScopeOf(rest, rec, filter) + Scope(d.path, d.entries, rec, filter)
    && Accounted(Scope(d.path, d.entries, rec, filter), found, u, ScopeOf(next, rec, filter))
  }

  /** Where a walk stands: folders visited, stacked and missed, files found and still ahead. */
  ghost predicate Standing(start: seq<Dir>, rec: bool, filter: Filter, visited: multiset<Path>, stack: seq<Dir>,
                           missed: multiset<Path>, cutScope: set<Path>, found: set<Path>, u: set<Path>) {
    && DirsOf(start, rec) == visited + DirsOf(stack, rec) + missed
    && found + cutScope + ScopeOf(stack, rec, filter) <= ScopeOf(start, rec, filter)
    && Accounted(ScopeOf(start, rec, filter), found, u, ScopeOf(stack, rec, filter) + cutScope)
  }

  lemma StandingStep(start: seq<Dir>, rec: bool, filter: Filter, visited: multiset<Path>, stack: seq<Dir>, next: seq<Dir>,
                     found: set<Path>, u: set<Path>, more: set<Path>, u': set<Path>)
    requires stack != [] && Standing(start, rec, filter, visited, stack, multiset{}, {}, found, u) && u <= u'
    requires more <= Scope(stack[|stack| - 1].path, stack[|stack| - 1].entries, rec, filter)
    requires Visited(stack[|stack| - 1], stack[..|stack| - 1], next, rec, filter, more, u')
    ensures Standing(start, rec, filter, visited + multiset{stack[|stack| - 1].path}, next, multiset{}, {}, found + more, u')
    ensures Ahead(next, rec) < Ahead(stack, rec)
  {
    PopDir(stack, rec, filter);
    var d, rest := stack[|stack| - 1], stack[..|stack| - 1];
    var scope := Scope(d.path, d.entries, rec, filter);
    AccountedMore(scope, more, u', ScopeOf(next, rec, filter), found + more, u', ScopeOf(next, rec, filter));
    StepAccounted(ScopeOf(start, rec, filter), ScopeOf(rest, rec, filter), scope, found, u, found + more, u',
                  ScopeOf(next, rec, filter));
    assert DirsOf(next, rec) + multiset{d.path} == DirsOf(stack, rec);
  }

  lemma UnseenInScope(d: Dir, at: nat, rec: bool, filter: Filter)
    requires at <= |d.entries|
    ensures Unseen(d, at, rec, filter) <= Scope(d.path, d.entries, rec, filter)
  {
    ScopeSplit(d.path, d.entries, at, rec, filter);
    if rec {
      SubScope(d.path, d.entries[..at], filter);
    }
  }

  lemma StandingCut(start: seq<Dir>, rec: bool, filter: Filter, visited: multiset<Path>, stack: seq<Dir>,
                    found: set<Path>, u: set<Path>, more: set<Path>, u': set<Path>, at: nat)
    requires stack != [] && Standing(start, rec, filter, visited, stack, multiset{}, {}, found, u) && u <= u'
    requires stack[|stack| - 1].listable && at < |stack[|stack| - 1].entries|
    requires var d := stack[|stack| - 1];
             more <= Scope(d.path, d.entries, rec, filter)
             && Accounted(Scope(d.path, d.entries, rec, filter), more, u', Unseen(d, at, rec, filter))
    ensures var cut := Some(Cut(stack[|stack| - 1], at));
            Standing(start, rec, filter, visited + multiset{stack[|stack| - 1].path}, stack[..|stack| - 1],
                     Missed(cut, rec), CutScope(cut, rec, filter), found + more, u')
  {
    PopDir(stack, rec, filter);
    var d, rest := stack[|stack| - 1], stack[..|stack| - 1];
    var scope := Scope(d.path, d.entries, rec, filter);
    var left := ScopeOf(rest, rec, filter) + Unseen(d, at, rec, filter);
    UnseenInScope(d, at, rec, filter);
    AccountedMore(scope, more, u', Unseen(d, at, rec, filter), found + more, u', left);
    StepAccounted(ScopeOf(start, rec, filter), ScopeOf(rest, rec, filter), scope, found, u, found + more, u', left);
  }

  /** Whether a budget still allows a first visit. */
  predicate RoomToStart(budget: WalkBudget)
    reads budget
  {
    !budget.FileCapReached() && (budget.maxDirVisits > 0 ==> budget.dirVisits < budget.maxDirVisits)
  }

  /** The number of folders still to visit. */
  ghost function Ahead(stack: seq<Dir>, rec: bool): nat { |DirsOf(stack, rec)| }

  /** How one turn of the walk ends. */
  datatype Turn = Go | Halt

  /** A walk from `start` with `u0` noted before stands at `stack`, or was cut there. */
  ghost predicate StandsAt(start: seq<Dir>, rec: bool, filter: Filter, u0: set<Path>, visited: multiset<Path>,
                           stack: seq<Dir>, cut: Option<Cut>, found: set<Path>, u: set<Path>) {
    && IsCut(cut) && u0 <= u
    && Standing(start, rec, filter, visited, stack, Missed(cut, rec), CutScope(cut, rec, filter), found, u)
    && (Tidy(start, u0) ==> TidyEnd(stack, found + u, cut))
    && Sighted(start, rec, filter, u0, stack, found, u)
  }

  /** Nothing is found but what can be seen, and nothing noted as unreadable but what cannot. */
  ghost predicate Sighted(start: seq<Dir>, rec: bool, filter: Filter, u0: set<Path>, stack: seq<Dir>, found: set<Path>, u: set<Path>) {
    && found + SeenOf(stack, rec, Visible(filter)) <= SeenOf(start, rec, Visible(filter))
    && u + SeenOf(stack, rec, Blind(filter)) <= u0 + SeenOf(start, rec, Blind(filter))
  }

  lemma SightedStep(start: seq<Dir>, rec: bool, filter: Filter, u0: set<Path>, rest: seq<Dir>, d: Dir, found: set<Path>, u: set<Path>,
                    next: seq<Dir>, more: set<Path>, u': set<Path>)
    requires Sighted(start, rec, filter, u0, rest + [d], found, u)
    requires more <= SeenDir(d, rec, Visible(filter)) && u' <= u + SeenDir(d, rec, Blind(filter))
    requires next == rest || (d.listable && next == rest + Sort(if rec then SubDirs(d.path, d.entries) else [], DirLe))
    ensures Sighted(start, rec, filter, u0, next, found + more, u')
  {
    PickedStep(rest, d, next, rec, Visible(filter));
    PickedStep(rest, d, next, rec, Blind(filter));
  }

  lemma PickedStep(rest: seq<Dir>, d: Dir, next: seq<Dir>, rec: bool, pick: Pick)
    requires next == rest || (d.listable && next == rest + Sort(if rec then SubDirs(d.path, d.entries) else [], DirLe))
    ensures SeenOf(next, rec, pick) + SeenDir(d, rec, pick) <= SeenOf(rest + [d], rec, pick)
  {
    SeenOfAppend(rest, [d], rec, pick);
    SeenOfOne(d, rec, pick);
    if d.listable {
      PushedSeen(rest, d, rec, pick);
    }
  }

  /**
    One turn: stop or cap seen before a folder, budget gone, or the folder on top
    visited. The walk's standing is carried from the old stack to the new one.
   */
  method WalkTurn(ghost start: seq<Dir>, rec: bool, filter: Filter, counts: Path -> bool, budget: WalkBudget, ghost u0: set<Path>,
                  ghost visited: multiset<Path>, stack: seq<Dir>, found: set<Path>)
    returns (turn: Turn, next: seq<Dir>, found': set<Path>, ghost visited': multiset<Path>, ghost cut: Option<Cut>)
    requires stack != [] && StandsAt(start, rec, filter, u0, visited, stack, None, found, budget.unreadable)
    modifies budget`dirVisits, budget`filesTowardCap, budget`truncated, budget`stopped, budget`unreadable
    ensures StandsAt(start, rec, filter, u0, visited', next, cut, found', budget.unreadable)
    ensures Flags(old(budget.truncated), old(budget.stopped), budget.truncated, budget.stopped, budget.mayStop, budget.Spent(),
                  turn == Halt, cut.Some?)
    ensures turn == Go ==> Ahead(next, rec) < Ahead(stack, rec) && |visited'| > |visited|
    ensures old(budget.maxFiles > 0 && budget.filesTowardCap >= budget.maxFiles) ==> turn == Halt && next == stack
    ensures budget.dirVisits <= old(budget.dirVisits) + 1 && |visited'| <= |visited| + 1
    ensures turn == Go ==> budget.dirVisits == old(budget.dirVisits) + 1
    ensures |visited'| > |visited| ==> budget.maxDirVisits <= 0 || old(budget.dirVisits) < budget.maxDirVisits
    ensures |visited'| >= |visited|
    ensures turn == Halt && cut == None ==> next != []
    ensures |visited'| == |visited| ==> next == stack
    ensures turn == Halt && !budget.stopped && old(RoomToStart(budget)) ==> |visited'| > |visited|
  {
    var stop := ShouldStop(budget.mayStop);
    if stop {
      budget.stopped := true;
      return Halt, stack, found, visited, None;
    }
    if budget.FileCapReached() {
      budget.truncated := true;
      return Halt, stack, found, visited, None;
    }
    var ok := budget.ConsumeDir();
    if !ok {
      // The folder popped for this visit goes back on the stack.
      return Halt, stack, found, visited, None;
    }
    turn, next, found', visited', cut := VisitTop(start, rec, filter, counts, budget, u0, visited, stack, found);
  }

  method VisitTop(ghost start: seq<Dir>, rec: bool, filter: Filter, counts: Path -> bool, budget: WalkBudget, ghost u0: set<Path>,
                  ghost visited: multiset<Path>, stack: seq<Dir>, found: set<Path>)
    returns (turn: Turn, next: seq<Dir>, found': set<Path>, ghost visited': multiset<Path>, ghost cut: Option<Cut>)
    requires stack != [] && StandsAt(start, rec, filter, u0, visited, stack, None, found, budget.unreadable)
    modifies budget`filesTowardCap, budget`stopped, budget`unreadable
    ensures StandsAt(start, rec, filter, u0, visited', next, cut, found', budget.unreadable)
    ensures old(budget.stopped) ==> budget.stopped
    ensures budget.stopped ==> old(budget.stopped) || budget.mayStop
    ensures budget.filesTowardCap >= old(budget.filesTowardCap)
    ensures turn == Go ==> cut == None && Ahead(next, rec) < Ahead(stack, rec) && budget.stopped == old(budget.stopped)
    ensures turn == Halt ==> cut.Some? && (budget.truncated || budget.stopped)
    ensures |visited'| == |visited| + 1
  {
    var current, rest := stack[|stack| - 1], stack[..|stack| - 1];
    var more, left, at := VisitDir(current, rest, rec, filter, counts, budget);
    HandledStands(start, rec, filter, u0, visited, stack, found, old(budget.unreadable), left, at, more, budget.unreadable);
    if at < |current.entries| {
      return Halt, left, found + more, visited + multiset{current.path}, Some(Cut(current, at));
    }
    return Go, left, found + more, visited + multiset{current.path}, None;
  }

  lemma HandledStands(start: seq<Dir>, rec: bool, filter: Filter, u0: set<Path>, visited: multiset<Path>, stack: seq<Dir>,
                      found: set<Path>, u: set<Path>, next: seq<Dir>, at: nat, more: set<Path>, u': set<Path>)
    requires stack != [] && StandsAt(start, rec, filter, u0, visited, stack, None, found, u)
    requires Handled(stack[|stack| - 1], stack[..|stack| - 1], next, at, rec, filter, more, u, u')
    ensures var d := stack[|stack| - 1];
            StandsAt(start, rec, filter, u0, visited + multiset{d.path}, next,
                     if at < |d.entries| then Some(Cut(d, at)) else None, found + more, u')
    ensures at == |stack[|stack| - 1].entries| ==> Ahead(next, rec) < Ahead(stack, rec)
  {
    var d, rest := stack[|stack| - 1], stack[..|stack| - 1];
    assert stack == rest + [d];
    SightedStep(start, rec, filter, u0, rest, d, found, u, next, more, u');
    if Tidy(start, u0) {
      TidyStep(rest, d, found + u, found + more + u', next, at, rec);
    }
    if at < |d.entries| {
      StandingCut(start, rec, filter, visited, stack, found, u, more, u', at);
    } else {
      StandingStep(start, rec, filter, visited, stack, next, found, u, more, u');
    }
  }

  /**
    `_walk_text_files`. The folders visited, those below the saved stack and those
    missed by a cut make up the starting subtrees; every file in scope is found,
    out of sight, still ahead or cut off.
   */
  method WalkFiles(start: seq<Dir>, rec: bool, filter: Filter, counts: Path -> bool, budget: WalkBudget)
    returns (found: set<Path>, ghost visited: multiset<Path>, ghost cut: Option<Cut>)
    modifies budget`dirVisits, budget`filesTowardCap, budget`truncated, budget`stopped, budget`unreadable, budget`resumeStack
    ensures StandsAt(start, rec, filter, old(budget.unreadable), visited, budget.resumeStack, cut, found, budget.unreadable)
    ensures (old(budget.truncated) ==> budget.truncated) && (old(budget.stopped) ==> budget.stopped)
    ensures budget.resumeStack != [] || cut.Some? ==> budget.truncated || budget.stopped
    ensures cut.Some? ==> old(budget.truncated) || budget.stopped
    ensures budget.resumeStack == [] && cut == None ==>
              budget.truncated == old(budget.truncated) && budget.stopped == old(budget.stopped)
    ensures !budget.stopped && start != [] && old(RoomToStart(budget)) ==> |visited| > 0
    ensures |visited| == 0 ==> budget.resumeStack == start
    ensures 0 < budget.maxDirVisits && old(budget.dirVisits) <= budget.maxDirVisits ==> old(budget.dirVisits) + |visited| <= budget.maxDirVisits
    ensures found <= ScopeOf(start, rec, filter) && old(budget.unreadable) <= budget.unreadable
    ensures found <= SeenOf(start, rec, Visible(filter))
    ensures budget.unreadable <= old(budget.unreadable) + SeenOf(start, rec, Blind(filter))
    ensures (budget.stopped ==> old(budget.stopped) || budget.mayStop) && (budget.truncated ==> old(budget.truncated) || budget.Spent())
    ensures !budget.truncated && !budget.stopped ==> Accounted(ScopeOf(start, rec, filter), found, budget.unreadable, {})
  {
    ghost var u0 := budget.unreadable;
    found, visited, cut := WalkAndSave(start, rec, filter, counts, budget);
    WalkEnds(start, rec, filter, u0, visited, budget.resumeStack, cut, found, budget.unreadable);
  }

  /** The loop, and the stack it leaves saved. */
  method WalkAndSave(start: seq<Dir>, rec: bool, filter: Filter, counts: Path -> bool, budget: WalkBudget)
    returns (found: set<Path>, ghost visited: multiset<Path>, ghost cut: Option<Cut>)
    modifies budget`dirVisits, budget`filesTowardCap, budget`truncated, budget`stopped, budget`unreadable, budget`resumeStack
    ensures StandsAt(start, rec, filter, old(budget.unreadable), visited, budget.resumeStack, cut, found, budget.unreadable)
    ensures Flags(old(budget.truncated), old(budget.stopped), budget.truncated, budget.stopped, budget.mayStop, budget.Spent(),
                  budget.resumeStack != [] || cut.Some?, cut.Some?)
    ensures !budget.stopped && start != [] && old(RoomToStart(budget)) ==> |visited| > 0
    ensures |visited| == 0 ==> budget.resumeStack == start
    ensures 0 < budget.maxDirVisits && old(budget.dirVisits) <= budget.maxDirVisits ==> old(budget.dirVisits) + |visited| <= budget.maxDirVisits
  {
    var stack;
    stack, found, visited, cut := WalkLoop(start, rec, filter, counts, budget);
    ghost var u := budget.unreadable;
    budget.resumeStack := stack;
    assert budget.unreadable == u && budget.resumeStack == stack;
  }

  /** The loop: turns until the stack is empty or one of them halts. */
  method WalkLoop(start: seq<Dir>, rec: bool, filter: Filter, counts: Path -> bool, budget: WalkBudget)
    returns (stack: seq<Dir>, found: set<Path>, ghost visited: multiset<Path>, ghost cut: Option<Cut>)
    modifies budget`dirVisits, budget`filesTowardCap, budget`truncated, budget`stopped, budget`unreadable
    ensures StandsAt(start, rec, filter, old(budget.unreadable), visited, stack, cut, found, budget.unreadable)
    ensures Flags(old(budget.truncated), old(budget.stopped), budget.truncated, budget.stopped, budget.mayStop, budget.Spent(),
                  stack != [] || cut.Some?, cut.Some?)
    ensures !budget.stopped && start != [] && old(RoomToStart(budget)) ==> |visited| > 0
    ensures |visited| == 0 ==> stack == start
    ensures 0 < budget.maxDirVisits && old(budget.dirVisits) <= budget.maxDirVisits ==> old(budget.dirVisits) + |visited| <= budget.maxDirVisits
  {
    ghost var u0 := budget.unreadable;
    StandingAtStart(start, rec, filter, u0);
    stack, found, visited, cut := start, {}, multiset{}, None;
    if start != [] {
      var turn;
      turn, stack, found, visited, cut := WalkTurn(start, rec, filter, counts, budget, u0, visited, stack, found);
      if turn == Go {
        stack, found, visited, cut := WalkOn(start, rec, filter, counts, budget, u0, visited, stack, found);
      }
    }
  }

  /** The turns after the first. */
  method WalkOn(ghost start: seq<Dir>, rec: bool, filter: Filter, counts: Path -> bool, budget: WalkBudget, ghost u0: set<Path>,
                ghost before: multiset<Path>, from: seq<Dir>, already: set<Path>)
    returns (stack: seq<Dir>, found: set<Path>, ghost visited: multiset<Path>, ghost cut: Option<Cut>)
    requires StandsAt(start, rec, filter, u0, before, from, None, already, budget.unreadable)
    modifies budget`dirVisits, budget`filesTowardCap, budget`truncated, budget`stopped, budget`unreadable
    ensures StandsAt(start, rec, filter, u0, visited, stack, cut, found, budget.unreadable)
    ensures Flags(old(budget.truncated), old(budget.stopped), budget.truncated, budget.stopped, budget.mayStop, budget.Spent(),
                  stack != [] || cut.Some?, cut.Some?)
    ensures |visited| >= |before|
    ensures 0 < budget.maxDirVisits && old(budget.dirVisits) <= budget.maxDirVisits ==> old(budget.dirVisits) + |visited| - |before| <= budget.maxDirVisits
  {
    ghost var t0, s0, d0 := budget.truncated, budget.stopped, budget.dirVisits;
    var turn := Go;
    stack, found, visited, cut := from, already, before, None;
    while stack != [] && turn == Go
      invariant StandsAt(start, rec, filter, u0, visited, stack, cut, found, budget.unreadable)
      invariant Flags(t0, s0, budget.truncated, budget.stopped, budget.mayStop, budget.Spent(), turn == Halt, cut.Some?)
      invariant turn == Halt && cut == None ==> stack != []
      invariant |visited| >= |before|
      invariant turn == Go ==> budget.dirVisits - d0 == |visited| - |before|
      invariant 0 < budget.maxDirVisits && d0 <= budget.maxDirVisits ==> d0 + |visited| - |before| <= budget.maxDirVisits
      decreases turn == Go, Ahead(stack, rec)
    {
      turn, stack, found, visited, cut := WalkTurn(start, rec, filter, counts, budget, u0, visited, stack, found);
    }
  }

  /** A walk's flags: set only by a stop that may come or a cap that was reached, and what ends it. */
  predicate Flags(t0: bool, s0: bool, t: bool, s: bool, mayStop: bool, spent: bool, halted: bool, cut: bool) {
    && (t0 ==> t) && (s0 ==> s) && (s ==> s0 || mayStop) && (t ==> t0 || spent)
    && (!halted ==> !cut && t == t0 && s == s0) && (halted ==> t || s) && (cut ==> t0 || s)
  }

  lemma WalkEnds(start: seq<Dir>, rec: bool, filter: Filter, u0: set<Path>, visited: multiset<Path>,
                 stack: seq<Dir>, cut: Option<Cut>, found: set<Path>, u: set<Path>)
    requires StandsAt(start, rec, filter, u0, visited, stack, cut, found, u)
    ensures found <= ScopeOf(start, rec, filter) && u0 <= u
    ensures found <= SeenOf(start, rec, Visible(filter)) && u <= u0 + SeenOf(start, rec, Blind(filter))
    ensures stack == [] && cut == None ==> Accounted(ScopeOf(start, rec, filter), found, u, {})
  {
  }

  lemma StandingAtStart(start: seq<Dir>, rec: bool, filter: Filter, u: set<Path>)
    ensures StandsAt(start, rec, filter, u, multiset{}, start, None, {}, u)
  {
    assert {} + u == u;
  }

  /** One folder done: what was left before is left, found or out of sight now. */
  lemma StepAccounted(all: set<Path>, rest: set<Path>, scope: set<Path>, found: set<Path>, u: set<Path>,
                      found': set<Path>, u': set<Path>, left': set<Path>)
    requires Accounted(all, found, u, rest + scope)
    requires Accounted(scope, found', u', left')
    requires found <= found' && u <= u' && rest <= left'
    ensures Accounted(all, found', u', left')
  {
    forall f | f in all ensures f in found' || f in left' || CouldNotSee(f, u') {
      if CouldNotSee(f, u) {
        CouldNotSeeMore(f, u, u');
      }
    }
  }

  /** What lies in scope below the pushed folders lay in scope below their parent. */
  lemma ScopeOfDirs(d: Dir, dirs: seq<Dir>, rec: bool, filter: Filter)
    requires dirs == if rec then SubDirs(d.path, d.entries) else []
    ensures ScopeOf(dirs, rec, filter) <= Scope(d.path, d.entries, rec, filter)
  {
    if rec {
      SubScope(d.path, d.entries, filter);
    }
  }

  lemma {:induction false} SubScope(path: Path, entries: seq<Entry>, filter: Filter)
    ensures ScopeOf(SubDirs(path, entries), true, filter) <= Scope(path, entries, true, filter)
  {
    if entries != [] {
      SubScope(path, entries[1..], filter);
      ScopeOfAppend(SubDir(path, entries[0]), SubDirs(path, entries[1..]), true, filter);
      if SubDir(path, entries[0]) != [] {
        ScopeOfOne(SubDir(path, entries[0])[0], true, filter);
      }
    }
  }
}
