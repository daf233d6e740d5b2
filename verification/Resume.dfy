/**
  Sequential subfolder scans that stop half way and resume
  (`sync_executor.plan_sync_cycle` with a `SubfolderQueue`).
 */
module Resume {
  import opened Prelude
  import opened Share
  import opened Apart
  import opened Walk

  /** What is saved for the next cycle: the resume stack, or the walk root when there is none. */
  function SavedStack(truncated: bool, stopped: bool, resume: seq<Dir>, root: Dir): seq<Dir> {
    if !truncated && !stopped then [] else if resume == [] then [root] else resume
  }

  /** How a cycle's scan of one subfolder ended. */
  datatype Ending =
    | Complete   // every folder visited
    | Between    // truncated, or stopped between two folders
    | NotBegun   // stopped before the walk: the saved position is replaced by the root
    | Inside     // stopped among the entries of a folder already taken off the stack

  /** The walk of a cycle with a budget of its own. */
  method WalkSaved(start: seq<Dir>, filter: Filter, counts: Path -> bool, maxScan: int, mayStop: bool)
    returns (stack: seq<Dir>, truncated: bool, stopped: bool, found: set<Path>, unreadable: set<Path>,
             ghost visited: multiset<Path>, ghost cut: Option<Cut>)
    requires start != []
    ensures StandsAt(start, true, filter, {}, visited, stack, cut, found, unreadable)
    ensures (stopped ==> mayStop) && (truncated ==> maxScan > 0)
    ensures stack != [] || cut.Some? <==> truncated || stopped
    ensures cut.Some? ==> stopped
    ensures truncated && !stopped ==> |visited| >= 1
    ensures |visited| == 0 ==> stack == start
    ensures maxScan > 0 ==> |visited| <= maxScan
  {
    var budget := new WalkBudget(maxScan, maxScan, mayStop);
    found, visited, cut := WalkFiles(start, true, filter, counts, budget);
    assert maxScan <= 0 ==> !budget.Spent();
    stack, truncated, stopped, unreadable := budget.resumeStack, budget.truncated, budget.stopped, budget.unreadable;
  }

  /**
    The scan of one cycle from the saved stack (or the root). Unless a stop was seen before it began, its
    visits, the walk's own stack and what a stop cut off make up the folders it started from, and every
    file is found, out of sight, on the stack or cut off.
   */
  method ScanSubfolder(root: Dir, start: seq<Dir>, filter: Filter, counts: Path -> bool, maxScan: int, mayStop: bool)
    returns (next: seq<Dir>, stopped: bool, found: set<Path>, unreadable: set<Path>,
             ghost resume: seq<Dir>, ghost ending: Ending, ghost visited: multiset<Path>, ghost cut: Option<Cut>)
    requires start != []
    ensures (stopped ==> mayStop) && (maxScan <= 0 && !mayStop ==> ending == Complete)
    ensures ending == Inside <==> cut.Some?
    ensures ending != NotBegun ==> StandsAt(start, true, filter, {}, visited, resume, cut, found, unreadable)
    ensures ending == Complete <==> next == []
    ensures ending == Complete || ending == Between ==> next == resume
    ensures ending == Between && !stopped ==> |visited| >= 1
    ensures maxScan > 0 ==> |visited| <= maxScan
    ensures ending == Between && |visited| == 0 ==> next == start
    ensures ending == NotBegun ==> stopped && next == [root] && visited == multiset{} && found == unreadable == {}
    ensures ending == Inside ==> stopped && next == if resume == [] then [root] else resume
  {
    resume, visited, cut, found, unreadable := [], multiset{}, None, {}, {};
    var stop := ShouldStop(mayStop);
    if stop {
      return SavedStack(false, true, [], root), true, {}, {}, resume, NotBegun, visited, cut;
    }
    var stack, truncated;
    stack, truncated, stopped, found, unreadable, visited, cut := WalkSaved(start, filter, counts, maxScan, mayStop);
    resume, next := stack, SavedStack(truncated, stopped, stack, root);
    ending := if cut.Some? then Inside else if next == [] then Complete else Between;
  }

  // ----- a stop inside a folder ----------------------------------------------------

  /** Every folder the cycle started from was visited or lies below the saved stack. */
  ghost predicate FoldersKept(start: seq<Dir>, visited: multiset<Path>, next: seq<Dir>) {
    forall p :: p in DirsOf(start, true) ==> p in visited || p in DirsOf(next, true)
  }

  /** Every file in scope was found, is out of sight, or lies below the saved stack. */
  ghost predicate FilesKept(start: seq<Dir>, filter: Filter, found: set<Path>, unreadable: set<Path>, next: seq<Dir>) {
    Accounted(ScopeOf(start, true, filter), found, unreadable, ScopeOf(next, true, filter))
  }

  /** The folders a scan started from lie in the subfolder. */
  ghost predicate LiesIn(start: seq<Dir>, root: Dir, filter: Filter) {
    DirsOf(start, true) <= Tree(root, true) && ScopeOf(start, true, filter) <= ScopeOf([root], true, filter)
  }

  /** What the cut left for the next cycle. */
  function SavedAfterCut(resume: seq<Dir>, root: Dir): seq<Dir> { if resume == [] then [root] else resume }

  lemma {:induction false} BelowIsBelow(path: Path, entries: seq<Entry>, p: Path)
    requires p in Below(path, entries)
    ensures path <= p
  {
    if !(path <= p) {
      NotBelow(path, entries, p);
    }
  }

  lemma TreeIsBelow(d: Dir, p: Path)
    requires p in Tree(d, true)
    ensures d.path <= p
  {
    if p != d.path {
      BelowIsBelow(d.path, d.entries, p);
    }
  }

  lemma {:induction false} TidyOnce(stack: seq<Dir>, p: Path)
    requires Tidy(stack, {})
    ensures DirsOf(stack, true)[p] <= 1
    ensures p in DirsOf(stack, true) ==> exists s :: s in stack && s.path <= p
  {
    if stack != [] {
      var d, rest := stack[0], stack[1..];
      assert forall s :: s in rest ==> s in stack;
      assert forall i :: 0 <= i < |rest| ==> rest[i] == stack[i + 1];
      assert d in stack;
      TidyOnce(rest, p);
      TreeDistinct(d, true, p);
      if p in Tree(d, true) {
        TreeIsBelow(d, p);
        if p in DirsOf(rest, true) {
          var s :| s in rest && s.path <= p;
          var i :| 0 <= i < |rest| && rest[i] == s;
          assert Incomparable(stack[0].path, stack[i + 1].path);
          BelowIncomparable(d.path, s.path, p);
        }
      }
    }
  }

  /**
    After a stop inside a folder no folder is lost exactly when the saved stack is the whole subfolder again
    or the folder that was cut has no sub-folders, before the stop or behind it.
   */
  lemma CutKeepsFolders(root: Dir, start: seq<Dir>, filter: Filter, visited: multiset<Path>, resume: seq<Dir>, cut: Cut,
                        found: set<Path>, unreadable: set<Path>)
    requires Tidy(start, {}) && LiesIn(start, root, filter)
    requires StandsAt(start, true, filter, {}, visited, resume, Some(cut), found, unreadable)
    ensures FoldersKept(start, visited, SavedAfterCut(resume, root))
       <==> resume == [] || SubDirs(cut.dir.path, cut.dir.entries) == []
  {
    var d := cut.dir;
    var subs := SubDirs(d.path, d.entries);
    SubDirsCover(d.path, d.entries);
    DirsOfOne(root, true);
    if resume != [] && subs != [] {
      var p := subs[0].path;
      assert DirsOf(subs, true) == Tree(subs[0], true) + DirsOf(subs[1..], true);
      assert p in Below(d.path, d.entries);
      TidyOnce(start, p);
      assert DirsOf(start, true)[p] == visited[p] + DirsOf(resume, true)[p] + Below(d.path, d.entries)[p];
    }
  }

  /**
    And no file is lost exactly when the saved stack is the whole subfolder again or nothing in scope lies
    behind the stop or in a sub-folder of the folder that was cut.
   */
  lemma CutKeepsFiles(root: Dir, start: seq<Dir>, filter: Filter, visited: multiset<Path>, resume: seq<Dir>, cut: Cut,
                      found: set<Path>, unreadable: set<Path>)
    requires Tidy(start, {}) && LiesIn(start, root, filter)
    requires StandsAt(start, true, filter, {}, visited, resume, Some(cut), found, unreadable)
    ensures FilesKept(start, filter, found, unreadable, SavedAfterCut(resume, root))
       <==> resume == [] || Unseen(cut.dir, cut.at, true, filter) == {}
  {
    var unseen := Unseen(cut.dir, cut.at, true, filter);
    if resume != [] && unseen != {} {
      var f :| f in unseen;
      UnseenStaysUnseen(resume, found + unreadable, cut.dir, cut.at, true, filter, f);
      if CouldNotSee(f, unreadable) {
        CouldNotSeeMore(f, unreadable, found + unreadable);
      }
      assert f in ScopeOf(start, true, filter);
    }
  }

  // ----- chains of cycles ------------------------------------------------------

  /** The folders visited so far and those below the stack make up the subfolder; so do the files. */
  ghost predicate Underway(root: Dir, filter: Filter, all: multiset<Path>, next: seq<Dir>, found: set<Path>, unreadable: set<Path>) {
    && Tree(root, true) == all + DirsOf(next, true)
    && ScopeOf(next, true, filter) <= ScopeOf([root], true, filter)
    && Accounted(ScopeOf([root], true, filter), found, unreadable, ScopeOf(next, true, filter))
    && (DistinctNames(root.entries) ==> Tidy(next, {}))
  }

  /** What a cycle that was stopped inside a folder keeps. */
  ghost predicate CutExactly(start: seq<Dir>, filter: Filter, visited: multiset<Path>, resume: seq<Dir>, cut: Cut,
                             found: set<Path>, unreadable: set<Path>, next: seq<Dir>) {
    && IsCut(Some(cut))
    && (FoldersKept(start, visited, next) <==> resume == [] || SubDirs(cut.dir.path, cut.dir.entries) == [])
    && (FilesKept(start, filter, found, unreadable, next) <==> resume == [] || Unseen(cut.dir, cut.at, true, filter) == {})
  }

  /** The stack a chain has come to meets what the two lemmas on a cut ask of a start. */
  lemma CutOfChain(root: Dir, filter: Filter, all: multiset<Path>, start: seq<Dir>, before: set<Path>, hidden: set<Path>,
                   visited: multiset<Path>, resume: seq<Dir>, cut: Cut, found: set<Path>, unreadable: set<Path>)
    requires Underway(root, filter, all, start, before, hidden) && DistinctNames(root.entries)
    requires StandsAt(start, true, filter, {}, visited, resume, Some(cut), found, unreadable)
    ensures CutExactly(start, filter, visited, resume, cut, found, unreadable, SavedAfterCut(resume, root))
  {
    assert Tidy(start, {}) && LiesIn(start, root, filter);
    CutKeepsFolders(root, start, filter, visited, resume, cut, found, unreadable);
    CutKeepsFiles(root, start, filter, visited, resume, cut, found, unreadable);
  }

  lemma FilesUnderway(scope: set<Path>, start: set<Path>, left: set<Path>, found: set<Path>, u: set<Path>,
                      more: set<Path>, u': set<Path>)
    requires Accounted(scope, found, u, start) && Accounted(start, more, u', left)
    ensures Accounted(scope, found + more, u + u', left)
  {
    AccountedMore(start, more, u', left, found + more, u + u', left);
    forall f | f in scope ensures f in found + more || f in left || CouldNotSee(f, u + u') {
      if CouldNotSee(f, u) {
        CouldNotSeeMore(f, u, u + u');
      }
    }
  }

  /** What a cycle that was not cut leaves. */
  lemma UncutStands(start: seq<Dir>, filter: Filter, visited: multiset<Path>, next: seq<Dir>, more: set<Path>, u: set<Path>)
    requires StandsAt(start, true, filter, {}, visited, next, None, more, u)
    ensures DirsOf(start, true) == visited + DirsOf(next, true)
    ensures ScopeOf(next, true, filter) <= ScopeOf(start, true, filter)
    ensures Accounted(ScopeOf(start, true, filter), more, u, ScopeOf(next, true, filter))
    ensures Tidy(start, {}) ==> Tidy(next, {})
    ensures start != [] && next == [] ==> |visited| >= 1
  {
    assert ScopeOf(next, true, filter) + {} == ScopeOf(next, true, filter);
    if start != [] && next == [] {
      assert DirsOf(start, true) == Tree(start[0], true) + DirsOf(start[1..], true);
      assert start[0].path in DirsOf(start, true);
    }
  }

  lemma CycleUnderway(root: Dir, filter: Filter, all: multiset<Path>, start: seq<Dir>, found: set<Path>, unreadable: set<Path>,
                      visited: multiset<Path>, next: seq<Dir>, more: set<Path>, u: set<Path>)
    requires Underway(root, filter, all, start, found, unreadable)
    requires StandsAt(start, true, filter, {}, visited, next, None, more, u)
    ensures Underway(root, filter, all + visited, next, found + more, unreadable + u)
    ensures |all + visited| == |all| + |visited|
    ensures start != [] && next == [] ==> |visited| >= 1
  {
    UncutStands(start, filter, visited, next, more, u);
    FilesUnderway(ScopeOf([root], true, filter), ScopeOf(start, true, filter), ScopeOf(next, true, filter),
                  found, unreadable, more, u);
  }

  lemma AtTheRoot(root: Dir, filter: Filter, before: set<Path>, hidden: set<Path>)
    ensures Underway(root, filter, multiset{}, [root], before, hidden)
  {
    DirsOfOne(root, true);
  }

  /**
    One more cycle of a `chain` (or of none). It carries the chain on, or begins it anew when it was stopped before its walk;
    stopped inside a folder, it keeps folders and files under the two exact conditions, whatever came before.
   */
  method CycleOfChain(root: Dir, start: seq<Dir>, filter: Filter, counts: Path -> bool, maxScan: int, mayStop: bool,
                      ghost chain: bool, ghost all: multiset<Path>, ghost before: set<Path>, ghost hidden: set<Path>)
    returns (next: seq<Dir>, stopped: bool, found: set<Path>, unreadable: set<Path>,
             ghost resume: seq<Dir>, ghost ending: Ending, ghost visited: multiset<Path>, ghost cut: Option<Cut>)
    requires start != [] && (chain ==> Underway(root, filter, all, start, before, hidden))
    ensures (stopped ==> mayStop) && (maxScan <= 0 && !mayStop ==> ending == Complete && next == [])
    ensures chain && (ending == Complete || ending == Between) ==>
      && Underway(root, filter, all + visited, next, before + found, hidden + unreadable)
      && |all + visited| == |all| + |visited| && (stopped || |visited| >= 1)
    ensures ending == NotBegun ==> stopped && next == [root] && Underway(root, filter, multiset{}, next, before, hidden)
    ensures ending == Inside ==> stopped && cut.Some? && next == SavedAfterCut(resume, root)
    ensures chain && ending == Inside && DistinctNames(root.entries) ==>
      CutExactly(start, filter, visited, resume, cut.value, found, unreadable, next)
  {
    next, stopped, found, unreadable, resume, ending, visited, cut := ScanSubfolder(root, start, filter, counts, maxScan, mayStop);
    match ending {
      case Inside =>
        if chain && DistinctNames(root.entries) {
          CutOfChain(root, filter, all, start, before, hidden, visited, resume, cut.value, found, unreadable);
        }
      case NotBegun => AtTheRoot(root, filter, before, hidden);
      case _ =>
        if chain {
          CycleUnderway(root, filter, all, start, before, hidden, visited, next, found, unreadable);
        }
    }
  }

  /**
    Cycle after cycle over one subfolder, each from the stack the one before saved, at most `rounds` of them.
    While none was stopped inside a folder or before its walk (`clean`), no folder is visited twice or left
    out and every cycle that was not stopped visits something; so the scan ends after as many cycles as
    there are folders, and one more for each that was stopped, having visited every folder once.
   */
  method ScanCycles(root: Dir, filter: Filter, counts: Path -> bool, maxScan: int, mayStop: bool, rounds: nat)
    returns (next: seq<Dir>, cycles: nat, stops: nat, found: set<Path>, unreadable: set<Path>,
             ghost clean: bool, ghost all: multiset<Path>)
    ensures clean ==> Underway(root, filter, all, next, found, unreadable)
    ensures clean ==> cycles <= |all| + stops
    ensures cycles <= rounds && (cycles < rounds ==> next == [])
    ensures clean && rounds >= |Tree(root, true)| + stops ==> next == []
    ensures clean && next == [] ==> all == Tree(root, true) && Accounted(ScopeOf([root], true, filter), found, unreadable, {})
    ensures clean && next == [] && DistinctNames(root.entries) ==> forall p :: p in all ==> all[p] == 1
    ensures stops <= cycles && (stops == 0 ==> clean) && (!mayStop ==> stops == 0)
  {
    next, cycles, stops, found, unreadable := [root], 0, 0, {}, {};
    clean, all := true, multiset{};
    DirsOfOne(root, true);
    while cycles < rounds && next != []
      invariant cycles <= rounds && stops <= cycles && (stops == 0 ==> clean) && (!mayStop ==> stops == 0)
      invariant clean ==> Underway(root, filter, all, next, found, unreadable)
      invariant clean ==> cycles <= |all| + stops
      decreases rounds - cycles
    {
      var after, stopped, more, u, _, ending, visited, _ :=
        CycleOfChain(root, next, filter, counts, maxScan, mayStop, clean, all, found, unreadable);
      clean, all := clean && (ending == Complete || ending == Between), all + visited;
      next, found, unreadable, cycles := after, found + more, unreadable + u, cycles + 1;
      if stopped {
        stops := stops + 1;
      }
    }
    if clean {
      UnderwayEnds(root, filter, all, next, found, unreadable);
    }
  }

  lemma UnderwayEnds(root: Dir, filter: Filter, all: multiset<Path>, next: seq<Dir>, found: set<Path>, unreadable: set<Path>)
    requires Underway(root, filter, all, next, found, unreadable)
    ensures next != [] ==> |all| < |Tree(root, true)|
    ensures next == [] ==> all == Tree(root, true) && Accounted(ScopeOf([root], true, filter), found, unreadable, {})
    ensures next == [] && DistinctNames(root.entries) ==> forall p :: p in all ==> all[p] == 1
  {
    if next != [] {
      assert DirsOf(next, true) == Tree(next[0], true) + DirsOf(next[1..], true);
      assert next[0].path in DirsOf(next, true);
      assert |Tree(root, true)| == |all| + |DirsOf(next, true)|;
    } else if DistinctNames(root.entries) {
      forall p | p in all ensures all[p] == 1 { TreeDistinct(root, true, p); }
    }
  }
}
