/**
  Removing documents that are gone (`sync_executor._prune_removed_documents` and
  the guards of `run_sync_work`), over the walk of every source.
 */
module Prune {
  import opened Prelude
  import opened Share
  import opened Sight
  import opened Walk

  /** One source to walk: where it starts and whether it descends. */
  datatype Target = Target(stack: seq<Dir>, rec: bool)

  /** The files the sources mean to hold, readable or not. */
  ghost function SourceScope(targets: seq<Target>, filter: Filter): set<Path> {
    if targets == [] then {}
    else SourceScope(targets[..|targets| - 1], filter)
         + ScopeOf(targets[|targets| - 1].stack, targets[|targets| - 1].rec, filter)
  }

  lemma SourceScopeNext(targets: seq<Target>, i: nat, filter: Filter)
    requires i < |targets|
    ensures SourceScope(targets[..i + 1], filter)
         == SourceScope(targets[..i], filter) + ScopeOf(targets[i].stack, targets[i].rec, filter)
  {
    assert targets[..i + 1][..i] == targets[..i];
  }

  lemma {:induction false} SourceScopePrefix(targets: seq<Target>, i: nat, filter: Filter)
    requires i <= |targets|
    ensures SourceScope(targets[..i], filter) <= SourceScope(targets, filter)
    decreases |targets| - i
  {
    if i == |targets| {
      assert targets[..i] == targets;
    } else {
      SourceScopeNext(targets, i, filter);
      SourceScopePrefix(targets, i + 1, filter);
    }
  }

  /** What the walks of the sources get to see. */
  ghost function SourceSeen(targets: seq<Target>, pick: Pick): set<Path> {
    if targets == [] then {}
    else SourceSeen(targets[..|targets| - 1], pick) + SeenOf(targets[|targets| - 1].stack, targets[|targets| - 1].rec, pick)
  }

  lemma {:induction false} SourceSeenPrefix(targets: seq<Target>, i: nat, pick: Pick)
    requires i <= |targets|
    ensures SourceSeen(targets[..i], pick) <= SourceSeen(targets, pick)
    ensures i < |targets| ==> SourceSeen(targets[..i + 1], pick) == SourceSeen(targets[..i], pick) + SeenOf(targets[i].stack, targets[i].rec, pick)
    decreases |targets| - i
  {
    if i == |targets| {
      assert targets[..i] == targets;
    } else {
      assert targets[..i + 1][..i] == targets[..i];
      SourceSeenPrefix(targets, i + 1, pick);
    }
  }

  /** Found is in scope and can be seen, noted is only what cannot, and after a complete pass nothing else is left. */
  ghost predicate Candidates(targets: seq<Target>, filter: Filter, scanned: set<Path>, unreadable: set<Path>, complete: bool) {
    && scanned <= SourceScope(targets, filter)
    && (complete ==> Accounted(SourceScope(targets, filter), scanned, unreadable, {}))
    && scanned <= SourceSeen(targets, Visible(filter)) && unreadable <= SourceSeen(targets, Blind(filter))
  }

  lemma CandidatesOfPrefix(targets: seq<Target>, i: nat, filter: Filter, scanned: set<Path>, unreadable: set<Path>, complete: bool)
    requires i <= |targets| && Candidates(targets[..i], filter, scanned, unreadable, complete) && (complete ==> i == |targets|)
    ensures Candidates(targets, filter, scanned, unreadable, complete)
  {
    if i == |targets| {
      assert targets[..i] == targets;
    }
    SourceScopePrefix(targets, i, filter);
    SourceSeenPrefix(targets, i, Visible(filter));
    SourceSeenPrefix(targets, i, Blind(filter));
  }

  /** One source more. */
  lemma NextSource(targets: seq<Target>, i: nat, filter: Filter, scanned: set<Path>, u: set<Path>, found: set<Path>, u': set<Path>, complete: bool)
    requires i < |targets| && Candidates(targets[..i], filter, scanned, u, complete) && u <= u'
    requires found <= ScopeOf(targets[i].stack, targets[i].rec, filter)
    requires found <= SeenOf(targets[i].stack, targets[i].rec, Visible(filter))
    requires u' <= u + SeenOf(targets[i].stack, targets[i].rec, Blind(filter))
    requires complete ==> Accounted(ScopeOf(targets[i].stack, targets[i].rec, filter), found, u', {})
    ensures Candidates(targets[..i + 1], filter, scanned + found, u', complete)
  {
    SourceScopeNext(targets, i, filter);
    SourceSeenPrefix(targets, i, Visible(filter));
    SourceSeenPrefix(targets, i, Blind(filter));
    var before, scope := SourceScope(targets[..i], filter), ScopeOf(targets[i].stack, targets[i].rec, filter);
    if complete {
      AccountedMore(before, scanned, u, {}, scanned + found, u', {});
      AccountedMore(scope, found, u', {}, scanned + found, u', {});
    }
  }

  /** The walk of one source, as far as the candidates are concerned. */
  method WalkSource(target: Target, filter: Filter, counts: Path -> bool, budget: WalkBudget) returns (found: set<Path>)
    modifies budget`dirVisits, budget`filesTowardCap, budget`truncated, budget`stopped, budget`unreadable, budget`resumeStack
    ensures found <= ScopeOf(target.stack, target.rec, filter) && old(budget.unreadable) <= budget.unreadable
    ensures found <= SeenOf(target.stack, target.rec, Visible(filter))
    ensures budget.unreadable <= old(budget.unreadable) + SeenOf(target.stack, target.rec, Blind(filter))
    ensures (budget.stopped ==> old(budget.stopped) || budget.mayStop) && (budget.truncated ==> old(budget.truncated) || budget.Spent())
    ensures (old(budget.truncated) ==> budget.truncated) && (old(budget.stopped) ==> budget.stopped)
    ensures !budget.truncated && !budget.stopped ==>
      Accounted(ScopeOf(target.stack, target.rec, filter), found, budget.unreadable, {})
  {
    ghost var visited, cut;
    found, visited, cut := WalkFiles(target.stack, target.rec, filter, counts, budget);
  }

  /** Found is only what can be seen, noted only what cannot; the flags need a stop that may come or a cap reached. */
  ghost predicate ScannedHonestly(targets: seq<Target>, filter: Filter, budget: WalkBudget, scanned: set<Path>)
    reads budget
  {
    && scanned <= SourceSeen(targets, Visible(filter)) && budget.unreadable <= SourceSeen(targets, Blind(filter))
    && (budget.stopped ==> budget.mayStop) && (budget.truncated ==> budget.Spent())
  }

  /**
    `_iter_candidate_files`: walk the sources in turn. After a pass that was
    neither truncated nor stopped every file in scope was yielded or lies where
    the walk could not see.
   */
  method CandidateFiles(targets: seq<Target>, filter: Filter, counts: Path -> bool, budget: WalkBudget)
    returns (scanned: set<Path>)
    requires budget.unreadable == {} && !budget.stopped && !budget.truncated
    modifies budget`dirVisits, budget`filesTowardCap, budget`truncated, budget`stopped, budget`unreadable, budget`resumeStack
    ensures ScannedHonestly(targets, filter, budget, scanned)
    ensures scanned <= SourceScope(targets, filter)
    ensures !budget.truncated && !budget.stopped ==>
              Accounted(SourceScope(targets, filter), scanned, budget.unreadable, {})
  {
    scanned := {};
    var i := 0;
    while i < |targets|
      invariant i <= |targets|
      invariant Candidates(targets[..i], filter, scanned, budget.unreadable, !budget.truncated && !budget.stopped)
      invariant (budget.stopped ==> budget.mayStop) && (budget.truncated ==> budget.Spent())
    {
      var stop := ShouldStop(budget.mayStop);
      if stop {
        budget.stopped := true;
        break;
      }
      if budget.truncated {
        break;
      }
      ghost var u := budget.unreadable;
      var found := WalkSource(targets[i], filter, counts, budget);
      NextSource(targets, i, filter, scanned, u, found, budget.unreadable, !budget.truncated && !budget.stopped);
      scanned := scanned + found;
      i := i + 1;
      if budget.truncated {
        break;
      }
    }
    CandidatesOfPrefix(targets, i, filter, scanned, budget.unreadable, !budget.truncated && !budget.stopped);
  }

  /** The paths the sync state tracks. */
  class TrackedPaths {
    var paths: set<Path>

    constructor (paths: set<Path>)
      ensures this.paths == paths
    {
      this.paths := paths;
    }
  }

  /** What Knovas holds. */
  class Knovas {
    var documents: set<Path>

    constructor (documents: set<Path>)
      ensures this.documents == documents
    {
      this.documents := documents;
    }

    /** `delete_by_pointer`: gone (also when it was gone before), or an error and nothing changed. */
    method Delete(path: Path) returns (ok: bool)
      modifies this
      ensures documents == if ok then old(documents) - {path} else old(documents)
    {
      ok := *;
      if ok {
        documents := documents - {path};
      }
    }
  }

  /** The tracked documents that are gone, and those that were not found where nobody could look. */
  function GoneOf(tracked: set<Path>, scanned: set<Path>, unreadable: set<Path>): set<Path> {
    set p | p in tracked && p !in scanned && !CouldNotSee(p, unreadable)
  }

  function HiddenOf(tracked: set<Path>, scanned: set<Path>, unreadable: set<Path>): set<Path> {
    set p | p in tracked && p !in scanned && CouldNotSee(p, unreadable)
  }

  /** The prune after the paths in `seen`. */
  ghost predicate Pruned(seen: set<Path>, scanned: set<Path>, unreadable: set<Path>, removed: set<Path>, kept: nat, errors: nat) {
    Tallied(GoneOf(seen, scanned, unreadable), HiddenOf(seen, scanned, unreadable), removed, kept, errors)
  }

  ghost predicate Tallied(gone: set<Path>, hidden: set<Path>, removed: set<Path>, kept: nat, errors: nat) {
    removed <= gone && errors == |gone - removed| && kept == |hidden|
  }

  lemma TallyGone(gone: set<Path>, hidden: set<Path>, removed: set<Path>, kept: nat, errors: nat, path: Path)
    requires Tallied(gone, hidden, removed, kept, errors) && path !in gone
    ensures Tallied(gone + {path}, hidden, removed + {path}, kept, errors)
    ensures Tallied(gone + {path}, hidden, removed, kept, errors + 1)
  {
    assert gone + {path} - (removed + {path}) == gone - removed;
    assert gone + {path} - removed == (gone - removed) + {path};
  }

  lemma OneMore(seen: set<Path>, path: Path, scanned: set<Path>, unreadable: set<Path>)
    ensures GoneOf(seen + {path}, scanned, unreadable)
         == GoneOf(seen, scanned, unreadable) + if path !in scanned && !CouldNotSee(path, unreadable) then {path} else {}
    ensures HiddenOf(seen + {path}, scanned, unreadable)
         == HiddenOf(seen, scanned, unreadable) + if path !in scanned && CouldNotSee(path, unreadable) then {path} else {}
  {
  }

  lemma PrunedOne(seen: set<Path>, scanned: set<Path>, unreadable: set<Path>, removed: set<Path>, kept: nat, errors: nat, path: Path)
    requires Pruned(seen, scanned, unreadable, removed, kept, errors) && path !in seen
    ensures var more := seen + {path};
            if path in scanned then Pruned(more, scanned, unreadable, removed, kept, errors)
            else if CouldNotSee(path, unreadable) then Pruned(more, scanned, unreadable, removed, kept + 1, errors)
            else Pruned(more, scanned, unreadable, removed + {path}, kept, errors) && Pruned(more, scanned, unreadable, removed, kept, errors + 1)
  {
    OneMore(seen, path, scanned, unreadable);
    var gone, hidden := GoneOf(seen, scanned, unreadable), HiddenOf(seen, scanned, unreadable);
    if path !in scanned && !CouldNotSee(path, unreadable) {
      TallyGone(gone, hidden, removed, kept, errors, path);
    }
  }

  /**
    `_prune_removed_documents`: exactly the tracked documents that are gone are
    asked to be deleted; what Knovas deleted leaves the state with it.
   */
  method PruneRemoved(scanned: set<Path>, unreadable: set<Path>, state: TrackedPaths, knovas: Knovas)
    returns (kept: nat, errors: nat, ghost removed: set<Path>)
    modifies state, knovas
    ensures state.paths == old(state.paths) - removed
    ensures knovas.documents == old(knovas.documents) - removed
    ensures removed <= GoneOf(old(state.paths), scanned, unreadable)
    ensures errors == |GoneOf(old(state.paths), scanned, unreadable) - removed|
    ensures kept == |HiddenOf(old(state.paths), scanned, unreadable)|
  {
    kept, errors, removed := 0, 0, {};
    var todo := state.paths;
    ghost var seen := {};
    while todo != {}
      invariant todo !! seen && todo + seen == old(state.paths)
      invariant state.paths == old(state.paths) - removed
      invariant knovas.documents == old(knovas.documents) - removed
      invariant Pruned(seen, scanned, unreadable, removed, kept, errors)
      decreases |todo|
    {
      var path :| path in todo;
      PrunedOne(seen, scanned, unreadable, removed, kept, errors, path);
      todo, seen := todo - {path}, seen + {path};
      if path in scanned {
        continue;
      }
      if CouldNotSee(path, unreadable) {
        kept := kept + 1;
        continue;
      }
      var ok := knovas.Delete(path);
      if ok {
        state.paths := state.paths - {path};
        removed := removed + {path};
      } else {
        errors := errors + 1;
      }
    }
    assert seen == old(state.paths);
  }

  /** What `run_sync_work` knows besides the scan before it prunes. */
  datatype Guards = Guards(deleteOnRemove: bool, paused: bool, sequential: bool, sourcesSkipped: bool)

  /** `can_prune`, and the guard against sources that came back empty. */
  predicate MayPrune(g: Guards, truncated: bool, stopped: bool, scanned: set<Path>, tracked: set<Path>) {
    && g.deleteOnRemove && !truncated && !stopped && !g.paused && !g.sequential && !g.sourcesSkipped
    && !(scanned == {} && tracked != {})
  }

  /** The last step of a cycle: pruning, unless something guards against it. */
  method PruneIfSafe(g: Guards, truncated: bool, stopped: bool, scanned: set<Path>, unreadable: set<Path>,
                     state: TrackedPaths, knovas: Knovas)
    returns (errors: nat, ghost removed: set<Path>)
    modifies state, knovas
    ensures state.paths == old(state.paths) - removed && knovas.documents == old(knovas.documents) - removed
    ensures removed <= GoneOf(old(state.paths), scanned, unreadable)
    ensures var safe := g.deleteOnRemove && !truncated && !stopped && !g.paused && !g.sequential && !g.sourcesSkipped && scanned != {};
            if safe then errors == |GoneOf(old(state.paths), scanned, unreadable) - removed| else errors == 0 && removed == {}
  {
    errors, removed := 0, {};
    if MayPrune(g, truncated, stopped, scanned, state.paths) {
      var _, failed, gone := PruneRemoved(scanned, unreadable, state, knovas);
      errors, removed := failed, gone;
    }
  }

  lemma UploadsAreThere(tracked: set<Path>, uploads: set<Path>, scanned: set<Path>, unreadable: set<Path>)
    ensures GoneOf(tracked + uploads * scanned, scanned, unreadable) == GoneOf(tracked, scanned, unreadable)
  {
  }

  lemma ScannedOrHidden(scope: set<Path>, tracked: set<Path>, scanned: set<Path>, unreadable: set<Path>, removed: set<Path>)
    requires removed <= GoneOf(tracked, scanned, unreadable)
    requires removed != {} ==> Accounted(scope, scanned, unreadable, {})
    ensures removed !! scope
  {
  }

  /**
    One cycle of `run_sync_work`: scan, upload some of what was scanned, prune.
    Whatever was unreadable, stopped or paused, a document whose file is still in
    scope of a source stays at Knovas; nothing at all is deleted unless the scan
    was complete and nothing guards against pruning; and then, errors of Knovas
    apart, everything that is gone is.
   */
  method SyncCycle(targets: seq<Target>, filter: Filter, counts: Path -> bool, uploads: set<Path>, g: Guards,
                   maxScan: int, mayStop: bool, state: TrackedPaths, knovas: Knovas)
    returns (scanned: set<Path>, budget: WalkBudget, errors: nat, ghost removed: set<Path>)
    modifies state, knovas
    ensures fresh(budget) && ScannedHonestly(targets, filter, budget, scanned)
    ensures maxScan <= 0 && !mayStop ==> !budget.truncated && !budget.stopped
    ensures knovas.documents == old(knovas.documents) + uploads * scanned - removed
    ensures state.paths == old(state.paths) + uploads * scanned - removed
    ensures removed !! SourceScope(targets, filter)
    ensures removed <= GoneOf(old(state.paths), scanned, budget.unreadable)
    ensures removed != {} ==> g.deleteOnRemove && !g.paused && !g.sequential && !g.sourcesSkipped
                              && !budget.truncated && !budget.stopped && scanned != {}
    ensures g.deleteOnRemove && !g.paused && !g.sequential && !g.sourcesSkipped
            && !budget.truncated && !budget.stopped && scanned != {} ==>
              errors == |GoneOf(old(state.paths), scanned, budget.unreadable) - removed|
              && (errors == 0 ==> removed == GoneOf(old(state.paths), scanned, budget.unreadable))
  {
    budget := new WalkBudget(maxScan, maxScan, mayStop);
    scanned := CandidateFiles(targets, filter, counts, budget);
    UploadsAreThere(state.paths, uploads, scanned, budget.unreadable);
    ghost var tracked := state.paths;
    state.paths := state.paths + uploads * scanned;
    knovas.documents := knovas.documents + uploads * scanned;
    errors, removed := PruneIfSafe(g, budget.truncated, budget.stopped, scanned, budget.unreadable, state, knovas);
    ScannedOrHidden(SourceScope(targets, filter), tracked, scanned, budget.unreadable, removed);
  }
}
