/**
  Sequential subfolders (`subfolder_queue.py` and the end of `run_sync_work`): a cursor
  over a source's top-level folders that moves on only after a cycle that left nothing.
 */
module Subfolders {
  import opened Prelude

  /** A row of `folder_queue`: the stored list, the cursor and the saved scan stack. */
  datatype Row = Row(names: seq<string>, index: nat, stack: seq<string>)

  datatype Progress = Progress(current: Option<string>, index: nat, total: nat, completed: bool)

  /** What can end a cycle's uploads early. */
  datatype Late = Finished | StopRequested | OutsideWindow | RateLimited

  /** What `run_sync_work` knows of one cycle when it comes to the queue. */
  datatype Cycle = Cycle(
    truncated: bool, stopped: bool, resume: seq<string>, late: Late,
    pending: nat, modified: nat, fieldsChanged: nat, reached: nat, requeued: nat, sourcesSkipped: nat)

  function PausedReason(cycle: Cycle): Option<string> {
    match cycle.late
    case StopRequested => Some("stop_requested")
    case OutsideWindow => Some("outside_window")
    case RateLimited => Some("rate_limited")
    case Finished =>
      if cycle.truncated then Some("scan_limit_reached")
      else if cycle.stopped then Some("cycle_time_limit")
      else None
  }

  const BLOCKING := ["stop_requested", "outside_window", "rate_limited", "scan_limit_reached", "cycle_time_limit"]

  /** A cycle that scanned its folder to the end, was not paused and found nothing left to do. */
  predicate Clean(cycle: Cycle) {
    && !cycle.truncated && !cycle.stopped && cycle.late == Finished && cycle.sourcesSkipped == 0
    && cycle.pending == 0 && cycle.modified == 0 && cycle.fieldsChanged == 0
    && cycle.reached == 0 && cycle.requeued == 0
  }

  // ----- the specification of one cycle --------------------------------------------

  predicate Completed(row: Row) { row.index >= |row.names| }

  /** The folder whose scan was cut is kept as its own stack when the walk saved none. */
  function Scanned(row: Row, cycle: Cycle): Row {
    if Completed(row) || cycle.sourcesSkipped > 0 then row
    else if cycle.truncated || cycle.stopped then
      row.(stack := if cycle.resume == [] then [row.names[row.index]] else cycle.resume)
    else row.(stack := [])
  }

  function AfterCycle(row: Row, cycle: Cycle): Row {
    if Clean(cycle) then row.(index := if row.index + 1 >= |row.names| then |row.names| else row.index + 1, stack := [])
    else Scanned(row, cycle)
  }

  // ----- the queue ---------------------------------------------------------------------

  class SubfolderQueue {
    var rows: map<string, Row>

    constructor ()
      ensures rows == map[]
    {
      rows := map[];
    }

    /** `progress`; a source seen for the first time is listed (`listing` is what the share shows, sorted). */
    method GetProgress(root: string, listing: seq<string>) returns (p: Progress)
      modifies this
      ensures root in rows && rows == old(rows)[root := rows[root]]
      ensures rows[root] == if root in old(rows) then old(rows)[root] else Row(listing, 0, [])
      ensures p.completed == Completed(rows[root]) && p.total == |rows[root].names|
      ensures p.index == if rows[root].names == [] then 0 else rows[root].index
      ensures p.current == if Completed(rows[root]) then None else Some(rows[root].names[rows[root].index])
    {
      if root !in rows {
        rows := rows[root := Row(listing, 0, [])];
      }
      var row := rows[root];
      if row.names == [] {
        return Progress(None, 0, 0, true);
      }
      if row.index >= |row.names| {
        return Progress(None, row.index, |row.names|, true);
      }
      return Progress(Some(row.names[row.index]), row.index, |row.names|, false);
    }

    method SaveScanStack(root: string, stack: seq<string>)
      modifies this
      ensures rows == if root in old(rows) then old(rows)[root := old(rows)[root].(stack := stack)] else old(rows)
    {
      if root in rows {
        rows := rows[root := rows[root].(stack := stack)];
      }
    }

    method MaybeAdvance(root: string, pending: nat, modified: nat, truncated: bool, paused: Option<string>) returns (advanced: bool)
      modifies this
      ensures advanced <==> !truncated && !(paused.Some? && paused.value in BLOCKING) && pending == 0 && modified == 0 && root in old(rows)
      ensures !advanced ==> rows == old(rows)
      ensures advanced ==>
        var row := old(rows)[root];
        rows == old(rows)[root := row.(index := if row.index + 1 >= |row.names| then |row.names| else row.index + 1, stack := [])]
    {
      if truncated {
        return false;
      }
      if paused.Some? && paused.value in BLOCKING {
        return false;
      }
      if pending > 0 || modified > 0 {
        return false;
      }
      if root !in rows {
        return false;
      }
      var row := rows[root];
      if row.index >= |row.names| - 1 {
        rows := rows[root := row.(index := |row.names|, stack := [])];
        return true;
      }
      rows := rows[root := row.(index := row.index + 1, stack := [])];
      return true;
    }

    /** What one cycle of `run_sync_work` does to the queue, after its scan and at its end. */
    method EndCycle(root: string, cycle: Cycle)
      requires root in rows
      modifies this
      ensures rows == old(rows)[root := AfterCycle(old(rows)[root], cycle)]
      ensures old(rows)[root].index < |old(rows)[root].names| ==>
        (rows[root].index == old(rows)[root].index + 1 <==>
           cycle.truncated == cycle.stopped == false && cycle.late == Finished && cycle.sourcesSkipped == 0
           && cycle.pending + cycle.modified + cycle.fieldsChanged + cycle.reached + cycle.requeued == 0)
    {
      var row := rows[root];
      if row.index < |row.names| && cycle.sourcesSkipped == 0 {
        if cycle.truncated || cycle.stopped {
          SaveScanStack(root, if cycle.resume == [] then [row.names[row.index]] else cycle.resume);
        } else {
          SaveScanStack(root, []);
        }
      }
      assert rows[root] == Scanned(row, cycle);
      if cycle.sourcesSkipped == 0 {
        BlockingReasons(cycle);
        var advanced := MaybeAdvance(root, cycle.pending, cycle.modified + cycle.fieldsChanged + cycle.reached + cycle.requeued,
                                     cycle.truncated, PausedReason(cycle));
      }
    }
  }

  lemma BlockingReasons(cycle: Cycle)
    ensures PausedReason(cycle).Some? ==> PausedReason(cycle).value in BLOCKING
    ensures PausedReason(cycle).None? <==> !cycle.truncated && !cycle.stopped && cycle.late == Finished
  {
    assert BLOCKING[0] == "stop_requested" && BLOCKING[1] == "outside_window" && BLOCKING[2] == "rate_limited";
    assert BLOCKING[3] == "scan_limit_reached" && BLOCKING[4] == "cycle_time_limit";
  }

  // ----- over every run -------------------------------------------------------------------

  function After(row: Row, cycles: seq<Cycle>): Row {
    if cycles == [] then row else AfterCycle(After(row, cycles[..|cycles| - 1]), cycles[|cycles| - 1])
  }

  /** The cursor never goes back, moves by at most one per cycle, and the stored list stays. */
  lemma CursorSteps(row: Row, cycle: Cycle)
    requires row.index <= |row.names|
    ensures var next := AfterCycle(row, cycle);
            && next.names == row.names && row.index <= next.index <= row.index + 1 && next.index <= |row.names|
            && (next.index > row.index ==> Clean(cycle) && !Completed(row))
  {
  }

  /** Folder `j` had a clean cycle of its own. */
  predicate HadCleanCycle(row: Row, cycles: seq<Cycle>, j: nat) {
    exists k :: 0 <= k < |cycles| && Clean(cycles[k]) && After(row, cycles[..k]).index == j
  }

  lemma CleanCycleStays(row: Row, cycles: seq<Cycle>, n: nat, j: nat)
    requires n <= |cycles| && HadCleanCycle(row, cycles[..n], j)
    ensures HadCleanCycle(row, cycles, j)
  {
    var k :| 0 <= k < n && Clean(cycles[..n][k]) && After(row, cycles[..n][..k]).index == j;
    assert cycles[..n][k] == cycles[k] && cycles[..n][..k] == cycles[..k];
  }

  /** Every folder the cursor has passed had its own clean cycle. */
  lemma {:induction false} PassedFoldersWereClean(row: Row, cycles: seq<Cycle>)
    requires row.index <= |row.names|
    ensures var end := After(row, cycles);
            && end.names == row.names && row.index <= end.index <= |row.names|
            && forall j: nat :: row.index <= j < end.index ==> HadCleanCycle(row, cycles, j)
    decreases |cycles|
  {
    if cycles != [] {
      var n := |cycles| - 1;
      PassedFoldersWereClean(row, cycles[..n]);
      var before, end := After(row, cycles[..n]), After(row, cycles);
      CursorSteps(before, cycles[n]);
      forall j: nat | row.index <= j < end.index ensures HadCleanCycle(row, cycles, j) {
        if j < before.index {
          CleanCycleStays(row, cycles, n, j);
        } else {
          assert Clean(cycles[n]) && After(row, cycles[..n]).index == j;
        }
      }
    }
  }

  /** A later moment of the run is never behind an earlier one. */
  lemma {:induction false} CursorNeverGoesBack(row: Row, cycles: seq<Cycle>, i: nat, k: nat)
    requires row.index <= |row.names| && i <= k <= |cycles|
    ensures After(row, cycles[..i]).index <= After(row, cycles[..k]).index <= After(row, cycles[..i]).index + (k - i)
    decreases k
  {
    if i < k {
      CursorNeverGoesBack(row, cycles, i, k - 1);
      PassedFoldersWereClean(row, cycles[..k - 1]);
      assert cycles[..k][..k - 1] == cycles[..k - 1];
      CursorSteps(After(row, cycles[..k - 1]), cycles[k - 1]);
    }
  }

  lemma LastFolderCompletes(row: Row, cycles: seq<Cycle>)
    requires row.index < |row.names| && HadCleanCycle(row, cycles, |row.names| - 1)
    ensures Completed(After(row, cycles))
  {
    var k :| 0 <= k < |cycles| && Clean(cycles[k]) && After(row, cycles[..k]).index == |row.names| - 1;
    PassedFoldersWereClean(row, cycles[..k]);
    PassedFoldersWereClean(row, cycles);
    assert cycles[..k + 1][..k] == cycles[..k] && cycles[..k + 1][k] == cycles[k];
    CursorNeverGoesBack(row, cycles, k + 1, |cycles|);
    assert cycles[..|cycles|] == cycles;
  }

  /** Completion is reported exactly when every listed folder had its own clean cycle. */
  lemma CompletionMeansAllClean(names: seq<string>, cycles: seq<Cycle>)
    ensures var row := Row(names, 0, []);
            Completed(After(row, cycles)) <==> forall j: nat :: j < |names| ==> HadCleanCycle(row, cycles, j)
  {
    var row := Row(names, 0, []);
    PassedFoldersWereClean(row, cycles);
    if names != [] && HadCleanCycle(row, cycles, |names| - 1) {
      LastFolderCompletes(row, cycles);
    }
  }

  // ----- which folders were seen whole -------------------------------------------------------

  /** The stack the last scan left behind when it was cut; cycles with skipped sources did not scan. */
  function LastCut(cycles: seq<Cycle>): Option<seq<string>> {
    if cycles == [] then None
    else
      var last := cycles[|cycles| - 1];
      if last.sourcesSkipped > 0 then LastCut(cycles[..|cycles| - 1])
      else if last.truncated || last.stopped then Some(last.resume)
      else None
  }

  /** At every moment before completion the saved stack is what the last scan left, the folder's root if that was nothing. */
  lemma {:induction false} StackIsLastCut(names: seq<string>, cycles: seq<Cycle>)
    requires !Completed(After(Row(names, 0, []), cycles))
    ensures var row := After(Row(names, 0, []), cycles);
            && row.names == names
            && row.stack == match LastCut(cycles)
                            case None => []
                            case Some(left) => if left == [] then [names[row.index]] else left
    decreases |cycles|
  {
    var row := Row(names, 0, []);
    PassedFoldersWereClean(row, cycles);
    if cycles != [] {
      var n := |cycles| - 1;
      PassedFoldersWereClean(row, cycles[..n]);
      CursorSteps(After(row, cycles[..n]), cycles[n]);
      StackIsLastCut(names, cycles[..n]);
    }
  }

  /** A scan that starts at the folder's root sees all of it. */
  predicate BeginsAtRoot(row: Row) { !Completed(row) && (row.stack == [] || row.stack == [row.names[row.index]]) }

  /** Cycle `k` was folder `j`'s own, and clean. */
  ghost predicate OwnClean(row: Row, cycles: seq<Cycle>, j: nat, k: nat) {
    k < |cycles| && Clean(cycles[k]) && After(row, cycles[..k]).index == j
  }

  /** A folder has one clean cycle of its own: it moves the cursor on. */
  lemma OwnCleanOnce(row: Row, cycles: seq<Cycle>, j: nat, k: nat, m: nat)
    requires row.index <= |row.names| && j < |row.names| && OwnClean(row, cycles, j, k) && OwnClean(row, cycles, j, m)
    ensures k == m
  {
    var first, second := if k < m then k else m, if k < m then m else k;
    if k != m {
      PassedFoldersWereClean(row, cycles[..first]);
      assert cycles[..first + 1][..first] == cycles[..first] && cycles[..first + 1][first] == cycles[first];
      CursorNeverGoesBack(row, cycles, first + 1, second);
    }
  }

  /**
    A folder's clean cycle saw it from its root exactly when the scan before it was not cut, or was cut with
    nothing or just the root left on the stack.
   */
  lemma SeenWholeExactly(names: seq<string>, cycles: seq<Cycle>, j: nat, k: nat)
    requires j < |names| && OwnClean(Row(names, 0, []), cycles, j, k)
    ensures BeginsAtRoot(After(Row(names, 0, []), cycles[..k]))
       <==> LastCut(cycles[..k]) in {None, Some([]), Some([names[j]])}
  {
    PassedFoldersWereClean(Row(names, 0, []), cycles[..k]);
    StackIsLastCut(names, cycles[..k]);
  }

  /** Folder `j` had a clean cycle of its own that began at its root. */
  ghost predicate SeenWhole(row: Row, cycles: seq<Cycle>, j: nat) {
    exists k :: 0 <= k < |cycles| && Clean(cycles[k]) && After(row, cycles[..k]).index == j && BeginsAtRoot(After(row, cycles[..k]))
  }

  /** No folder's clean cycle continued a scan that was cut below the folder's root. */
  ghost predicate NoneContinued(names: seq<string>, cycles: seq<Cycle>) {
    forall k :: 0 <= k < |cycles| && Clean(cycles[k]) && After(Row(names, 0, []), cycles[..k]).index < |names| ==>
      LastCut(cycles[..k]) in {None, Some([]), Some([names[After(Row(names, 0, []), cycles[..k]).index]])}
  }

  /**
    Every listed folder was seen whole by a clean cycle of its own exactly when the run completed and none of
    the clean cycles continued a cut scan.
   */
  lemma AllSeenWholeExactly(names: seq<string>, cycles: seq<Cycle>)
    ensures (forall j: nat :: j < |names| ==> SeenWhole(Row(names, 0, []), cycles, j))
       <==> Completed(After(Row(names, 0, []), cycles)) && NoneContinued(names, cycles)
  {
    var row := Row(names, 0, []);
    CompletionMeansAllClean(names, cycles);
    if forall j: nat :: j < |names| ==> SeenWhole(row, cycles, j) {
      forall j: nat | j < |names| ensures HadCleanCycle(row, cycles, j) {
        assert SeenWhole(row, cycles, j);
      }
      forall k | 0 <= k < |cycles| && Clean(cycles[k]) && After(row, cycles[..k]).index < |names|
        ensures LastCut(cycles[..k]) in {None, Some([]), Some([names[After(row, cycles[..k]).index]])}
      {
        var j := After(row, cycles[..k]).index;
        assert SeenWhole(row, cycles, j);
        var m :| 0 <= m < |cycles| && Clean(cycles[m]) && After(row, cycles[..m]).index == j && BeginsAtRoot(After(row, cycles[..m]));
        OwnCleanOnce(row, cycles, j, k, m);
        SeenWholeExactly(names, cycles, j, k);
      }
    } else {
      var j: nat :| j < |names| && !SeenWhole(row, cycles, j);
      if HadCleanCycle(row, cycles, j) && NoneContinued(names, cycles) {
        var k :| 0 <= k < |cycles| && Clean(cycles[k]) && After(row, cycles[..k]).index == j;
        SeenWholeExactly(names, cycles, j, k);
      }
    }
  }

  /** A run in which it did: what the cut cycle found pending and could not upload does not hold the cursor back. */
  lemma ResumedCycleSeesTheRest(name: string, tail: string, pending: nat)
    requires tail != name
    ensures var cut := Cycle(true, false, [tail], Finished, pending, 0, 0, 0, 0, 0);
            var rest := Cycle(false, false, [], Finished, 0, 0, 0, 0, 0, 0);
            var row := Row([name], 0, []);
            && Completed(After(row, [cut, rest])) && OwnClean(row, [cut, rest], 0, 1)
            && !BeginsAtRoot(After(row, [cut, rest][..1]))
  {
    var cut := Cycle(true, false, [tail], Finished, pending, 0, 0, 0, 0, 0);
    var rest := Cycle(false, false, [], Finished, 0, 0, 0, 0, 0, 0);
    assert [cut][..0] == [] && [cut, rest][..1] == [cut];
    assert After(Row([name], 0, []), [cut]) == Row([name], 0, [tail]);
  }
}
