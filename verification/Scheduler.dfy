/**
  The scheduler's control protocol (`sync_scheduler.py`): one-time runs, start,
  stop and the continuous worker, interleaved at every access to the control
  lock, the scheduler lock, the stop event and the status.
 */
module Scheduler {
  import opened Prelude

  /** Where a thread stands. Requests are single-use; `Idle` is a thread that does not exist yet. */
  datatype Pc =
    | Idle
    // run_one_time
    | OneControl | OneTry | OneClear | OneUnlock | OneRun | OneRelease
    // start_continuous
    | StartControl | StartTry | StartClear | StartSpawn | StartStatus | StartUnlock
    // stop_continuous; `got` tells whether it obtained the scheduler lock
    | StopControl | StopSet | StopJoin | StopAcquire | StopRelease | StopStatus(got: bool) | StopReturn(got: bool)
    // the worker thread
    | WorkCheck | WorkRun | WorkWait | WorkEnd | WorkCrash | WorkRelease | WorkAfter | WorkFix
    // a control request that found the scheduler busy
    | BusyUnlock
    | Done

  datatype State = State(
    control: Option<nat>,      // holder of _control_lock
    sched: Option<nat>,        // holder of _scheduler_lock; a start hands it to its worker
    stop: bool,                // _stop_event
    status: string,            // _current_status
    threads: map<nat, Pc>)

  function At(s: State, t: nat): Pc { if t in s.threads then s.threads[t] else Idle }

  function Goto(s: State, t: nat, pc: Pc): State { s.(threads := s.threads[t := pc]) }

  ghost predicate Init(s: State) {
    s.control == None && s.sched == None && !s.stop && s.threads == map[]
  }

  predicate HoldsControl(pc: Pc) {
    || pc.OneTry? || pc.OneClear? || pc.OneUnlock?
    || pc.StartTry? || pc.StartClear? || pc.StartSpawn? || pc.StartStatus? || pc.StartUnlock?
    || pc.StopSet? || pc.StopJoin? || pc.StopAcquire? || pc.StopRelease? || pc.StopStatus? || pc.StopReturn?
    || pc.BusyUnlock?
  }

  /** A thread that synchronises, and may do so for long: it started with the event cleared. */
  predicate InSession(pc: Pc) {
    || pc.OneRun? || pc.OneRelease?
    || pc.WorkCheck? || pc.WorkRun? || pc.WorkWait? || pc.WorkEnd? || pc.WorkCrash? || pc.WorkRelease?
  }

  predicate HoldsSched(pc: Pc) {
    || InSession(pc) || pc.OneClear? || pc.OneUnlock? || pc.StartClear? || pc.StartSpawn? || pc.StopRelease?
  }

  /** A sync run is active. */
  predicate Running(pc: Pc) { pc.OneRun? || pc.WorkRun? }

  // ----- steps -----------------------------------------------------------------

  /** One atomic step of thread `t`. */
  ghost predicate Step(s: State, t: nat, s': State) {
    OneStep(s, t, s') || StartStep(s, t, s') || StopStep(s, t, s') || WorkStep(s, t, s')
  }

  /** `run_one_time` */
  ghost predicate OneStep(s: State, t: nat, s': State) {
    match At(s, t)
    case Idle => s' == Goto(s, t, OneControl)
    case OneControl => s.control == None && s' == Goto(s, t, OneTry).(control := Some(t))
    case OneTry => TrySched(s, t, s', OneClear)
    case OneClear => s' == Goto(s, t, OneUnlock).(stop := false)
    case OneUnlock => s' == Goto(s, t, OneRun).(control := None)
    case OneRun => RunStep(s, t, s', OneRelease)
    case OneRelease => s' == Goto(s, t, Done).(sched := None)
    case BusyUnlock => s' == Goto(s, t, Done).(control := None)
    case _ => false
  }

  /** `start_continuous`; the worker it spawns owns the scheduler lock from then on. */
  ghost predicate StartStep(s: State, t: nat, s': State) {
    match At(s, t)
    case Idle => s' == Goto(s, t, StartControl)
    case StartControl => s.control == None && s' == Goto(s, t, StartTry).(control := Some(t))
    case StartTry => TrySched(s, t, s', StartClear)
    case StartClear => s' == Goto(s, t, StartSpawn).(stop := false)
    case StartSpawn => exists w: nat :: Spawned(s, t, w, s')
    case StartStatus => s' == Goto(s, t, StartUnlock).(status := "running")
    case StartUnlock => s' == Goto(s, t, Done).(control := None)
    case _ => false
  }

  ghost predicate Spawned(s: State, t: nat, w: nat, s': State) {
    w != t && At(s, w) == Idle && s' == Goto(Goto(s, t, StartStatus), w, WorkCheck).(sched := Some(w))
  }

  /**
    `stop_continuous`; joining the worker and acquiring the lock may both run into the deadline, the acquire only
    while someone else holds the lock.
   */
  ghost predicate StopStep(s: State, t: nat, s': State) {
    match At(s, t)
    case Idle => s' == Goto(s, t, StopControl)
    case StopControl => s.control == None && s' == Goto(s, t, StopSet).(control := Some(t))
    case StopSet => s' == Goto(s, t, StopJoin).(stop := true)
    case StopJoin => s' == Goto(s, t, StopAcquire)
    case StopAcquire =>
      || (s.sched == None && s' == Goto(s, t, StopRelease).(sched := Some(t)))
      || (s.sched.Some? && s' == Goto(s, t, StopStatus(false)))
    case StopRelease => s' == Goto(s, t, StopStatus(true)).(sched := None)
    case StopStatus(got) => s' == Goto(s, t, StopReturn(got)).(status := "not_running")
    case StopReturn(_) => s' == Goto(s, t, Done).(control := None)
    case _ => false
  }

  /** `_worker_wrapper` and `_continuous_worker`; the last two steps come after the lock was released. */
  ghost predicate WorkStep(s: State, t: nat, s': State) {
    match At(s, t)
    case WorkCheck => s' == Goto(s, t, if s.stop then WorkEnd else WorkRun)
    case WorkRun => RunStep(s, t, s', WorkWait) || s' == Goto(s, t, WorkEnd) || s' == Goto(s, t, WorkCrash)
    case WorkWait => s' == Goto(s, t, WorkCheck)
    case WorkEnd => s' == Goto(s, t, WorkRelease).(status := "not_running")
    case WorkCrash => s' == Goto(s, t, WorkRelease).(status := "worker_crashed")
    case WorkRelease => s' == Goto(s, t, WorkAfter).(sched := None)
    case WorkAfter => s' == Goto(s, t, if s.status == "running" then WorkFix else Done)
    case WorkFix => s' == Goto(s, t, Done).(status := "not_running")
    case _ => false
  }

  /** `_scheduler_lock.acquire(blocking=False)` under the control lock. */
  ghost predicate TrySched(s: State, t: nat, s': State, granted: Pc) {
    if s.sched == None then s' == Goto(s, t, granted).(sched := Some(t)) else s' == Goto(s, t, BusyUnlock)
  }

  /** A run writes the status as it goes, or comes to its end. */
  ghost predicate RunStep(s: State, t: nat, s': State, ended: Pc) {
    (exists text: string :: s' == s.(status := text)) || s' == Goto(s, t, ended)
  }

  // ----- the invariant ---------------------------------------------------------

  ghost predicate ControlOwned(s: State) {
    forall t: nat :: HoldsControl(At(s, t)) <==> s.control == Some(t)
  }

  ghost predicate SchedOwned(s: State) {
    forall t: nat :: HoldsSched(At(s, t)) <==> s.sched == Some(t)
  }

  /** A stop that obtained the scheduler lock leaves it free, and the status it wrote stands, until it returns. */
  ghost predicate StopsTrue(s: State) {
    forall t: nat ::
      && (At(s, t) == StopStatus(true) ==> s.sched == None)
      && (At(s, t) == StopReturn(true) ==> s.sched == None && s.status == "not_running")
  }

  ghost predicate Inv(s: State) { ControlOwned(s) && SchedOwned(s) && StopsTrue(s) }

  lemma InitInv(s: State)
    requires Init(s)
    ensures Inv(s)
  {
  }

  /** Thread `t` took, gave back or left alone a lock whose holder was `before`. */
  ghost predicate Moved(t: nat, before: Option<nat>, after: Option<nat>, held: bool, holds: bool) {
    if held == holds then after == before
    else if holds then before == None && after == Some(t)
    else after == None
  }

  /** What any step does to the locks. */
  ghost predicate LocksMove(s: State, t: nat, s': State) {
    var pc, pc' := At(s, t), At(s', t);
    && Moved(t, s.control, s'.control, HoldsControl(pc), HoldsControl(pc'))
    && ((Moved(t, s.sched, s'.sched, HoldsSched(pc), HoldsSched(pc'))
         && forall u: nat :: u != t ==> At(s', u) == At(s, u))
        || (pc == StartSpawn && exists w: nat :: Spawned(s, t, w, s')))
  }

  /** And who may take the scheduler lock or write the status. */
  ghost predicate StatusMoves(s: State, t: nat, s': State) {
    var pc, pc' := At(s, t), At(s', t);
    && (s'.sched == s.sched || s'.sched == None || HoldsControl(pc))
    && (s'.status == s.status || s'.status == "not_running" || HoldsControl(pc) || HoldsSched(pc))
    && (pc' == StopStatus(true) ==> s'.sched == None)
    && (pc' == StopReturn(true) ==> pc == StopStatus(true) && s'.sched == s.sched && s'.status == "not_running")
  }

  ghost predicate Effect(s: State, t: nat, s': State) { LocksMove(s, t, s') && StatusMoves(s, t, s') }

  lemma OneLocks(s: State, t: nat, s': State)
    requires OneStep(s, t, s')
    ensures LocksMove(s, t, s')
  {
  }

  lemma OneWrites(s: State, t: nat, s': State)
    requires OneStep(s, t, s')
    ensures StatusMoves(s, t, s')
  {
  }

  lemma StartLocks(s: State, t: nat, s': State)
    requires StartStep(s, t, s')
    ensures LocksMove(s, t, s')
  {
  }

  lemma StartWrites(s: State, t: nat, s': State)
    requires StartStep(s, t, s')
    ensures StatusMoves(s, t, s')
  {
  }

  lemma StopLocks(s: State, t: nat, s': State)
    requires StopStep(s, t, s')
    ensures LocksMove(s, t, s')
  {
  }

  lemma StopWrites(s: State, t: nat, s': State)
    requires StopStep(s, t, s')
    ensures StatusMoves(s, t, s')
  {
  }

  lemma WorkLocks(s: State, t: nat, s': State)
    requires WorkStep(s, t, s')
    ensures LocksMove(s, t, s')
  {
  }

  lemma WorkWrites(s: State, t: nat, s': State)
    requires WorkStep(s, t, s')
    ensures StatusMoves(s, t, s')
  {
  }

  lemma EffectControl(s: State, t: nat, s': State)
    requires ControlOwned(s) && Effect(s, t, s')
    ensures ControlOwned(s')
  {
    assert HoldsControl(At(s, t)) <==> s.control == Some(t);
  }

  lemma EffectSched(s: State, t: nat, s': State)
    requires SchedOwned(s) && Effect(s, t, s')
    ensures SchedOwned(s')
  {
    assert HoldsSched(At(s, t)) <==> s.sched == Some(t);
  }

  lemma EffectStops(s: State, t: nat, s': State, u: nat)
    requires Inv(s) && Effect(s, t, s')
    ensures At(s', u) == StopStatus(true) ==> s'.sched == None
    ensures At(s', u) == StopReturn(true) ==> s'.sched == None && s'.status == "not_running"
  {
    assert HoldsSched(At(s, t)) <==> s.sched == Some(t);
    assert HoldsControl(At(s, t)) <==> s.control == Some(t);
    assert HoldsControl(At(s, u)) <==> s.control == Some(u);
    assert At(s, u) == StopStatus(true) ==> s.sched == None;
    assert At(s, u) == StopReturn(true) ==> s.sched == None && s.status == "not_running";
  }

  lemma EveryEffect(s: State, t: nat, s': State)
    requires Step(s, t, s')
    ensures Effect(s, t, s')
  {
    if OneStep(s, t, s') { OneLocks(s, t, s'); OneWrites(s, t, s'); }
    else if StartStep(s, t, s') { StartLocks(s, t, s'); StartWrites(s, t, s'); }
    else if StopStep(s, t, s') { StopLocks(s, t, s'); StopWrites(s, t, s'); }
    else { WorkLocks(s, t, s'); WorkWrites(s, t, s'); }
  }

  lemma StepInv(s: State, t: nat, s': State)
    requires Inv(s) && Step(s, t, s')
    ensures Inv(s')
  {
    EveryEffect(s, t, s');
    EffectControl(s, t, s');
    EffectSched(s, t, s');
    forall u: nat
      ensures At(s', u) == StopStatus(true) ==> s'.sched == None
      ensures At(s', u) == StopReturn(true) ==> s'.sched == None && s'.status == "not_running"
    {
      EffectStops(s, t, s', u);
    }
  }

  // ----- whole runs ------------------------------------------------------------

  /** An interleaving from the initial state: `who[i]` takes the step from `run[i]` to `run[i + 1]`. */
  ghost predicate Interleaving(run: seq<State>, who: seq<nat>) {
    && |run| == |who| + 1 && Init(run[0])
    && forall i :: 0 <= i < |who| ==> Step(run[i], who[i], run[i + 1])
  }

  lemma {:induction false} Reachable(run: seq<State>, who: seq<nat>, i: nat)
    requires Interleaving(run, who) && i < |run|
    ensures Inv(run[i])
  {
    if i == 0 {
      InitInv(run[0]);
    } else {
      Reachable(run, who, i - 1);
      StepInv(run[i - 1], who[i - 1], run[i]);
    }
  }

  /** In every interleaving at most one sync run is active. */
  lemma OneRunAtATime(run: seq<State>, who: seq<nat>, i: nat, t: nat, u: nat)
    requires Interleaving(run, who) && i < |run|
    requires Running(At(run[i], t)) && Running(At(run[i], u))
    ensures t == u && run[i].sched == Some(t)
  {
    Reachable(run, who, i);
    assert HoldsSched(At(run[i], t)) && HoldsSched(At(run[i], u));
  }

  /** A stop that obtained the scheduler lock returns with no run active and the status `not_running`. */
  lemma StopMeansStopped(run: seq<State>, who: seq<nat>, i: nat, t: nat, u: nat)
    requires Interleaving(run, who) && i < |run| && At(run[i], t) == StopReturn(true)
    ensures !InSession(At(run[i], u)) && run[i].sched == None
    ensures run[i].status == "not_running"
  {
    Reachable(run, who, i);
    assert At(run[i], t) == StopReturn(true);
    assert HoldsSched(At(run[i], u)) <==> run[i].sched == Some(u);
  }

  /** A thread whose session is over; it never begins another. */
  predicate Over(pc: Pc) { pc.WorkAfter? || pc.WorkFix? || pc.Done? }

  lemma StepOver(s: State, t: nat, s': State, r: nat)
    requires Step(s, t, s') && Over(At(s, r))
    ensures Over(At(s', r))
  {
    if t == r {
      assert WorkStep(s, t, s');
    } else {
      EveryEffect(s, t, s');
    }
  }

  /** While a session lasts the event, once set, stays set, and the session begins no further run. */
  lemma StepHeeds(s: State, t: nat, s': State, r: nat)
    requires Inv(s) && Step(s, t, s') && InSession(At(s, r)) && s.stop
    ensures Over(At(s', r)) || (InSession(At(s', r)) && s'.stop)
    ensures Running(At(s', r)) ==> Running(At(s, r))
  {
    assert s.sched == Some(r);
    assert HoldsSched(At(s, t)) <==> s.sched == Some(t);
    assert OneStep(s, t, s') ==> s'.stop;
    assert StartStep(s, t, s') ==> s'.stop;
    assert StopStep(s, t, s') ==> s'.stop;
    assert WorkStep(s, t, s') ==> s'.stop;
  }

  /**
    Once a stop has set the event, the session active at that moment never sees it cleared, and
    a session that was not inside a run at some moment from then on begins no other.
   */
  lemma {:induction false} StopIsHeeded(run: seq<State>, who: seq<nat>, i: nat, j: nat, r: nat)
    requires Interleaving(run, who) && i <= j < |run|
    requires run[i].stop && InSession(At(run[i], r))
    ensures Over(At(run[j], r)) || (InSession(At(run[j], r)) && run[j].stop)
    ensures Running(At(run[j], r)) ==> Running(At(run[i], r))
    decreases j
  {
    if i < j {
      StopIsHeeded(run, who, i, j - 1, r);
      if Over(At(run[j - 1], r)) {
        StepOver(run[j - 1], who[j - 1], run[j], r);
      } else {
        Reachable(run, who, j - 1);
        StepHeeds(run[j - 1], who[j - 1], run[j], r);
      }
    }
  }

  // ----- the deadline ------------------------------------------------------------

  lemma Extend(run: seq<State>, who: seq<nat>, t: nat, s: State)
    requires Interleaving(run, who) && Step(run[|who|], t, s)
    ensures Interleaving(run + [s], who + [t])
  {
  }

  lemma OneTimeBegins(s: State) returns (run: seq<State>, who: seq<nat>)
    requires Init(s)
    ensures Interleaving(run, who)
    ensures run[|who|] == State(None, Some(0), false, s.status, map[0 := OneRun])
  {
    run, who := [s], [];
    var pcs := [OneControl, OneTry, OneClear, OneUnlock, OneRun];
    for i := 0 to 5
      invariant Interleaving(run, who) && |who| == i
      invariant i == 0 ==> run[i] == s
      invariant i > 0 ==>
        run[i] == State(if 2 <= i < 5 then Some(0) else None, if i < 3 then None else Some(0), false, s.status,
                        map[0 := pcs[i - 1]])
    {
      var s' := State(if 1 <= i < 4 then Some(0) else None, if i < 2 then None else Some(0), false, s.status, map[0 := pcs[i]]);
      Extend(run, who, 0, s');
      run, who := run + [s'], who + [0];
    }
  }

  /** While a stop waits for the scheduler lock it is held by a session or by nobody. */
  lemma HolderIsSession(s: State, t: nat)
    requires Inv(s) && At(s, t) == StopAcquire
    ensures s.sched.Some? <==> exists u: nat :: InSession(At(s, u))
  {
    assert HoldsControl(At(s, t)) <==> s.control == Some(t);
    if s.sched.Some? {
      var u := s.sched.value;
      assert HoldsSched(At(s, u)) <==> s.sched == Some(u);
      assert HoldsControl(At(s, u)) <==> s.control == Some(u);
      assert InSession(At(s, u));
    }
    forall u: nat | InSession(At(s, u)) ensures s.sched.Some? {
      assert HoldsSched(At(s, u)) <==> s.sched == Some(u);
    }
  }

  /** In every interleaving a stop obtains the lock if and only if no session is active then, and else gives up. */
  lemma StopGetsLockExactly(run: seq<State>, who: seq<nat>, i: nat)
    requires Interleaving(run, who) && i < |who| && At(run[i], who[i]) == StopAcquire
    ensures At(run[i + 1], who[i]) == StopRelease <==> forall u: nat :: !InSession(At(run[i], u))
    ensures At(run[i + 1], who[i]) == StopStatus(false) <==> exists u: nat :: InSession(At(run[i], u))
  {
    Reachable(run, who, i);
    HolderIsSession(run[i], who[i]);
    assert StopStep(run[i], who[i], run[i + 1]);
  }

  /** A stop whose deadline passed answers `not_running` while the one-time run it waited for goes on. */
  lemma TimedOutStop(s: State) returns (run: seq<State>, who: seq<nat>)
    requires Init(s)
    ensures Interleaving(run, who)
    ensures At(run[|who|], 1) == StopReturn(false) && run[|who|].status == "not_running"
    ensures Running(At(run[|who|], 0))
  {
    run, who := OneTimeBegins(s);
    ghost var n := |who|;
    var pcs := [StopControl, StopSet, StopJoin, StopAcquire, StopStatus(false), StopReturn(false)];
    for i := 0 to 6
      invariant Interleaving(run, who) && |who| == n + i
      invariant i == 0 ==> run[n + i] == State(None, Some(0), false, s.status, map[0 := OneRun])
      invariant i > 0 ==>
        run[n + i] == State(if i < 2 then None else Some(1), Some(0), i >= 3,
                            if i < 6 then s.status else "not_running", map[0 := OneRun, 1 := pcs[i - 1]])
    {
      var s' := State(if i < 1 then None else Some(1), Some(0), i >= 2, if i < 5 then s.status else "not_running",
                      map[0 := OneRun, 1 := pcs[i]]);
      Extend(run, who, 1, s');
      run, who := run + [s'], who + [1];
    }
  }
}
