/**
 * Starting and stopping one parked worker: the caller (spawnPthread, then closeChild) and the worker
 * thread meet through three futures.  Every future access and every hand-over is one atomic step.
 * The 30 s and 10 s limits on the waits are left out.
 */
module SpawnHandshake {
  datatype Future = Pending | Ok | Err

  /** Completing a future twice has no effect the second time. */
  function Complete(f: Future, to: Future): Future {
    if f == Pending then to else f
  }

  /** The caller; `Creating` to `Hooked` are inside pthread_create on the caller's own thread. */
  datatype Caller =
    | Creating
    | Launched        // lifetime future running, whenComplete not yet called
    | Hooked          // whenComplete called, exports not yet published
    | Waiting         // pthread_create returned 0 and the exports are there; waiting for started
    | Returned        // spawnPthread returned the child
    | Failed          // spawnPthread threw
    | Closing         // closeChild completed shutdown and waits for lifetime
    | Closed          // closeChild returned
    | CloseFailed     // closeChild threw

  datatype Worker =
    | Unborn
    | Starting        // thread running, libc setting up stack and TLS
    | RouteB          // slot 0 called
    | Detached
    | Parked          // started completed; joining shutdown
    | Exiting         // shutdown seen; libc thread exit
    | Leaving(how: Future)
    | Gone

  /** The whenComplete callback of the lifetime future. */
  datatype Hook = Unset | Registered | Ran

  /** `detached` and `early` record that the worker ever detached, or returned without reaching slot 0. */
  datatype State = State(
    caller: Caller,
    worker: Worker,
    started: Future,
    shutdown: bool,
    lifetime: Future,
    hook: Hook,
    detached: bool,
    early: bool)

  datatype Step =
    | CreateFails       // pthread_create returns an error, route A returns -1, or route A never ran
    | Launch
    | AddHook
    | Publish
    | SeeStarted
    | CloseChild
    | SeeLifetime
    | ReachRouteB
    | ReturnEarly
    | Die
    | Detach
    | CompleteStarted
    | SeeShutdown
    | LeaveNormally
    | CompleteLifetime
    | RunHook

  function Init(): State {
    State(Creating, Unborn, Pending, false, Pending, Unset, false, false)
  }

  predicate Enabled(s: State, step: Step) {
    match step
    case CreateFails => s.caller == Creating
    case Launch => s.caller == Creating
    case AddHook => s.caller == Launched
    case Publish => s.caller == Hooked
    case SeeStarted => s.caller == Waiting && s.started != Pending
    case CloseChild => s.caller == Returned
    case SeeLifetime => s.caller == Closing && s.lifetime != Pending
    case ReachRouteB => s.worker == Starting
    case ReturnEarly => s.worker == Starting
    case Die => s.worker == Starting || s.worker == RouteB || s.worker == Exiting
    case Detach => s.worker == RouteB
    case CompleteStarted => s.worker == Detached
    case SeeShutdown => s.worker == Parked && s.shutdown
    case LeaveNormally => s.worker == Exiting
    case CompleteLifetime => s.worker.Leaving?
    case RunHook => s.worker == Gone && s.hook == Registered
  }

  /** The callback forwards a failure, and only a failure, to the started future. */
  function HookEffect(s: State): State {
    s.(hook := Ran, started := if s.lifetime == Err then Complete(s.started, Err) else s.started)
  }

  function Apply(s: State, step: Step): State
    requires Enabled(s, step)
  {
    match step
    case CreateFails => s.(caller := Failed)
    case Launch => s.(caller := Launched, worker := Starting)
    case AddHook => (if s.lifetime == Pending then s.(hook := Registered) else HookEffect(s)).(caller := Hooked)
    case Publish => s.(caller := Waiting)
    case SeeStarted => s.(caller := if s.started == Ok then Returned else Failed)
    case CloseChild => s.(caller := Closing, shutdown := true)
    case SeeLifetime => s.(caller := if s.lifetime == Ok then Closed else CloseFailed)
    case ReachRouteB => s.(worker := RouteB)
    case ReturnEarly => s.(worker := Leaving(Ok), early := true)
    case Die => s.(worker := Leaving(Err))
    case Detach => s.(worker := Detached, detached := true)
    case CompleteStarted => s.(worker := Parked, started := Complete(s.started, Ok))
    case SeeShutdown => s.(worker := Exiting)
    case LeaveNormally => s.(worker := Leaving(Ok))
    case CompleteLifetime => s.(worker := Gone, lifetime := Complete(s.lifetime, s.worker.how))
    case RunHook => HookEffect(s)
  }

  // ------------------------------------------------------------------ invariant

  predicate Spawned(c: Caller) {
    c == Returned || c == Closing || c == Closed || c == CloseFailed
  }

  ghost predicate CallerOk(s: State) {
    && (s.caller == Creating ==> s.worker == Unborn)
    && (s.worker == Unborn ==> s.caller == Creating || s.caller == Failed)
    && (s.hook == Unset <==> s.caller == Creating || s.caller == Launched || s.worker == Unborn)
    && (Spawned(s.caller) ==> s.started == Ok)
    && (s.shutdown <==> s.caller == Closing || s.caller == Closed || s.caller == CloseFailed)
    && (s.caller == Closed ==> s.lifetime == Ok) && (s.caller == CloseFailed ==> s.lifetime == Err)
  }

  ghost predicate WorkerOk(s: State) {
    && (s.lifetime == Pending <==> s.worker != Gone)
    && (s.worker.Leaving? ==> s.worker.how != Pending)
    && (s.worker == Unborn || s.worker == Starting || s.worker == RouteB ==> !s.detached && !s.early)
    && (s.detached ==> !s.early) && (s.worker == Detached ==> s.detached && s.started == Pending)
    && (s.worker == Parked || s.worker == Exiting ==> s.started == Ok)
    && (s.worker == Exiting ==> s.shutdown)
    && (s.started == Ok ==> s.detached && !s.early && (s.worker == Parked || s.worker == Exiting || s.worker.Leaving? || s.worker == Gone))
    && (s.started == Ok && (s.worker.Leaving? || s.worker == Gone) ==> s.shutdown)
    && (s.started == Err ==> s.worker == Gone && s.lifetime == Err && s.hook == Ran)
    && (s.hook == Ran ==> s.worker == Gone && (s.lifetime == Err ==> s.started != Pending))
    && (s.started != Ok && ((s.worker.Leaving? && s.worker.how == Ok) || s.lifetime == Ok) ==> s.early)
  }

  ghost predicate Inv(s: State) {
    CallerOk(s) && WorkerOk(s)
  }

  lemma StepInv(s: State, step: Step)
    requires Inv(s) && Enabled(s, step)
    ensures Inv(Apply(s, step))
  {}

  // ------------------------------------------------------------------ every interleaving ends

  function CallerRank(c: Caller): nat {
    match c
    case Creating => 8
    case Launched => 7
    case Hooked => 6
    case Waiting => 5
    case Returned => 4
    case Closing => 3
    case _ => 0
  }

  function WorkerRank(w: Worker): nat {
    match w
    case Unborn => 8
    case Starting => 7
    case RouteB => 6
    case Detached => 5
    case Parked => 4
    case Exiting => 3
    case Leaving(_) => 2
    case Gone => 0
  }

  function Rank(s: State): nat {
    CallerRank(s.caller) + WorkerRank(s.worker) + (if s.hook == Ran then 0 else 1)
  }

  lemma StepDescends(s: State, step: Step)
    requires Inv(s) && Enabled(s, step)
    ensures Rank(Apply(s, step)) < Rank(s)
  {}

  predicate Possible(s: State, steps: seq<Step>)
    decreases |steps|
  {
    steps == [] || (Enabled(s, steps[0]) && Possible(Apply(s, steps[0]), steps[1..]))
  }

  function Run(s: State, steps: seq<Step>): State
    requires Possible(s, steps)
    decreases |steps|
  {
    if steps == [] then s else Run(Apply(s, steps[0]), steps[1..])
  }

  /** The invariant holds throughout, and no interleaving is longer than its rank. */
  lemma {:induction false} RunInv(s: State, steps: seq<Step>)
    requires Inv(s) && Possible(s, steps)
    ensures Inv(Run(s, steps)) && |steps| + Rank(Run(s, steps)) <= Rank(s)
    decreases |steps|
  {
    if steps != [] {
      StepInv(s, steps[0]);
      StepDescends(s, steps[0]);
      RunInv(Apply(s, steps[0]), steps[1..]);
    }
  }

  /** The caller is still inside spawnPthread or closeChild. */
  predicate Busy(c: Caller) {
    c == Creating || c == Launched || c == Hooked || c == Waiting || c == Closing
  }

  /** A worker that returned normally without ever reaching slot 0: nobody completes started. */
  predicate Hung(s: State) {
    s.caller == Waiting && s.started == Pending && s.lifetime == Ok && s.hook == Ran
  }

  function SomeStep(s: State): Step
    requires Inv(s) && Busy(s.caller) && !Hung(s)
  {
    match s.caller
    case Creating => Launch
    case Launched => AddHook
    case Hooked => Publish
    case _ =>
      if Enabled(s, SeeStarted) then SeeStarted
      else if Enabled(s, SeeLifetime) then SeeLifetime
      else if s.hook == Registered && s.worker == Gone then RunHook
      else
        match s.worker
        case Starting => ReachRouteB
        case RouteB => Detach
        case Detached => CompleteStarted
        case Parked => SeeShutdown
        case Exiting => LeaveNormally
        case _ => CompleteLifetime
  }

  /**
   * A busy caller can be stuck in one way only: the worker came back normally from a start that
   * never called slot 0. In every other state some step is possible.
   */
  lemma StuckIffHung(s: State)
    requires Inv(s) && Busy(s.caller)
    ensures (forall step :: !Enabled(s, step)) <==> Hung(s)
    ensures !Hung(s) ==> Enabled(s, SomeStep(s))
    ensures Hung(s) ==> s.early
  {
    if Hung(s) {
      forall step: Step ensures !Enabled(s, step) {
        assert s.worker == Gone;
      }
    } else {
      assert Enabled(s, SomeStep(s));
    }
  }

  // ------------------------------------------------------------------ the promises

  /**
   * In every interleaving: exports are returned only once the worker has detached, and until the
   * child is closed the worker is parked; it leaves the park only after shutdown.
   */
  lemma ExportsOnlyWhenParked(steps: seq<Step>)
    requires Possible(Init(), steps)
    ensures var s := Run(Init(), steps);
            && (s.caller == Returned ==> s.worker == Parked && s.detached)
            && (Spawned(s.caller) ==> s.detached && s.started == Ok)
            && (s.worker == Exiting ==> s.shutdown)
  {
    RunInv(Init(), steps);
  }

  /** A worker that died or came back before completing started never lets spawnPthread return. */
  lemma DeadWorkerFailsSpawn(steps: seq<Step>)
    requires Possible(Init(), steps)
    ensures var s := Run(Init(), steps);
            && ((s.worker.Leaving? || s.worker == Gone) && !s.detached ==> !Spawned(s.caller))
            && (s.worker == Gone && !s.early && !s.detached && !Busy(s.caller) ==> s.caller == Failed)
            && (s.started == Err ==> s.worker == Gone && s.lifetime == Err)
  {
    RunInv(Init(), steps);
  }

  /** spawnPthread throws only if creating the thread failed or the worker died, before it ever completed started. */
  lemma FailsOnlyWhen(steps: seq<Step>)
    requires Possible(Init(), steps)
    ensures var s := Run(Init(), steps);
            s.caller == Failed ==> s.worker == Unborn || (s.started == Err && s.lifetime == Err && s.worker == Gone)
  {
    RunFailed(Init(), steps);
  }

  ghost predicate FailedOk(s: State) {
    s.caller == Failed ==> s.worker == Unborn || s.started == Err
  }

  lemma {:induction false} RunFailed(s: State, steps: seq<Step>)
    requires Inv(s) && FailedOk(s) && Possible(s, steps)
    ensures FailedOk(Run(s, steps)) && Inv(Run(s, steps))
    decreases |steps|
  {
    if steps != [] {
      StepInv(s, steps[0]);
      RunFailed(Apply(s, steps[0]), steps[1..]);
    }
  }

  /**
   * A worker that reaches slot 0 lets the caller return, and once the child is closed and the worker has
   * left normally, closeChild returns: from any state, the outcome of each wait is the future's.
   */
  lemma WaitsReturn(s: State)
    requires Inv(s)
    ensures s.caller == Waiting && s.started == Ok ==> Enabled(s, SeeStarted) && Apply(s, SeeStarted).caller == Returned
    ensures s.caller == Waiting && s.started == Err ==> Enabled(s, SeeStarted) && Apply(s, SeeStarted).caller == Failed
    ensures s.caller == Closing && s.lifetime == Ok ==> Enabled(s, SeeLifetime) && Apply(s, SeeLifetime).caller == Closed
    ensures s.worker == Detached ==> Enabled(s, CompleteStarted) && Apply(s, CompleteStarted).started == Ok
    ensures s.worker == Exiting ==> Enabled(s, LeaveNormally) && Apply(Apply(s, LeaveNormally), CompleteLifetime).lifetime == Ok
  {}

  /** closeChild returns normally exactly when the worker has fully left, and left normally. */
  lemma CloseMeansGone(steps: seq<Step>)
    requires Possible(Init(), steps)
    ensures var s := Run(Init(), steps);
            && (s.caller == Closed ==> s.worker == Gone && s.lifetime == Ok && s.shutdown)
            && (s.caller == CloseFailed ==> s.worker == Gone && s.lifetime == Err)
  {
    RunInv(Init(), steps);
  }

  /** A run that can go no further has an answer for its caller unless the worker returned early. */
  lemma EveryRunAnswers(steps: seq<Step>)
    requires Possible(Init(), steps)
    ensures |steps| <= 17
    ensures var s := Run(Init(), steps);
            (forall step :: !Enabled(s, step)) && !s.early ==> s.caller == Failed || s.caller == Closed || s.caller == CloseFailed
  {
    RunInv(Init(), steps);
    var s := Run(Init(), steps);
    if Busy(s.caller) {
      StuckIffHung(s);
    } else if s.caller == Returned {
      assert Enabled(s, CloseChild);
    }
  }

  // ------------------------------------------------------------------ the undisturbed worker

  predicate Disturbs(step: Step) {
    step == CreateFails || step == ReturnEarly || step == Die
  }

  predicate Undisturbed(steps: seq<Step>) {
    forall i :: 0 <= i < |steps| ==> !Disturbs(steps[i])
  }

  /** Nothing has gone wrong so far. */
  ghost predicate Healthy(s: State) {
    Inv(s) && !s.early && s.caller != Failed && s.caller != CloseFailed && s.started != Err
    && s.lifetime != Err && s.worker != Leaving(Err) && (s.worker.Leaving? || s.worker == Gone ==> s.detached)
  }

  lemma {:induction false} HealthyRun(s: State, steps: seq<Step>)
    requires Healthy(s) && Possible(s, steps) && Undisturbed(steps)
    ensures Healthy(Run(s, steps))
    decreases |steps|
  {
    if steps != [] {
      assert !Disturbs(steps[0]);
      StepInv(s, steps[0]);
      HealthyRun(Apply(s, steps[0]), steps[1..]);
    }
  }

  /**
   * When the thread is created and the worker neither dies nor returns early, no interleaving makes
   * spawnPthread or closeChild throw, and one that can go no further has closed the child.
   */
  lemma HealthyMeansClosed(steps: seq<Step>)
    requires Possible(Init(), steps) && Undisturbed(steps)
    ensures var s := Run(Init(), steps);
            && s.caller != Failed && s.caller != CloseFailed
            && ((forall step :: Enabled(s, step) ==> Disturbs(step)) ==> s.caller == Closed && s.worker == Gone && s.hook == Ran)
  {
    HealthyRun(Init(), steps);
    var s := Run(Init(), steps);
    if forall step :: Enabled(s, step) ==> Disturbs(step) {
      StuckIsClosed(s);
    }
  }

  lemma StuckIsClosed(s: State)
    requires Healthy(s) && forall step :: Enabled(s, step) ==> Disturbs(step)
    ensures s.caller == Closed && s.worker == Gone && s.hook == Ran
  {
    assert !Enabled(s, Launch) && !Enabled(s, AddHook) && !Enabled(s, Publish) && !Enabled(s, CloseChild);
    assert !Enabled(s, ReachRouteB) && !Enabled(s, Detach) && !Enabled(s, CompleteStarted) && !Enabled(s, LeaveNormally);
    assert !Enabled(s, CompleteLifetime) && !Enabled(s, SeeStarted) && !Enabled(s, SeeShutdown);
    assert !Enabled(s, SeeLifetime) && !Enabled(s, RunHook);
  }

  /** What can go wrong: creating the thread, and the worker until it detaches and while it exits; a failed creation is final. */
  lemma WhatCanFail(s: State)
    requires Inv(s)
    ensures Enabled(s, CreateFails) <==> s.caller == Creating
    ensures Enabled(s, CreateFails) ==>
              Apply(s, CreateFails).caller == Failed && forall step :: !Enabled(Apply(s, CreateFails), step)
    ensures Enabled(s, Die) <==> s.worker == Starting || s.worker == RouteB || s.worker == Exiting
    ensures Enabled(s, Die) ==> Apply(Apply(s, Die), CompleteLifetime).lifetime == Err
  {}

  /** The early return does hang spawnPthread. */
  lemma EarlyReturnHangs()
    ensures var steps := [Launch, ReturnEarly, CompleteLifetime, AddHook, Publish];
            Possible(Init(), steps) && Hung(Run(Init(), steps))
  {
    var a := Apply(Init(), Launch);
    var b := Apply(a, ReturnEarly);
    var c := Apply(b, CompleteLifetime);
    var d := Apply(c, AddHook);
    var e := Apply(d, Publish);
    assert Hung(e);
    assert Possible(e, []);
    assert Possible(d, [Publish]) && Run(d, [Publish]) == e;
    assert Possible(c, [AddHook, Publish]) && Run(c, [AddHook, Publish]) == e by {
      assert [AddHook, Publish][1..] == [Publish];
    }
    assert Possible(b, [CompleteLifetime, AddHook, Publish]) && Run(b, [CompleteLifetime, AddHook, Publish]) == e by {
      assert [CompleteLifetime, AddHook, Publish][1..] == [AddHook, Publish];
    }
    assert Possible(a, [ReturnEarly, CompleteLifetime, AddHook, Publish])
        && Run(a, [ReturnEarly, CompleteLifetime, AddHook, Publish]) == e by {
      assert [ReturnEarly, CompleteLifetime, AddHook, Publish][1..] == [CompleteLifetime, AddHook, Publish];
    }
    assert [Launch, ReturnEarly, CompleteLifetime, AddHook, Publish][1..] == [ReturnEarly, CompleteLifetime, AddHook, Publish];
  }
}
