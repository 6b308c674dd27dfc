/**
 * The I/O handler's two-level queue: submitters offer an operation to a registration's own queue and
 * then the registration to the runnable queue; one event-loop thread polls both, and parks when there
 * was nothing to do.  Every queue access, flag access and park is one atomic step.
 */
module IoQueue {
  /** A registration: its flag and queue, and what was ever offered, delivered and discarded. */
  datatype Reg = Reg(canceled: bool, ops: seq<int>, offered: seq<int>, delivered: seq<int>, dropped: seq<int>)

  /** Where the event-loop thread is; `handled` is run()'s local count. */
  datatype Phase =
    | Idle
    | Polling(handled: nat)
    | Popped(r: nat, handled: nat)                  // an entry taken, validity not yet tested
    | Draining(r: nat, handled: nat, credit: bool)  // in runSubmittedOps; credit: the entry has paid for no operation yet
    | Holding(r: nat, handled: nat, op: int)        // an operation taken, validity not yet tested
    | Handling(r: nat, handled: nat)                // inside the user's handle()
    | Parking(late: bool)                           // about to park; late: the deadline has passed
    | Parked(late: bool)

  /**
   * `checked` are submitters past the validity test, `offered` those between their two offers, and
   * `waking` those that have yet to call wakeup.
   */
  datatype State = State(
    regs: seq<Reg>,
    runnable: seq<nat>,
    checked: multiset<(nat, int)>,
    offered: multiset<nat>,
    waking: nat,
    started: bool,
    permit: bool,
    phase: Phase)

  /** Steps of submitters and of whoever registers and cancels. */
  datatype ClientStep =
    | Register
    | SubmitCheck(r: nat, op: int)
    | OfferOp(r: nat, op: int)
    | OfferRunnable(r: nat)
    | Wake(own: bool)
    | Cancel(r: nat)

  /** After runSubmittedOps: the loop goes on, or the deadline has passed, with or without leave to block. */
  datatype RunEnd = GoOn | Deadline(canBlock: bool)

  /** Steps of the event-loop thread; `delay` is what delayNanos returns when it parks. */
  datatype LoopStep =
    | StartRun
    | PollRunnable(canBlock: bool)
    | CheckRegistration
    | PollOp(end: RunEnd)
    | CheckOp(end: RunEnd)
    | FinishHandle(throws: bool)
    | Park(delay: int)
    | Unpark

  datatype Step = Client(client: ClientStep) | Loop(loop: LoopStep)

  function Init(): State {
    State([], [], multiset{}, multiset{}, 0, false, false, Idle)
  }

  predicate Asleep(p: Phase) {
    p.Parking? || p.Parked?
  }

  predicate ClientEnabled(s: State, step: ClientStep) {
    match step
    case Register => true
    case SubmitCheck(r, _) => r < |s.regs|
    case OfferOp(r, op) => r < |s.regs| && (r, op) in s.checked
    case OfferRunnable(r) => r in s.offered
    case Wake(own) => s.waking > 0 && (own ==> !Asleep(s.phase))
    case Cancel(r) => r < |s.regs|
  }

  predicate LoopEnabled(s: State, step: LoopStep) {
    match step
    case StartRun => s.phase.Idle?
    case PollRunnable(_) => s.phase.Polling?
    case CheckRegistration => s.phase.Popped? && s.phase.r < |s.regs|
    case PollOp(_) => s.phase.Draining? && s.phase.r < |s.regs|
    case CheckOp(_) => s.phase.Holding? && s.phase.r < |s.regs|
    case FinishHandle(_) => s.phase.Handling?
    case Park(_) => s.phase.Parking?
    case Unpark => s.phase.Parked?
  }

  predicate Enabled(s: State, step: Step) {
    match step
    case Client(c) => ClientEnabled(s, c)
    case Loop(l) => LoopEnabled(s, l)
  }

  function SetReg(s: State, r: nat, reg: Reg): State
    requires r < |s.regs|
  {
    s.(regs := s.regs[r := reg])
  }

  function ClientApply(s: State, step: ClientStep): State
    requires ClientEnabled(s, step)
  {
    match step
    case Register => s.(regs := s.regs + [Reg(false, [], [], [], [])])
    case SubmitCheck(r, op) => if s.regs[r].canceled then s else s.(checked := s.checked + multiset{(r, op)})
    case OfferOp(r, op) =>
      var reg := s.regs[r];
      SetReg(s, r, reg.(ops := reg.ops + [op], offered := reg.offered + [op]))
        .(checked := s.checked - multiset{(r, op)}, offered := s.offered + multiset{r})
    case OfferRunnable(r) => s.(offered := s.offered - multiset{r}, runnable := s.runnable + [r], waking := s.waking + 1)
    case Wake(own) => s.(waking := s.waking - 1, permit := s.permit || (!own && s.started))
    case Cancel(r) => SetReg(s, r, s.regs[r].(canceled := true))
  }

  /** Where the loop is after runSubmittedOps: a reached deadline leaves it, to park if nothing was handled. */
  function Next(handled: nat, end: RunEnd): Phase {
    match end
    case GoOn => Polling(handled)
    case Deadline(canBlock) => if handled == 0 && canBlock then Parking(true) else Idle
  }

  function LoopApply(s: State, step: LoopStep): State
    requires LoopEnabled(s, step)
  {
    match step
    case StartRun => s.(phase := Polling(0), started := true)
    case PollRunnable(canBlock) =>
      if s.runnable == [] then s.(phase := if s.phase.handled == 0 && canBlock then Parking(false) else Idle)
      else s.(runnable := s.runnable[1..], phase := Popped(s.runnable[0], s.phase.handled))
    case CheckRegistration =>
      s.(phase := if s.regs[s.phase.r].canceled then Polling(s.phase.handled) else Draining(s.phase.r, s.phase.handled, true))
    case PollOp(end) =>
      var reg := s.regs[s.phase.r];
      if reg.ops == [] then s.(phase := Next(s.phase.handled, end))
      else SetReg(s, s.phase.r, reg.(ops := reg.ops[1..])).(phase := Holding(s.phase.r, s.phase.handled, reg.ops[0]))
    case CheckOp(end) =>
      var reg := s.regs[s.phase.r];
      if reg.canceled
      then SetReg(s, s.phase.r, reg.(dropped := reg.dropped + [s.phase.op])).(phase := Next(s.phase.handled, end))
      else SetReg(s, s.phase.r, reg.(delivered := reg.delivered + [s.phase.op])).(phase := Handling(s.phase.r, s.phase.handled))
    case FinishHandle(throws) => s.(phase := if throws then Idle else Draining(s.phase.r, s.phase.handled + 1, false))
    case Park(delay) =>
      if delay <= 0 then s.(phase := Idle)
      else if s.permit then s.(permit := false, phase := Idle)
      else s.(phase := Parked(s.phase.late))
    case Unpark => s.(permit := false, phase := Idle)
  }

  function Apply(s: State, step: Step): State
    requires Enabled(s, step)
  {
    match step
    case Client(c) => ClientApply(s, c)
    case Loop(l) => LoopApply(s, l)
  }

  // ------------------------------------------------------------------ invariant

  /** An entry the handler has taken and not yet spent on an operation. */
  function Credit(p: Phase, r: nat): nat {
    if (p.Popped? && p.r == r) || (p.Draining? && p.r == r && p.credit) then 1 else 0
  }

  function InHand(p: Phase, r: nat): seq<int> {
    if p.Holding? && p.r == r then [p.op] else []
  }

  predicate Inside(p: Phase, r: nat) {
    (p.Draining? || p.Holding? || p.Handling?) && p.r == r
  }

  /** Runnable entries, submitters between their offers and the handler's credit cover the queued operations. */
  ghost predicate Covered(s: State, r: nat)
    requires r < |s.regs|
  {
    |s.regs[r].ops| <= multiset(s.runnable)[r] + s.offered[r] + Credit(s.phase, r)
  }

  /** What was offered is, in this order: delivered, in the handler's hand, dropped, still queued. */
  ghost predicate Ordered(s: State, r: nat)
    requires r < |s.regs|
  {
    var g := s.regs[r];
    && g.offered == g.delivered + InHand(s.phase, r) + g.dropped + g.ops
    && |g.dropped| <= 1 && (g.dropped != [] ==> g.canceled && !Inside(s.phase, r))
  }

  /** A handler that goes to sleep in time and without a permit has left nothing behind but what will still wake it. */
  ghost predicate SleepOk(s: State) {
    && (!s.phase.Idle? ==> s.started)
    && (Asleep(s.phase) && !s.phase.late && !s.permit ==> |s.runnable| <= s.waking)
  }

  ghost predicate InRange(s: State) {
    && (forall r :: r in s.offered ==> r < |s.regs|)
    && (forall r :: r in s.runnable ==> r < |s.regs|)
    && (s.phase.Popped? || s.phase.Draining? || s.phase.Holding? || s.phase.Handling? ==> s.phase.r < |s.regs|)
  }

  ghost predicate Inv(s: State) {
    && InRange(s) && SleepOk(s)
    && (forall r: nat :: r < |s.regs| ==> Ordered(s, r) && (!s.regs[r].canceled ==> Covered(s, r)))
  }

  // ------------------------------------------------------------------ each step keeps it

  lemma StepSleep(s: State, step: Step)
    requires SleepOk(s) && Enabled(s, step)
    ensures SleepOk(Apply(s, step))
  {}

  lemma ClientRange(s: State, step: ClientStep)
    requires InRange(s) && ClientEnabled(s, step)
    ensures InRange(ClientApply(s, step))
  {
    var t := ClientApply(s, step);
    assert step.OfferRunnable? ==> forall r :: r in t.runnable ==> r in s.runnable || r == step.r;
  }

  lemma LoopRange(s: State, step: LoopStep)
    requires InRange(s) && LoopEnabled(s, step)
    ensures InRange(LoopApply(s, step))
  {
    if step.PollRunnable? && s.runnable != [] {
      assert s.runnable[0] in s.runnable;
      assert forall r :: r in s.runnable[1..] ==> r in s.runnable;
    }
  }

  /** What a client step does to one registration. */
  lemma ClientOrdered(s: State, step: ClientStep, r: nat)
    requires ClientEnabled(s, step) && r < |s.regs| && Ordered(s, r)
    ensures Ordered(ClientApply(s, step), r)
  {
    var g := s.regs[r];
    if step.OfferOp? && step.r == r {
      assert g.offered + [step.op] == g.delivered + InHand(s.phase, r) + g.dropped + (g.ops + [step.op]);
    }
  }

  lemma OrderedPoll(s: State, end: RunEnd)
    requires LoopEnabled(s, PollOp(end)) && Ordered(s, s.phase.r)
    ensures Ordered(LoopApply(s, PollOp(end)), s.phase.r)
  {
    var g := s.regs[s.phase.r];
    if g.ops != [] {
      assert g.ops == [g.ops[0]] + g.ops[1..];
      assert g.delivered + [] + [] + g.ops == g.delivered + [g.ops[0]] + [] + g.ops[1..];
    }
  }

  lemma OrderedCheck(s: State, end: RunEnd)
    requires LoopEnabled(s, CheckOp(end)) && Ordered(s, s.phase.r)
    ensures Ordered(LoopApply(s, CheckOp(end)), s.phase.r)
  {
    var g, h := s.regs[s.phase.r], LoopApply(s, CheckOp(end)).regs[s.phase.r];
    assert h.delivered + [] + h.dropped + h.ops == g.delivered + [s.phase.op] + [] + g.ops;
  }

  lemma LoopOrdered(s: State, step: LoopStep, r: nat)
    requires LoopEnabled(s, step) && r < |s.regs| && Ordered(s, r)
    ensures Ordered(LoopApply(s, step), r)
  {
    if step.PollOp? && s.phase.r == r {
      OrderedPoll(s, step.end);
    } else if step.CheckOp? && s.phase.r == r {
      OrderedCheck(s, step.end);
    } else {
      var t := LoopApply(s, step);
      assert t.regs[r] == s.regs[r] && InHand(t.phase, r) == InHand(s.phase, r) == [];
    }
  }

  lemma ClientCovered(s: State, step: ClientStep, r: nat)
    requires ClientEnabled(s, step) && r < |s.regs| && Covered(s, r)
    ensures Covered(ClientApply(s, step), r)
  {
    if step.OfferRunnable? {
      assert multiset(s.runnable + [step.r]) == multiset(s.runnable) + multiset{step.r};
    }
  }

  /** Taking an entry turns it into the handler's credit. */
  lemma CoveredPoll(s: State, canBlock: bool, r: nat)
    requires LoopEnabled(s, PollRunnable(canBlock)) && r < |s.regs| && Covered(s, r)
    ensures Covered(LoopApply(s, PollRunnable(canBlock)), r)
  {
    if s.runnable != [] {
      assert s.runnable == [s.runnable[0]] + s.runnable[1..];
      assert multiset(s.runnable) == multiset{s.runnable[0]} + multiset(s.runnable[1..]);
    }
  }

  lemma LoopCovered(s: State, step: LoopStep, r: nat)
    requires LoopEnabled(s, step) && r < |s.regs| && Covered(s, r)
    ensures !s.regs[r].canceled ==> Covered(LoopApply(s, step), r)
  {
    if step.PollRunnable? {
      CoveredPoll(s, step.canBlock, r);
    } else {
      var t := LoopApply(s, step);
      assert t.runnable == s.runnable && t.offered == s.offered;
    }
  }

  lemma ClientInv(s: State, step: ClientStep)
    requires Inv(s) && ClientEnabled(s, step)
    ensures Inv(ClientApply(s, step))
  {
    var t := ClientApply(s, step);
    ClientRange(s, step);
    StepSleep(s, Client(step));
    forall r: nat | r < |t.regs| ensures Ordered(t, r) && (!t.regs[r].canceled ==> Covered(t, r)) {
      if r < |s.regs| {
        assert Ordered(s, r);
        ClientOrdered(s, step, r);
        if !t.regs[r].canceled {
          assert Covered(s, r);
          ClientCovered(s, step, r);
        }
      } else {
        assert t.regs[r].ops == [] && !Inside(t.phase, r);
      }
    }
  }

  lemma LoopInv(s: State, step: LoopStep)
    requires Inv(s) && LoopEnabled(s, step)
    ensures Inv(LoopApply(s, step))
  {
    var t := LoopApply(s, step);
    LoopRange(s, step);
    StepSleep(s, Loop(step));
    forall r: nat | r < |t.regs| ensures Ordered(t, r) && (!t.regs[r].canceled ==> Covered(t, r)) {
      assert Ordered(s, r);
      LoopOrdered(s, step, r);
      if !t.regs[r].canceled {
        assert Covered(s, r);
        LoopCovered(s, step, r);
      }
    }
  }

  lemma StepInv(s: State, step: Step)
    requires Inv(s) && Enabled(s, step)
    ensures Inv(Apply(s, step))
  {
    match step
    case Client(c) => ClientInv(s, c);
    case Loop(l) => LoopInv(s, l);
  }

  // ------------------------------------------------------------------ runs

  predicate Possible(s: State, steps: seq<Step>)
    decreases |steps|
  {
    steps == [] || (Enabled(s, steps[0]) && Possible(Apply(s, steps[0]), steps[1..]))
  }

  function Run(s: State, steps: seq<Step>): State
    requires Possible(s, steps)
    decreases |steps|
  {
    if steps == [] then s else Run(Apply(s, steps[0]), steps[1..])
  }

  lemma {:induction false} RunInv(s: State, steps: seq<Step>)
    requires Inv(s) && Possible(s, steps)
    ensures Inv(Run(s, steps))
    decreases |steps|
  {
    if steps != [] {
      StepInv(s, steps[0]);
      RunInv(Apply(s, steps[0]), steps[1..]);
    }
  }

  /**
   * No operation is stranded: in every run, also when handlers threw or the deadline cut a run short,
   * the runnable entries of a valid registration, its submitters between their two offers and the
   * handler's unspent entry are at least as many as its queued operations.
   */
  lemma NeverStranded(steps: seq<Step>, r: nat)
    requires Possible(Init(), steps) && r < |Run(Init(), steps).regs|
    ensures var s := Run(Init(), steps);
            !s.regs[r].canceled ==>
              && |s.regs[r].ops| <= multiset(s.runnable)[r] + s.offered[r] + Credit(s.phase, r)
              && (s.regs[r].ops != [] && (s.phase.Idle? || s.phase.Polling? || Asleep(s.phase)) ==> r in s.runnable || r in s.offered)
  {
    RunInv(Init(), steps);
    assert Covered(Run(Init(), steps), r) || Run(Init(), steps).regs[r].canceled;
  }

  /** Deliveries are a prefix of the offers: each operation at most once, in order. */
  lemma DeliveredInOrder(steps: seq<Step>, r: nat)
    requires Possible(Init(), steps) && r < |Run(Init(), steps).regs|
    ensures var g := Run(Init(), steps).regs[r];
            && g.delivered <= g.offered
            && (!g.canceled && !Inside(Run(Init(), steps).phase, r) ==> g.offered == g.delivered + g.ops)
            && |g.offered| <= |g.delivered| + |g.ops| + 1
  {
    RunInv(Init(), steps);
    var s := Run(Init(), steps);
    assert Ordered(s, r);
    var g := s.regs[r];
    PrefixOfFour(g.delivered, InHand(s.phase, r), g.dropped, g.ops);
  }

  lemma PrefixOfFour(a: seq<int>, b: seq<int>, c: seq<int>, d: seq<int>)
    ensures a <= a + b + c + d
    ensures b == [] && c == [] ==> a + b + c + d == a + d
  {
    assert a + b + c + d == a + (b + c + d);
  }

  /** Asleep in time, with no permit and no submitter on its way, every valid registration is fully served. */
  lemma AsleepMeansDrained(steps: seq<Step>, r: nat)
    requires Possible(Init(), steps) && r < |Run(Init(), steps).regs|
    ensures var s := Run(Init(), steps);
            Asleep(s.phase) && !s.phase.late && !s.permit && s.waking == 0 && r !in s.offered && !s.regs[r].canceled
            ==> s.regs[r].ops == [] && s.regs[r].delivered == s.regs[r].offered
  {
    RunInv(Init(), steps);
    var s := Run(Init(), steps);
    assert Ordered(s, r);
    if Asleep(s.phase) && !s.phase.late && !s.permit && s.waking == 0 && r !in s.offered && !s.regs[r].canceled {
      assert Covered(s, r);
    }
  }

  // ------------------------------------------------------------------ parking after the deadline

  /** Every park after the deadline finds no time left to wait. */
  predicate Prompt(s: State, steps: seq<Step>)
    requires Possible(s, steps)
    decreases |steps|
  {
    steps == [] ||
      ((steps[0].Loop? && steps[0].loop.Park? && s.phase.late ==> steps[0].loop.delay <= 0)
       && Prompt(Apply(s, steps[0]), steps[1..]))
  }

  lemma {:induction false} PromptNeverLate(s: State, steps: seq<Step>)
    requires Possible(s, steps) && Prompt(s, steps) && (s.phase.Parked? ==> !s.phase.late)
    ensures Run(s, steps).phase.Parked? ==> !Run(s, steps).phase.late
    decreases |steps|
  {
    if steps != [] {
      PromptNeverLate(Apply(s, steps[0]), steps[1..]);
    }
  }

  /**
   * When delayNanos is never positive once the deadline has passed, a parked handler with no permit and
   * no submitter on its way has served every valid registration, over every run.
   */
  lemma ParkedMeansDrained(steps: seq<Step>, r: nat)
    requires Possible(Init(), steps) && Prompt(Init(), steps) && r < |Run(Init(), steps).regs|
    ensures var s := Run(Init(), steps);
            s.phase.Parked? && !s.permit && s.waking == 0 && r !in s.offered && !s.regs[r].canceled
            ==> s.regs[r].ops == [] && s.regs[r].delivered == s.regs[r].offered
  {
    PromptNeverLate(Init(), steps);
    AsleepMeansDrained(steps, r);
  }

  /**
   * A park after the deadline leaves nothing behind exactly when it does not sleep or every runnable
   * entry still has its wakeup to come.
   */
  lemma LateParkIff(s: State, delay: int)
    requires Inv(s) && s.phase == Parking(true)
    ensures var t := Apply(s, Loop(Park(delay)));
            (t.phase.Parked? ==> |t.runnable| <= t.waking) <==> delay <= 0 || s.permit || |s.runnable| <= s.waking
  {}

  /** One more step at the end of a run. */
  lemma {:induction false} Then(from: State, steps: seq<Step>, step: Step)
    requires Possible(from, steps) && Enabled(Run(from, steps), step)
    ensures Possible(from, steps + [step]) && Run(from, steps + [step]) == Apply(Run(from, steps), step)
    decreases |steps|
  {
    var all := steps + [step];
    if steps == [] {
      assert all[1..] == [];
    } else {
      assert all[0] == steps[0] && all[1..] == steps[1..] + [step];
      Then(Apply(from, steps[0]), steps[1..], step);
    }
  }

  /** A registration whose first k operations were delivered and the others are queued. */
  function Served(ops: seq<int>, k: nat): Reg
    requires k <= |ops|
  {
    Reg(false, ops[k..], ops, ops[..k], [])
  }

  function Quiet(a: seq<int>, k: nat, b: seq<int>, runnable: seq<nat>, started: bool, phase: Phase): State
    requires k <= |a|
  {
    State([Served(a, k), Served(b, 0)], runnable, multiset{}, multiset{}, 0, started, false, phase)
  }

  /** An own-thread submission to registration r, from a quiet state. */
  lemma SubmitOwn(steps: seq<Step>, s: State, r: nat, op: int, t: State) returns (more: seq<Step>)
    requires Possible(Init(), steps) && Run(Init(), steps) == s && r < |s.regs| && !s.regs[r].canceled && !Asleep(s.phase)
    requires s.checked == multiset{} && s.offered == multiset{} && s.waking == 0
    requires t == s.(regs := s.regs[r := s.regs[r].(ops := s.regs[r].ops + [op], offered := s.regs[r].offered + [op])],
                     runnable := s.runnable + [r])
    ensures Possible(Init(), more) && Run(Init(), more) == t
  {
    var s1 := Apply(s, Client(SubmitCheck(r, op)));
    assert s1 == s.(checked := multiset{(r, op)});
    var s2 := Apply(s1, Client(OfferOp(r, op)));
    assert s2 == t.(runnable := s.runnable, offered := multiset{r});
    var s3 := Apply(s2, Client(OfferRunnable(r)));
    assert s3 == t.(waking := 1);
    Then(Init(), steps, Client(SubmitCheck(r, op)));
    more := steps + [Client(SubmitCheck(r, op))];
    Then(Init(), more, Client(OfferOp(r, op)));
    more := more + [Client(OfferOp(r, op))];
    Then(Init(), more, Client(OfferRunnable(r)));
    more := more + [Client(OfferRunnable(r))];
    Then(Init(), more, Client(Wake(true)));
    more := more + [Client(Wake(true))];
  }

  /** The same between two quiet idle states. */
  lemma SubmitQuiet(steps: seq<Step>, a: seq<int>, b: seq<int>, runnable: seq<nat>, r: nat, op: int) returns (more: seq<Step>)
    requires Possible(Init(), steps) && Run(Init(), steps) == Quiet(a, 0, b, runnable, false, Idle) && r < 2
    ensures Possible(Init(), more)
    ensures Run(Init(), more)
            == Quiet(if r == 0 then a + [op] else a, 0, if r == 1 then b + [op] else b, runnable + [r], false, Idle)
  {
    var s := Quiet(a, 0, b, runnable, false, Idle);
    var t := Quiet(if r == 0 then a + [op] else a, 0, if r == 1 then b + [op] else b, runnable + [r], false, Idle);
    assert a[0..] == a && b[0..] == b && (a + [op])[0..] == a + [op] && (b + [op])[0..] == b + [op];
    assert a[..0] == (a + [op])[..0] == b[..0] == (b + [op])[..0] == [];
    var g := s.regs[r].(ops := s.regs[r].ops + [op], offered := s.regs[r].offered + [op]);
    assert t.regs == s.regs[r := g];
    more := SubmitOwn(steps, s, r, op, t);
  }

  /** Two operations on registration 0 and one on registration 1, all from the event-loop thread. */
  lemma ThreeSubmitted() returns (steps: seq<Step>)
    ensures Possible(Init(), steps) && Run(Init(), steps) == Quiet([1, 2], 0, [3], [0, 0, 1], false, Idle)
  {
    steps := [];
    Then(Init(), steps, Client(Register));
    steps := steps + [Client(Register)];
    Then(Init(), steps, Client(Register));
    steps := steps + [Client(Register)];
    assert Run(Init(), steps) == Quiet([], 0, [], [], false, Idle);
    steps := SubmitQuiet(steps, [], [], [], 0, 1);
    assert [] + [1] == [1] && [] + [0] == [0];
    steps := SubmitQuiet(steps, [1], [], [0], 0, 2);
    assert [1] + [2] == [1, 2] && [0] + [0] == [0, 0];
    steps := SubmitQuiet(steps, [1, 2], [], [0, 0], 1, 3);
    assert [] + [3] == [3] && [0, 0] + [1] == [0, 0, 1];
  }

  /** The handler takes, tests and delivers the next operation of registration 0. */
  lemma DeliverNext(steps: seq<Step>, k: nat, credit: bool) returns (more: seq<Step>)
    requires Possible(Init(), steps) && k < 2
    requires Run(Init(), steps) == Quiet([1, 2], k, [3], [0, 1], true, Draining(0, k, credit))
    ensures Possible(Init(), more) && Run(Init(), more) == Quiet([1, 2], k + 1, [3], [0, 1], true, Draining(0, k + 1, false))
  {
    var ops := [1, 2];
    var s := Quiet(ops, k, [3], [0, 1], true, Draining(0, k, credit));
    var held := Reg(false, ops[k + 1..], ops, ops[..k], []);
    assert ops[k..][1..] == ops[k + 1..] && ops[k..][0] == ops[k] && ops[..k] + [ops[k]] == ops[..k + 1];
    var s1 := s.(regs := [held, s.regs[1]], phase := Holding(0, k, ops[k]));
    assert Apply(s, Loop(PollOp(GoOn))) == s1;
    var s2 := Quiet(ops, k + 1, [3], [0, 1], true, Handling(0, k));
    assert Apply(s1, Loop(CheckOp(GoOn))) == s2;
    Then(Init(), steps, Loop(PollOp(GoOn)));
    more := steps + [Loop(PollOp(GoOn))];
    Then(Init(), more, Loop(CheckOp(GoOn)));
    more := more + [Loop(CheckOp(GoOn))];
    Then(Init(), more, Loop(FinishHandle(false)));
    more := more + [Loop(FinishHandle(false))];
  }

  /** The start of a run: the first entry is taken and found valid. */
  lemma EnterRun(steps: seq<Step>, k: nat, runnable: seq<nat>, started: bool) returns (more: seq<Step>)
    requires Possible(Init(), steps) && k <= 2 && runnable != [] && runnable[0] == 0
    requires Run(Init(), steps) == Quiet([1, 2], k, [3], runnable, started, Idle)
    ensures Possible(Init(), more) && Run(Init(), more) == Quiet([1, 2], k, [3], runnable[1..], true, Draining(0, 0, true))
  {
    Then(Init(), steps, Loop(StartRun));
    more := steps + [Loop(StartRun)];
    Then(Init(), more, Loop(PollRunnable(true)));
    more := more + [Loop(PollRunnable(true))];
    Then(Init(), more, Loop(CheckRegistration));
    more := more + [Loop(CheckRegistration)];
  }

  /**
   * With a positive delay after the deadline the handler can sleep on a queued operation that nobody
   * will announce: run one drains registration 0, run two takes its stale second entry at the deadline.
   */
  lemma LateParkStrands() returns (steps: seq<Step>)
    ensures Possible(Init(), steps)
    ensures var s := Run(Init(), steps);
            s.phase == Parked(true) && !s.permit && s.waking == 0 && s.offered == multiset{}
            && |s.regs| == 2 && !s.regs[1].canceled && s.regs[1].ops == [3]
  {
    steps := ThreeSubmitted();
    steps := EnterRun(steps, 0, [0, 0, 1], false);
    steps := DeliverNext(steps, 0, true);
    steps := DeliverNext(steps, 1, false);
    Then(Init(), steps, Loop(PollOp(Deadline(true))));
    steps := steps + [Loop(PollOp(Deadline(true)))];
    steps := EnterRun(steps, 2, [0, 1], true);
    Then(Init(), steps, Loop(PollOp(Deadline(true))));
    steps := steps + [Loop(PollOp(Deadline(true)))];
    Then(Init(), steps, Loop(Park(1)));
    steps := steps + [Loop(Park(1))];
  }

  // ------------------------------------------------------------------ what one run() handles

  /** All operations ever handed to a handler. */
  function Deliveries(regs: seq<Reg>): nat {
    if regs == [] then 0 else |regs[0].delivered| + Deliveries(regs[1..])
  }

  lemma {:induction false} DeliveriesUpdate(regs: seq<Reg>, r: nat, g: Reg)
    requires r < |regs|
    ensures Deliveries(regs[r := g]) == Deliveries(regs) - |regs[r].delivered| + |g.delivered|
  {
    if r == 0 {
      assert regs[r := g][1..] == regs[1..];
    } else {
      assert regs[r := g][1..] == regs[1..][r - 1 := g];
      DeliveriesUpdate(regs[1..], r - 1, g);
    }
  }

  lemma {:induction false} DeliveriesAppend(regs: seq<Reg>, g: Reg)
    requires g.delivered == []
    ensures Deliveries(regs + [g]) == Deliveries(regs)
  {
    if regs == [] {
      assert [g][1..] == [];
    } else {
      assert (regs + [g])[1..] == regs[1..] + [g];
      DeliveriesAppend(regs[1..], g);
    }
  }

  /** What the phase says was delivered since the run began; the loop is about to sleep only after none. */
  predicate CountIs(p: Phase, n: int) {
    match p
    case Idle => true
    case Polling(h) => h == n
    case Popped(_, h) => h == n
    case Draining(_, h, _) => h == n
    case Holding(_, h, _) => h == n
    case Handling(_, h) => h + 1 == n
    case Parking(_) => n == 0
    case Parked(_) => n == 0
  }

  lemma CountClient(s: State, step: ClientStep, from: nat)
    requires ClientEnabled(s, step) && CountIs(s.phase, Deliveries(s.regs) - from)
    ensures CountIs(ClientApply(s, step).phase, Deliveries(ClientApply(s, step).regs) - from)
  {
    if step.Register? {
      DeliveriesAppend(s.regs, Reg(false, [], [], [], []));
    } else if step.OfferOp? || step.Cancel? {
      DeliveriesUpdate(s.regs, step.r, ClientApply(s, step).regs[step.r]);
    }
    assert ClientApply(s, step).phase == s.phase;
  }

  lemma LoopDeliveries(s: State, step: LoopStep)
    requires LoopEnabled(s, step)
    ensures Deliveries(LoopApply(s, step).regs)
            == Deliveries(s.regs) + (if step.CheckOp? && !s.regs[s.phase.r].canceled then 1 else 0)
  {
    if (step.PollOp? && s.regs[s.phase.r].ops != []) || step.CheckOp? {
      DeliveriesUpdate(s.regs, s.phase.r, LoopApply(s, step).regs[s.phase.r]);
    }
  }

  lemma CountLoop(s: State, step: LoopStep, from: nat)
    requires LoopEnabled(s, step) && step != StartRun && CountIs(s.phase, Deliveries(s.regs) - from)
    ensures CountIs(LoopApply(s, step).phase, Deliveries(LoopApply(s, step).regs) - from)
  {
    LoopDeliveries(s, step);
  }

  predicate OneRun(steps: seq<Step>) {
    forall i :: 0 <= i < |steps| ==> steps[i] != Loop(StartRun)
  }

  lemma {:induction false} CountRun(s: State, steps: seq<Step>, from: nat)
    requires Possible(s, steps) && OneRun(steps) && CountIs(s.phase, Deliveries(s.regs) - from)
    ensures CountIs(Run(s, steps).phase, Deliveries(Run(s, steps).regs) - from)
    decreases |steps|
  {
    if steps != [] {
      assert steps[0] != Loop(StartRun);
      match steps[0] {
        case Client(c) => CountClient(s, c, from);
        case Loop(l) => CountLoop(s, l, from);
      }
      CountRun(Apply(s, steps[0]), steps[1..], from);
    }
  }

  /**
   * In the middle of a run(), whatever was submitted and canceled meanwhile: an empty runnable queue
   * sends the loop to sleep exactly when it may block and has delivered nothing since it began.
   */
  lemma ParksIffNothingHandled(s: State, steps: seq<Step>, canBlock: bool)
    requires s.phase == Idle && Possible(Apply(s, Loop(StartRun)), steps) && OneRun(steps)
    requires var t := Run(Apply(s, Loop(StartRun)), steps); t.phase.Polling? && t.runnable == []
    ensures var t := Run(Apply(s, Loop(StartRun)), steps);
            var u := Apply(t, Loop(PollRunnable(canBlock)));
            && u == t.(phase := u.phase)
            && (u.phase == Parking(false) <==> canBlock && Deliveries(t.regs) == Deliveries(s.regs))
            && (u.phase == Parking(false) || u.phase == Idle)
  {
    CountRun(Apply(s, Loop(StartRun)), steps, Deliveries(s.regs));
  }

  /** A handler asleep has delivered nothing in the run it sleeps in. */
  lemma AsleepHandledNothing(s: State, steps: seq<Step>)
    requires s.phase == Idle && Possible(Apply(s, Loop(StartRun)), steps) && OneRun(steps)
    ensures var t := Run(Apply(s, Loop(StartRun)), steps);
            Asleep(t.phase) ==> Deliveries(t.regs) == Deliveries(s.regs)
  {
    CountRun(Apply(s, Loop(StartRun)), steps, Deliveries(s.regs));
  }

  /**
   * A park returns at once when there is no time to wait or a permit, and otherwise sleeps until
   * unparked; the permit is spent either way, so that the next park with time to wait sleeps again.
   */
  lemma PermitServesOnePark(s: State, late: bool, delay: int)
    requires s.phase == Parking(late)
    ensures var t := Apply(s, Loop(Park(delay)));
            && (t.phase == if delay <= 0 || s.permit then Idle else Parked(late))
            && (delay > 0 ==>
                  var u := if s.permit then t else Apply(t.(permit := true), Loop(Unpark));
                  u.phase == Idle && Apply(u.(phase := Parking(late)), Loop(Park(delay))).phase == Parked(late))
  {}

  // ------------------------------------------------------------------ after cancel

  /** What a canceled registration keeps, and, without a submitter past the validity test, its offers too. */
  ghost predicate Silent(s: State, t: State, r: nat)
    requires r < |s.regs|
  {
    && r < |t.regs| && t.regs[r].canceled && t.regs[r].delivered == s.regs[r].delivered
    && ((forall op :: (r, op) !in s.checked) ==> (forall op :: (r, op) !in t.checked) && t.regs[r].offered == s.regs[r].offered)
  }

  lemma CancelClient(s: State, step: ClientStep, r: nat)
    requires ClientEnabled(s, step) && r < |s.regs| && s.regs[r].canceled
    ensures Silent(s, ClientApply(s, step), r)
  {
    var t := ClientApply(s, step);
    assert t.regs[r].delivered == s.regs[r].delivered;
    if forall op :: (r, op) !in s.checked {
      forall op ensures (r, op) !in t.checked {
        assert (r, op) in t.checked ==> (r, op) in s.checked;
      }
    }
  }

  lemma CancelLoop(s: State, step: LoopStep, r: nat)
    requires LoopEnabled(s, step) && r < |s.regs| && s.regs[r].canceled
    ensures Silent(s, LoopApply(s, step), r)
  {
    assert LoopApply(s, step).checked == s.checked;
  }

  /**
   * Over every run after a registration was canceled nothing more is handed to its handler, and when
   * no submitter was past the validity test nothing more is queued either.
   */
  lemma {:induction false} CanceledStaysSilent(s: State, steps: seq<Step>, r: nat)
    requires Possible(s, steps) && r < |s.regs| && s.regs[r].canceled
    ensures var t := Run(s, steps);
            && r < |t.regs| && t.regs[r].canceled && t.regs[r].delivered == s.regs[r].delivered
            && ((forall op :: (r, op) !in s.checked) ==> t.regs[r].offered == s.regs[r].offered)
    decreases |steps|
  {
    if steps != [] {
      match steps[0] {
        case Client(c) => CancelClient(s, c, r);
        case Loop(l) => CancelLoop(s, l, r);
      }
      CanceledStaysSilent(Apply(s, steps[0]), steps[1..], r);
    }
  }

  /** cancel() does that at once: from then on the handler is given nothing more. */
  lemma {:induction false} CancelSilences(s: State, steps: seq<Step>, r: nat)
    requires r < |s.regs| && Possible(Apply(s, Client(Cancel(r))), steps)
    ensures var t := Run(Apply(s, Client(Cancel(r))), steps);
            r < |t.regs| && t.regs[r].canceled && t.regs[r].delivered == s.regs[r].delivered
  {
    CanceledStaysSilent(Apply(s, Client(Cancel(r))), steps, r);
  }

  // ------------------------------------------------------------------ entries are paid for

  /** A registration is in the runnable queue at most once for each operation offered to it. */
  ghost predicate Paid(s: State, r: nat)
    requires r < |s.regs|
  {
    multiset(s.runnable)[r] + s.offered[r] <= |s.regs[r].offered|
  }

  ghost predicate AllPaid(s: State) {
    InRange(s) && forall r: nat :: r < |s.regs| ==> Paid(s, r)
  }

  lemma {:induction false} PaidClient(s: State, step: ClientStep, r: nat)
    requires AllPaid(s) && ClientEnabled(s, step) && r < |ClientApply(s, step).regs|
    ensures Paid(ClientApply(s, step), r)
  {
    if step.OfferRunnable? {
      assert multiset(s.runnable + [step.r]) == multiset(s.runnable) + multiset{step.r};
    }
    if r < |s.regs| {
      assert Paid(s, r);
    } else {
      assert r !in s.runnable && r !in s.offered;
    }
  }

  lemma {:induction false} PaidLoop(s: State, step: LoopStep, r: nat)
    requires LoopEnabled(s, step) && r < |s.regs| && Paid(s, r)
    ensures Paid(LoopApply(s, step), r)
  {
    if step.PollRunnable? && s.runnable != [] {
      assert s.runnable == [s.runnable[0]] + s.runnable[1..];
      assert multiset(s.runnable) == multiset{s.runnable[0]} + multiset(s.runnable[1..]);
    } else {
      assert LoopApply(s, step).runnable == s.runnable && LoopApply(s, step).offered == s.offered;
    }
  }

  lemma {:induction false} PaidRun(s: State, steps: seq<Step>)
    requires AllPaid(s) && Possible(s, steps)
    ensures AllPaid(Run(s, steps))
    decreases |steps|
  {
    if steps != [] {
      var t := Apply(s, steps[0]);
      match steps[0] {
        case Client(c) => ClientRange(s, c);
        case Loop(l) => LoopRange(s, l);
      }
      forall r: nat | r < |t.regs| ensures Paid(t, r) {
        match steps[0] {
          case Client(c) => PaidClient(s, c, r);
          case Loop(l) =>
            assert Paid(s, r);
            PaidLoop(s, l, r);
        }
      }
      PaidRun(t, steps[1..]);
    }
  }

  /** Over every run: no more entries and submitters on their way than operations were ever offered. */
  lemma EntriesArePaid(steps: seq<Step>, r: nat)
    requires Possible(Init(), steps) && r < |Run(Init(), steps).regs|
    ensures var s := Run(Init(), steps); multiset(s.runnable)[r] + s.offered[r] <= |s.regs[r].offered|
  {
    PaidRun(Init(), steps);
    assert Paid(Run(Init(), steps), r);
  }

  // ------------------------------------------------------------------ a run serves everything

  function Queued(regs: seq<Reg>): nat {
    if regs == [] then 0 else |regs[0].ops| + Queued(regs[1..])
  }

  lemma {:induction false} QueuedUpdate(regs: seq<Reg>, r: nat, g: Reg)
    requires r < |regs|
    ensures Queued(regs[r := g]) == Queued(regs) - |regs[r].ops| + |g.ops|
  {
    if r == 0 {
      assert regs[r := g][1..] == regs[1..];
    } else {
      assert regs[r := g][1..] == regs[1..][r - 1 := g];
      QueuedUpdate(regs[1..], r - 1, g);
    }
  }

  predicate InRun(p: Phase) {
    !p.Idle? && !Asleep(p)
  }

  /** What is left of a run when nobody submits. */
  function Work(s: State): nat {
    4 * Queued(s.regs) + 3 * |s.runnable|
    + (match s.phase
       case Popped(_, _) => 2
       case Draining(_, _, _) => 1
       case Holding(_, _, _) => 3
       case Handling(_, _) => 2
       case _ => 0)
  }

  /** Every step of the loop, whatever the clock, the handler and canBlock say, leaves less to do or ends the run. */
  lemma LoopDescends(s: State, step: LoopStep)
    requires LoopEnabled(s, step) && InRun(s.phase)
    ensures InRun(LoopApply(s, step).phase) ==> Work(LoopApply(s, step)) < Work(s)
  {
    LoopQueued(s, step);
  }

  lemma LoopQueued(s: State, step: LoopStep)
    requires LoopEnabled(s, step)
    ensures Queued(LoopApply(s, step).regs)
            == Queued(s.regs) - (if step.PollOp? && s.regs[s.phase.r].ops != [] then 1 else 0)
  {
    if (step.PollOp? && s.regs[s.phase.r].ops != []) || step.CheckOp? {
      QueuedUpdate(s.regs, s.phase.r, LoopApply(s, step).regs[s.phase.r]);
    }
  }

  /** The step the loop takes next in a run without deadline whose handlers return. */
  function Undisturbed(p: Phase): LoopStep
    requires InRun(p)
  {
    match p
    case Polling(_) => PollRunnable(false)
    case Popped(_, _) => CheckRegistration
    case Draining(_, _, _) => PollOp(GoOn)
    case Holding(_, _, _) => CheckOp(GoOn)
    case Handling(_, _) => FinishHandle(false)
  }

  /** The loop alone neither offers nor cancels. */
  ghost predicate SameOffers(s: State, t: State) {
    && |t.regs| == |s.regs| && t.offered == s.offered
    && forall r: nat :: r < |s.regs| ==> t.regs[r].canceled == s.regs[r].canceled && t.regs[r].offered == s.regs[r].offered
  }

  lemma LoopSameOffers(s: State, step: LoopStep)
    requires LoopEnabled(s, step)
    ensures SameOffers(s, LoopApply(s, step))
  {}

  /** Every registration that is still valid has had all it was ever offered delivered. */
  ghost predicate AllServed(s: State) {
    forall r: nat :: r < |s.regs| && !s.regs[r].canceled ==> s.regs[r].ops == [] && s.regs[r].delivered == s.regs[r].offered
  }

  lemma EmptyMeansServed(s: State)
    requires Inv(s) && s.phase.Polling? && s.runnable == [] && s.offered == multiset{}
    ensures AllServed(s)
  {
    forall r: nat | r < |s.regs| && !s.regs[r].canceled ensures s.regs[r].ops == [] && s.regs[r].delivered == s.regs[r].offered {
      assert Ordered(s, r) && Covered(s, r);
    }
  }

  lemma UndisturbedStays(s: State)
    requires Inv(s) && InRun(s.phase) && !(s.phase.Polling? && s.runnable == [])
    ensures LoopEnabled(s, Undisturbed(s.phase)) && InRun(LoopApply(s, Undisturbed(s.phase)).phase)
  {}

  /**
   * From every reachable state inside a run with no submitter between its offers, also one left behind
   * by throwing handlers and deadlines, the loop alone comes to an empty runnable queue, and then every
   * registration that is still valid has had all it was ever offered delivered.
   */
  lemma {:induction false} RunServesAll(s: State) returns (steps: seq<LoopStep>)
    requires Inv(s) && InRun(s.phase) && s.offered == multiset{}
    ensures Possible(s, Loops(steps)) && |steps| <= Work(s)
    ensures var t := Run(s, Loops(steps)); t.phase.Polling? && t.runnable == [] && SameOffers(s, t) && AllServed(t)
    decreases Work(s)
  {
    if s.phase.Polling? && s.runnable == [] {
      steps := [];
      EmptyMeansServed(s);
    } else {
      var l := Undisturbed(s.phase);
      UndisturbedStays(s);
      LoopDescends(s, l);
      LoopInv(s, l);
      LoopSameOffers(s, l);
      var next := LoopApply(s, l);
      var rest := RunServesAll(next);
      steps := [l] + rest;
      LoopsFirst(s, l, rest);
    }
  }

  lemma LoopsFirst(s: State, l: LoopStep, rest: seq<LoopStep>)
    requires LoopEnabled(s, l) && Possible(LoopApply(s, l), Loops(rest))
    ensures Possible(s, Loops([l] + rest)) && Run(s, Loops([l] + rest)) == Run(LoopApply(s, l), Loops(rest))
  {
    assert Loops([l] + rest)[0] == Loop(l);
    assert Loops([l] + rest)[1..] == Loops(rest);
  }

  function Loops(steps: seq<LoopStep>): seq<Step> {
    seq(|steps|, i requires 0 <= i < |steps| => Loop(steps[i]))
  }

  /** A throwing handler ends the run; the next one delivers what it left, in order. */
  lemma AfterThrow(s: State) returns (steps: seq<LoopStep>)
    requires Inv(s) && s.phase.Handling? && s.offered == multiset{} && !s.regs[s.phase.r].canceled
    ensures Possible(s, Loops(steps)) && |steps| >= 2 && steps[0] == FinishHandle(true) && steps[1] == StartRun
    ensures var r := s.phase.r; var g := Run(s, Loops(steps)).regs;
            r < |g| && g[r].delivered == s.regs[r].delivered + s.regs[r].ops && g[r].ops == []
  {
    var r := s.phase.r;
    var s1 := LoopApply(s, FinishHandle(true));
    var s2 := LoopApply(s1, StartRun);
    LoopInv(s, FinishHandle(true));
    LoopInv(s1, StartRun);
    var rest := RunServesAll(s2);
    LoopsFirst(s1, StartRun, rest);
    LoopsFirst(s, FinishHandle(true), [StartRun] + rest);
    steps := [FinishHandle(true)] + ([StartRun] + rest);
    assert Ordered(s, r) && s2.regs == s.regs;
    PrefixOfFour(s.regs[r].delivered, InHand(s.phase, r), s.regs[r].dropped, s.regs[r].ops);
  }
}
