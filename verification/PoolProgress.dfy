/** Every call to the pool comes to an end, whatever the schedule. */
module PoolProgress {
  import opened RequestChannel
  import WalPool

  type Pool = WalPool.Pool
  type Thread = WalPool.Thread
  type Move = WalPool.Action

  // ------------------------------------------------------------------ what is left to do

  /** What a thread has still to do outside its channel: attempts first, then giving back channel and lock. */
  function Weight(th: Thread): nat {
    match th
    case Outside => 0
    case Unlocking(_, _) => 1
    case Returning(_, _, _, _, _, _) => 2
    case Holding(_, _, _, attempts, _) => if attempts <= 101 then 104 - attempts else 3
    case Locked(_, _) => 105
  }

  /** The same for all threads below n. */
  function Weights(p: Pool, n: nat): nat {
    if n == 0 then 0 else Weights(p, n - 1) + Weight(WalPool.ThreadOf(p, n - 1))
  }

  function Stages(cs: seq<Chan>): nat {
    if cs == [] then 0 else Stage(cs[0]) + Stages(cs[1..])
  }

  function Ranks(cs: seq<Chan>): int {
    if cs == [] then 0 else Rank(cs[0]) + Ranks(cs[1..])
  }

  ghost predicate ChansLess(d: seq<Chan>, c: seq<Chan>) {
    Stages(d) < Stages(c) || (Stages(d) == Stages(c) && Ranks(d) < Ranks(c))
  }

  ghost predicate Less(q: Pool, p: Pool, n: nat) {
    Weights(q, n) < Weights(p, n) || (Weights(q, n) == Weights(p, n) && ChansLess(q.chans, p.chans))
  }

  lemma {:induction false} WeightsMove(p: Pool, q: Pool, t: nat, n: nat)
    requires forall u: nat :: u != t ==> WalPool.ThreadOf(q, u) == WalPool.ThreadOf(p, u)
    ensures Weights(q, n)
            == Weights(p, n) + (if t < n then Weight(WalPool.ThreadOf(q, t)) - Weight(WalPool.ThreadOf(p, t)) else 0)
  {
    if n > 0 {
      WeightsMove(p, q, t, n - 1);
    }
  }

  lemma {:induction false} WeightsSame(p: Pool, q: Pool, n: nat)
    requires q.threads == p.threads
    ensures Weights(q, n) == Weights(p, n)
  {
    if n > 0 {
      WeightsSame(p, q, n - 1);
    }
  }

  lemma {:induction false} SumsMove(cs: seq<Chan>, c: nat, d: Chan)
    requires c < |cs|
    ensures Stages(cs[c := d]) == Stages(cs) - Stage(cs[c]) + Stage(d)
    ensures Ranks(cs[c := d]) == Ranks(cs) - Rank(cs[c]) + Rank(d)
  {
    if c == 0 {
      assert cs[c := d][1..] == cs[1..];
    } else {
      assert cs[c := d][1..] == cs[1..][c - 1 := d];
      SumsMove(cs[1..], c - 1, d);
    }
  }

  lemma {:induction false} RanksNonnegative(cs: seq<Chan>)
    requires forall c :: 0 <= c < |cs| ==> Inv(cs[c])
    ensures Ranks(cs) >= 0
  {
    if cs != [] {
      RankNonnegative(cs[0]);
      RanksNonnegative(cs[1..]);
    }
  }

  // ------------------------------------------------------------------ every step leaves less

  /** A step of a channel's driver, worker or engine. */
  lemma {:induction false} ChannelLess(cs: seq<Chan>, c: nat, a: Action)
    requires c < |cs| && Inv(cs[c]) && Enabled(cs[c], a) && !a.Submit? && !a.Stop?
    ensures ChansLess(cs[c := Apply(cs[c], a)], cs)
  {
    StepDescends(cs[c], a);
    SumsMove(cs, c, Apply(cs[c], a));
  }

  predicate InChannel(a: Move) {
    a.Drive? || a.Work? || a.Exec?
  }

  lemma {:induction false} InsideLess(p: Pool, a: Move)
    requires WalPool.ChansOk(p) && WalPool.Enabled(p, a) && InChannel(a)
    ensures WalPool.Apply(p, a).threads == p.threads && ChansLess(WalPool.Apply(p, a).chans, p.chans)
  {
    match a
    case Drive(t, extra) => ChannelLess(p.chans, WalPool.ThreadOf(p, t).ch, DriverStep(extra));
    case Work(c, extra) => ChannelLess(p.chans, c, WorkerStep(extra));
    case Exec(c, rc, rows) => ChannelLess(p.chans, c, Engine(rc, rows));
  }

  lemma {:induction false} ThreadLess(p: Pool, a: Move)
    requires WalPool.Enabled(p, a) && !InChannel(a) && !a.Begin?
    ensures var q := WalPool.Apply(p, a);
            && a.t in p.threads && q.threads.Keys == p.threads.Keys
            && (forall u: nat :: u != a.t ==> WalPool.ThreadOf(q, u) == WalPool.ThreadOf(p, u))
            && Weight(WalPool.ThreadOf(q, a.t)) < Weight(WalPool.ThreadOf(p, a.t))
  {}

  /** Every step but the start of a new call leaves less to do, whoever takes it. */
  lemma {:induction false} PoolDescends(p: Pool, a: Move, n: nat)
    requires WalPool.PoolInv(p) && WalPool.Enabled(p, a) && !a.Begin?
    requires forall t :: t in p.threads ==> t < n
    ensures Less(WalPool.Apply(p, a), p, n) && WalPool.Apply(p, a).threads.Keys == p.threads.Keys
  {
    var q := WalPool.Apply(p, a);
    if InChannel(a) {
      InsideLess(p, a);
      WeightsSame(p, q, n);
    } else {
      ThreadLess(p, a);
      WeightsMove(p, q, a.t, n);
    }
  }

  // ------------------------------------------------------------------ whole schedules

  ghost predicate IsSchedule(st: nat -> Pool, act: nat -> Move) {
    forall k: nat :: WalPool.Enabled(st(k), act(k)) && st(k + 1) == WalPool.Apply(st(k), act(k))
  }

  lemma {:induction false} UpperBound(s: set<nat>) returns (n: nat)
    ensures forall t :: t in s ==> t < n
    decreases |s|
  {
    if s == {} {
      n := 0;
    } else {
      var t :| t in s;
      var m := UpperBound(s - {t});
      n := if t < m then m else t + 1;
      assert forall u :: u in s ==> u == t || u in s - {t};
    }
  }

  lemma {:induction false} StepDown(p: Pool, a: Move, n: nat) returns (q: Pool)
    requires WalPool.PoolInv(p) && WalPool.Enabled(p, a) && !a.Begin? && forall t :: t in p.threads ==> t < n
    ensures q == WalPool.Apply(p, a) && WalPool.PoolInv(q) && |q.chans| == |p.chans| && q.threads.Keys == p.threads.Keys
    ensures Less(q, p, n) && Ranks(p.chans) >= 0 && Ranks(q.chans) >= 0
  {
    q := WalPool.Apply(p, a);
    WalPool.PoolStepInv(p, a);
    PoolDescends(p, a, n);
    RanksNonnegative(p.chans);
    RanksNonnegative(q.chans);
  }

  /** After i some call begins: the calls inside cannot go on for ever by themselves. */
  lemma {:induction false} NextBegin(st: nat -> Pool, act: nat -> Move, i: nat, n: nat) returns (k: nat)
    requires IsSchedule(st, act) && WalPool.PoolInv(st(i))
    requires forall t :: t in st(i).threads ==> t < n
    ensures k >= i && act(k).Begin? && WalPool.PoolInv(st(k))
    decreases Weights(st(i), n), Stages(st(i).chans), Ranks(st(i).chans)
  {
    assert WalPool.Enabled(st(i), act(i)) && st(i + 1) == WalPool.Apply(st(i), act(i));
    if act(i).Begin? {
      k := i;
    } else {
      var q := StepDown(st(i), act(i), n);
      k := NextBegin(st, act, i + 1, n);
    }
  }

  /**
   * No schedule, fair or not, lets the calls inside a pool run for ever: an infinite one begins new
   * calls again and again.
   */
  lemma {:induction false} CallsEnd(st: nat -> Pool, act: nat -> Move, i: nat) returns (k: nat)
    requires IsSchedule(st, act) && WalPool.PoolInv(st(i))
    ensures k >= i && act(k).Begin?
  {
    var n := UpperBound(st(i).threads.Keys);
    k := NextBegin(st, act, i, n);
  }

  predicate NoBegin(actions: seq<Move>) {
    forall i :: 0 <= i < |actions| ==> !actions[i].Begin?
  }

  lemma {:induction false} RunFrom(p: Pool, a: Move, ss: seq<Pool>, aa: seq<Move>) returns (states: seq<Pool>, actions: seq<Move>)
    requires WalPool.IsRun(ss, aa) && WalPool.Enabled(p, a) && ss[0] == WalPool.Apply(p, a) && !a.Begin? && NoBegin(aa)
    ensures WalPool.IsRun(states, actions) && states[0] == p && |states| > 0 && states[|states| - 1] == ss[|ss| - 1]
    ensures NoBegin(actions)
  {
    states, actions := [p] + ss, [a] + aa;
  }

  predicate Inside(p: Pool, t: nat) {
    !WalPool.ThreadOf(p, t).Outside?
  }

  /** Every call has returned. */
  ghost predicate Empty(p: Pool) {
    forall t: nat :: !Inside(p, t)
  }

  /** From any reachable pool with a channel, the calls inside can all return, without a new one. */
  lemma {:induction false} AllReturn(p: Pool, n: nat) returns (states: seq<Pool>, actions: seq<Move>)
    requires WalPool.PoolInv(p) && |p.chans| > 0 && forall t :: t in p.threads ==> t < n
    ensures WalPool.IsRun(states, actions) && states[0] == p && NoBegin(actions)
    ensures Empty(states[|states| - 1])
    decreases Weights(p, n), Stages(p.chans), Ranks(p.chans)
  {
    if Empty(p) {
      states, actions := [p], [];
    } else {
      var t: nat :| Inside(p, t);
      var a := WalPool.SomebodyMoves(p, t);
      var q := StepDown(p, a, n);
      var ss, aa := AllReturn(q, n);
      states, actions := RunFrom(p, a, ss, aa);
    }
  }
}
