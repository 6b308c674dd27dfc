/**
 * The connection pool over the request channels: any number of caller threads, a reader/writer lock,
 * a blocking queue of idle channels and up to 101 attempts per call, interleaved with the workers.
 */
module WalPool {
  import opened Common
  import opened RequestChannel

  const BUSY := 5
  const MAX_ATTEMPTS: nat := 101   // repeat(100) plus the final attempt

  datatype Outcome = TooLong | Replied(rc: int, result: int)

  datatype Thread =
    | Outside
    | Locked(writer: bool, sql: Text)
    | Holding(writer: bool, sql: Text, ch: nat, attempts: nat, base: nat)   // base: answers on ch when taken
    | Returning(writer: bool, sql: Text, ch: nat, attempts: nat, base: nat, outcome: Outcome)
    | Unlocking(writer: bool, outcome: Outcome)

  /** `holder` is an auxiliary record of who took each channel; no step reads it. */
  datatype Pool = Pool(
    chans: seq<Chan>, idle: seq<nat>, threads: map<nat, Thread>, writer: Option<nat>, readers: set<nat>,
    holder: seq<Option<nat>>)

  datatype Action =
    | Begin(t: nat, asWriter: bool, sql: Text)     // exec takes the write lock, queryLong the read lock
    | Take(t: nat)
    | Attempt(t: nat)                              // call submitOnce
    | Drive(t: nat, extra: bool)                   // one step inside submitOnce
    | Finish(t: nat)                               // leave submit
    | Put(t: nat)
    | End(t: nat)
    | Work(c: nat, extra: bool)                    // one step of a worker
    | Exec(c: nat, rc: int, rows: seq<Row>)

  function ThreadOf(p: Pool, t: nat): Thread {
    if t in p.threads then p.threads[t] else Outside
  }

  predicate HasChannel(th: Thread) {
    th.Holding? || th.Returning?
  }

  function LastAnswer(c: Chan): Option<Answer> {
    if c.answers == [] then None else Some(c.answers[|c.answers| - 1])
  }

  /** submit stops at the first answer that is not BUSY, and after the last attempt in any case. */
  predicate Settled(th: Thread, c: Chan)
    requires th.Holding?
  {
    th.attempts > 0 && LastAnswer(c).Some? && (LastAnswer(c).value.rc != BUSY || th.attempts == MAX_ATTEMPTS)
  }

  predicate Enabled(p: Pool, a: Action) {
    match a
    case Begin(t, asWriter, _) =>
      ThreadOf(p, t).Outside? && p.writer.None? && (asWriter ==> p.readers == {})
    case Take(t) => ThreadOf(p, t).Locked? && p.idle != [] && p.idle[0] < |p.chans| == |p.holder|
    case Attempt(t) =>
      var th := ThreadOf(p, t);
      th.Holding? && th.ch < |p.chans| && p.chans[th.ch].driver.Idle? && |th.sql| < SQL_CAPACITY
      && (th.attempts == 0 || (th.attempts < MAX_ATTEMPTS && !Settled(th, p.chans[th.ch])))
    case Drive(t, extra) =>
      var th := ThreadOf(p, t);
      th.Holding? && th.ch < |p.chans| && RequestChannel.Enabled(p.chans[th.ch], DriverStep(extra))
    case Finish(t) =>
      var th := ThreadOf(p, t);
      th.Holding? && th.ch < |p.chans| && p.chans[th.ch].driver.Idle?
      && (|th.sql| >= SQL_CAPACITY || Settled(th, p.chans[th.ch]))
    case Put(t) => ThreadOf(p, t).Returning? && ThreadOf(p, t).ch < |p.holder|
    case End(t) => ThreadOf(p, t).Unlocking?
    case Work(c, extra) => c < |p.chans| && RequestChannel.Enabled(p.chans[c], WorkerStep(extra))
    case Exec(c, rc, rows) => c < |p.chans| && RequestChannel.Enabled(p.chans[c], Engine(rc, rows))
  }

  function Apply(p: Pool, a: Action): Pool
    requires Enabled(p, a)
  {
    match a
    case Begin(t, asWriter, sql) =>
      var q := p.(threads := p.threads[t := Locked(asWriter, sql)]);
      if asWriter then q.(writer := Some(t)) else q.(readers := q.readers + {t})
    case Take(t) =>
      var th := ThreadOf(p, t);
      var c := p.idle[0];
      p.(idle := p.idle[1..], threads := p.threads[t := Holding(th.writer, th.sql, c, 0, |p.chans[c].answers|)],
         holder := p.holder[c := Some(t)])
    case Attempt(t) =>
      var th := ThreadOf(p, t);
      p.(chans := p.chans[th.ch := RequestChannel.Apply(p.chans[th.ch], Submit(th.sql))],
         threads := p.threads[t := Holding(th.writer, th.sql, th.ch, th.attempts + 1, th.base)])
    case Drive(t, extra) =>
      var c := ThreadOf(p, t).ch;
      p.(chans := p.chans[c := RequestChannel.Apply(p.chans[c], DriverStep(extra))])
    case Finish(t) =>
      var th := ThreadOf(p, t);
      var outcome := if |th.sql| >= SQL_CAPACITY then TooLong
                     else Replied(LastAnswer(p.chans[th.ch]).value.rc, LastAnswer(p.chans[th.ch]).value.result);
      p.(threads := p.threads[t := Returning(th.writer, th.sql, th.ch, th.attempts, th.base, outcome)])
    case Put(t) =>
      var th := ThreadOf(p, t);
      p.(idle := p.idle + [th.ch], threads := p.threads[t := Unlocking(th.writer, th.outcome)],
         holder := p.holder[th.ch := None])
    case End(t) =>
      var th := ThreadOf(p, t);
      var q := p.(threads := p.threads[t := Outside]);
      if th.writer then q.(writer := None) else q.(readers := q.readers - {t})
    case Work(c, extra) => p.(chans := p.chans[c := RequestChannel.Apply(p.chans[c], WorkerStep(extra))])
    case Exec(c, rc, rows) => p.(chans := p.chans[c := RequestChannel.Apply(p.chans[c], Engine(rc, rows))])
  }

  /** A freshly opened pool: every channel warmed up and idle, nobody inside. */
  ghost predicate Init(p: Pool) {
    && (forall c :: 0 <= c < |p.chans| ==> Inv(p.chans[c]) && p.chans[c].driver.Idle?)
    && |p.idle| == |p.chans| && (forall i :: 0 <= i < |p.idle| ==> p.idle[i] == i)
    && p.threads == map[] && p.writer == None && p.readers == {}
    && |p.holder| == |p.chans| && (forall c :: 0 <= c < |p.holder| ==> p.holder[c] == None)
  }

  // ------------------------------------------------------------------ invariant

  ghost predicate ChansOk(p: Pool) {
    forall c :: 0 <= c < |p.chans| ==> Inv(p.chans[c]) && !p.chans[c].driver.NotifyStop? && !p.chans[c].driver.Closed?
  }

  /** Every channel is in the idle queue exactly once, or with exactly one thread. */
  ghost predicate Conserved(p: Pool) {
    && |p.holder| == |p.chans|
    && (forall i :: 0 <= i < |p.idle| ==> p.idle[i] < |p.holder| && p.holder[p.idle[i]] == None)
    && (forall i, j :: 0 <= i < j < |p.idle| ==> p.idle[i] != p.idle[j])
    && (forall c :: 0 <= c < |p.holder| && p.holder[c] == None ==> c in p.idle)
    && (forall c :: 0 <= c < |p.holder| && p.holder[c].Some? ==> HoldsChannel(p, p.holder[c].value, c))
    && (forall t :: t in p.threads && HasChannel(p.threads[t]) ==>
          p.threads[t].ch < |p.holder| && p.holder[p.threads[t].ch] == Some(t))
  }

  predicate HoldsChannel(p: Pool, t: nat, c: int) {
    t in p.threads && HasChannel(p.threads[t]) && p.threads[t].ch == c
  }

  ghost predicate LockOk(p: Pool) {
    && (p.writer.Some? ==> p.readers == {})
    && (forall t :: t in p.threads && !p.threads[t].Outside? ==>
          if p.threads[t].writer then p.writer == Some(t) else t in p.readers)
    && (p.writer.Some? ==> !ThreadOf(p, p.writer.value).Outside? && ThreadOf(p, p.writer.value).writer)
    && (forall t: nat :: t in p.readers ==> !ThreadOf(p, t).Outside? && !ThreadOf(p, t).writer)
  }

  /** What the thread's own attempts have left on the channel it holds. */
  ghost predicate ProgressOk(th: Thread, c: Chan)
    requires HasChannel(th)
  {
    && th.attempts <= MAX_ATTEMPTS
    && th.base <= |c.answers|
    && (forall i :: th.base <= i < |c.posted| ==> c.posted[i] == th.sql)
    && (forall i :: th.base <= i < th.base + th.attempts - 1 && i < |c.answers| ==> c.answers[i].rc == BUSY)
    && (|th.sql| >= SQL_CAPACITY ==> th.attempts == 0)
    && (if c.driver.Idle? then |c.answers| == th.base + th.attempts
        else |c.answers| + 1 == th.base + th.attempts && Stage(c) > 0 && c.driver.sql == th.sql)
    && (th.Returning? ==>
          && c.driver.Idle?
          && (if |th.sql| >= SQL_CAPACITY then th.outcome == TooLong
              else th.attempts > 0 && th.outcome.Replied?
                   && c.answers[|c.answers| - 1] == Answer(th.sql, th.outcome.rc, th.outcome.result)
                   && (th.outcome.rc == BUSY ==> th.attempts == MAX_ATTEMPTS)))
  }

  ghost predicate ThreadsOk(p: Pool) {
    && (forall i :: 0 <= i < |p.idle| && p.idle[i] < |p.chans| ==> p.chans[p.idle[i]].driver.Idle?)
    && (forall t :: t in p.threads && HasChannel(p.threads[t]) && p.threads[t].ch < |p.chans| ==>
          ProgressOk(p.threads[t], p.chans[p.threads[t].ch]))
  }

  ghost predicate PoolInv(p: Pool) {
    ChansOk(p) && Conserved(p) && LockOk(p) && ThreadsOk(p)
  }

  lemma {:induction false} InitPoolInv(p: Pool)
    requires Init(p)
    ensures PoolInv(p)
  {
    forall c | 0 <= c < |p.chans| ensures c in p.idle {
      assert p.idle[c] == c;
    }
  }

  // ------------------------------------------------------------------ preservation

  /** Channels are neither lost nor duplicated, whatever the channels themselves contain. */
  lemma {:induction false} ConservedStep(p: Pool, a: Action)
    requires Conserved(p) && Enabled(p, a)
    ensures Conserved(Apply(p, a))
  {
    var q := Apply(p, a);
    match a {
      case Take(t) => ConservedTake(p, t);
      case Put(t) => ConservedPut(p, t);
      case _ => ConservedSame(p, q);
    }
  }

  lemma {:induction false} ConservedSame(p: Pool, q: Pool)
    requires Conserved(p) && |q.chans| == |p.chans| && q.idle == p.idle && q.holder == p.holder
    requires forall t :: t in p.threads ==> t in q.threads
    requires forall t :: t in q.threads && HasChannel(q.threads[t]) ==>
               t in p.threads && HasChannel(p.threads[t]) && p.threads[t].ch == q.threads[t].ch
    requires forall t :: t in p.threads && HasChannel(p.threads[t]) ==> HasChannel(q.threads[t])
    ensures Conserved(q)
  {
    forall c | 0 <= c < |q.holder| && q.holder[c].Some? ensures HoldsChannel(q, q.holder[c].value, c) {
      assert HoldsChannel(p, p.holder[c].value, c);
    }
  }

  lemma {:induction false} ConservedTake(p: Pool, t: nat)
    requires Conserved(p) && Enabled(p, Take(t))
    ensures Conserved(Apply(p, Take(t)))
  {
    var q := Apply(p, Take(t));
    TakeIdle(p, t);
    forall c | 0 <= c < |q.holder| && q.holder[c].Some? ensures HoldsChannel(q, q.holder[c].value, c) {
      if c != p.idle[0] {
        assert HoldsChannel(p, p.holder[c].value, c);
      }
    }
  }

  lemma {:induction false} TakeIdle(p: Pool, t: nat)
    requires Conserved(p) && Enabled(p, Take(t))
    ensures var q := Apply(p, Take(t));
            && (forall i :: 0 <= i < |q.idle| ==> q.idle[i] < |q.holder| && q.holder[q.idle[i]] == None)
            && (forall i, j :: 0 <= i < j < |q.idle| ==> q.idle[i] != q.idle[j])
            && (forall c :: 0 <= c < |q.holder| && q.holder[c] == None ==> c in q.idle)
  {
    var q := Apply(p, Take(t));
    assert p.idle == [p.idle[0]] + q.idle;
    assert forall i :: 0 <= i < |q.idle| ==> q.idle[i] == p.idle[i + 1];
  }

  lemma {:induction false} ConservedPut(p: Pool, t: nat)
    requires Conserved(p) && Enabled(p, Put(t))
    ensures Conserved(Apply(p, Put(t)))
  {
    var q := Apply(p, Put(t));
    PutIdle(p, t);
    forall c | 0 <= c < |q.holder| && q.holder[c].Some? ensures HoldsChannel(q, q.holder[c].value, c) {
      assert HoldsChannel(p, p.holder[c].value, c);
    }
  }

  lemma {:induction false} PutIdle(p: Pool, t: nat)
    requires Conserved(p) && Enabled(p, Put(t))
    ensures var q := Apply(p, Put(t));
            && (forall i :: 0 <= i < |q.idle| ==> q.idle[i] < |q.holder| && q.holder[q.idle[i]] == None)
            && (forall i, j :: 0 <= i < j < |q.idle| ==> q.idle[i] != q.idle[j])
            && (forall c :: 0 <= c < |q.holder| && q.holder[c] == None ==> c in q.idle)
  {
    var q := Apply(p, Put(t));
    var ch := p.threads[t].ch;
    assert p.holder[ch] == Some(t);
    assert q.idle == p.idle + [ch] && forall i :: 0 <= i < |p.idle| ==> q.idle[i] == p.idle[i] != ch;
    forall c | 0 <= c < |q.holder| && q.holder[c] == None ensures c in q.idle {
      assert c == ch || c in p.idle;
      assert q.idle[|q.idle| - 1] == ch;
    }
  }

  lemma {:induction false} LockStep(p: Pool, a: Action)
    requires LockOk(p) && Enabled(p, a)
    ensures LockOk(Apply(p, a))
  {}

  /** Steps of a channel seen from the pool: what they leave of the history. */
  lemma {:induction false} ChannelStep(c: Chan, a: RequestChannel.Action)
    requires Inv(c) && RequestChannel.Enabled(c, a) && (a.WorkerStep? || a.Engine? || a.DriverStep?)
    requires !c.driver.NotifyStop? && !c.driver.Closed?
    ensures var d := RequestChannel.Apply(c, a);
            && Inv(d) && !d.driver.NotifyStop? && !d.driver.Closed?
            && (!a.DriverStep? ==> d.driver == c.driver && d.answers == c.answers && d.posted == c.posted)
            && (a.DriverStep? ==>
                  && Stage(c) > 0
                  && |d.answers| >= |c.answers| && |d.posted| >= |c.posted|
                  && (forall i :: 0 <= i < |c.posted| ==> d.posted[i] == c.posted[i])
                  && (forall i :: |c.posted| <= i < |d.posted| ==> d.posted[i] == c.driver.sql)
                  && (if d.driver.Idle? then |d.answers| == |c.answers| + 1
                      else Stage(d) > 0 && d.driver.sql == c.driver.sql && d.answers == c.answers))
  {
    StepInv(c, a);
    if a.DriverStep? {
      SubmissionStep(c, a);
    }
  }

  /** Changing one channel leaves the others' invariants alone. */
  lemma {:induction false} ChansUpdate(p: Pool, c: nat, d: Chan)
    requires ChansOk(p) && c < |p.chans| && Inv(d) && !d.driver.NotifyStop? && !d.driver.Closed?
    ensures ChansOk(p.(chans := p.chans[c := d]))
  {}

  lemma {:induction false} ChansStep(p: Pool, a: Action)
    requires ChansOk(p) && Enabled(p, a)
    ensures ChansOk(Apply(p, a))
  {
    match a {
      case Attempt(t) =>
        var th := ThreadOf(p, t);
        StepInv(p.chans[th.ch], Submit(th.sql));
        ChansUpdate(p, th.ch, RequestChannel.Apply(p.chans[th.ch], Submit(th.sql)));
      case Drive(t, extra) =>
        var c := ThreadOf(p, t).ch;
        ChannelStep(p.chans[c], DriverStep(extra));
        ChansUpdate(p, c, RequestChannel.Apply(p.chans[c], DriverStep(extra)));
      case Work(c, extra) =>
        ChannelStep(p.chans[c], WorkerStep(extra));
        ChansUpdate(p, c, RequestChannel.Apply(p.chans[c], WorkerStep(extra)));
      case Exec(c, rc, rows) =>
        ChannelStep(p.chans[c], Engine(rc, rows));
        ChansUpdate(p, c, RequestChannel.Apply(p.chans[c], Engine(rc, rows)));
      case _ => assert Apply(p, a).chans == p.chans;
    }
  }

  /** If thread t's own record and channel stay right and nobody else's channel changed, all records are right. */
  lemma {:induction false} ThreadsFrame(p: Pool, q: Pool, t: nat, c: nat)
    requires Conserved(p) && Conserved(q) && ThreadsOk(p)
    requires c < |p.chans| == |q.chans|
    requires forall d :: 0 <= d < |p.chans| && d != c ==> q.chans[d] == p.chans[d]
    requires forall u :: u in q.threads && u != t ==> u in p.threads && q.threads[u] == p.threads[u]
    requires q.chans[c] == p.chans[c] || q.holder[c] == Some(t)
    requires t in q.threads && HasChannel(q.threads[t]) ==> q.threads[t].ch == c && ProgressOk(q.threads[t], q.chans[c])
    requires forall i :: 0 <= i < |q.idle| ==> q.idle[i] in p.idle || (q.idle[i] == c && q.chans[c].driver.Idle?)
    ensures ThreadsOk(q)
  {
    forall u | u in q.threads && HasChannel(q.threads[u]) && q.threads[u].ch < |q.chans|
      ensures ProgressOk(q.threads[u], q.chans[q.threads[u].ch])
    {
      if u != t {
        assert ProgressOk(p.threads[u], p.chans[p.threads[u].ch]);
        assert q.holder[q.threads[u].ch] == Some(u);
      }
    }
    forall i | 0 <= i < |q.idle| && q.idle[i] < |q.chans| ensures q.chans[q.idle[i]].driver.Idle? {
      if q.idle[i] in p.idle {
        var j :| 0 <= j < |p.idle| && p.idle[j] == q.idle[i];
        assert p.chans[p.idle[j]].driver.Idle?;
      }
    }
  }

  lemma {:induction false} ThreadsDrive(p: Pool, t: nat, extra: bool)
    requires PoolInv(p) && Enabled(p, Drive(t, extra))
    ensures ThreadsOk(Apply(p, Drive(t, extra)))
  {
    var q := Apply(p, Drive(t, extra));
    var th := p.threads[t];
    ConservedStep(p, Drive(t, extra));
    assert ProgressOk(th, p.chans[th.ch]);
    ProgressDrive(th, p.chans[th.ch], extra);
    ThreadsFrame(p, q, t, th.ch);
  }

  /** A step inside submitOnce: the call's own progress stays right. */
  lemma {:induction false} ProgressDrive(th: Thread, c: Chan, extra: bool)
    requires th.Holding? && ProgressOk(th, c) && Inv(c) && RequestChannel.Enabled(c, DriverStep(extra))
    requires !c.driver.NotifyStop?
    ensures ProgressOk(th, RequestChannel.Apply(c, DriverStep(extra)))
  {
    ChannelStep(c, DriverStep(extra));
  }

  lemma {:induction false} ThreadsAttempt(p: Pool, t: nat)
    requires PoolInv(p) && Enabled(p, Attempt(t))
    ensures ThreadsOk(Apply(p, Attempt(t)))
  {
    var q := Apply(p, Attempt(t));
    var th := p.threads[t];
    ConservedStep(p, Attempt(t));
    assert ProgressOk(th, p.chans[th.ch]);
    assert ProgressOk(q.threads[t], q.chans[th.ch]);
    ThreadsFrame(p, q, t, th.ch);
  }

  lemma {:induction false} ThreadsFinish(p: Pool, t: nat)
    requires PoolInv(p) && Enabled(p, Finish(t))
    ensures ThreadsOk(Apply(p, Finish(t)))
  {
    var q := Apply(p, Finish(t));
    var th := p.threads[t];
    var c := p.chans[th.ch];
    ConservedStep(p, Finish(t));
    assert ProgressOk(th, c);
    assert HistoryOk(c);
    assert ProgressOk(q.threads[t], c);
    ThreadsFrame(p, q, t, th.ch);
  }

  lemma {:induction false} ThreadsTakePut(p: Pool, a: Action)
    requires PoolInv(p) && Enabled(p, a) && (a.Take? || a.Put?)
    ensures ThreadsOk(Apply(p, a))
  {
    var q := Apply(p, a);
    ConservedStep(p, a);
    if a.Take? {
      var c := p.idle[0];
      assert p.chans[c].driver.Idle?;
      assert HistoryOk(p.chans[c]);
      assert ProgressOk(q.threads[a.t], q.chans[c]);
      ThreadsFrame(p, q, a.t, c);
    } else {
      var c := p.threads[a.t].ch;
      assert ProgressOk(p.threads[a.t], p.chans[c]);
      ThreadsFrame(p, q, a.t, c);
    }
  }

  lemma {:induction false} ProgressSame(th: Thread, c: Chan, d: Chan)
    requires HasChannel(th) && ProgressOk(th, c)
    requires d.driver == c.driver && d.answers == c.answers && d.posted == c.posted
    requires c.driver.Idle? || Stage(d) > 0
    ensures ProgressOk(th, d)
  {}

  lemma {:induction false} ThreadsWork(p: Pool, a: Action)
    requires ChansOk(p) && ThreadsOk(p) && Enabled(p, a) && (a.Work? || a.Exec?)
    ensures ThreadsOk(Apply(p, a))
  {
    var c, d := p.chans[a.c], Apply(p, a).chans[a.c];
    ChannelStep(c, if a.Work? then WorkerStep(a.extra) else Engine(a.rc, a.rows));
    var q := Apply(p, a);
    forall t | t in q.threads && HasChannel(q.threads[t]) && q.threads[t].ch < |q.chans|
      ensures ProgressOk(q.threads[t], q.chans[q.threads[t].ch])
    {
      if p.threads[t].ch == a.c {
        ProgressSame(p.threads[t], c, d);
      }
    }
  }

  lemma {:induction false} ThreadsEdge(p: Pool, a: Action)
    requires ThreadsOk(p) && Enabled(p, a) && (a.Begin? || a.End?)
    ensures ThreadsOk(Apply(p, a))
  {}

  lemma {:induction false} ThreadsStep(p: Pool, a: Action)
    requires PoolInv(p) && Enabled(p, a)
    ensures ThreadsOk(Apply(p, a))
  {
    match a {
      case Begin(_, _, _) => ThreadsEdge(p, a);
      case End(_) => ThreadsEdge(p, a);
      case Take(_) => ThreadsTakePut(p, a);
      case Put(_) => ThreadsTakePut(p, a);
      case Attempt(t) => ThreadsAttempt(p, t);
      case Drive(t, extra) => ThreadsDrive(p, t, extra);
      case Finish(t) => ThreadsFinish(p, t);
      case Work(_, _) => ThreadsWork(p, a);
      case Exec(_, _, _) => ThreadsWork(p, a);
    }
  }

  /** Every step of every thread and worker keeps the pool invariant. */
  lemma {:induction false} PoolStepInv(p: Pool, a: Action)
    requires PoolInv(p) && Enabled(p, a)
    ensures PoolInv(Apply(p, a))
  {
    ConservedStep(p, a);
    LockStep(p, a);
    ChansStep(p, a);
    ThreadsStep(p, a);
  }

  // ------------------------------------------------------------------ whole runs

  ghost predicate IsRun(states: seq<Pool>, actions: seq<Action>) {
    && |states| == |actions| + 1
    && forall i :: 0 <= i < |actions| ==> Enabled(states[i], actions[i]) && states[i + 1] == Apply(states[i], actions[i])
  }

  lemma {:induction false} RunPoolInv(states: seq<Pool>, actions: seq<Action>, n: nat)
    requires IsRun(states, actions) && Init(states[0]) && n < |states|
    ensures PoolInv(states[n])
  {
    if n == 0 {
      InitPoolInv(states[0]);
    } else {
      RunPoolInv(states, actions, n - 1);
      PoolStepInv(states[n - 1], actions[n - 1]);
    }
  }

  /** While a writer is inside, nobody else holds a channel or a lock. */
  lemma {:induction false} SingleWriter(states: seq<Pool>, actions: seq<Action>, n: nat, t: nat, u: nat)
    requires IsRun(states, actions) && Init(states[0]) && n < |states|
    requires t != u && !ThreadOf(states[n], t).Outside? && ThreadOf(states[n], t).writer
    ensures ThreadOf(states[n], u).Outside?
  {
    RunPoolInv(states, actions, n);
  }

  /** Over every run the write lock is held exactly by the exec inside and the read lock exactly by the queries inside. */
  lemma {:induction false} LockIsInside(states: seq<Pool>, actions: seq<Action>, n: nat, t: nat)
    requires IsRun(states, actions) && Init(states[0]) && n < |states|
    ensures states[n].writer == Some(t) <==> !ThreadOf(states[n], t).Outside? && ThreadOf(states[n], t).writer
    ensures t in states[n].readers <==> !ThreadOf(states[n], t).Outside? && !ThreadOf(states[n], t).writer
  {
    RunPoolInv(states, actions, n);
  }

  /** When every call has returned, any call can begin. */
  lemma {:induction false} EmptyPoolAdmits(states: seq<Pool>, actions: seq<Action>, n: nat, t: nat, asWriter: bool, sql: Text)
    requires IsRun(states, actions) && Init(states[0]) && n < |states|
    requires forall u: nat :: ThreadOf(states[n], u).Outside?
    ensures Enabled(states[n], Begin(t, asWriter, sql))
  {
    RunPoolInv(states, actions, n);
  }

  /** Before it gives back the lock, a thread was there already or was returning its channel with the same outcome. */
  predicate SameReply(before: Thread, now: Thread) {
    now.Unlocking? ==>
      before == now || (before.Returning? && before.outcome == now.outcome && before.writer == now.writer)
  }

  lemma {:induction false} UnlockingStep(states: seq<Pool>, actions: seq<Action>, n: nat, t: nat)
    requires IsRun(states, actions) && n < |actions|
    ensures SameReply(ThreadOf(states[n], t), ThreadOf(states[n + 1], t))
  {
    assert states[n + 1] == Apply(states[n], actions[n]);
  }

  /** What the caller is given is the reply submit left with. */
  lemma {:induction false} AnswerIsReply(states: seq<Pool>, actions: seq<Action>, n: nat, t: nat) returns (k: nat)
    requires IsRun(states, actions) && Init(states[0]) && n < |states| && ThreadOf(states[n], t).Unlocking?
    ensures k < n && ThreadOf(states[k], t).Returning?
    ensures ThreadOf(states[k], t).outcome == ThreadOf(states[n], t).outcome && ThreadOf(states[k], t).writer == ThreadOf(states[n], t).writer
    ensures forall j :: k < j <= n ==> ThreadOf(states[j], t) == ThreadOf(states[n], t)
  {
    UnlockingStep(states, actions, n - 1, t);
    if ThreadOf(states[n - 1], t).Unlocking? {
      k := AnswerIsReply(states, actions, n - 1, t);
    } else {
      k := n - 1;
    }
  }

  /**
   * A call that leaves submit got the outcome of its own SQL: the last execution on its channel ran
   * exactly that text and produced exactly that code and value, and a BUSY is reported only after
   * the 101st attempt.
   */
  lemma {:induction false} ReplyIsOwn(states: seq<Pool>, actions: seq<Action>, n: nat, t: nat)
    requires IsRun(states, actions) && Init(states[0]) && n < |states|
    requires ThreadOf(states[n], t).Returning? && ThreadOf(states[n], t).outcome.Replied?
    ensures var th := ThreadOf(states[n], t);
            && th.ch < |states[n].chans|
            && var c := states[n].chans[th.ch];
            && |c.executed| == |c.answers| == |c.posted| == th.base + th.attempts > th.base
            && (forall i :: th.base <= i < |c.executed| ==> c.executed[i].text == CString(th.sql))
            && var e := c.executed[|c.executed| - 1];
            && th.outcome == Replied(e.rc, ResultOf(e.rows))
            && (e.rc == BUSY ==> th.attempts == MAX_ATTEMPTS)
  {
    RunPoolInv(states, actions, n);
    var p := states[n];
    var th := p.threads[t];
    assert th.ch < |p.chans|;
    assert ProgressOk(th, p.chans[th.ch]);
    assert HistoryOk(p.chans[th.ch]) && Inv(p.chans[th.ch]);
  }

  /**
   * Only BUSY is retried, and at most a hundred times: when a call returns a reply, every execution it
   * made but the last answered 5, it made at most 101, and a BUSY reply means it made all of them. So a
   * call whose first execution answers anything else is executed exactly once.
   */
  lemma {:induction false} OnlyBusyIsRetried(states: seq<Pool>, actions: seq<Action>, n: nat, t: nat)
    requires IsRun(states, actions) && Init(states[0]) && n < |states|
    requires ThreadOf(states[n], t).Returning? && ThreadOf(states[n], t).outcome.Replied?
    ensures var th := ThreadOf(states[n], t);
            && th.ch < |states[n].chans|
            && var done := states[n].chans[th.ch].executed;
            && th.base < |done| <= th.base + 101
            && (forall i :: th.base <= i < |done| - 1 ==> done[i].rc == 5)
            && (done[|done| - 1].rc == 5 ==> |done| == th.base + 101)
            && (done[th.base].rc != 5 ==> |done| == th.base + 1)
  {
    ReplyIsOwn(states, actions, n, t);
    var p := states[n];
    RunPoolInv(states, actions, n);
    var th := p.threads[t];
    var c := p.chans[th.ch];
    assert ProgressOk(th, c) && HistoryOk(c) && Inv(c);
    forall i | th.base <= i < |c.executed| - 1 ensures c.executed[i].rc == 5 {
      assert c.answers[i].rc == c.executed[i].rc;
    }
  }

  /** A call comes back without a reply exactly when its SQL has 4072 bytes or more; then nothing was executed for it. */
  lemma {:induction false} TooLongIff(states: seq<Pool>, actions: seq<Action>, n: nat, t: nat)
    requires IsRun(states, actions) && Init(states[0]) && n < |states| && ThreadOf(states[n], t).Returning?
    ensures var th := ThreadOf(states[n], t);
            && th.ch < |states[n].chans|
            && (th.outcome.TooLong? <==> |th.sql| >= 4072)
            && (th.outcome.TooLong? ==> |states[n].chans[th.ch].executed| == th.base)
  {
    RunPoolInv(states, actions, n);
    var p := states[n];
    var th := p.threads[t];
    assert ProgressOk(th, p.chans[th.ch]) && Inv(p.chans[th.ch]);
  }

  /** Distinct numbers below n are at most n. */
  lemma {:induction false} BoundedDistinct(s: seq<nat>, n: nat)
    requires forall i :: 0 <= i < |s| ==> s[i] < n
    requires forall i, j :: 0 <= i < j < |s| ==> s[i] != s[j]
    ensures |s| <= n
    decreases n
  {
    if s != [] {
      assert s[0] < n;
      if n - 1 in s {
        var k :| 0 <= k < |s| && s[k] == n - 1;
        BoundedDistinct(s[..k] + s[k + 1..], n - 1);
      } else {
        BoundedDistinct(s, n - 1);
      }
    }
  }

  /** Giving a channel back never finds the bounded queue full, so the `finally` cannot block. */
  lemma {:induction false} PutNeverBlocks(states: seq<Pool>, actions: seq<Action>, n: nat, t: nat)
    requires IsRun(states, actions) && Init(states[0]) && n < |states|
    requires ThreadOf(states[n], t).Returning?
    ensures |states[n].idle| < |states[n].chans|
  {
    RunPoolInv(states, actions, n);
    var p := states[n];
    assert p.holder[p.threads[t].ch] == Some(t);
    BoundedDistinct(p.idle + [p.threads[t].ch], |p.chans|);
  }

  // ------------------------------------------------------------------ progress of the pool

  /** A thread that holds a channel, or its worker, can move. */
  lemma {:induction false} HolderMoves(p: Pool, t: nat) returns (a: Action)
    requires PoolInv(p) && t in p.threads && HasChannel(p.threads[t])
    ensures Enabled(p, a) && !a.Begin?
  {
    var th := p.threads[t];
    var c := p.chans[th.ch];
    assert ProgressOk(th, c) && Inv(c);
    if th.Returning? {
      a := Put(t);
    } else if !c.driver.Idle? {
      NoDeadlock(c);
      if RequestChannel.Enabled(c, DriverStep(false)) {
        a := Drive(t, false);
      } else if RequestChannel.Enabled(c, WorkerStep(false)) {
        a := Work(th.ch, false);
      } else {
        a := Exec(th.ch, 0, []);
      }
    } else if |th.sql| >= SQL_CAPACITY || Settled(th, c) {
      a := Finish(t);
    } else {
      a := Attempt(t);
    }
  }

  lemma {:induction false} SomebodyMoves(p: Pool, t: nat) returns (a: Action)
    requires PoolInv(p) && |p.chans| > 0 && !ThreadOf(p, t).Outside?
    ensures Enabled(p, a) && !a.Begin?
  {
    var th := p.threads[t];
    if th.Unlocking? {
      a := End(t);
    } else if HasChannel(th) {
      a := HolderMoves(p, t);
    } else if p.idle != [] {
      a := Take(t);
    } else {
      assert p.holder[0].Some?;
      a := HolderMoves(p, p.holder[0].value);
    }
  }

  /**
   * While any call is inside a pool with at least one channel, somebody inside can move: callers that
   * hold the lock and wait for a channel never wait for each other.
   */
  lemma {:induction false} PoolNeverStuck(states: seq<Pool>, actions: seq<Action>, n: nat, t: nat) returns (a: Action)
    requires IsRun(states, actions) && Init(states[0]) && n < |states|
    requires |states[n].chans| > 0 && !ThreadOf(states[n], t).Outside?
    ensures Enabled(states[n], a) && !a.Begin?
  {
    RunPoolInv(states, actions, n);
    a := SomebodyMoves(states[n], t);
  }
}
