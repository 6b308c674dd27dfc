/**
 * The two-address request/done channel between a driver thread and the worker pthread that owns one
 * connection (`bchannel_t`), as interleaved atomic steps of the two parties.
 *
 * The futex is the weak one: every address has a bare counter of pending wakeups, a sleeper consumes
 * any pending wakeup, and it does not look at the word again before it returns.  `notify` must hand a
 * wakeup to a sleeper that has none; in every other case the environment chooses whether the counter
 * grows, so stale wakeups are covered too.
 */
module RequestChannel {
  import opened Common

  type Byte = b: int | 0 <= b < 256
  type Text = seq<Byte>

  const SQL_CAPACITY: nat := 4072

  // ------------------------------------------------------------------ row callback

  /** One result row: the integer reading of each column, or None for SQL NULL. */
  type Row = seq<Option<int>>

  /** The `got`/`result` pair that the row callback fills. */
  datatype Capture = Capture(got: bool, result: int)

  predicate Capturable(row: Row) {
    |row| > 0 && row[0].Some?
  }

  function RowCallback(c: Capture, row: Row): Capture {
    if !c.got && Capturable(row) then Capture(true, row[0].value) else c
  }

  /** The capture after the callback has seen the first `n` rows. */
  function CaptureOf(rows: seq<Row>, n: nat): Capture
    requires n <= |rows|
  {
    if n == 0 then Capture(false, 0) else RowCallback(CaptureOf(rows, n - 1), rows[n - 1])
  }

  function ResultOf(rows: seq<Row>): int {
    CaptureOf(rows, |rows|).result
  }

  /** Exactly the first row whose first column is not NULL is captured; with none the result is 0. */
  lemma {:induction false} CaptureIsFirstNonNull(rows: seq<Row>, n: nat)
    requires n <= |rows|
    ensures CaptureOf(rows, n).got <==> exists i :: 0 <= i < n && Capturable(rows[i])
    ensures forall i :: 0 <= i < n && Capturable(rows[i]) && (forall j :: 0 <= j < i ==> !Capturable(rows[j]))
              ==> CaptureOf(rows, n) == Capture(true, rows[i][0].value)
    ensures (forall i :: 0 <= i < n ==> !Capturable(rows[i])) ==> CaptureOf(rows, n) == Capture(false, 0)
  {
    if n == 0 {
    } else {
      CaptureIsFirstNonNull(rows, n - 1);
      if CaptureOf(rows, n - 1).got {
        var i :| 0 <= i < n - 1 && Capturable(rows[i]);
        assert 0 <= i < n;
      } else if Capturable(rows[n - 1]) {
        assert 0 <= n - 1 < n;
      }
    }
  }

  /** The result of a statement is its first non-NULL first column: row i has one, v, and no earlier row has. */
  lemma ResultIsFirstValue(rows: seq<Row>, i: nat, v: int)
    requires i < |rows| && rows[i] != [] && rows[i][0] == Some(v)
    requires forall j :: 0 <= j < i ==> rows[j] == [] || rows[j][0] == None
    ensures ResultOf(rows) == v
  {
    CaptureIsFirstNonNull(rows, |rows|);
    assert Capturable(rows[i]);
  }

  /** With no such row the result is 0. */
  lemma ResultWithoutValue(rows: seq<Row>)
    requires forall j :: 0 <= j < |rows| ==> rows[j] == [] || rows[j][0] == None
    ensures ResultOf(rows) == 0
  {
    CaptureIsFirstNonNull(rows, |rows|);
  }

  // ------------------------------------------------------------------ state

  datatype Driver =
    | Idle
    | Writing(sql: Text, k: nat)                      // copying byte k (k == |sql|: the terminating NUL)
    | ReadPrev(sql: Text)
    | PostReq(sql: Text, prev: int)
    | NotifyReq(sql: Text, prev: int)
    | CheckDone(sql: Text, prev: int)
    | WaitDone(sql: Text, prev: int)                  // about to enter the futex wait
    | AsleepDone(sql: Text, prev: int)
    | ReadRc(sql: Text, prev: int)
    | ReadResult(sql: Text, prev: int, rcRead: int)
    | NotifyStop                                      // pool close: req is 3, wakeup not sent yet
    | Closed

  datatype Worker =
    | Starting                                        // open, PRAGMA, busy_timeout
    | LoadReq
    | WaitReq(seen: int)
    | AsleepReq
    | Consume
    | Clear
    | Reading(text: Text)                             // sqlite3_exec reads the C string byte by byte
    | Executing(text: Text, rc: int, rows: seq<Row>, fed: nat)
    | LoadDone
    | StoreDone(loaded: int)
    | NotifyDone
    | Stopped

  datatype Execution = Execution(text: Text, rc: int, rows: seq<Row>)
  datatype Answer = Answer(sql: Text, rc: int, result: int)

  datatype Chan = Chan(
    req: int, done: int, rc: int, capture: Capture, buf: Text,
    pendingReq: nat, pendingDone: nat,
    driver: Driver, worker: Worker,
    posted: seq<Text>,              // every SQL whose request was posted
    executed: seq<Execution>,       // every completed sqlite3_exec
    answers: seq<Answer>)           // every value returned by submitOnce

  /** `start_worker_file_2addr` on a zero-filled channel. */
  predicate Init(s: Chan) {
    && s.req == 0 && s.done == 0 && |s.buf| == SQL_CAPACITY
    && s.pendingReq == 0 && s.pendingDone == 0
    && s.driver == Idle && s.worker == Starting
    && s.posted == [] && s.executed == [] && s.answers == []
  }

  /** The text C code sees: everything before the first NUL byte. */
  function CString(b: Text): Text {
    if b == [] || b[0] == 0 then [] else [b[0]] + CString(b[1..])
  }

  // ------------------------------------------------------------------ steps

  /** What `notify(addr, 1)` adds to the pending counter of an address. */
  function Wakeups(sleeperPresent: bool, pending: nat, extra: bool): nat {
    if (sleeperPresent && pending == 0) || extra then 1 else 0
  }

  datatype Action =
    | Submit(sql: Text)               // submitOnce is called
    | DriverStep(extra: bool)
    | WorkerStep(extra: bool)
    | Engine(rc: int, rows: seq<Row>) // sqlite3_exec has the whole text and decides its outcome
    | Stop                            // pool close, with no request in flight

  predicate Enabled(s: Chan, a: Action) {
    match a
    case Submit(sql) => s.driver.Idle? && |sql| < SQL_CAPACITY
    case Stop => s.driver.Idle?
    case DriverStep(_) =>
      (match s.driver
       case Idle => false
       case Closed => false
       case Writing(sql, k) => k <= |sql| < |s.buf|
       case AsleepDone(_, _) => s.pendingDone > 0
       case _ => true)
    case WorkerStep(_) =>
      (match s.worker
       case Stopped => false
       case AsleepReq => s.pendingReq > 0
       case Reading(text) => |text| < |s.buf| && s.buf[|text|] != 0
       case _ => true)
    case Engine(_, _) => s.worker.Reading? && |s.worker.text| < |s.buf| && s.buf[|s.worker.text|] == 0
  }

  function ApplyDriver(s: Chan, extra: bool): Chan
    requires Enabled(s, DriverStep(extra))
  {
    match s.driver
    case Writing(sql, k) =>
      if k < |sql| then s.(buf := s.buf[k := sql[k]], driver := Writing(sql, k + 1))
      else s.(buf := s.buf[k := 0], driver := ReadPrev(sql))
    case ReadPrev(sql) => s.(driver := PostReq(sql, s.done))
    case PostReq(sql, prev) => s.(req := 1, driver := NotifyReq(sql, prev), posted := s.posted + [sql])
    case NotifyReq(sql, prev) =>
      s.(pendingReq := s.pendingReq + Wakeups(s.worker.AsleepReq?, s.pendingReq, extra), driver := CheckDone(sql, prev))
    case CheckDone(sql, prev) => s.(driver := if s.done == prev then WaitDone(sql, prev) else ReadRc(sql, prev))
    case WaitDone(sql, prev) => s.(driver := if s.done == prev then AsleepDone(sql, prev) else CheckDone(sql, prev))
    case AsleepDone(sql, prev) => s.(pendingDone := s.pendingDone - 1, driver := CheckDone(sql, prev))
    case ReadRc(sql, prev) => s.(driver := ReadResult(sql, prev, s.rc))
    case ReadResult(sql, prev, rcRead) =>
      s.(driver := Idle, answers := s.answers + [Answer(sql, rcRead, s.capture.result)])
    case NotifyStop =>
      s.(pendingReq := s.pendingReq + Wakeups(s.worker.AsleepReq?, s.pendingReq, extra), driver := Closed)
  }

  function ApplyWorker(s: Chan, extra: bool): Chan
    requires Enabled(s, WorkerStep(extra))
  {
    match s.worker
    case Starting => s.(worker := LoadReq)
    case LoadReq =>
      s.(worker := if s.req == 1 then Consume else if s.req == 3 then Stopped else WaitReq(s.req))
    case WaitReq(seen) => s.(worker := if s.req == seen then AsleepReq else LoadReq)
    case AsleepReq => s.(pendingReq := s.pendingReq - 1, worker := LoadReq)
    case Consume => s.(req := 0, worker := Clear)
    case Clear => s.(capture := Capture(false, 0), worker := Reading([]))
    case Reading(text) => s.(worker := Reading(text + [s.buf[|text|]]))
    case Executing(text, rc, rows, fed) =>
      if fed < |rows| then
        s.(capture := RowCallback(s.capture, rows[fed]), worker := Executing(text, rc, rows, fed + 1))
      else
        s.(rc := rc, worker := LoadDone, executed := s.executed + [Execution(text, rc, rows)])
    case LoadDone => s.(worker := StoreDone(s.done))
    case StoreDone(loaded) => s.(done := (loaded + 1) % TWO32, worker := NotifyDone)
    case NotifyDone =>
      s.(pendingDone := s.pendingDone + Wakeups(s.driver.AsleepDone?, s.pendingDone, extra), worker := LoadReq)
  }

  function Apply(s: Chan, a: Action): Chan
    requires Enabled(s, a)
  {
    match a
    case Submit(sql) => s.(driver := Writing(sql, 0))
    case Stop => s.(req := 3, driver := NotifyStop)
    case DriverStep(extra) => ApplyDriver(s, extra)
    case WorkerStep(extra) => ApplyWorker(s, extra)
    case Engine(rc, rows) => s.(worker := Executing(s.worker.text, rc, rows, 0))
  }

  /** A run: states linked by enabled actions. */
  ghost predicate IsRun(states: seq<Chan>, actions: seq<Action>) {
    && |states| == |actions| + 1
    && forall i :: 0 <= i < |actions| ==> Enabled(states[i], actions[i]) && states[i + 1] == Apply(states[i], actions[i])
  }

  // ------------------------------------------------------------------ invariant

  /** The worker is between requests. */
  predicate Quiet(w: Worker) {
    w.Starting? || w.LoadReq? || w.WaitReq? || w.AsleepReq? || w.NotifyDone?
  }

  /** The request of the current submitOnce has been posted and not answered yet. */
  predicate Outstanding(d: Driver) {
    d.NotifyReq? || d.CheckDone? || d.WaitDone? || d.AsleepDone? || d.ReadRc? || d.ReadResult?
  }

  predicate Loaded(buf: Text, sql: Text) {
    |sql| < |buf| && buf[..|sql|] == sql && buf[|sql|] == 0
  }

  predicate Completed(e: Execution, sql: Text, rc: int, capture: Capture) {
    e.text == CString(sql) && e.rc == rc && capture.result == ResultOf(e.rows)
  }

  ghost predicate HistoryOk(s: Chan) {
    && |s.answers| <= |s.executed| <= |s.posted| <= |s.answers| + 1
    && (forall i :: 0 <= i < |s.executed| ==> s.executed[i].text == CString(s.posted[i]))
    && (forall i :: 0 <= i < |s.answers| ==>
          s.answers[i] == Answer(s.posted[i], s.executed[i].rc, ResultOf(s.executed[i].rows)))
  }

  /** Nothing outstanding: the driver is idle, filling the buffer, or about to post. */
  predicate InvBeforePost(s: Chan)
    requires |s.buf| == SQL_CAPACITY
  {
    && s.req == 0
    && Quiet(s.worker)
    && |s.posted| == |s.executed| == |s.answers|
    && (match s.driver
        case Writing(sql, k) => k <= |sql| < SQL_CAPACITY && s.buf[..k] == sql[..k]
        case ReadPrev(sql) => Loaded(s.buf, sql)
        case PostReq(sql, prev) => Loaded(s.buf, sql) && prev == s.done
        case _ => true)
  }

  /** req == 1: the request waits for the worker, which cannot be asleep without a wakeup. */
  predicate InvPosted(s: Chan)
    requires Outstanding(s.driver)
  {
    && s.done == s.driver.prev
    && (Quiet(s.worker) || s.worker.Consume?)
    && |s.executed| == |s.answers|
    && (s.worker.AsleepReq? && !s.driver.NotifyReq? ==> s.pendingReq > 0)
    && !s.driver.ReadRc? && !s.driver.ReadResult?
  }

  /** The worker has taken the request and has not published completion. */
  predicate InvWorking(s: Chan)
    requires Outstanding(s.driver)
  {
    && s.req == 0
    && s.done == s.driver.prev
    && !s.driver.ReadRc? && !s.driver.ReadResult?
    && (match s.worker
        case Clear => |s.executed| == |s.answers|
        case Reading(text) =>
          |s.executed| == |s.answers| && s.capture == Capture(false, 0) && |text| <= |s.driver.sql|
          && text == s.driver.sql[..|text|] && 0 !in text
        case Executing(text, rc, rows, fed) =>
          |s.executed| == |s.answers| && text == CString(s.driver.sql) && fed <= |rows| && s.capture == CaptureOf(rows, fed)
        case LoadDone => LastCompleted(s)
        case StoreDone(loaded) => LastCompleted(s) && loaded == s.done
        case _ => false)
  }

  predicate LastCompleted(s: Chan)
    requires Outstanding(s.driver)
  {
    |s.executed| == |s.answers| + 1 && Completed(s.executed[|s.answers|], s.driver.sql, s.rc, s.capture)
  }

  /** Completion is published; a sleeping driver has a wakeup or is about to get one. */
  predicate InvPublished(s: Chan)
    requires Outstanding(s.driver)
  {
    && s.req == 0
    && s.done == (s.driver.prev + 1) % TWO32
    && Quiet(s.worker) && !s.worker.Starting?
    && LastCompleted(s)
    && (s.driver.AsleepDone? ==> s.worker.NotifyDone? || s.pendingDone > 0)
    && (s.driver.ReadResult? ==> s.driver.rcRead == s.rc)
  }

  predicate InvClosing(s: Chan) {
    && s.req == 3
    && (Quiet(s.worker) || s.worker.Stopped?)
    && |s.posted| == |s.executed| == |s.answers|
    && (s.worker.AsleepReq? && s.driver.Closed? ==> s.pendingReq > 0)
  }

  ghost predicate Inv(s: Chan) {
    && |s.buf| == SQL_CAPACITY
    && 0 <= s.done < TWO32
    && (s.worker.WaitReq? ==> s.worker.seen == 0)
    && HistoryOk(s)
    && (if Outstanding(s.driver) then
          && |s.posted| == |s.answers| + 1
          && s.posted[|s.answers|] == s.driver.sql
          && Loaded(s.buf, s.driver.sql)
          && 0 <= s.driver.prev < TWO32
          && (if s.req == 1 then InvPosted(s) else if s.done == s.driver.prev then InvWorking(s) else InvPublished(s))
        else if s.driver.NotifyStop? || s.driver.Closed? then InvClosing(s)
        else InvBeforePost(s))
  }

  lemma InitInv(s: Chan)
    requires Init(s)
    ensures Inv(s)
  {}

  /** The byte-wise reader reassembles exactly the C string of the buffer. */
  lemma {:induction false} CStringOfPrefix(sql: Text, n: nat)
    requires n <= |sql|
    requires 0 !in sql[..n]
    requires n == |sql| || sql[n] == 0
    ensures CString(sql) == sql[..n]
  {
    if n == 0 {
    } else {
      assert sql[0] == sql[..n][0];
      assert sql[1..][..n - 1] == sql[..n][1..];
      CStringOfPrefix(sql[1..], n - 1);
      assert sql[..n] == [sql[0]] + sql[1..][..n - 1];
    }
  }

  lemma DriverStepInvFilling(s: Chan, extra: bool)
    requires Inv(s) && Enabled(s, DriverStep(extra)) && s.driver.Writing?
    ensures Inv(ApplyDriver(s, extra))
  {
    var t := ApplyDriver(s, extra);
    var sql, k := s.driver.sql, s.driver.k;
    if k < |sql| {
      assert t.buf[..k + 1] == s.buf[..k] + [sql[k]];
      assert sql[..k + 1] == sql[..k] + [sql[k]];
    } else {
      assert t.buf[..k] == s.buf[..k] && sql[..k] == sql;
    }
  }

  lemma DriverStepInvQuiet(s: Chan, extra: bool)
    requires Inv(s) && Enabled(s, DriverStep(extra)) && !Outstanding(s.driver) && !s.driver.Writing?
    ensures Inv(ApplyDriver(s, extra))
  {}

  lemma DriverStepInvOutstanding(s: Chan, extra: bool)
    requires Inv(s) && Enabled(s, DriverStep(extra)) && Outstanding(s.driver)
    ensures Inv(ApplyDriver(s, extra))
  {}

  lemma DriverStepInv(s: Chan, extra: bool)
    requires Inv(s) && Enabled(s, DriverStep(extra))
    ensures Inv(ApplyDriver(s, extra))
  {
    if s.driver.Writing? {
      DriverStepInvFilling(s, extra);
    } else if Outstanding(s.driver) {
      DriverStepInvOutstanding(s, extra);
    } else {
      DriverStepInvQuiet(s, extra);
    }
  }

  lemma WorkerStepInvQuiet(s: Chan, extra: bool)
    requires Inv(s) && Enabled(s, WorkerStep(extra)) && !Outstanding(s.driver)
    ensures Inv(ApplyWorker(s, extra))
  {}

  lemma WorkerStepInvPosted(s: Chan, extra: bool)
    requires Inv(s) && Enabled(s, WorkerStep(extra)) && Outstanding(s.driver) && s.req == 1
    ensures Inv(ApplyWorker(s, extra))
  {}

  lemma WorkerStepInvWorking(s: Chan, extra: bool)
    requires Inv(s) && Enabled(s, WorkerStep(extra)) && Outstanding(s.driver) && s.req != 1 && s.done == s.driver.prev
    ensures Inv(ApplyWorker(s, extra))
  {
    var sql := s.driver.sql;
    var t := ApplyWorker(s, extra);
    assert HistoryOk(t) by {
      if s.worker.Executing? && s.worker.fed == |s.worker.rows| {
        assert t.executed == s.executed + [Execution(s.worker.text, s.worker.rc, s.worker.rows)];
      }
    }
    match s.worker {
      case Reading(text) =>
        if |text| < |sql| {
          assert s.buf[|text|] == s.buf[..|sql|][|text|] == sql[|text|];
          assert sql[..|text| + 1] == text + [sql[|text|]];
        }
      case _ =>
    }
  }

  lemma WorkerStepInvPublished(s: Chan, extra: bool)
    requires Inv(s) && Enabled(s, WorkerStep(extra)) && Outstanding(s.driver) && s.req != 1 && s.done != s.driver.prev
    ensures Inv(ApplyWorker(s, extra))
  {}

  lemma WorkerStepInv(s: Chan, extra: bool)
    requires Inv(s) && Enabled(s, WorkerStep(extra))
    ensures Inv(ApplyWorker(s, extra))
  {
    if !Outstanding(s.driver) {
      WorkerStepInvQuiet(s, extra);
    } else if s.req == 1 {
      WorkerStepInvPosted(s, extra);
    } else if s.done == s.driver.prev {
      WorkerStepInvWorking(s, extra);
    } else {
      WorkerStepInvPublished(s, extra);
    }
  }

  lemma EngineInv(s: Chan, rc: int, rows: seq<Row>)
    requires Inv(s) && Enabled(s, Engine(rc, rows))
    ensures Inv(Apply(s, Engine(rc, rows)))
  {
    var sql, text := s.driver.sql, s.worker.text;
    if |text| < |sql| {
      assert s.buf[|text|] == s.buf[..|sql|][|text|] == sql[|text|];
    }
    CStringOfPrefix(sql, |text|);
  }

  /** Every step of either party, and of the engine, keeps the invariant. */
  lemma StepInv(s: Chan, a: Action)
    requires Inv(s) && Enabled(s, a)
    ensures Inv(Apply(s, a))
  {
    match a {
      case DriverStep(extra) => DriverStepInv(s, extra);
      case WorkerStep(extra) => WorkerStepInv(s, extra);
      case Engine(rc, rows) => EngineInv(s, rc, rows);
      case _ =>
    }
  }

  lemma {:induction false} RunInv(states: seq<Chan>, actions: seq<Action>, n: nat)
    requires IsRun(states, actions) && Inv(states[0]) && n < |states|
    ensures Inv(states[n])
  {
    if n > 0 {
      RunInv(states, actions, n - 1);
      StepInv(states[n - 1], actions[n - 1]);
    }
  }

  // ------------------------------------------------------------------ safety over whole runs

  /** The buffer is stable from the first byte the worker reads until completion is published. */
  lemma NoTornRead(s: Chan, a: Action)
    requires Inv(s) && Enabled(s, a)
    ensures s.worker.Reading? || s.worker.Executing? ==> !s.driver.Writing? && Apply(s, a).buf == s.buf
    ensures s.driver.ReadRc? || s.driver.ReadResult? ==> Apply(s, a).rc == s.rc && Apply(s, a).capture == s.capture
  {}

  /**
   * Exactly once, in order, and without mix-up, in every state of every run: the i-th execution ran
   * the C string of the i-th posted SQL, the i-th answer carries that SQL's own code and, if row k is
   * the first whose first column is not NULL, that column v, else 0; and at most the newest request is
   * still unanswered.
   */
  lemma ExactlyOnce(states: seq<Chan>, actions: seq<Action>, n: nat, i: nat, k: nat, v: int)
    requires IsRun(states, actions) && Init(states[0]) && n < |states|
    ensures var s := states[n];
            && |s.answers| <= |s.executed| <= |s.posted| <= |s.answers| + 1
            && (i < |s.executed| ==> s.executed[i].text == CString(s.posted[i]))
            && (i < |s.answers| ==>
                  && s.answers[i].sql == s.posted[i]
                  && s.answers[i].rc == s.executed[i].rc
                  && var rows := s.executed[i].rows;
                  && (k < |rows| && rows[k] != [] && rows[k][0] == Some(v) ==>
                        ((forall j :: 0 <= j < k ==> rows[j] == [] || rows[j][0] == None) ==> s.answers[i].result == v))
                  && ((forall j :: 0 <= j < |rows| ==> rows[j] == [] || rows[j][0] == None) ==> s.answers[i].result == 0))
            && (s.worker.Reading? ==> !s.driver.Writing?)
  {
    InitInv(states[0]);
    RunInv(states, actions, n);
    var s := states[n];
    if i < |s.answers| {
      var rows := s.executed[i].rows;
      if k < |rows| && rows[k] != [] && rows[k][0] == Some(v) && forall j :: 0 <= j < k ==> rows[j] == [] || rows[j][0] == None {
        ResultIsFirstValue(rows, k, v);
      }
      if forall j :: 0 <= j < |rows| ==> rows[j] == [] || rows[j][0] == None {
        ResultWithoutValue(rows);
      }
    }
  }

  // ------------------------------------------------------------------ no lost wakeup, and termination

  /** Some party can always move while a request (or a stop) is unfinished. */
  lemma NoDeadlock(s: Chan)
    requires Inv(s)
    requires !s.driver.Idle? && !(s.driver.Closed? && s.worker.Stopped?)
    ensures Enabled(s, DriverStep(false)) || Enabled(s, WorkerStep(false)) || Enabled(s, Engine(0, []))
  {
    if s.worker.Reading? {
      assert |s.worker.text| <= |s.driver.sql| < |s.buf|;
    }
  }

  /** How far the current submission has come; 0 when there is none. */
  function Stage(s: Chan): nat {
    match s.driver
    case Idle => 0
    case NotifyStop => 0
    case Closed => 0
    case Writing(_, _) => 6
    case ReadPrev(_) => 6
    case PostReq(_, _) => 6
    case _ =>
      if s.req == 1 then 5
      else
        match s.worker
        case Clear => 4
        case Reading(_) => 4
        case Executing(_, _, _, _) => 3
        case LoadDone => 2
        case StoreDone(_) => 2
        case _ => 1
  }

  function DriverRank(s: Chan): int {
    match s.driver
    case Idle => 0
    case Closed => 0
    case Writing(sql, k) => |sql| - k + 4
    case ReadPrev(_) => 3
    case PostReq(_, _) => 2
    case NotifyReq(_, _) => 12
    case NotifyStop => 12
    case CheckDone(_, prev) => if s.done == prev then 3 else 4
    case WaitDone(_, prev) => if s.done == prev then 2 else 5
    case AsleepDone(_, _) => 1
    case ReadRc(_, _) => 3
    case ReadResult(_, _, _) => 2
  }

  function WorkerRank(s: Chan): int {
    match s.worker
    case Stopped => 0
    case Starting => 6
    case NotifyDone => 12
    case LoadReq => 3
    case WaitReq(seen) => if s.req == seen then 2 else 4
    case AsleepReq => 1
    case Consume => 2
    case Clear => SQL_CAPACITY + 5
    case Reading(text) => SQL_CAPACITY + 3 - |text|
    case Executing(_, _, rows, fed) => |rows| - fed + 1
    case LoadDone => 2
    case StoreDone(_) => 1
  }

  function Rank(s: Chan): int {
    DriverRank(s) + WorkerRank(s) + 4 * s.pendingReq + 4 * s.pendingDone
  }

  ghost predicate Below(t: Chan, s: Chan) {
    Stage(t) < Stage(s) || (Stage(t) == Stage(s) && Rank(t) < Rank(s))
  }

  lemma DriverDescends(s: Chan, extra: bool)
    requires Inv(s) && Enabled(s, DriverStep(extra))
    ensures Below(ApplyDriver(s, extra), s)
  {
    if Outstanding(s.driver) && s.req != 1 && s.done != s.driver.prev {
      assert InvPublished(s);
    }
  }

  lemma WorkerDescendsQuiet(s: Chan, extra: bool)
    requires Inv(s) && Enabled(s, WorkerStep(extra)) && (Outstanding(s.driver) ==> s.req == 1)
    ensures Below(ApplyWorker(s, extra), s)
  {}

  lemma WorkerDescendsTaken(s: Chan, extra: bool)
    requires Inv(s) && Enabled(s, WorkerStep(extra)) && Outstanding(s.driver) && s.req != 1
    ensures Below(ApplyWorker(s, extra), s)
  {
    if s.done == s.driver.prev {
      assert InvWorking(s);
    } else {
      assert InvPublished(s);
    }
  }

  lemma WorkerDescends(s: Chan, extra: bool)
    requires Inv(s) && Enabled(s, WorkerStep(extra))
    ensures Below(ApplyWorker(s, extra), s)
  {
    if Outstanding(s.driver) && s.req != 1 {
      WorkerDescendsTaken(s, extra);
    } else {
      WorkerDescendsQuiet(s, extra);
    }
  }

  lemma RankNonnegative(s: Chan)
    requires Inv(s)
    ensures Rank(s) >= 0
  {
    if s.worker.Reading? {
      assert |s.worker.text| <= |s.driver.sql| < |s.buf|;
    }
    assert DriverRank(s) >= 0 && WorkerRank(s) >= 0;
  }

  /** Every step other than a new call lowers (Stage, Rank), whoever takes it. */
  lemma StepDescends(s: Chan, a: Action)
    requires Inv(s) && Enabled(s, a) && !a.Submit? && !a.Stop?
    ensures Rank(s) >= 0 && Below(Apply(s, a), s)
  {
    RankNonnegative(s);
    match a {
      case DriverStep(extra) => DriverDescends(s, extra);
      case WorkerStep(extra) => WorkerDescends(s, extra);
      case Engine(_, _) =>
    }
  }

  /** A step either finishes the submission under way with its own answer, or leaves it under way. */
  lemma SubmissionStep(s: Chan, a: Action)
    requires Inv(s) && Enabled(s, a) && Stage(s) > 0
    ensures !a.Submit? && !a.Stop?
    ensures var t := Apply(s, a);
            || (t.driver.Idle? && |t.answers| == |s.answers| + 1 && t.answers[..|s.answers|] == s.answers
                && t.answers[|s.answers|].sql == s.driver.sql)
            || (Stage(t) > 0 && t.answers == s.answers && t.driver.sql == s.driver.sql)
  {}

  /** An infinite schedule. */
  ghost predicate IsSchedule(st: nat -> Chan, act: nat -> Action) {
    forall k: nat :: Enabled(st(k), act(k)) && st(k + 1) == Apply(st(k), act(k))
  }

  /**
   * No schedule, fair or not, keeps submitOnce from returning: from any reachable state in which a
   * submission is under way there is a later state where it has returned exactly one more answer.
   */
  lemma {:induction false} SubmitReturns(st: nat -> Chan, act: nat -> Action, i: nat) returns (n: nat)
    requires IsSchedule(st, act) && Inv(st(i))
    requires Stage(st(i)) > 0
    ensures n > i && st(n).driver.Idle? && |st(n).answers| == |st(i).answers| + 1
    ensures st(n).answers[..|st(i).answers|] == st(i).answers
    ensures st(n).answers[|st(i).answers|].sql == st(i).driver.sql
    decreases Stage(st(i)), Rank(st(i))
  {
    var s, a := st(i), act(i);
    assert Enabled(s, a) && st(i + 1) == Apply(s, a);
    StepInv(s, a);
    StepDescends(s, a);
    RankNonnegative(st(i + 1));
    SubmissionStep(s, a);
    if st(i + 1).driver.Idle? {
      n := i + 1;
    } else {
      n := SubmitReturns(st, act, i + 1);
    }
  }
}

/**
 * The single-word channel that the two-address one replaced: driver and worker signal both
 * directions through one futex word, under the same wakeup counter.
 */
module SingleWordChannel {
  datatype Driver = Idle | Post | Notify | Load | Wait(seen: int) | Asleep | Answered
  datatype Worker = LoadState | WaitState(seen: int) | AsleepState | Exec | StoreDone | NotifyDone | Stopped

  datatype Word = Word(state: int, pending: nat, driver: Driver, worker: Worker)

  datatype Party = DriverMoves | WorkerMoves

  predicate Enabled(s: Word, p: Party) {
    match p
    case DriverMoves => !s.driver.Answered? && (s.driver.Asleep? ==> s.pending > 0)
    case WorkerMoves => !s.worker.Stopped? && (s.worker.AsleepState? ==> s.pending > 0)
  }

  function Sleepers(s: Word): nat {
    (if s.driver.Asleep? then 1 else 0) + (if s.worker.AsleepState? then 1 else 0)
  }

  function Notified(s: Word): nat {
    if Sleepers(s) > s.pending then s.pending + 1 else s.pending
  }

  function Apply(s: Word, p: Party): Word
    requires Enabled(s, p)
  {
    match p
    case DriverMoves =>
      (match s.driver
       case Idle => s.(driver := Post)
       case Post => s.(state := 1, driver := Notify)
       case Notify => s.(pending := Notified(s), driver := Load)
       case Load => s.(driver := if s.state == 2 then Answered else Wait(s.state))
       case Wait(seen) => s.(driver := if s.state == seen then Asleep else Load)
       case Asleep => s.(pending := s.pending - 1, driver := Load))
    case WorkerMoves =>
      (match s.worker
       case LoadState => s.(worker := if s.state == 1 then Exec else if s.state == 3 then Stopped else WaitState(s.state))
       case WaitState(seen) => s.(worker := if s.state == seen then AsleepState else LoadState)
       case AsleepState => s.(pending := s.pending - 1, worker := LoadState)
       case Exec => s.(worker := StoreDone)
       case StoreDone => s.(state := 2, worker := NotifyDone)
       case NotifyDone => s.(pending := Notified(s), worker := LoadState))
  }

  ghost predicate Reaches(s: Word, ps: seq<Party>, t: Word)
    decreases |ps|
  {
    if ps == [] then s == t else Enabled(s, ps[0]) && Reaches(Apply(s, ps[0]), ps[1..], t)
  }

  lemma Extend(s: Word, p: Party, ps: seq<Party>, t: Word)
    requires Enabled(s, p) && Reaches(Apply(s, p), ps, t)
    ensures Reaches(s, [p] + ps, t)
  {
    assert ([p] + ps)[1..] == ps;
  }

  /**
   * Wakeup theft: from the fresh channel there is a run into a state where the request is posted,
   * both parties sleep on the word and neither can move.
   */
  lemma TheftDeadlocks() returns (ps: seq<Party>, t: Word)
    ensures Reaches(Word(0, 0, Idle, LoadState), ps, t)
    ensures t.state == 1 && t.driver.Asleep? && t.worker.AsleepState?
    ensures !Enabled(t, DriverMoves) && !Enabled(t, WorkerMoves)
  {
    t := Word(1, 0, Asleep, AsleepState);
    var d, w := DriverMoves, WorkerMoves;
    ps := [];
    Extend(Word(1, 0, Wait(1), AsleepState), d, ps, t);            ps := [d] + ps;
    Extend(Word(1, 0, Load, AsleepState), d, ps, t);               ps := [d] + ps;
    Extend(Word(1, 1, Asleep, AsleepState), d, ps, t);             ps := [d] + ps;  // takes the worker's wakeup
    Extend(Word(1, 1, Wait(1), AsleepState), d, ps, t);            ps := [d] + ps;
    Extend(Word(1, 1, Load, AsleepState), d, ps, t);               ps := [d] + ps;
    Extend(Word(1, 0, Notify, AsleepState), d, ps, t);             ps := [d] + ps;
    Extend(Word(0, 0, Post, AsleepState), d, ps, t);               ps := [d] + ps;
    Extend(Word(0, 0, Post, WaitState(0)), w, ps, t);              ps := [w] + ps;
    Extend(Word(0, 0, Post, LoadState), w, ps, t);                 ps := [w] + ps;
    Extend(Word(0, 0, Idle, LoadState), d, ps, t);                 ps := [d] + ps;
  }
}
