/**
 * One connection's session: the statement cache, the registry of user statements and the paths that
 * bind, step, reset and finalize engine statements.  The engine is abstract: an oracle answers
 * prepare, bind and step, and a handle is any non-zero number that is not live.
 */
module Session {
  import opened Common
  import opened StatementCache

  const BUSY := 5
  const PROTOCOL := 15
  const RETRIES: nat := 200

  datatype Value = Null | Integer(n: int) | Text(s: string) | Unbindable

  /** Bound values by 1-based position; an absent position is NULL. */
  type Bindings = map<nat, Value>

  datatype StepResult = Row(columns: seq<Value>) | Done | Fail(rc: int)
  datatype PrepareResult = Compiled | Empty | Rejected(rc: int)

  /** The answer of prepareUser: the handle and its parameter count, or the exception it throws. */
  datatype Prepared = Prepared(handle: int, params: nat) | Native(code: int) | NoStatement

  /** The engine's answers. Steps depend on the statement's own state and on the database's clock. */
  datatype Oracle = Oracle(
    prepare: (Sql, nat) -> PrepareResult,
    bind: (Sql, nat, Value) -> int,
    step: (Sql, Bindings, nat, nat) -> StepResult,
    rowBound: (Sql, Bindings) -> nat,
    extendedCode: (Sql, nat) -> int,
    paramCount: Sql -> nat,
    alloc: set<int> -> int)

  ghost predicate OracleOk(o: Oracle) {
    && (forall live: set<int> :: o.alloc(live) !in live && o.alloc(live) != 0)
    && (forall sql: Sql, b: Bindings, c: nat, t: nat :: c >= o.rowBound(sql, b) ==> !o.step(sql, b, c, t).Row?)
  }

  datatype Stmt = Stmt(sql: Sql, bindings: Bindings, cursor: nat)

  /** Just prepared, or reset with its bindings cleared. */
  predicate Pristine(s: Stmt, sql: Sql) {
    s == Stmt(sql, map[], 0)
  }

  // ------------------------------------------------------------------ what a fresh statement would do

  function Put(b: Bindings, i: nat, v: Value): Bindings {
    if v == Null then b - {i} else b[i := v]
  }

  /** Binding the first n parameters onto b: whether all succeeded, and the bindings reached. */
  function BindFirst(o: Oracle, sql: Sql, b: Bindings, params: seq<Value>, n: nat): (bool, Bindings)
    requires n <= |params|
  {
    if n == 0 then (true, b)
    else
      var (ok, prev) := BindFirst(o, sql, b, params, n - 1);
      if !ok || params[n - 1].Unbindable? || o.bind(sql, n, params[n - 1]) != 0 then (false, prev)
      else (true, Put(prev, n, params[n - 1]))
  }

  datatype Outcome =
    | Threw                                   // bind failure, prepare failure in queryRows, unknown user statement
    | Reply(rc: int, first: seq<Value>)       // scalar: code and first row
    | Rows(rows: seq<seq<Value>>)
    | Exhausted                               // BUSY/PROTOCOL on every attempt

  function ReplyOf(r: StepResult): Outcome {
    match r
    case Row(columns) => Reply(0, columns)
    case Done => Reply(0, [])
    case Fail(rc) => Reply(rc, [])
  }

  /** One bind and one step of a statement in state b at clock t. */
  function ScalarOnce(o: Oracle, t: nat, sql: Sql, b: Bindings, params: seq<Value>): Outcome {
    var (ok, bound) := BindFirst(o, sql, b, params, |params|);
    if !ok then Threw else ReplyOf(o.step(sql, bound, 0, t))
  }

  datatype Collected = Collected(end: StepResult, rows: seq<seq<Value>>, clock: nat)

  /** Step to the end from a cursor, collecting rows. */
  function Collect(o: Oracle, sql: Sql, b: Bindings, cursor: nat, t: nat): (c: Collected)
    requires OracleOk(o)
    ensures !c.end.Row? && c.clock > t
    decreases if cursor < o.rowBound(sql, b) then o.rowBound(sql, b) - cursor else 0
  {
    var r := o.step(sql, b, cursor, t);
    if r.Row? then
      var more := Collect(o, sql, b, cursor + 1, t + 1);
      Collected(more.end, [r.columns] + more.rows, more.clock)
    else Collected(r, [], t + 1)
  }

  /** Having collected `rows` so far, the rest from this cursor and moment completes `goal`. */
  ghost predicate Remaining(o: Oracle, sql: Sql, b: Bindings, cursor: nat, t: nat, rows: seq<seq<Value>>, goal: Collected)
    requires OracleOk(o)
  {
    var c := Collect(o, sql, b, cursor, t);
    goal == Collected(c.end, rows + c.rows, c.clock)
  }

  lemma RemainingStep(o: Oracle, sql: Sql, b: Bindings, cursor: nat, t: nat, rows: seq<seq<Value>>, goal: Collected)
    requires OracleOk(o) && Remaining(o, sql, b, cursor, t, rows, goal)
    ensures var r := o.step(sql, b, cursor, t);
            if r.Row? then Remaining(o, sql, b, cursor + 1, t + 1, rows + [r.columns], goal) && cursor < o.rowBound(sql, b)
            else goal == Collected(r, rows, t + 1)
  {
    var r := o.step(sql, b, cursor, t);
    if r.Row? {
      var more := Collect(o, sql, b, cursor + 1, t + 1);
      assert rows + ([r.columns] + more.rows) == rows + [r.columns] + more.rows;
    } else {
      assert rows + [] == rows;
    }
  }

  predicate Transient(rc: int) {
    rc == BUSY || rc == PROTOCOL
  }

  /** Up to n attempts of bind-and-collect, each on a pristine statement. */
  function FreshRows(o: Oracle, t: nat, sql: Sql, params: seq<Value>, n: nat): Outcome
    requires OracleOk(o)
    decreases n
  {
    if n == 0 then Exhausted
    else
      var (ok, bound) := BindFirst(o, sql, map[], params, |params|);
      if !ok then Threw
      else
        var c := Collect(o, sql, bound, 0, t);
        if c.end.Done? then Rows(c.rows)
        else if Transient(c.end.rc) then FreshRows(o, c.clock, sql, params, n - 1)
        else Threw
  }

  /** Attempts lost to a transient prepare failure before the statement exists, starting at prepare count k. */
  function PrepareLosses(o: Oracle, k: nat, sql: Sql, n: nat): (lost: nat)
    ensures lost <= n
    decreases n
  {
    if n > 0 && o.prepare(sql, k).Rejected? && Transient(o.prepare(sql, k).rc)
    then 1 + PrepareLosses(o, k + 1, sql, n - 1) else 0
  }

  // ------------------------------------------------------------------ stale bindings of user statements

  /** Which positions a full binding of params leaves, in terms of what was there before. */
  lemma {:induction false} BindFirstBindings(o: Oracle, sql: Sql, b: Bindings, params: seq<Value>, n: nat)
    requires n <= |params| && BindFirst(o, sql, b, params, n).0
    ensures var r := BindFirst(o, sql, b, params, n).1;
            forall i: nat :: if 1 <= i <= n
                        then (if params[i - 1] == Null then i !in r else i in r && r[i] == params[i - 1])
                        else (i in r <==> i in b) && (i in b ==> r[i] == b[i])
  {
    if n > 0 {
      BindFirstBindings(o, sql, b, params, n - 1);
    }
  }

  lemma {:induction false} BindSameVerdict(o: Oracle, sql: Sql, b: Bindings, c: Bindings, params: seq<Value>, n: nat)
    requires n <= |params|
    ensures BindFirst(o, sql, b, params, n).0 == BindFirst(o, sql, c, params, n).0
  {
    if n > 0 {
      BindSameVerdict(o, sql, b, c, params, n - 1);
    }
  }

  /**
   * A user statement is not cleared between runs: rebinding reaches the bindings of a fresh statement
   * if and only if no position beyond the given parameters is still bound.
   */
  lemma RebindIsFreshIff(o: Oracle, sql: Sql, b: Bindings, params: seq<Value>)
    requires 0 !in b && BindFirst(o, sql, b, params, |params|).0
    ensures BindFirst(o, sql, b, params, |params|) == BindFirst(o, sql, map[], params, |params|)
            <==> forall i: nat :: i in b ==> i <= |params|
  {
    var n := |params|;
    BindSameVerdict(o, sql, b, map[], params, n);
    BindFirstBindings(o, sql, b, params, n);
    BindFirstBindings(o, sql, map[], params, n);
    var r, f := BindFirst(o, sql, b, params, n).1, BindFirst(o, sql, map[], params, n).1;
    if forall i: nat :: i in b ==> i <= n {
      forall i: nat ensures (i in r <==> i in f) && (i in r ==> r[i] == f[i]) {
        assert i in b ==> 1 <= i <= n;
      }
      assert r.Keys == f.Keys;
      assert r == f;
    } else {
      var i: nat :| i in b && i > n;
      assert i in r && i !in f;
    }
  }

  /** One value given to a statement that had two: the second is still bound. */
  lemma StaleValueSurvives(o: Oracle, sql: Sql, old2: Value, new1: Value)
    requires new1.Integer? && o.bind(sql, 1, new1) == 0
    ensures BindFirst(o, sql, map[2 := old2], [new1], 1) == (true, map[1 := new1, 2 := old2])
    ensures BindFirst(o, sql, map[], [new1], 1) == (true, map[1 := new1])
  {
    assert BindFirst(o, sql, map[2 := old2], [new1], 0) == (true, map[2 := old2]);
    assert map[2 := old2][1 := new1] == map[1 := new1, 2 := old2];
    assert BindFirst(o, sql, map[], [new1], 0) == (true, map[]);
    var none: Bindings := map[];
    assert none[1 := new1] == map[1 := new1];
  }

  /** Up to n attempts of a user statement that starts with bindings b. */
  function UserRun(o: Oracle, t: nat, sql: Sql, b: Bindings, params: seq<Value>, n: nat): Outcome
    decreases n
  {
    if n == 0 then Exhausted
    else
      var r := ScalarOnce(o, t, sql, b, params);
      if r.Reply? && Transient(r.rc) then UserRun(o, t + 1, sql, BindFirst(o, sql, b, params, |params|).1, params, n - 1)
      else r
  }

  /** With nothing bound beyond the parameters, a user statement answers as a fresh one would. */
  lemma {:induction false} UserRunIsFresh(o: Oracle, t: nat, sql: Sql, b: Bindings, c: Bindings, params: seq<Value>, n: nat)
    requires 0 !in b && 0 !in c
    requires (forall i: nat :: i in b ==> i <= |params|) && (forall i: nat :: i in c ==> i <= |params|)
    ensures UserRun(o, t, sql, b, params, n) == UserRun(o, t, sql, c, params, n)
    decreases n
  {
    if n > 0 {
      BindSameVerdict(o, sql, b, c, params, |params|);
      if BindFirst(o, sql, b, params, |params|).0 {
        RebindIsFreshIff(o, sql, b, params);
        RebindIsFreshIff(o, sql, c, params);
      }
    }
  }

  // ------------------------------------------------------------------ outcomes in the engine's own terms

  /** The codes that are tried again: BUSY and PROTOCOL. */
  predicate Retried(e: StepResult) {
    e == Fail(5) || e == Fail(15)
  }

  /** The parameter for 1-based position i. */
  function At(params: seq<Value>, i: nat): Value {
    if 1 <= i <= |params| then params[i - 1] else Null
  }

  /** Every parameter is of a bindable type and the engine takes it at its position. */
  ghost predicate AllBind(o: Oracle, sql: Sql, params: seq<Value>) {
    forall i :: 0 <= i < |params| ==> !params[i].Unbindable? && o.bind(sql, i + 1, params[i]) == 0
  }

  lemma {:induction false} BindOkIff(o: Oracle, sql: Sql, b: Bindings, params: seq<Value>, n: nat)
    requires n <= |params|
    ensures BindFirst(o, sql, b, params, n).0 <==> AllBind(o, sql, params[..n])
  {
    if n > 0 {
      BindOkIff(o, sql, b, params, n - 1);
      assert params[..n] == params[..n - 1] + [params[n - 1]];
      assert AllBind(o, sql, params[..n]) ==> AllBind(o, sql, params[..n - 1]) by {
        assert forall i :: 0 <= i < n - 1 ==> params[..n][i] == params[..n - 1][i];
      }
    }
  }

  /** What a full binding leaves: the parameters by position, NULLs unbound, and older values beyond them. */
  lemma BoundIs(o: Oracle, sql: Sql, b: Bindings, params: seq<Value>)
    requires 0 !in b && AllBind(o, sql, params)
    ensures BindFirst(o, sql, b, params, |params|)
            == (true, (map i: nat | i in b && i > |params| :: b[i])
                      + (map i: nat | 1 <= i <= |params| && At(params, i) != Null :: At(params, i)))
  {
    assert params[..|params|] == params;
    BindOkIff(o, sql, b, params, |params|);
    BindFirstBindings(o, sql, b, params, |params|);
    var r := BindFirst(o, sql, b, params, |params|).1;
    var m := (map i: nat | i in b && i > |params| :: b[i])
             + (map i: nat | 1 <= i <= |params| && At(params, i) != Null :: At(params, i));
    assert forall i: nat :: (i in r <==> i in m) && (i in r ==> r[i] == m[i]);
    assert r.Keys == m.Keys;
    assert r == m;
  }

  /** A fresh statement: the parameters and nothing else. */
  lemma FreshBoundIs(o: Oracle, sql: Sql, params: seq<Value>)
    requires AllBind(o, sql, params)
    ensures BindFirst(o, sql, map[], params, |params|)
            == (true, map i: nat | 1 <= i <= |params| && At(params, i) != Null :: At(params, i))
  {
    BoundIs(o, sql, map[], params);
    NothingBeyond(map[], params);
  }

  lemma NothingBeyond(b: Bindings, params: seq<Value>)
    ensures var m := map i: nat | 1 <= i <= |params| && At(params, i) != Null :: At(params, i);
            (map i: nat | i in b && i > |params| :: b[i]) + m == m || b != map[]
  {}

  /** Some parameter does not bind: the call throws. */
  lemma ScalarThrowsIff(o: Oracle, t: nat, sql: Sql, params: seq<Value>)
    ensures ScalarOnce(o, t, sql, map[], params) == Threw <==> !AllBind(o, sql, params)
  {
    assert params[..|params|] == params;
    BindOkIff(o, sql, map[], params, |params|);
  }

  /** All bind: the one step decides, a row giving code 0 and its columns, no row code 0, an error its code. */
  lemma ScalarMeans(o: Oracle, t: nat, sql: Sql, params: seq<Value>)
    requires AllBind(o, sql, params)
    ensures ScalarOnce(o, t, sql, map[], params)
            == match o.step(sql, map i: nat | 1 <= i <= |params| && At(params, i) != Null :: At(params, i), 0, t)
               case Row(columns) => Reply(0, columns)
               case Done => Reply(0, [])
               case Fail(rc) => Reply(rc, [])
  {
    FreshBoundIs(o, sql, params);
  }

  /** The step of attempt i of a statement bound to b, the first attempt at moment t. */
  function AttemptStep(o: Oracle, sql: Sql, b: Bindings, t: nat, i: nat): StepResult {
    o.step(sql, b, 0, t + i)
  }

  /**
   * r is the answer of some attempt k below n, all earlier ones having failed with 5 or 15 and this one
   * not; or all n failed so and r is the exception.
   */
  ghost predicate LastAttempt(o: Oracle, sql: Sql, b: Bindings, t: nat, n: nat, r: Outcome) {
    || (r == Exhausted && forall i: nat :: i < n ==> Retried(AttemptStep(o, sql, b, t, i)))
    || (exists k: nat :: k < n
          && (forall i: nat :: i < k ==> Retried(AttemptStep(o, sql, b, t, i)))
          && !Retried(AttemptStep(o, sql, b, t, k))
          && r == match AttemptStep(o, sql, b, t, k)
                  case Row(columns) => Reply(0, columns)
                  case Done => Reply(0, [])
                  case Fail(rc) => Reply(rc, []))
  }

  /** Binding the same parameters again changes nothing. */
  lemma RebindSame(o: Oracle, sql: Sql, b: Bindings, params: seq<Value>)
    requires 0 !in b && AllBind(o, sql, params)
    ensures var c := BindFirst(o, sql, b, params, |params|).1;
            0 !in c && BindFirst(o, sql, c, params, |params|) == (true, c)
  {
    BoundIs(o, sql, b, params);
    var c := BindFirst(o, sql, b, params, |params|).1;
    BoundIs(o, sql, c, params);
    assert BindFirst(o, sql, c, params, |params|).1 == c;
  }

  /** What runUser answers, attempt by attempt. */
  lemma {:induction false} UserRunMeans(o: Oracle, t: nat, sql: Sql, b: Bindings, params: seq<Value>, n: nat)
    requires 0 !in b && AllBind(o, sql, params)
    ensures LastAttempt(o, sql, BindFirst(o, sql, b, params, |params|).1, t, n, UserRun(o, t, sql, b, params, n))
    decreases n
  {
    if n > 0 {
      RebindSame(o, sql, b, params);
      BoundIs(o, sql, b, params);
      var c := BindFirst(o, sql, b, params, |params|).1;
      var e := AttemptStep(o, sql, c, t, 0);
      var r := UserRun(o, t, sql, b, params, n);
      if Retried(e) {
        UserRunMeans(o, t + 1, sql, c, params, n - 1);
        LaterAttempt(o, sql, c, t, t + 1, n, r);
      } else {
        assert AttemptStep(o, sql, c, t, 0) == o.step(sql, c, 0, t);
      }
    }
  }

  lemma {:induction false} LaterAttempt(o: Oracle, sql: Sql, b: Bindings, t: nat, u: nat, n: nat, r: Outcome)
    requires n > 0 && u == t + 1 && LastAttempt(o, sql, b, u, n - 1, r) && Retried(AttemptStep(o, sql, b, t, 0))
    ensures LastAttempt(o, sql, b, t, n, r)
  {
    if r == Exhausted && forall i: nat :: i < n - 1 ==> Retried(AttemptStep(o, sql, b, u, i)) {
      forall i: nat | i < n ensures Retried(AttemptStep(o, sql, b, t, i)) {
        Earlier(o, sql, b, t, u, i);
      }
    } else {
      var k: nat :| k < n - 1
          && (forall i: nat :: i < k ==> Retried(AttemptStep(o, sql, b, u, i)))
          && !Retried(AttemptStep(o, sql, b, u, k))
          && r == match AttemptStep(o, sql, b, u, k)
                  case Row(columns) => Reply(0, columns)
                  case Done => Reply(0, [])
                  case Fail(rc) => Reply(rc, []);
      forall i: nat | i < k + 1 ensures Retried(AttemptStep(o, sql, b, t, i)) {
        Earlier(o, sql, b, t, u, i);
      }
      Earlier(o, sql, b, t, u, k + 1);
    }
  }

  lemma Earlier(o: Oracle, sql: Sql, b: Bindings, t: nat, u: nat, i: nat)
    requires u == t + 1
    ensures i > 0 ==> AttemptStep(o, sql, b, t, i) == AttemptStep(o, sql, b, u, i - 1)
  {}

  /** The step at row j of a collection begun at moment t. */
  function RowStep(o: Oracle, sql: Sql, b: Bindings, cursor: nat, t: nat, j: nat): StepResult {
    o.step(sql, b, cursor + j, t + j)
  }

  /** Collecting returns the columns of the rows in order, and the answer that ended them. */
  lemma {:induction false} CollectMeans(o: Oracle, sql: Sql, b: Bindings, cursor: nat, t: nat)
    requires OracleOk(o)
    ensures var c := Collect(o, sql, b, cursor, t);
            && (forall j: nat :: j < |c.rows| ==> RowStep(o, sql, b, cursor, t, j) == Row(c.rows[j]))
            && c.end == RowStep(o, sql, b, cursor, t, |c.rows|) && c.clock == t + |c.rows| + 1
    decreases if cursor < o.rowBound(sql, b) then o.rowBound(sql, b) - cursor else 0
  {
    var c := Collect(o, sql, b, cursor, t);
    assert RowStep(o, sql, b, cursor, t, 0) == o.step(sql, b, cursor, t);
    if o.step(sql, b, cursor, t).Row? {
      CollectMeans(o, sql, b, cursor + 1, t + 1);
      forall j: nat | j < |c.rows| ensures RowStep(o, sql, b, cursor, t, j) == Row(c.rows[j]) {
        if j > 0 {
          assert RowStep(o, sql, b, cursor + 1, t + 1, j - 1) == RowStep(o, sql, b, cursor, t, j);
        }
      }
      assert RowStep(o, sql, b, cursor + 1, t + 1, |c.rows| - 1) == RowStep(o, sql, b, cursor, t, |c.rows|);
    }
  }

  /** A chain of attempts to collect: each begins when the one before ended with 5 or 15. */
  ghost predicate Attempts(o: Oracle, sql: Sql, b: Bindings, t: nat, tries: seq<Collected>)
    requires OracleOk(o)
  {
    && (tries != [] ==> tries[0] == Collect(o, sql, b, 0, t))
    && (forall j :: 0 <= j < |tries| - 1 ==>
          Retried(tries[j].end) && tries[j + 1] == Collect(o, sql, b, 0, tries[j].clock))
  }

  /** What queryRows answers on a statement, attempt by attempt. */
  lemma {:induction false} FreshRowsMeans(o: Oracle, t: nat, sql: Sql, params: seq<Value>, n: nat, tries: seq<Collected>)
    requires OracleOk(o) && AllBind(o, sql, params) && 0 < |tries| <= n
    requires var b := map i: nat | 1 <= i <= |params| && At(params, i) != Null :: At(params, i); Attempts(o, sql, b, t, tries)
    ensures var last := tries[|tries| - 1];
            var r := FreshRows(o, t, sql, params, n);
            && (last.end == Done ==> r == Rows(last.rows))
            && (last.end.Fail? && !Retried(last.end) ==> r == Threw)
            && (Retried(last.end) && |tries| == n ==> r == Exhausted)
    decreases n
  {
    FreshBoundIs(o, sql, params);
    if |tries| > 1 {
      FreshRowsMeans(o, tries[0].clock, sql, params, n - 1, tries[1..]);
    }
  }

  /** What queryRows should return, given whether the SQL was cached and the prepare count k. */
  function ExpectedRows(o: Oracle, cached: bool, k: nat, t: nat, sql: Sql, params: seq<Value>, n: nat): Outcome
    requires OracleOk(o)
  {
    if cached then FreshRows(o, t, sql, params, n)
    else
      var lost := PrepareLosses(o, k, sql, n);
      if lost == n then Exhausted
      else if o.prepare(sql, k + lost).Compiled? then FreshRows(o, t, sql, params, n - lost)
      else Threw
  }

  /** A transient prepare failure costs one attempt and nothing else. */
  lemma ExpectedRowsLosesOne(o: Oracle, k: nat, t: nat, sql: Sql, params: seq<Value>, n: nat)
    requires OracleOk(o) && n > 0 && o.prepare(sql, k).Rejected? && Transient(o.prepare(sql, k).rc)
    ensures ExpectedRows(o, false, k, t, sql, params, n) == ExpectedRows(o, false, k + 1, t, sql, params, n - 1)
  {
    var lost := PrepareLosses(o, k + 1, sql, n - 1);
    assert PrepareLosses(o, k, sql, n) == 1 + lost;
    assert k + (1 + lost) == (k + 1) + lost && n - (1 + lost) == (n - 1) - lost;
  }

  /** Any other prepare answer settles the matter. */
  lemma ExpectedRowsSettled(o: Oracle, k: nat, t: nat, sql: Sql, params: seq<Value>, n: nat)
    requires OracleOk(o) && n > 0 && !(o.prepare(sql, k).Rejected? && Transient(o.prepare(sql, k).rc))
    ensures ExpectedRows(o, false, k, t, sql, params, n)
            == if o.prepare(sql, k).Compiled? then FreshRows(o, t, sql, params, n) else Threw
  {
    assert PrepareLosses(o, k, sql, n) == 0;
    assert k + 0 == k && n - 0 == n;
  }

  /** The answer of prepare number k + i. */
  function PrepareAt(o: Oracle, sql: Sql, k: nat, i: nat): PrepareResult {
    o.prepare(sql, k + i)
  }

  /** What queryRows makes of prepare: j transient failures cost j attempts, n of them all, any other failure throws. */
  lemma {:induction false} ExpectedRowsMeans(o: Oracle, k: nat, t: nat, sql: Sql, params: seq<Value>, n: nat, j: nat)
    requires OracleOk(o) && j <= n
    requires forall i: nat :: i < j ==> PrepareAt(o, sql, k, i) in {Rejected(5), Rejected(15)}
    ensures ExpectedRows(o, true, k, t, sql, params, n) == FreshRows(o, t, sql, params, n)
    ensures j == n ==> ExpectedRows(o, false, k, t, sql, params, n) == Exhausted
    ensures j < n && o.prepare(sql, k + j) == Compiled ==> ExpectedRows(o, false, k, t, sql, params, n) == FreshRows(o, t, sql, params, n - j)
    ensures j < n && o.prepare(sql, k + j) !in {Compiled, Rejected(5), Rejected(15)} ==> ExpectedRows(o, false, k, t, sql, params, n) == Threw
    decreases j
  {
    if j > 0 {
      assert PrepareAt(o, sql, k, 0) == o.prepare(sql, k);
      ExpectedRowsLosesOne(o, k, t, sql, params, n);
      PrepareLater(o, sql, k, k + 1, j);
      ExpectedRowsMeans(o, k + 1, t, sql, params, n - 1, j - 1);
      assert (k + 1) + (j - 1) == k + j && (n - 1) - (j - 1) == n - j;
    } else if n > 0 && !(o.prepare(sql, k).Rejected? && Transient(o.prepare(sql, k).rc)) {
      ExpectedRowsSettled(o, k, t, sql, params, n);
    }
  }

  lemma PrepareLater(o: Oracle, sql: Sql, k: nat, l: nat, j: nat)
    requires l == k + 1 && j > 0 && forall i: nat :: i < j ==> PrepareAt(o, sql, k, i) in {Rejected(5), Rejected(15)}
    ensures forall i: nat :: i < j - 1 ==> PrepareAt(o, sql, l, i) in {Rejected(5), Rejected(15)}
  {
    forall i: nat | i < j - 1 ensures PrepareAt(o, sql, l, i) in {Rejected(5), Rejected(15)} {
      assert PrepareAt(o, sql, l, i) == PrepareAt(o, sql, k, i + 1);
    }
  }

  /** How one attempt moves the expectation along. */
  lemma ExpectedRowsStep(o: Oracle, cached: bool, k: nat, t: nat, sql: Sql, params: seq<Value>, n: nat)
    requires OracleOk(o) && n > 0
    ensures var p := if cached then Compiled else o.prepare(sql, k);
            ExpectedRows(o, cached, k, t, sql, params, n)
            == if p.Compiled? then FreshRows(o, t, sql, params, n)
               else if p.Rejected? && Transient(p.rc) then ExpectedRows(o, false, k + 1, t, sql, params, n - 1)
               else Threw
  {
    if !cached {
      if o.prepare(sql, k).Rejected? && Transient(o.prepare(sql, k).rc) {
        ExpectedRowsLosesOne(o, k, t, sql, params, n);
      } else {
        ExpectedRowsSettled(o, k, t, sql, params, n);
      }
    }
  }

  // ------------------------------------------------------------------ invariant, as a property of values

  /** The LinkedHashMap: keys in access order, eldest first, and their statements. */
  datatype Cache = Cache(order: seq<Sql>, handles: map<Sql, int>)

  /**
   * Live statements are exactly the cached ones and, apart from those, the user's; the cache has
   * at most 64 entries; every cached statement is reset with all-NULL bindings, every user statement reset.
   */
  ghost predicate SessionOk(live: map<int, Stmt>, cache: Cache, user: set<int>) {
    && Distinct(cache.order) && |cache.order| <= CAPACITY
    && (forall k :: k in cache.handles <==> k in cache.order)
    && (forall k :: k in cache.handles ==> CachedOk(live, user, k, cache.handles[k]))
    && (forall h :: h in live && h !in user ==> live[h].sql in cache.handles && cache.handles[live[h].sql] == h)
    && (forall h :: h in user ==> h in live && UserOk(live[h]))
  }

  /** A user statement between calls: reset, its bindings at positions from 1 up. */
  predicate UserOk(s: Stmt) {
    s.cursor == 0 && 0 !in s.bindings
  }

  predicate CachedOk(live: map<int, Stmt>, user: set<int>, k: Sql, h: int) {
    h in live && h !in user && Pristine(live[h], k)
  }

  /** The live statements split into cached and user statements, with no handle in both or twice. */
  lemma LiveIsDisjointUnion(live: map<int, Stmt>, cache: Cache, user: set<int>)
    requires SessionOk(live, cache, user)
    ensures live.Keys == cache.handles.Values + user && cache.handles.Values !! user
    ensures forall k, l :: k in cache.handles && l in cache.handles && k != l ==> cache.handles[k] != cache.handles[l]
    ensures |cache.order| <= CAPACITY
  {
    forall k, l | k in cache.handles && l in cache.handles && k != l ensures cache.handles[k] != cache.handles[l] {
      assert CachedOk(live, user, k, cache.handles[k]) && CachedOk(live, user, l, cache.handles[l]);
    }
    forall h ensures h in live.Keys <==> h in cache.handles.Values + user {
      if h in cache.handles.Values {
        var k :| k in cache.handles && cache.handles[k] == h;
        assert CachedOk(live, user, k, h);
      }
    }
    forall h | h in cache.handles.Values ensures h !in user {
      var k :| k in cache.handles && cache.handles[k] == h;
      assert CachedOk(live, user, k, h);
    }
  }

  lemma OkHit(live: map<int, Stmt>, cache: Cache, user: set<int>, sql: Sql)
    requires SessionOk(live, cache, user) && sql in cache.order
    ensures SessionOk(live, Cache(Touch(cache.order, sql), cache.handles), user)
    ensures CachedOk(live, user, sql, cache.handles[sql])
  {
    TouchKeys(cache.order, sql);
  }

  /** The cache after inserting sql with statement h. */
  function Inserted(cache: Cache, sql: Sql, h: int): Cache {
    var gone := Evicted(cache.order, sql);
    var grown := cache.handles[sql := h];
    Cache(Insert(cache.order, sql), if gone.Some? then grown - {gone.value} else grown)
  }

  lemma OkMiss(live: map<int, Stmt>, cache: Cache, user: set<int>, sql: Sql, h: int, live': map<int, Stmt>)
    requires SessionOk(live, cache, user) && sql !in cache.order && h !in live
    requires var gone := Evicted(cache.order, sql);
             && (gone.Some? ==> gone.value in cache.handles)
             && live' == if gone.Some? then live[h := Stmt(sql, map[], 0)] - {cache.handles[gone.value]} else live[h := Stmt(sql, map[], 0)]
    ensures SessionOk(live', Inserted(cache, sql, h), user)
    ensures CachedOk(live', user, sql, h)
    ensures forall u :: u in user ==> u in live' && live'[u] == live[u]
  {
    var gone, after := Evicted(cache.order, sql), Inserted(cache, sql, h);
    if gone.Some? {
      assert CachedOk(live, user, gone.value, cache.handles[gone.value]);
    }
    MissKeys(cache, sql, h);
    forall k | k in after.handles ensures CachedOk(live', user, k, after.handles[k]) {
      MissKeepsCached(live, cache, user, sql, h, live', k);
    }
    forall x | x in live' && x !in user ensures live'[x].sql in after.handles && after.handles[live'[x].sql] == x {
      if x != h {
        assert live[x].sql in cache.handles && cache.handles[live[x].sql] == x;
      }
    }
  }

  /** The key order and the table of handles stay in step. */
  lemma MissKeys(cache: Cache, sql: Sql, h: int)
    requires Distinct(cache.order) && |cache.order| <= CAPACITY && sql !in cache.order
    requires forall k :: k in cache.handles <==> k in cache.order
    ensures var after := Inserted(cache, sql, h);
            && Distinct(after.order) && |after.order| <= CAPACITY && sql in after.handles && after.handles[sql] == h
            && (forall k :: k in after.handles <==> k in after.order)
  {
    InsertKeys(cache.order, sql);
  }

  /** Every cached statement but the evicted one stays live and pristine. */
  lemma MissKeepsCached(live: map<int, Stmt>, cache: Cache, user: set<int>, sql: Sql, h: int, live': map<int, Stmt>, k: Sql)
    requires SessionOk(live, cache, user) && sql !in cache.order && h !in live
    requires var gone := Evicted(cache.order, sql);
             && (gone.Some? ==> gone.value in cache.handles)
             && live' == if gone.Some? then live[h := Stmt(sql, map[], 0)] - {cache.handles[gone.value]} else live[h := Stmt(sql, map[], 0)]
    requires k in Inserted(cache, sql, h).handles
    ensures CachedOk(live', user, k, Inserted(cache, sql, h).handles[k])
  {
    var gone := Evicted(cache.order, sql);
    if gone.Some? {
      assert CachedOk(live, user, gone.value, cache.handles[gone.value]);
    }
    if k != sql {
      assert CachedOk(live, user, k, cache.handles[k]);
    }
  }

  /** Registering, changing or removing one user statement leaves the cache's part alone. */
  lemma OkUser(live: map<int, Stmt>, cache: Cache, user: set<int>, live': map<int, Stmt>, user': set<int>, h: int)
    requires SessionOk(live, cache, user) && (h in live ==> h in user)
    requires forall x :: x != h ==> (x in live <==> x in live') && (x in user <==> x in user') && (x in live ==> live'[x] == live[x])
    requires h in live' <==> h in user'
    requires h in live' ==> UserOk(live'[h])
    ensures SessionOk(live', cache, user')
  {
    forall k | k in cache.handles ensures CachedOk(live', user', k, cache.handles[k]) {
      assert CachedOk(live, user, k, cache.handles[k]);
    }
  }

  lemma SomeMember(s: set<int>)
    ensures s == {} || exists h :: h in s
  {
    if forall h :: h !in s {
      assert s == {};
    }
  }

  // ------------------------------------------------------------------ the session object

  class Session {
    const oracle: Oracle
    var live: map<int, Stmt>          // engine statements not finalized
    var clock: nat                    // steps taken on the connection
    var prepares: nat
    var cache: Cache
    var user: set<int>

    ghost predicate Valid()
      reads this
    {
      OracleOk(oracle) && SessionOk(live, cache, user)
    }

    constructor (o: Oracle)
      requires OracleOk(o)
      ensures Valid() && live == map[] && oracle == o
    {
      oracle, live, clock, prepares, cache, user := o, map[], 0, 0, Cache([], map[]), {};
    }

    // engine calls: each demands a live handle

    method Finalize(h: int)
      requires h in live
      modifies this`live
      ensures live == old(live) - {h}
    {
      live := live - {h};
    }

    method Step(h: int) returns (r: StepResult)
      requires h in live
      modifies this`live, this`clock
      ensures var s := old(live[h]);
              && r == oracle.step(s.sql, s.bindings, s.cursor, old(clock))
              && live == old(live)[h := s.(cursor := s.cursor + 1)] && clock == old(clock) + 1
    {
      var s := live[h];
      r := oracle.step(s.sql, s.bindings, s.cursor, clock);
      live, clock := live[h := s.(cursor := s.cursor + 1)], clock + 1;
    }

    /** sqlite3_reset, and sqlite3_clear_bindings when there were parameters. */
    method ResetAfter(h: int, clear: bool)
      requires h in live
      modifies this`live
      ensures live == old(live)[h := Stmt(old(live[h].sql), if clear then map[] else old(live[h].bindings), 0)]
    {
      live := live[h := live[h].(cursor := 0)];
      if clear {
        live := live[h := live[h].(bindings := map[])];
      }
    }

    method BindAll(h: int, params: seq<Value>) returns (ok: bool)
      requires h in live
      modifies this`live
      ensures var s := old(live[h]);
              && ok == BindFirst(oracle, s.sql, s.bindings, params, |params|).0
              && live == old(live)[h := s.(bindings := BindFirst(oracle, s.sql, s.bindings, params, |params|).1)]
    {
      ghost var s := live[h];
      var i := 0;
      ok := true;
      while i < |params|
        invariant 0 <= i <= |params| && h in live
        invariant BindFirst(oracle, s.sql, s.bindings, params, i).0
        invariant live == old(live)[h := s.(bindings := BindFirst(oracle, s.sql, s.bindings, params, i).1)]
      {
        var v := params[i];
        if v.Unbindable? || oracle.bind(live[h].sql, i + 1, v) != 0 {
          BindStops(oracle, s.sql, s.bindings, params, i + 1, |params|);
          return false;
        }
        live := live[h := live[h].(bindings := Put(live[h].bindings, i + 1, v))];
        i := i + 1;
      }
    }

    /** Cache hit, or prepare and insert; the eldest statement is finalized when the cache overflows. */
    method Lookup(sql: Sql) returns (r: PrepareResult, h: int)
      requires Valid()
      modifies this
      ensures Valid() && clock == old(clock) && user == old(user)
      ensures forall u :: u in user ==> u in live && live[u] == old(live[u])
      ensures sql in old(cache.order) ==> r.Compiled? && prepares == old(prepares)
      ensures sql !in old(cache.order) ==> r == oracle.prepare(sql, old(prepares)) && prepares == old(prepares) + 1
      ensures r.Compiled? ==> CachedOk(live, user, sql, h) && sql in cache.order && cache.order == Use(old(cache.order), sql)
      ensures !r.Compiled? ==> cache == old(cache) && live == old(live)
    {
      if sql in cache.order {
        OkHit(live, cache, user, sql);
        h := cache.handles[sql];
        cache := cache.(order := Touch(cache.order, sql));
        return Compiled, h;
      }
      r := oracle.prepare(sql, prepares);
      prepares := prepares + 1;
      h := 0;
      if r.Compiled? {
        h := oracle.alloc(live.Keys);
        InsertKeys(cache.order, sql);
        var gone := Evicted(cache.order, sql);
        var victim := if gone.Some? then cache.handles[gone.value] else 0;
        ghost var before, were := live, cache;
        live := live[h := Stmt(sql, map[], 0)];
        cache := Inserted(cache, sql, h);
        if gone.Some? {
          assert CachedOk(before, user, gone.value, victim);
          Finalize(victim);
        }
        OkMiss(before, were, user, sql, h, live);
      }
    }

    /**
     * Scalar query through the cache: the outcome is that of binding and stepping a fresh statement
     * at the same moment, whatever was run on this session before.
     */
    method Query(sql: Sql, params: seq<Value>) returns (r: Outcome)
      requires Valid()
      modifies this
      ensures Valid() && user == old(user)
      ensures forall u :: u in user ==> u in live && live[u] == old(live[u])
      ensures if sql in old(cache.order) || oracle.prepare(sql, old(prepares)).Compiled?
              then r == ScalarOnce(oracle, old(clock), sql, map[], params) && cache.order == Use(old(cache.order), sql)
              else r == Reply(match oracle.prepare(sql, old(prepares)) case Rejected(rc) => rc case _ => 0, [])
      ensures (sql in old(cache.order) || oracle.prepare(sql, old(prepares)).Compiled?) && AllBind(oracle, sql, params) ==>
                r == match oracle.step(sql, map i: nat | 1 <= i <= |params| && At(params, i) != Null :: At(params, i), 0, old(clock))
                     case Row(columns) => Reply(0, columns)
                     case Done => Reply(0, [])
                     case Fail(rc) => Reply(rc, [])
    {
      if AllBind(oracle, sql, params) {
        ScalarMeans(oracle, clock, sql, params);
      }
      var p, h := Lookup(sql);
      if !p.Compiled? {
        return Reply(match p case Rejected(rc) => rc case _ => 0, []);
      }
      r := ScalarAttempt(sql, h, params);
    }

    /** Bind, one step, reset: a pristine statement is left as it was found. */
    method ScalarAttempt(sql: Sql, h: int, params: seq<Value>) returns (r: Outcome)
      requires h in live && Pristine(live[h], sql)
      modifies this`live, this`clock
      ensures live == old(live)
      ensures r == ScalarOnce(oracle, old(clock), sql, map[], params)
    {
      ghost var clean := live;
      var ok := BindAll(h, params);
      if ok {
        var s := Step(h);
        r := ReplyOf(s);
      } else {
        r := Threw;
      }
      ResetAfter(h, params != []);
      assert live == clean[h := Stmt(sql, map[], 0)] == clean;
    }

    /** decodeRows: step to the end. */
    method DecodeRows(h: int) returns (end: StepResult, rows: seq<seq<Value>>)
      requires h in live && OracleOk(oracle)
      modifies this`live, this`clock
      ensures var s := old(live[h]);
              && Collect(oracle, s.sql, s.bindings, s.cursor, old(clock)) == Collected(end, rows, clock)
              && h in live && live == old(live)[h := s.(cursor := live[h].cursor)]
    {
      ghost var s := live[h];
      ghost var goal := Collect(oracle, s.sql, s.bindings, s.cursor, clock);
      ghost var at := s.cursor;
      rows := [];
      while true
        invariant h in live && live == old(live)[h := Stmt(s.sql, s.bindings, at)]
        invariant Remaining(oracle, s.sql, s.bindings, at, clock, rows, goal)
        decreases var b := oracle.rowBound(s.sql, s.bindings); if at < b then b - at else 0
      {
        RemainingStep(oracle, s.sql, s.bindings, at, clock, rows, goal);
        end := Step(h);
        at := at + 1;
        if !end.Row? {
          return;
        }
        rows := rows + [end.columns];
      }
    }

    /** Multi-row query through the cache, with its retries: again the outcome of fresh statements. */
    method QueryRows(sql: Sql, params: seq<Value>) returns (r: Outcome)
      requires Valid()
      modifies this
      ensures Valid() && user == old(user)
      ensures forall u :: u in user ==> u in live && live[u] == old(live[u])
      ensures r == ExpectedRows(oracle, sql in old(cache.order), old(prepares), old(clock), sql, params, 200)
      ensures cache.order == old(cache.order) || cache.order == Use(old(cache.order), sql)
    {
      var attempt := 0;
      ghost var goal := ExpectedRows(oracle, sql in cache.order, prepares, clock, sql, params, RETRIES);
      while attempt < RETRIES
        invariant 0 <= attempt <= RETRIES && Valid() && user == old(user)
        invariant forall u :: u in user ==> u in live && live[u] == old(live[u])
        invariant ExpectedRows(oracle, sql in cache.order, prepares, clock, sql, params, RETRIES - attempt) == goal
        invariant cache.order == old(cache.order) || cache.order == Use(old(cache.order), sql)
      {
        UseIdempotent(old(cache.order), sql);
        var again;
        again, r := RowsTry(sql, params, RETRIES - attempt);
        if !again {
          return;
        }
        attempt := attempt + 1;
      }
      return Exhausted;
    }

    /** One round of the loop: look the statement up and use it; either may ask for another round. */
    method RowsTry(sql: Sql, params: seq<Value>, ghost n: nat) returns (again: bool, r: Outcome)
      requires Valid() && n > 0
      modifies this
      ensures Valid() && user == old(user)
      ensures forall u :: u in user ==> u in live && live[u] == old(live[u])
      ensures var goal := ExpectedRows(oracle, sql in old(cache.order), old(prepares), old(clock), sql, params, n);
              if again then ExpectedRows(oracle, sql in cache.order, prepares, clock, sql, params, n - 1) == goal else r == goal
      ensures cache.order == old(cache.order) || cache.order == Use(old(cache.order), sql)
    {
      ExpectedRowsStep(oracle, sql in cache.order, prepares, clock, sql, params, n);
      var p, h := Lookup(sql);
      if p.Compiled? {
        again, r := RowsAttempt(sql, h, params, n);
      } else {
        again, r := p.Rejected? && Transient(p.rc), Threw;
      }
    }

    /** One attempt on a cached statement: an answer, or a transient failure to be retried. */
    method RowsAttempt(sql: Sql, h: int, params: seq<Value>, ghost n: nat) returns (again: bool, r: Outcome)
      requires OracleOk(oracle) && h in live && Pristine(live[h], sql) && n > 0
      modifies this`live, this`clock
      ensures live == old(live)
      ensures if again then FreshRows(oracle, old(clock), sql, params, n) == FreshRows(oracle, clock, sql, params, n - 1)
              else r == FreshRows(oracle, old(clock), sql, params, n)
    {
      ghost var clean := live;
      var ok := BindAll(h, params);
      again, r := false, Threw;
      if ok {
        var end, rows := DecodeRows(h);
        if end.Done? {
          r := Rows(rows);
        } else if Transient(end.rc) {
          again := true;
        }
      }
      ResetAfter(h, params != []);
      assert live == clean[h := Stmt(sql, map[], 0)] == clean;
    }

    /**
     * prepareUser: a statement outside the cache, registered until it is finalized, with its parameter
     * count; a failure keeps the extended code, and text without a statement is refused.
     */
    method PrepareUser(sql: Sql) returns (r: Prepared)
      requires Valid()
      modifies this`live, this`user, this`prepares
      ensures Valid() && prepares == old(prepares) + 1
      ensures match oracle.prepare(sql, old(prepares))
              case Compiled => r.Prepared? && r.params == oracle.paramCount(sql)
              case Empty => r == NoStatement
              case Rejected(_) => r == Native(oracle.extendedCode(sql, old(prepares)))
      ensures if r.Prepared?
              then r.handle !in old(live) && user == old(user) + {r.handle} && live == old(live)[r.handle := Stmt(sql, map[], 0)]
              else live == old(live) && user == old(user)
    {
      var p, k := oracle.prepare(sql, prepares), prepares;
      prepares := prepares + 1;
      match p {
        case Rejected(_) => r := Native(oracle.extendedCode(sql, k));
        case Empty => r := NoStatement;
        case Compiled =>
          var st := oracle.alloc(live.Keys);
          live := live[st := Stmt(sql, map[], 0)];
          user := user + {st};
          r := Prepared(st, oracle.paramCount(sql));
          OkUser(old(live), cache, old(user), live, user, st);
      }
    }

    /** finalizeUser: finalizes once; a second call, or a handle of someone else, is a no-op. */
    method FinalizeUser(h: int)
      requires Valid()
      modifies this`live, this`user
      ensures Valid() && user == old(user) - {h}
      ensures live == if h in old(user) then old(live) - {h} else old(live)
    {
      if h in user {
        user := user - {h};
        Finalize(h);
        OkUser(old(live), cache, old(user), live, user, h);
      }
    }

    /** runUser: rejected unless registered; otherwise bind, step, reset, retrying transient codes. */
    method RunUser(h: int, params: seq<Value>) returns (r: Outcome)
      requires Valid()
      modifies this`live, this`clock
      ensures Valid()
      ensures r == if h in user then UserRun(oracle, old(clock), old(live[h].sql), old(live[h].bindings), params, 200) else Threw
      ensures h in user && AllBind(oracle, old(live[h].sql), params) ==>
                var b := old(live[h].bindings);
                LastAttempt(oracle, old(live[h].sql),
                            (map i: nat | i in b && i > |params| :: b[i])
                            + (map i: nat | 1 <= i <= |params| && At(params, i) != Null :: At(params, i)),
                            old(clock), 200, r)
      ensures forall u :: u in old(live) && u != h ==> u in live && live[u] == old(live[u])
    {
      if h !in user {
        return Threw;
      }
      ghost var sql, b, t := live[h].sql, live[h].bindings, clock;
      r := RunUserTries(h, params);
      if AllBind(oracle, sql, params) {
        UserRunMeans(oracle, t, sql, b, params, 200);
        BoundIs(oracle, sql, b, params);
      }
    }

    /** The retry loop of runUser. */
    method RunUserTries(h: int, params: seq<Value>) returns (r: Outcome)
      requires Valid() && h in user
      modifies this`live, this`clock
      ensures Valid()
      ensures r == UserRun(oracle, old(clock), old(live[h].sql), old(live[h].bindings), params, 200)
      ensures forall u :: u in old(live) && u != h ==> u in live && live[u] == old(live[u])
    {
      var attempt := 0;
      ghost var sql, left := live[h].sql, RETRIES;
      ghost var goal := UserRun(oracle, clock, sql, live[h].bindings, params, left);
      while attempt < RETRIES
        invariant 0 <= attempt <= RETRIES && left == RETRIES - attempt
        invariant Valid() && h in live && live[h].sql == sql
        invariant forall u :: u in old(live) && u != h ==> u in live && live[u] == old(live[u])
        invariant UserRun(oracle, clock, sql, live[h].bindings, params, left) == goal
      {
        var again;
        again, r := UserAttempt(h, params, left);
        if !again {
          return;
        }
        attempt, left := attempt + 1, left - 1;
      }
      return Exhausted;
    }

    method UserAttempt(h: int, params: seq<Value>, ghost n: nat) returns (again: bool, r: Outcome)
      requires Valid() && h in user && n > 0
      modifies this`live, this`clock
      ensures Valid() && h in live && live[h].cursor == 0
      ensures live == old(live)[h := live[h]] && live[h].sql == old(live[h].sql)
      ensures var s := old(live[h]);
              if again then UserRun(oracle, old(clock), s.sql, s.bindings, params, n)
                         == UserRun(oracle, clock, s.sql, live[h].bindings, params, n - 1)
              else r == UserRun(oracle, old(clock), s.sql, s.bindings, params, n)
    {
      BindKeepsOutZero(oracle, live[h].sql, live[h].bindings, params, |params|);
      var ok := BindAll(h, params);
      if ok {
        var s := Step(h);
        r := ReplyOf(s);
        again := Transient(r.rc);
      } else {
        again, r := false, Threw;
      }
      ResetAfter(h, false);
      OkUser(old(live), cache, user, live, user, h);
    }

    /** close: every statement is finalized once and none is left live. */
    method Close()
      requires Valid()
      modifies this`live, this`user, this`cache
      ensures Valid() && live == map[] && user == {} && cache == Cache([], map[])
    {
      CloseUser();
      CloseCache();
    }

    method CloseUser()
      requires Valid()
      modifies this`live, this`user
      ensures Valid() && user == {}
    {
      while user != {}
        invariant Valid()
        decreases user
      {
        SomeMember(user);
        var h :| h in user;
        FinalizeUser(h);
      }
    }

    method CloseCache()
      requires SessionOk(live, cache, user) && user == {}
      modifies this`live, this`cache
      ensures live == map[] && cache == Cache([], map[])
    {
      var i := 0;
      while i < |cache.order|
        invariant 0 <= i <= |cache.order| && Distinct(cache.order)
        invariant LeftToClose(live, cache, i)
      {
        CloseStep(live, cache, i);
        Finalize(cache.handles[cache.order[i]]);
        i := i + 1;
      }
      assert cache.order[i..] == [];
      assert forall h :: h !in live;
      cache := Cache([], map[]);
    }
  }

  /** Exactly the statements of the keys from position i on are live. */
  ghost predicate LeftToClose(live: map<int, Stmt>, cache: Cache, i: nat)
    requires i <= |cache.order|
  {
    && (forall k :: k in cache.order[i..] ==> k in cache.handles && CachedOk(live, {}, k, cache.handles[k]))
    && (forall h :: h in live ==> live[h].sql in cache.order[i..] && cache.handles[live[h].sql] == h)
  }

  lemma CloseStep(live: map<int, Stmt>, cache: Cache, i: nat)
    requires i < |cache.order| && Distinct(cache.order) && LeftToClose(live, cache, i)
    ensures cache.order[i] in cache.handles && cache.handles[cache.order[i]] in live
    ensures LeftToClose(live - {cache.handles[cache.order[i]]}, cache, i + 1)
  {
    var k, rest := cache.order[i], cache.order[i + 1..];
    assert cache.order[i..] == [k] + rest;
    assert k !in rest;
    assert CachedOk(live, {}, k, cache.handles[k]);
    forall l | l in rest ensures CachedOk(live - {cache.handles[k]}, {}, l, cache.handles[l]) {
      assert CachedOk(live, {}, l, cache.handles[l]);
    }
  }

  /** After a failure the remaining parameters are not bound. */
  lemma {:induction false} BindStops(o: Oracle, sql: Sql, b: Bindings, params: seq<Value>, n: nat, m: nat)
    requires n <= m <= |params| && !BindFirst(o, sql, b, params, n).0
    ensures BindFirst(o, sql, b, params, m) == BindFirst(o, sql, b, params, n)
  {
    if n < m {
      BindStops(o, sql, b, params, n, m - 1);
    }
  }

  lemma {:induction false} BindKeepsOutZero(o: Oracle, sql: Sql, b: Bindings, params: seq<Value>, n: nat)
    requires n <= |params| && 0 !in b
    ensures 0 !in BindFirst(o, sql, b, params, n).1
  {
    if n > 0 {
      BindKeepsOutZero(o, sql, b, params, n - 1);
    }
  }
}
