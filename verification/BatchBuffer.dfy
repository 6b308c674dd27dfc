/**
 * The parameter buffer of a prepared statement: one growing array that holds the rows added to the
 * batch, followed by the row being filled in.
 */
module BatchBuffer {
  import opened Common
  import opened Layout

  datatype Value = Null | Val(n: int)

  type Row = seq<Value>

  function Nulls(n: nat): (r: Row)
    ensures |r| == n && forall i :: 0 <= i < n ==> r[i] == Null
  {
    seq(n, _ => Null)
  }

  // ------------------------------------------------------------------ the row log

  /** The rows of the batch, and the parameters as they stand now. */
  datatype Log = Log(rows: seq<Row>, current: Row)

  datatype Op = Set(pos: int, v: Value) | ClearParameters | AddBatch | ClearBatch

  predicate InRange(op: Op, params: nat) {
    op.Set? ==> 1 <= op.pos <= params
  }

  function Apply(s: Log, op: Op): Log
    requires InRange(op, |s.current|)
  {
    match op
    case Set(pos, v) => s.(current := s.current[pos - 1 := v])
    case ClearParameters => s.(current := Nulls(|s.current|))
    case AddBatch => s.(rows := s.rows + [s.current])
    case ClearBatch => Log([], Nulls(|s.current|))
  }

  predicate AllInRange(ops: seq<Op>, params: nat) {
    forall i :: 0 <= i < |ops| ==> InRange(ops[i], params)
  }

  /** The log after the first n operations of a run. */
  function After(ops: seq<Op>, params: nat, n: nat): (s: Log)
    requires AllInRange(ops, params) && n <= |ops|
    ensures |s.current| == params
  {
    if n == 0 then Log([], Nulls(params)) else Apply(After(ops, params, n - 1), ops[n - 1])
  }

  /** Positions of the first n operations' addBatch calls since the last clearBatch among them. */
  function Adds(ops: seq<Op>, n: nat): (r: seq<nat>)
    requires n <= |ops|
    ensures forall k :: 0 <= k < |r| ==> r[k] < n && ops[r[k]].AddBatch?
  {
    if n == 0 then []
    else if ops[n - 1].ClearBatch? then []
    else if ops[n - 1].AddBatch? then Adds(ops, n - 1) + [n - 1]
    else Adds(ops, n - 1)
  }

  /**
   * Over every run, row k is the parameters exactly as they stood at the k-th addBatch since the
   * batch was last cleared: nothing done later reaches back into it.
   */
  lemma {:induction false} RowsAreSnapshots(ops: seq<Op>, params: nat, n: nat)
    requires AllInRange(ops, params) && n <= |ops|
    ensures |After(ops, params, n).rows| == |Adds(ops, n)|
    ensures forall k :: 0 <= k < |Adds(ops, n)| ==> After(ops, params, n).rows[k] == After(ops, params, Adds(ops, n)[k]).current
  {
    if n > 0 {
      RowsAreSnapshots(ops, params, n - 1);
    }
  }

  /** The row execute() binds: the first pending one, or the current parameters when none is pending. */
  function ExecuteRow(s: Log): Row {
    if s.rows == [] then s.current else s.rows[0]
  }

  /** With one row pending, parameters set afterwards are not what execute() runs. */
  lemma PendingRowIsExecuted(a: Value, b: Value)
    requires a != b
    ensures var s := After([Set(1, a), AddBatch, Set(1, b)], 1, 3);
            s.current == [b] && ExecuteRow(s) == [a] && ExecuteRow(s) != s.current
  {
    var ops := [Set(1, a), AddBatch, Set(1, b)];
    assert After(ops, 1, 1).current == [a];
    assert After(ops, 1, 2) == Log([[a]], [a]);
  }

  // ------------------------------------------------------------------ rows laid end to end

  /** The rows with cell number i, counted across all of them, overwritten. */
  function Overwrite(rows: seq<Row>, params: nat, i: nat, v: Value): (r: seq<Row>)
    requires params > 0
  {
    if i / params < |rows| && i % params < |rows[i / params]|
    then rows[i / params := rows[i / params][i % params := v]]
    else rows
  }

  lemma SetInLast(f: Row, last: Row, j: nat, v: Value)
    requires j < |last|
    ensures f + last[j := v] == (f + last)[|f| + j := v]
  {}

  lemma SetInFirst(f: Row, last: Row, i: nat, v: Value)
    requires i < |f|
    ensures f[i := v] + last == (f + last)[i := v]
  {}

  /** Overwriting one cell of one row overwrites one cell of the layout. */
  lemma {:induction false} FlatUpdate(rows: seq<Row>, params: nat, k: nat, j: nat, v: Value)
    requires Wide(rows, params) && k < |rows| && j < params
    ensures k * params + j < |Flat(rows)|
    ensures Flat(rows[k := rows[k][j := v]]) == Flat(rows)[k * params + j := v]
    decreases |rows|
  {
    FlatAt(rows, params, k, j);
    var n := |rows| - 1;
    var init, last, t := rows[..n], rows[n], rows[k := rows[k][j := v]];
    FlatLength(init, params);
    if k == n {
      assert t[..n] == init;
      SetInLast(Flat(init), last, j, v);
    } else {
      assert t[..n] == init[k := init[k][j := v]] && t[n] == last;
      FlatUpdate(init, params, k, j, v);
      SetInFirst(Flat(init), last, k * params + j, v);
    }
  }

  lemma CellOf(i: nat, params: nat, count: nat)
    requires params > 0 && i < count * params
    ensures 0 <= i / params < count && 0 <= i % params < params && i == (i / params) * params + i % params
  {
    var q := i / params;
    assert q >= count ==> q * params >= count * params;
  }

  lemma UpdateCell(rows: seq<Row>, params: nat, k: nat, j: nat, v: Value)
    requires Wide(rows, params) && k < |rows| && j < params
    ensures var t := rows[k := rows[k][j := v]];
            Wide(t, params) && (t == rows <==> rows[k][j] == v)
  {
    var t := rows[k := rows[k][j := v]];
    assert t[k][j] == v;
    if rows[k][j] == v {
      assert rows[k][j := v] == rows[k];
    }
  }

  lemma OverwriteFlat(rows: seq<Row>, params: nat, i: nat, v: Value)
    requires Wide(rows, params) && params > 0 && i < |Flat(rows)|
    ensures Wide(Overwrite(rows, params, i, v), params)
    ensures Flat(Overwrite(rows, params, i, v)) == Flat(rows)[i := v]
    ensures Overwrite(rows, params, i, v) == rows <==> Flat(rows)[i] == v
  {
    FlatLength(rows, params);
    CellOf(i, params, |rows|);
    var k, j := i / params, i % params;
    assert Overwrite(rows, params, i, v) == rows[k := rows[k][j := v]];
    FlatAt(rows, params, k, j);
    FlatUpdate(rows, params, k, j, v);
    UpdateCell(rows, params, k, j, v);
  }

  lemma NoRowsNoCells(rows: seq<Row>, params: nat)
    requires Wide(rows, params) && Flat(rows) != []
    ensures params > 0
  {
    FlatLength(rows, params);
  }

  // ------------------------------------------------------------------ the engine, as seen by a batch

  const SQLITE_OK := 0
  const SQLITE_DONE := 101

  /** Result codes of binding a value at a position and of stepping with a full row bound. */
  datatype Engine = Engine(bind: (nat, int, Value) -> int, step: (nat, Row) -> int)

  ghost predicate BindsGood(e: Engine, i: nat, row: Row) {
    forall j :: 0 <= j < |row| ==> e.bind(i, j + 1, row[j]) == SQLITE_OK
  }

  ghost predicate RowGood(e: Engine, i: nat, row: Row) {
    BindsGood(e, i, row) && e.step(i, row) == SQLITE_DONE
  }

  /** The first row from i on that fails, or the number of rows. */
  ghost function FirstBad(e: Engine, rows: seq<Row>, i: nat): (k: nat)
    requires i <= |rows|
    ensures i <= k <= |rows| && (forall j :: i <= j < k ==> RowGood(e, j, rows[j])) && (k < |rows| ==> !RowGood(e, k, rows[k]))
    decreases |rows| - i
  {
    if i == |rows| || !RowGood(e, i, rows[i]) then i else FirstBad(e, rows, i + 1)
  }

  /** Row k is the first bad one: before it every bind answered 0 and every step 101, and it fails one of its own. */
  lemma FirstBadIff(e: Engine, rows: seq<Row>, k: nat)
    requires k < |rows|
    ensures FirstBad(e, rows, 0) == k <==>
              && (forall i, j :: 0 <= i < k && 0 <= j < |rows[i]| ==> e.bind(i, j + 1, rows[i][j]) == 0)
              && (forall i :: 0 <= i < k ==> e.step(i, rows[i]) == 101)
              && ((exists j :: 0 <= j < |rows[k]| && e.bind(k, j + 1, rows[k][j]) != 0) || e.step(k, rows[k]) != 101)
  {
    assert forall i :: 0 <= i < k ==>
        (RowGood(e, i, rows[i]) <==> (forall j :: 0 <= j < |rows[i]| ==> e.bind(i, j + 1, rows[i][j]) == 0) && e.step(i, rows[i]) == 101);
    var b := FirstBad(e, rows, 0);
    if b > k {
      assert RowGood(e, k, rows[k]);
    }
  }

  /** The bad row is stepped too exactly when it is not a bind that failed; a batch without bad rows is stepped whole. */
  lemma SteppedIs(e: Engine, rows: seq<Row>)
    ensures var k := FirstBad(e, rows, 0);
            && (k == |rows| ==> Stepped(e, rows) == rows)
            && (k < |rows| && (forall j :: 0 <= j < |rows[k]| ==> e.bind(k, j + 1, rows[k][j]) == 0) ==> Stepped(e, rows) == rows[..k + 1])
            && (k < |rows| && (exists j :: 0 <= j < |rows[k]| && e.bind(k, j + 1, rows[k][j]) != 0) ==> Stepped(e, rows) == rows[..k])
  {}

  /** What is stepped: every row before the first bad one, and that one too if its binding succeeds. */
  ghost function Stepped(e: Engine, rows: seq<Row>): seq<Row> {
    var k := FirstBad(e, rows, 0);
    rows[..if k < |rows| && BindsGood(e, k, rows[k]) then k + 1 else k]
  }

  // ------------------------------------------------------------------ the statement object

  class PreparedBatch {
    const params: nat
    var batch: array?<Value>
    var pos: nat
    var count: nat
    ghost var rows: seq<Row>

    ghost predicate Valid()
      reads this, batch
    {
      && Wide(rows, params) && |rows| == count && pos == |Flat(rows)|
      && (batch == null ==> rows == [])
      && (batch != null ==> pos + params <= batch.Length && batch[..pos] == Flat(rows))
    }

    ghost function Current(): (r: Row)
      requires Valid()
      reads this, batch
      ensures |r| == params
    {
      if batch == null then Nulls(params) else batch[pos..pos + params]
    }

    ghost function View(): (s: Log)
      requires Valid()
      reads this, batch
      ensures |s.current| == params
    {
      Log(rows, Current())
    }

    constructor (params: nat)
      ensures Valid() && this.params == params && batch == null && View() == After([], params, 0)
    {
      this.params, batch, pos, count, rows := params, null, 0, 0, [];
    }

    /** Allocate the array on first use. */
    method EnsureArray()
      requires Valid()
      modifies this`batch
      ensures Valid() && View() == old(View()) && batch != null
      ensures if old(batch) == null then fresh(batch) && batch.Length == params else batch == old(batch)
    {
      if batch == null {
        batch := new Value[params](_ => Null);
        assert batch[0..params] == Nulls(params);
      }
    }

    /**
     * batch(pos, value), with any position. A position of the statement sets that parameter; one
     * beyond them is lost, one below 1 rewrites a cell of a row already in the batch, and one outside
     * the array throws.
     */
    method SetParam(p: int, v: Value) returns (ok: bool)
      requires Valid()
      modifies this, batch
      ensures Valid() && batch != null && (if old(batch) == null then fresh(batch) else batch == old(batch))
      ensures ok <==> 0 <= old(pos) + p - 1 < batch.Length
      ensures 1 <= p <= params ==> ok && View() == Apply(old(View()), Set(p, v))
      ensures 1 <= p <= params ==>
                rows == old(rows) && Current()[p - 1] == v && forall j :: 0 <= j < params && j != p - 1 ==> Current()[j] == old(Current())[j]
      ensures !ok || p > params ==> View() == old(View())
      ensures ok && p < 1 ==> params > 0 && View() == Log(Overwrite(old(rows), params, old(pos) + p - 1, v), old(Current()))
    {
      EnsureArray();
      var i := pos + p - 1;
      if !(0 <= i < batch.Length) {
        return false;
      }
      if p < 1 {
        SetBefore(i, v);
      } else if p <= params {
        SetWithin(p, v);
      } else {
        SetBehind(i, v);
      }
      return true;
    }

    method SetWithin(p: nat, v: Value)
      requires Valid() && batch != null && 1 <= p <= params
      modifies batch
      ensures Valid() && View() == Apply(old(View()), Set(p, v))
    {
      ghost var cells := batch[..];
      batch[pos + p - 1] := v;
      assert batch[..pos] == cells[..pos];
      assert Current() == cells[pos..pos + params][p - 1 := v];
    }

    method SetBehind(i: nat, v: Value)
      requires Valid() && batch != null && pos + params <= i < batch.Length
      modifies batch
      ensures Valid() && View() == old(View())
    {
      ghost var cells := batch[..];
      batch[i] := v;
      assert batch[..pos] == cells[..pos] && batch[pos..pos + params] == cells[pos..pos + params];
    }

    /** A cell of an earlier row changes; the log is left alone only when the value was there already. */
    method SetBefore(i: nat, v: Value)
      requires Valid() && batch != null && i < pos
      modifies this`rows, batch
      ensures params > 0 && Valid() && View() == Log(Overwrite(old(rows), params, i, v), old(Current()))
      ensures rows == old(rows) <==> old(batch[i]) == v
    {
      ghost var cells := batch[..];
      assert Flat(rows)[i] == cells[i];
      NoRowsNoCells(rows, params);
      OverwriteFlat(rows, params, i, v);
      batch[i] := v;
      assert batch[..pos] == cells[..pos][i := v];
      assert batch[pos..pos + params] == cells[pos..pos + params];
      rows := Overwrite(rows, params, i, v);
    }

    method ClearParams()
      requires Valid()
      modifies batch
      ensures Valid() && View() == Apply(old(View()), ClearParameters)
    {
      if batch != null {
        var i := pos;
        while i < pos + params
          invariant pos <= i <= pos + params
          invariant batch[..pos] == old(batch[..pos])
          invariant forall k :: pos <= k < i ==> batch[k] == Null
        {
          batch[i] := Null;
          i := i + 1;
        }
        assert Current() == Nulls(params);
      }
    }

    /** The doubling always leaves room for the next row. */
    method AddRow()
      requires Valid()
      modifies this, batch
      ensures Valid() && View() == Apply(old(View()), AddBatch)
      ensures batch != null && (batch == old(batch) || fresh(batch))
    {
      EnsureRoom();
      AppendRow();
    }

    method AppendRow()
      requires Valid() && batch != null && pos + params + params <= batch.Length
      modifies this`pos, this`count, this`rows, batch
      ensures Valid() && rows == old(rows) + [old(Current())] && Current() == old(Current())
    {
      ghost var row := batch[pos..pos + params];
      var next := pos + params;
      CopyRow(batch, pos, next, next + params);
      FlatAppend(rows, row);
      pos, count, rows := next, count + 1, rows + [row];
    }

    /** Allocate on first use and double when one more row would not fit: the contents stay. */
    method EnsureRoom()
      requires Valid()
      modifies this`batch
      ensures Valid() && View() == old(View()) && batch != null && pos + params + params <= batch.Length
      ensures batch == old(batch) || fresh(batch)
    {
      EnsureArray();
      if pos + params + params > batch.Length {
        Grow();
      }
    }

    method Grow()
      requires Valid() && batch != null
      modifies this`batch
      ensures Valid() && View() == old(View()) && fresh(batch) && batch.Length == 2 * old(batch.Length)
    {
      var nb := Doubled(batch);
      ghost var end := pos + params;
      assert nb[..pos] == batch[..pos] && nb[pos..end] == batch[pos..end];
      batch := nb;
    }

    method ClearAll()
      requires Valid()
      modifies this, batch
      ensures Valid() && View() == Apply(old(View()), ClearBatch) && batch == old(batch)
    {
      if batch != null {
        FillNull(batch);
        assert batch[0..params] == Nulls(params);
      }
      pos, count, rows := 0, 0, [];
    }

    /**
     * executeLargeBatch: nothing happens to an empty batch, or when enforcing the transaction mode
     * throws; otherwise rows run up to the first bad one, and the batch is cleared either way.
     */
    method ExecuteBatch(e: Engine, enforced: bool) returns (ok: bool, stepped: seq<Row>)
      requires Valid()
      modifies this, batch
      ensures Valid() && View() == if old(rows) == [] || !enforced then old(View()) else Apply(old(View()), ClearBatch)
      ensures old(rows) == [] ==> ok && stepped == []
      ensures old(rows) != [] && !enforced ==> !ok && stepped == []
      ensures old(rows) != [] && enforced ==> stepped == Stepped(e, old(rows)) && (ok <==> FirstBad(e, old(rows), 0) == |old(rows)|)
    {
      if count == 0 {
        return true, [];
      }
      if !enforced {
        return false, [];
      }
      ok, stepped := RunRows(e);
      ClearAll();
    }

    /** The nested loops: every step runs with exactly the next logged row bound, up to the first bad row. */
    method RunRows(e: Engine) returns (ok: bool, stepped: seq<Row>)
      requires Valid()
      ensures stepped == Stepped(e, rows) && (ok <==> FirstBad(e, rows, 0) == |rows|)
    {
      ok, stepped := true, [];
      var bound := Nulls(params);
      var i := 0;
      while i < count
        invariant 0 <= i <= count && |bound| == params && stepped == rows[..i] && ok
        invariant FirstBad(e, rows, 0) == FirstBad(e, rows, i)
      {
        ok, bound := BindRow(e, i, bound);
        if !ok {
          return;
        }
        stepped := stepped + [bound];
        assert stepped == rows[..i + 1];
        if e.step(i, bound) != SQLITE_DONE {
          return false, stepped;
        }
        assert RowGood(e, i, rows[i]);
        i := i + 1;
      }
      assert rows[..count] == rows;
    }

    /** vals[(i * params) + j]. */
    method Cell(i: nat, j: nat) returns (v: Value)
      requires Valid() && i < count && j < params
      ensures v == rows[i][j]
    {
      FlatAt(rows, params, i, j);
      v := batch[i * params + j];
      assert v == batch[..pos][i * params + j];
    }

    /** Rebinding covers every position, so nothing of an earlier row is left. */
    method BindRow(e: Engine, i: nat, before: Row) returns (ok: bool, bound: Row)
      requires Valid() && i < count && |before| == params
      ensures |bound| == params
      ensures ok <==> BindsGood(e, i, rows[i])
      ensures ok ==> bound == rows[i]
    {
      bound := before;
      var j := 0;
      while j < params
        invariant 0 <= j <= params && |bound| == params
        invariant forall k :: 0 <= k < j ==> e.bind(i, k + 1, rows[i][k]) == SQLITE_OK && bound[k] == rows[i][k]
      {
        var v := Cell(i, j);
        if e.bind(i, j + 1, v) != SQLITE_OK {
          return false, bound;
        }
        bound := bound[j := v];
        j := j + 1;
      }
      return true, bound;
    }

    /**
     * execute() binds from the start of the array, so with rows pending it runs the first of them:
     * the parameters just set are used exactly when the batch is empty or its first row equals them.
     */
    method BoundByExecute() returns (bound: Option<Row>)
      requires Valid()
      ensures bound == if batch == null then None else Some(ExecuteRow(View()))
      ensures bound.Some? ==> (bound.value == Current() <==> rows == [] || rows[0] == Current())
    {
      if batch == null {
        return None;
      }
      if rows == [] {
        assert batch[..params] == Current();
      } else {
        forall j | 0 <= j < params ensures batch[j] == rows[0][j] {
          FlatAt(rows, params, 0, j);
          assert batch[..pos][j] == Flat(rows)[0 * params + j];
        }
        assert batch[..params] == rows[0];
      }
      return Some(batch[..params]);
    }
  }

  method Doubled(a: array<Value>) returns (b: array<Value>)
    ensures fresh(b) && b.Length == 2 * a.Length && forall k :: 0 <= k < a.Length ==> b[k] == a[k]
  {
    b := new Value[2 * a.Length](_ => Null);
    var i := 0;
    while i < a.Length
      invariant 0 <= i <= a.Length && forall k :: 0 <= k < i ==> b[k] == a[k]
    {
      b[i] := a[i];
      i := i + 1;
    }
  }

  method FillNull(a: array<Value>)
    modifies a
    ensures forall k :: 0 <= k < a.Length ==> a[k] == Null
  {
    var i := 0;
    while i < a.Length
      invariant 0 <= i <= a.Length
      invariant forall k :: 0 <= k < i ==> a[k] == Null
    {
      a[i] := Null;
      i := i + 1;
    }
  }

  /** arraycopy of a[from..to] to the place right behind it. */
  method CopyRow(a: array<Value>, from: nat, to: nat, end: nat)
    requires from <= to <= end <= a.Length && end - to == to - from
    modifies a
    ensures a[..to] == old(a[..from]) + old(a[from..to])
    ensures a[to..end] == old(a[from..to])
  {
    var i := 0;
    while i < to - from
      invariant 0 <= i <= to - from
      invariant a[..to] == old(a[..to])
      invariant a[to..to + i] == old(a[from..from + i])
    {
      a[to + i] := a[from + i];
      i := i + 1;
    }
    assert old(a[..to]) == old(a[..from]) + old(a[from..to]);
  }
}
