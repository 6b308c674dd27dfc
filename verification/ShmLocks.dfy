/** The eight wal-index lock slots of one file, and the reader-writer locks they stand for. */
module ShmLocks {
  const OK := 0
  const BUSY := 5
  const SLOTS: nat := 8

  // ------------------------------------------------------------------ eight independent reader-writer locks

  datatype Hold = Hold(conn: int, exclusive: bool)

  /** Who holds a slot, and how. */
  type Slot = set<Hold>

  /** Holders from different connections are all readers. */
  ghost predicate Compatible(s: Slot) {
    forall a, b :: a in s && b in s && a.conn != b.conn ==> !a.exclusive && !b.exclusive
  }

  datatype Kind = Release | Exclusive | Shared

  /** The flag bits: UNLOCK = 1 first, then EXCLUSIVE = 8, and anything else asks for SHARED. */
  function KindOf(flags: int): Kind {
    if flags % 2 == 1 then Release else if (flags / 8) % 2 == 1 then Exclusive else Shared
  }

  /** The flag combinations of xShmLock: UNLOCK 1 with anything, LOCK 2 with EXCLUSIVE 8, LOCK 2 with SHARED 4. */
  lemma KindsOfFlags(x: int, y: int, low: int)
    requires low == 0 || low == 2 || low == 4 || low == 6
    ensures KindOf(2 * x + 1) == Release
    ensures KindOf(2 + 8) == Exclusive && KindOf(2 + 4) == Shared
    ensures KindOf(16 * y + 8 + low) == Exclusive && KindOf(16 * y + low) == Shared
  {
    assert (2 * x + 1) % 2 == 1;
    var z := 8 * y + low / 2;
    assert low == 2 * (low / 2);
    assert 16 * y + low == 2 * z && (2 * z) % 2 == 0;
    assert 16 * y + 8 + low == 2 * (z + 4) && (2 * (z + 4)) % 2 == 0;
    EighthOf(2 * y + 1, low);
    EighthOf(2 * y, low);
    assert (2 * y + 1) % 2 == 1 && (2 * y) % 2 == 0;
  }

  lemma EighthOf(q: int, low: int)
    requires 0 <= low < 8
    ensures (8 * q + low) / 8 == q
  {
    var d := (8 * q + low) / 8 - q;
    assert 8 * d == low - (8 * q + low) % 8;
  }

  ghost function Without(s: Slot, conn: int): Slot {
    set h | h in s && h.conn != conn
  }

  ghost function Granted(s: Slot, conn: int, kind: Kind): Slot {
    match kind
    case Release => Without(s, conn)
    case Exclusive => Without(s, conn) + {Hold(conn, true)}
    case Shared => s + {Hold(conn, false)}
  }

  datatype Op = Lock(conn: int, offset: int, n: int, kind: Kind) | Unmap(conn: int)

  predicate InRange(op: Op) {
    op.Lock? && op.n > 0 ==> 0 <= op.offset && op.offset + op.n <= SLOTS
  }

  predicate Touches(op: Op, k: int) {
    op.Unmap? || op.offset <= k < op.offset + op.n
  }

  function KindIn(op: Op): Kind {
    if op.Unmap? then Release else op.kind
  }

  /** A request is granted when every slot it touches stays a legal reader-writer lock. */
  ghost predicate Grantable(t: seq<Slot>, op: Op) {
    forall k :: 0 <= k < |t| && Touches(op, k) ==> Compatible(Granted(t[k], op.conn, KindIn(op)))
  }

  ghost function SlotStep(s: Slot, op: Op, k: int): Slot {
    if Touches(op, k) then Granted(s, op.conn, KindIn(op)) else s
  }

  ghost function Apply(t: seq<Slot>, op: Op): (r: seq<Slot>)
    ensures |r| == |t|
  {
    if Grantable(t, op) then seq(|t|, k requires 0 <= k < |t| => SlotStep(t[k], op, k)) else t
  }

  ghost function Run(t: seq<Slot>, ops: seq<Op>): (r: seq<Slot>)
    ensures |r| == |t|
    decreases |ops|
  {
    if ops == [] then t else Run(Apply(t, ops[0]), ops[1..])
  }

  ghost predicate AllCompatible(t: seq<Slot>) {
    forall k :: 0 <= k < |t| ==> Compatible(t[k])
  }

  /** Over every run, an exclusive holder of a slot is its only holder. */
  lemma {:induction false} RunCompatible(t: seq<Slot>, ops: seq<Op>)
    requires AllCompatible(t)
    ensures AllCompatible(Run(t, ops))
    decreases |ops|
  {
    if ops != [] {
      RunCompatible(Apply(t, ops[0]), ops[1..]);
    }
  }

  /** The operations of a run that were granted. */
  ghost function GrantedOps(t: seq<Slot>, ops: seq<Op>): seq<Op>
    decreases |ops|
  {
    if ops == [] then []
    else (if Grantable(t, ops[0]) then [ops[0]] else []) + GrantedOps(Apply(t, ops[0]), ops[1..])
  }

  /** One slot on its own. */
  ghost function SlotRun(s: Slot, ops: seq<Op>, k: int): Slot
    decreases |ops|
  {
    if ops == [] then s else SlotRun(SlotStep(s, ops[0], k), ops[1..], k)
  }

  /**
   * The slots are independent: each ends as if it had run alone through the granted requests, and
   * a refused request left no trace anywhere.
   */
  lemma {:induction false} SlotsIndependent(t: seq<Slot>, ops: seq<Op>, k: nat)
    requires k < |t|
    ensures Run(t, ops)[k] == SlotRun(t[k], GrantedOps(t, ops), k)
    decreases |ops|
  {
    if ops != [] {
      var u, rest := Apply(t, ops[0]), GrantedOps(Apply(t, ops[0]), ops[1..]);
      SlotsIndependent(u, ops[1..], k);
      if Grantable(t, ops[0]) {
        assert ([ops[0]] + rest)[1..] == rest;
      } else {
        assert [] + rest == rest;
      }
    }
  }

  /** Releasing is always granted, so an unmap always erases the connection and no one else. */
  lemma UnmapErases(t: seq<Slot>, conn: int, h: Hold, k: nat)
    requires AllCompatible(t) && k < |t|
    ensures h in Apply(t, Unmap(conn))[k] <==> h in t[k] && h.conn != conn
  {
    forall j | 0 <= j < |t| && Touches(Unmap(conn), j) ensures Compatible(Granted(t[j], conn, Release)) {
      assert Compatible(t[j]);
    }
  }

  // ------------------------------------------------------------------ the implementation's slot

  /** A slot as stored: the set of sharers and the exclusive holder, -1 when there is none. */
  ghost function SlotOf(readers: set<int>, writer: int): Slot {
    (set c | c in readers :: Hold(c, false)) + (if writer == -1 then {} else {Hold(writer, true)})
  }

  /** The test the code makes before it grants. */
  predicate Free(readers: set<int>, writer: int, conn: int, kind: Kind) {
    && (kind != Release ==> writer == -1 || writer == conn)
    && (kind == Exclusive ==> forall c :: c in readers ==> c == conn)
  }

  function ReadersAfter(readers: set<int>, conn: int, kind: Kind): set<int> {
    if kind == Shared then readers + {conn} else readers - {conn}
  }

  function WriterAfter(writer: int, conn: int, kind: Kind): int {
    match kind
    case Release => if writer == conn then -1 else writer
    case Exclusive => conn
    case Shared => writer
  }

  /** The code's test is the reader-writer rule. */
  lemma FreeIff(readers: set<int>, writer: int, conn: int, kind: Kind)
    requires Compatible(SlotOf(readers, writer)) && conn != -1
    ensures Free(readers, writer, conn, kind) <==> Compatible(Granted(SlotOf(readers, writer), conn, kind))
  {
    var s := SlotOf(readers, writer);
    var g := Granted(s, conn, kind);
    assert forall c :: Hold(c, false) in s <==> c in readers;
    assert forall c :: Hold(c, true) in s <==> c == writer != -1;
    if Free(readers, writer, conn, kind) {
      forall a, b | a in g && b in g && a.conn != b.conn ensures !a.exclusive && !b.exclusive {
        assert a == Hold(a.conn, a.exclusive) && b == Hold(b.conn, b.exclusive);
      }
    } else if writer != -1 && writer != conn && kind != Release {
      assert Hold(writer, true) in g && Hold(conn, kind == Exclusive) in g;
    } else {
      var c :| c in readers && c != conn;
      assert Hold(c, false) in g && Hold(conn, true) in g;
    }
  }

  /** And its update is the reader-writer update. */
  lemma AfterIs(readers: set<int>, writer: int, conn: int, kind: Kind)
    requires Free(readers, writer, conn, kind) && conn != -1
    ensures SlotOf(ReadersAfter(readers, conn, kind), WriterAfter(writer, conn, kind)) == Granted(SlotOf(readers, writer), conn, kind)
  {
    var s, r := SlotOf(readers, writer), SlotOf(ReadersAfter(readers, conn, kind), WriterAfter(writer, conn, kind));
    forall h ensures h in r <==> h in Granted(s, conn, kind) {
      assert h == Hold(h.conn, h.exclusive);
      assert h in s <==> if h.exclusive then h.conn == writer != -1 else h.conn in readers;
    }
  }

  ghost function SlotsOf(shared: seq<set<int>>, excl: seq<int>): (t: seq<Slot>)
    requires |shared| == |excl|
    ensures |t| == |shared|
  {
    seq(|shared|, k requires 0 <= k < |shared| => SlotOf(shared[k], excl[k]))
  }

  /** What a request leaves in the stored tables once it is granted. */
  ghost predicate Updated(shared: seq<set<int>>, excl: seq<int>, shared': seq<set<int>>, excl': seq<int>, op: Op) {
    && |shared| == |excl| == |shared'| == |excl'|
    && forall k :: 0 <= k < |shared| ==>
         && shared'[k] == (if Touches(op, k) then ReadersAfter(shared[k], op.conn, KindIn(op)) else shared[k])
         && excl'[k] == (if Touches(op, k) then WriterAfter(excl[k], op.conn, KindIn(op)) else excl[k])
  }

  ghost predicate FreeAll(shared: seq<set<int>>, excl: seq<int>, op: Op)
    requires |shared| == |excl|
  {
    forall k :: 0 <= k < |shared| && Touches(op, k) ==> Free(shared[k], excl[k], op.conn, KindIn(op))
  }

  lemma FreeAllIff(shared: seq<set<int>>, excl: seq<int>, op: Op)
    requires |shared| == |excl| && op.conn != -1 && AllCompatible(SlotsOf(shared, excl))
    ensures FreeAll(shared, excl, op) <==> Grantable(SlotsOf(shared, excl), op)
  {
    var t := SlotsOf(shared, excl);
    forall k | 0 <= k < |t| ensures Free(shared[k], excl[k], op.conn, KindIn(op)) <==> Compatible(Granted(t[k], op.conn, KindIn(op))) {
      assert Compatible(t[k]);
      FreeIff(shared[k], excl[k], op.conn, KindIn(op));
    }
  }

  lemma UpdatedIs(shared: seq<set<int>>, excl: seq<int>, shared': seq<set<int>>, excl': seq<int>, op: Op)
    requires Updated(shared, excl, shared', excl', op) && op.conn != -1
    requires AllCompatible(SlotsOf(shared, excl)) && FreeAll(shared, excl, op)
    ensures SlotsOf(shared', excl') == Apply(SlotsOf(shared, excl), op)
  {
    var t, r := SlotsOf(shared, excl), SlotsOf(shared', excl');
    FreeAllIff(shared, excl, op);
    forall k | 0 <= k < |t| ensures r[k] == SlotStep(t[k], op, k) {
      if Touches(op, k) {
        AfterIs(shared[k], excl[k], op.conn, KindIn(op));
      }
    }
  }

  // ------------------------------------------------------------------ the lock table of one file

  class ShmLockTable {
    const shared: array<set<int>>
    const excl: array<int>

    ghost predicate Shape()
      reads this
    {
      shared.Length == excl.Length == SLOTS
    }

    ghost function View(): (t: seq<Slot>)
      requires Shape()
      reads this, shared, excl
    {
      SlotsOf(shared[..], excl[..])
    }

    ghost predicate Valid()
      reads this, shared, excl
    {
      Shape() && AllCompatible(View())
    }

    constructor ()
      ensures Valid() && fresh(shared) && fresh(excl)
      ensures |View()| == 8 && forall k :: 0 <= k < 8 ==> View()[k] == {}
    {
      shared := new set<int>[SLOTS](_ => {});
      excl := new int[SLOTS](_ => -1);
    }

    /** The multi-slot request is one step of the eight locks: all slots or none, BUSY exactly when some slot refuses. */
    method ShmLock(conn: int, offset: int, n: int, flags: int) returns (rc: int)
      requires Valid() && conn != -1 && InRange(Lock(conn, offset, n, KindOf(flags)))
      modifies shared, excl
      ensures Valid() && View() == Apply(old(View()), Lock(conn, offset, n, KindOf(flags)))
      ensures rc == if Grantable(old(View()), Lock(conn, offset, n, KindOf(flags))) then 0 else 5
    {
      ghost var op, was, had := Lock(conn, offset, n, KindOf(flags)), shared[..], excl[..];
      RunCompatible(View(), [op]);
      assert Run(View(), [op]) == Apply(View(), op);
      FreeAllIff(was, had, op);
      if KindOf(flags) != Release {
        var ok := Check(conn, offset, n, KindOf(flags));
        if !ok {
          return BUSY;
        }
      }
      UpdateSlots(conn, offset, n, KindOf(flags));
      UpdatedIs(was, had, shared[..], excl[..], op);
      return OK;
    }

    /** The first loop: look at every slot before changing any. */
    method Check(conn: int, offset: int, n: int, kind: Kind) returns (ok: bool)
      requires Shape() && InRange(Lock(conn, offset, n, kind))
      ensures ok == FreeAll(shared[..], excl[..], Lock(conn, offset, n, kind))
    {
      var s := offset;
      while s < offset + n
        invariant s == offset || offset <= s <= offset + n
        invariant forall k :: offset <= k < s ==> 0 <= k < SLOTS && Free(shared[k], excl[k], conn, kind)
      {
        if !Free(shared[s], excl[s], conn, kind) {
          assert Touches(Lock(conn, offset, n, kind), s) && shared[..][s] == shared[s];
          return false;
        }
        s := s + 1;
      }
      return true;
    }

    method UpdateSlots(conn: int, offset: int, n: int, kind: Kind)
      requires Shape() && InRange(Lock(conn, offset, n, kind))
      modifies shared, excl
      ensures Updated(old(shared[..]), old(excl[..]), shared[..], excl[..], Lock(conn, offset, n, kind))
    {
      ghost var was, had := shared[..], excl[..];
      var s := offset;
      while s < offset + n
        invariant s == offset || offset <= s <= offset + n
        invariant forall k :: 0 <= k < SLOTS ==> shared[k] == if offset <= k < s then ReadersAfter(was[k], conn, kind) else was[k]
        invariant forall k :: 0 <= k < SLOTS ==> excl[k] == if offset <= k < s then WriterAfter(had[k], conn, kind) else had[k]
      {
        shared[s] := ReadersAfter(shared[s], conn, kind);
        excl[s] := WriterAfter(excl[s], conn, kind);
        s := s + 1;
      }
    }

    /** Afterwards the connection holds nothing, and every other holding is as before. */
    method ShmUnmap(conn: int) returns (rc: int)
      requires Valid() && conn != -1
      modifies shared, excl
      ensures Valid() && rc == 0 && View() == Apply(old(View()), Unmap(conn))
    {
      ghost var was, had := shared[..], excl[..];
      RunCompatible(View(), [Unmap(conn)]);
      assert Run(View(), [Unmap(conn)]) == Apply(View(), Unmap(conn));
      UpdateSlots(conn, 0, SLOTS, Release);
      UpdatedIs(was, had, shared[..], excl[..], Unmap(conn));
      return OK;
    }
  }
}
