/** The in-memory file locks of one database file: a level per connection. */
module FileLocks {
  const OK := 0
  const BUSY := 5

  const NONE := 0
  const SHARED := 1
  const RESERVED := 2
  const PENDING := 3
  const EXCLUSIVE := 4

  /** Connection to level; an absent connection holds nothing. */
  type Levels = map<int, int>

  function LevelOf(s: Levels, conn: int): int {
    if conn in s then s[conn] else NONE
  }

  predicate OthersAtLeast(s: Levels, conn: int, level: int) {
    exists c :: c in s && c != conn && s[c] >= level
  }

  predicate Blocked(s: Levels, conn: int, target: int) {
    if target == SHARED then OthersAtLeast(s, conn, PENDING)
    else if target == RESERVED then OthersAtLeast(s, conn, RESERVED)
    else if target == PENDING then OthersAtLeast(s, conn, PENDING)
    else if target == EXCLUSIVE then OthersAtLeast(s, conn, SHARED)
    else false
  }

  datatype Op = Lock(conn: int, target: int) | Unlock(conn: int, target: int)

  function Reply(s: Levels, op: Op): int {
    if op.Lock? && LevelOf(s, op.conn) < op.target && Blocked(s, op.conn, op.target) then BUSY else OK
  }

  function Apply(s: Levels, op: Op): Levels {
    match op
    case Lock(conn, target) =>
      if LevelOf(s, conn) >= target || Blocked(s, conn, target) then s else s[conn := target]
    case Unlock(conn, target) =>
      if target <= NONE then s - {conn} else s[conn := target]
  }

  function Run(s: Levels, ops: seq<Op>): Levels
    decreases |ops|
  {
    if ops == [] then s else Run(Apply(s, ops[0]), ops[1..])
  }

  /** Targets are the five levels, and an unlock never raises. */
  predicate Proper(s: Levels, op: Op) {
    op.target <= EXCLUSIVE && (op.Unlock? ==> op.target <= LevelOf(s, op.conn))
  }

  predicate ProperRun(s: Levels, ops: seq<Op>)
    decreases |ops|
  {
    ops == [] || (Proper(s, ops[0]) && ProperRun(Apply(s, ops[0]), ops[1..]))
  }

  // ------------------------------------------------------------------ the hierarchy

  /** An EXCLUSIVE holder excludes every other holder; at most one connection is at PENDING or above. */
  ghost predicate Hierarchy(s: Levels) {
    && (forall c :: c in s ==> SHARED <= s[c] <= EXCLUSIVE)
    && (forall c, d :: c in s && d in s && c != d ==> s[c] < EXCLUSIVE && !(s[c] >= PENDING && s[d] >= PENDING))
  }

  /** At most one connection is at RESERVED or above. */
  ghost predicate OneWriter(s: Levels) {
    forall c, d :: c in s && d in s && c != d ==> !(s[c] >= RESERVED && s[d] >= RESERVED)
  }

  lemma StepHierarchy(s: Levels, op: Op)
    requires Hierarchy(s) && Proper(s, op)
    ensures Hierarchy(Apply(s, op))
  {
    var t := Apply(s, op);
    forall c, d | c in t && d in t && c != d ensures t[c] < EXCLUSIVE && !(t[c] >= PENDING && t[d] >= PENDING) {
      var other := if c == op.conn then d else c;
      assert other == op.conn || other in s;
    }
  }

  /** From no locks, every proper run keeps the hierarchy. */
  lemma {:induction false} RunHierarchy(s: Levels, ops: seq<Op>)
    requires Hierarchy(s) && ProperRun(s, ops)
    ensures Hierarchy(Run(s, ops))
    decreases |ops|
  {
    if ops != [] {
      StepHierarchy(s, ops[0]);
      RunHierarchy(Apply(s, ops[0]), ops[1..]);
    }
  }

  predicate AsksPending(op: Op) {
    op == Lock(op.conn, PENDING)
  }

  lemma StepOneWriter(s: Levels, op: Op)
    requires Hierarchy(s) && OneWriter(s) && Proper(s, op) && !AsksPending(op)
    ensures OneWriter(Apply(s, op))
  {
    var t := Apply(s, op);
    forall c, d | c in t && d in t && c != d ensures !(t[c] >= RESERVED && t[d] >= RESERVED) {
      var other := if c == op.conn then d else c;
      assert other == op.conn || other in s;
    }
  }

  /** When PENDING is never asked for directly, at most one connection ever prepares to write. */
  lemma {:induction false} RunOneWriter(s: Levels, ops: seq<Op>)
    requires Hierarchy(s) && OneWriter(s) && ProperRun(s, ops)
    requires forall i :: 0 <= i < |ops| ==> !AsksPending(ops[i])
    ensures OneWriter(Run(s, ops))
    decreases |ops|
  {
    if ops != [] {
      assert !AsksPending(ops[0]);
      StepHierarchy(s, ops[0]);
      StepOneWriter(s, ops[0]);
      RunOneWriter(Apply(s, ops[0]), ops[1..]);
    }
  }

  /** A direct request for PENDING keeps a single writer exactly when it is moot, refused, or nobody else is RESERVED. */
  lemma PendingKeepsOneWriterIff(s: Levels, conn: int)
    requires Hierarchy(s) && OneWriter(s)
    ensures OneWriter(Apply(s, Lock(conn, PENDING)))
            <==> LevelOf(s, conn) >= PENDING || OthersAtLeast(s, conn, PENDING) || !OthersAtLeast(s, conn, RESERVED)
  {
    var t := Apply(s, Lock(conn, PENDING));
    if LevelOf(s, conn) < PENDING && !OthersAtLeast(s, conn, PENDING) {
      if OthersAtLeast(s, conn, RESERVED) {
        var c :| c in s && c != conn && s[c] >= RESERVED;
        assert t[conn] >= RESERVED && t[c] >= RESERVED;
      } else {
        forall c, d | c in t && d in t && c != d ensures !(t[c] >= RESERVED && t[d] >= RESERVED) {
          var other := if c == conn then d else c;
          assert other in s;
        }
      }
    }
  }

  /** What stands in the way of a connection simply being given a level. */
  predicate Conflicts(s: Levels, conn: int, level: int) {
    || (level >= PENDING && OthersAtLeast(s, conn, PENDING))
    || (level == EXCLUSIVE && OthersAtLeast(s, conn, SHARED))
    || (level >= SHARED && OthersAtLeast(s, conn, EXCLUSIVE))
  }

  /** unlock takes its target on trust: it keeps the hierarchy exactly when it lowers or nothing conflicts. */
  lemma UnlockKeepsIff(s: Levels, conn: int, target: int)
    requires Hierarchy(s) && target <= EXCLUSIVE
    ensures Hierarchy(Apply(s, Unlock(conn, target))) <==> target <= LevelOf(s, conn) || !Conflicts(s, conn, target)
  {
    var t := Apply(s, Unlock(conn, target));
    if target <= LevelOf(s, conn) {
      StepHierarchy(s, Unlock(conn, target));
    } else if target > NONE {
      if Conflicts(s, conn, target) {
        ConflictBreaks(s, conn, target);
      } else {
        forall c, d | c in t && d in t && c != d ensures t[c] < EXCLUSIVE && !(t[c] >= PENDING && t[d] >= PENDING) {
          var other := if c == conn then d else c;
          assert other == conn || other in s;
        }
      }
    }
  }

  lemma ConflictBreaks(s: Levels, conn: int, target: int)
    requires Conflicts(s, conn, target) && SHARED <= target
    ensures !Hierarchy(s[conn := target])
  {
    var t := s[conn := target];
    if level :| level in {SHARED, PENDING, EXCLUSIVE} && OthersAtLeast(s, conn, level)
                && (level == PENDING ==> target >= PENDING) && (level == SHARED ==> target == EXCLUSIVE) {
      var c :| c in s && c != conn && s[c] >= level;
      assert c in t && conn in t && t[c] == s[c] && t[conn] == target;
    }
  }

  /** An unlock that raises can put two connections at EXCLUSIVE. */
  lemma RaisingUnlockBreaks()
    ensures Hierarchy(map[1 := EXCLUSIVE]) && !Hierarchy(Apply(map[1 := EXCLUSIVE], Unlock(2, EXCLUSIVE)))
  {
    var t := Apply(map[1 := EXCLUSIVE], Unlock(2, EXCLUSIVE));
    assert 1 in t && 2 in t && t[1] == EXCLUSIVE;
  }

  // ------------------------------------------------------------------ a pending writer is not starved

  ghost function Others(s: Levels, conn: int): set<int> {
    set c | c in s && c != conn
  }

  /** Nothing the run does lowers the connection. */
  predicate NoUnlockBy(conn: int, ops: seq<Op>) {
    forall i :: 0 <= i < |ops| && ops[i].Unlock? ==> ops[i].conn != conn
  }

  /**
   * While a connection stays at PENDING or above, no new connection gets any lock on the file: the
   * other holders only become fewer, and once they are gone EXCLUSIVE is granted.
   */
  lemma {:induction false} PendingDrains(s: Levels, conn: int, ops: seq<Op>)
    requires Hierarchy(s) && LevelOf(s, conn) >= PENDING && ProperRun(s, ops) && NoUnlockBy(conn, ops)
    ensures LevelOf(Run(s, ops), conn) >= PENDING
    ensures Others(Run(s, ops), conn) <= Others(s, conn)
    decreases |ops|
  {
    if ops != [] {
      var op, t := ops[0], Apply(s, ops[0]);
      StepHierarchy(s, op);
      assert LevelOf(t, conn) >= PENDING;
      assert conn in s && s[conn] >= PENDING;
      assert forall c :: c in Others(t, conn) ==> c in s;
      assert NoUnlockBy(conn, ops[1..]);
      PendingDrains(t, conn, ops[1..]);
    }
  }

  /** EXCLUSIVE is granted exactly when nobody else holds anything. */
  lemma ExclusiveIff(s: Levels, conn: int)
    requires Hierarchy(s)
    ensures Reply(s, Lock(conn, EXCLUSIVE)) == OK <==> Others(s, conn) == {}
  {
    if Others(s, conn) == {} {
      assert forall c :: c in s && c != conn ==> c in Others(s, conn);
    } else {
      var c :| c in Others(s, conn);
      assert c in s && s[c] >= SHARED;
    }
  }

  /**
   * When each level is granted: already held or lower, or (levels 1 SHARED, 2 RESERVED, 3 PENDING,
   * 4 EXCLUSIVE) no other connection at 3 or above, 2 or above, 3 or above, 1 or above; 5 is BUSY.
   */
  lemma GrantedIff(s: Levels, conn: int)
    ensures Reply(s, Lock(conn, 1)) == 0 <==> LevelOf(s, conn) >= 1 || forall c :: c in s && c != conn ==> s[c] < 3
    ensures Reply(s, Lock(conn, 2)) == 0 <==> LevelOf(s, conn) >= 2 || forall c :: c in s && c != conn ==> s[c] < 2
    ensures Reply(s, Lock(conn, 3)) == 0 <==> LevelOf(s, conn) >= 3 || forall c :: c in s && c != conn ==> s[c] < 3
    ensures Reply(s, Lock(conn, 4)) == 0 <==> LevelOf(s, conn) >= 4 || forall c :: c in s && c != conn ==> s[c] < 1
    ensures forall target :: Reply(s, Lock(conn, target)) in {0, 5}
    ensures forall target :: target < 1 || target > 4 ==> Reply(s, Lock(conn, target)) == 0
  {
    assert Reply(s, Lock(conn, 1)) == 0 || OthersAtLeast(s, conn, 3);
  }

  // ------------------------------------------------------------------ the lock table of one file

  class FileLockTable {
    var levels: Levels

    constructor ()
      ensures levels == map[] && Hierarchy(levels) && OneWriter(levels)
    {
      levels := map[];
    }

    /** A refusal changes nothing; a grant raises only the caller's level. */
    method LockLevel(conn: int, target: int) returns (rc: int)
      modifies this
      ensures rc == Reply(old(levels), Lock(conn, target)) && levels == Apply(old(levels), Lock(conn, target))
      ensures rc == BUSY ==> levels == old(levels)
      ensures rc == OK ==> LevelOf(levels, conn) == if old(LevelOf(levels, conn)) >= target then old(LevelOf(levels, conn)) else target
      ensures forall c :: c != conn ==> LevelOf(levels, c) == old(LevelOf(levels, c))
      ensures old(Hierarchy(levels)) && target <= EXCLUSIVE ==> Hierarchy(levels)
    {
      if Hierarchy(levels) && target <= EXCLUSIVE {
        StepHierarchy(levels, Lock(conn, target));
      }
      var cur := LevelOf(levels, conn);
      if cur >= target {
        return OK;
      }
      if Blocked(levels, conn, target) {
        return BUSY;
      }
      levels := levels[conn := target];
      return OK;
    }

    method UnlockLevel(conn: int, target: int) returns (rc: int)
      modifies this
      ensures rc == OK && levels == Apply(old(levels), Unlock(conn, target))
      ensures if target <= 0 then conn !in levels else conn in levels && levels[conn] == target
      ensures forall c :: c != conn ==> LevelOf(levels, c) == old(LevelOf(levels, c))
      ensures old(Hierarchy(levels)) && target <= old(LevelOf(levels, conn)) ==> Hierarchy(levels)
    {
      if Hierarchy(levels) && target <= LevelOf(levels, conn) {
        StepHierarchy(levels, Unlock(conn, target));
      }
      if target <= NONE {
        levels := levels - {conn};
      } else {
        levels := levels[conn := target];
      }
      return OK;
    }

    method CheckReserved(conn: int) returns (held: int)
      ensures held == 1 <==> exists c :: LevelOf(levels, c) >= RESERVED && c != conn
      ensures held == 0 || held == 1
    {
      assert forall c :: LevelOf(levels, c) >= RESERVED <==> c in levels && levels[c] >= RESERVED;
      held := if OthersAtLeast(levels, conn, RESERVED) then 1 else 0;
    }
  }
}
