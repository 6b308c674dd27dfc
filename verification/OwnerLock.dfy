/**
 * Sidecar ownership of a database file (`<db>.jvmlock`), as a protocol between any number of agents
 * (processes, or several runtimes of one JVM).  Files are identified by inode; the path names at most
 * one inode at a time and is created and deleted under the agents' feet.
 *
 * Environment assumptions, each visible in a guard below: an OS lock belongs to the channel that took
 * it (closing another channel on the same inode does not drop it), verification tokens are fresh and
 * non-zero, and an owner is closed once.
 */
module OwnerLock {
  import opened Common

  const ATTEMPTS: nat := 16

  datatype Agent =
    | Away
    | Trying(n: nat)                                    // acquire: attempts left, about to open
    | Opened(n: nat, ino: nat)
    | HasLock(n: nat, ino: nat)
    | Wrote(n: nat, ino: nat, token: int)
    | Reopened(n: nat, ino: nat, token: int, seenIno: nat) // the verification channel is on seenIno
    | Orphaned(n: nat, ino: nat)                        // token mismatch or ENOENT: release and retry
    | Owner(ino: nat)
    | Closing(ino: nat)                                 // path deleted, lock not released yet
    | Failed

  datatype World = World(
    path: Option<nat>,                // the inode the sidecar path names
    inodes: set<nat>,                 // every inode ever created for it
    content: map<nat, int>,           // first 8 bytes; 0 for an empty file
    locks: map<nat, nat>,             // inode -> agent holding its OS lock
    tokens: set<int>,                 // tokens drawn so far
    agents: map<nat, Agent>)

  function AgentOf(w: World, p: nat): Agent {
    if p in w.agents then w.agents[p] else Away
  }

  /** The inode whose lock the agent holds. */
  function LockedIno(a: Agent): Option<nat> {
    match a
    case HasLock(_, ino) => Some(ino)
    case Wrote(_, ino, _) => Some(ino)
    case Reopened(_, ino, _, _) => Some(ino)
    case Orphaned(_, ino) => Some(ino)
    case Owner(ino) => Some(ino)
    case Closing(ino) => Some(ino)
    case _ => None
  }

  datatype Action =
    | Start(p: nat)
    | Open(p: nat, newIno: nat)
    | TryLock(p: nat)
    | WriteToken(p: nat, token: int)
    | Reopen(p: nat)
    | ReadBack(p: nat)
    | Retry(p: nat)
    | Delete(p: nat, works: bool)     // close: delete may be refused (open file on Windows)
    | Release(p: nat)
    | Crash(p: nat)                   // the process dies; the OS drops its lock

  predicate Enabled(w: World, a: Action) {
    match a
    case Start(p) => AgentOf(w, p).Away? || AgentOf(w, p).Failed?
    case Open(p, newIno) => AgentOf(w, p).Trying? && AgentOf(w, p).n > 0 && newIno !in w.inodes
    case TryLock(p) => AgentOf(w, p).Opened?
    case WriteToken(p, token) => AgentOf(w, p).HasLock? && token != 0 && token !in w.tokens
    case Reopen(p) => AgentOf(w, p).Wrote?
    case ReadBack(p) => AgentOf(w, p).Reopened?
    case Retry(p) => AgentOf(w, p).Orphaned?
    case Delete(p, _) => AgentOf(w, p).Owner?
    case Release(p) => AgentOf(w, p).Closing?
    case Crash(p) => true
  }

  function Become(w: World, p: nat, a: Agent): World {
    w.(agents := w.agents[p := a])
  }

  function ContentOf(w: World, ino: nat): int {
    if ino in w.content then w.content[ino] else 0
  }

  function Apply(w: World, a: Action): World
    requires Enabled(w, a)
  {
    var ag := AgentOf(w, a.p);
    match a
    case Start(p) => Become(w, p, Trying(ATTEMPTS))
    case Open(p, newIno) =>
      if w.path.Some? then Become(w, p, Opened(ag.n, w.path.value))
      else Become(w.(path := Some(newIno), inodes := w.inodes + {newIno}), p, Opened(ag.n, newIno))
    case TryLock(p) =>
      if ag.ino in w.locks then Become(w, p, Failed)
      else Become(w.(locks := w.locks[ag.ino := p]), p, HasLock(ag.n, ag.ino))
    case WriteToken(p, token) =>
      Become(w.(content := w.content[ag.ino := token], tokens := w.tokens + {token}), p, Wrote(ag.n, ag.ino, token))
    case Reopen(p) =>
      Become(w, p, if w.path.Some? then Reopened(ag.n, ag.ino, ag.token, w.path.value) else Orphaned(ag.n, ag.ino))
    case ReadBack(p) =>
      Become(w, p, if ContentOf(w, ag.seenIno) == ag.token then Owner(ag.ino) else Orphaned(ag.n, ag.ino))
    case Retry(p) =>
      Become(w.(locks := w.locks - {ag.ino}), p, if ag.n > 1 then Trying(ag.n - 1) else Failed)
    case Delete(p, works) => Become(if works then w.(path := None) else w, p, Closing(ag.ino))
    case Release(p) => Become(w.(locks := w.locks - {ag.ino}), p, Away)
    case Crash(p) =>
      Become(if LockedIno(ag).Some? then w.(locks := w.locks - {LockedIno(ag).value}) else w, p, Away)
  }

  predicate Init(w: World) {
    && w.inodes == (if w.path.Some? then {w.path.value} else {})
    && w.locks == map[] && w.tokens == {} && w.content == map[] && w.agents == map[]
  }

  // ------------------------------------------------------------------ invariant

  predicate Holds(w: World, p: nat, ino: nat) {
    LockedIno(AgentOf(w, p)) == Some(ino)
  }

  /** The agent has seen its own token through the path: the path names its inode. */
  predicate Verified(a: Agent) {
    a.Owner? || (a.Reopened? && a.seenIno == a.ino)
  }

  ghost predicate AgentOk(w: World, a: Agent) {
    && (a.Opened? ==> a.ino in w.inodes)
    && (LockedIno(a).Some? ==> LockedIno(a).value in w.inodes)
    && (a.Reopened? ==> a.seenIno in w.inodes)
    && (a.Wrote? || a.Reopened? ==>
          && a.token != 0 && a.token in w.tokens
          && (forall i: nat :: ContentOf(w, i) == a.token <==> i == a.ino))
    && (Verified(a) ==> w.path == Some(LockedIno(a).value))
    && ((a.Orphaned? || (a.Reopened? && a.seenIno != a.ino)) ==> w.path != Some(LockedIno(a).value))
  }

  /** The OS lock table and the agents agree on who holds what. */
  ghost predicate LocksOk(w: World) {
    && (forall i: nat :: i in w.locks ==> Holds(w, w.locks[i], i))
    && (forall p: nat :: LockedIno(AgentOf(w, p)).Some? ==>
          LockedIno(AgentOf(w, p)).value in w.locks && w.locks[LockedIno(AgentOf(w, p)).value] == p)
  }

  ghost predicate FilesOk(w: World) {
    && (w.path.Some? ==> w.path.value in w.inodes)
    && (forall i: nat :: ContentOf(w, i) == 0 || ContentOf(w, i) in w.tokens)
    && (forall i: nat :: i in w.content ==> i in w.inodes)
  }

  ghost predicate Inv(w: World) {
    LocksOk(w) && FilesOk(w) && forall p: nat :: AgentOk(w, AgentOf(w, p))
  }

  lemma InitInv(w: World)
    requires Init(w)
    ensures Inv(w)
  {}

  /** Taking or dropping one lock together with its holder's record keeps the table right. */
  lemma LocksMove(w: World, v: World, p: nat)
    requires LocksOk(w)
    requires forall q: nat :: q != p ==> AgentOf(v, q) == AgentOf(w, q)
    requires var before, after := LockedIno(AgentOf(w, p)), LockedIno(AgentOf(v, p));
             || (v.locks == w.locks && after == before)
             || (before.None? && after.Some? && after.value !in w.locks && v.locks == w.locks[after.value := p])
             || (before.Some? && after.None? && v.locks == w.locks - {before.value})
    ensures LocksOk(v)
  {
    forall i: nat | i in v.locks ensures Holds(v, v.locks[i], i) {
      assert i in w.locks ==> Holds(w, w.locks[i], i);
    }
  }

  lemma OthersStay(w: World, a: Action, q: nat)
    requires Enabled(w, a) && q != a.p
    ensures AgentOf(Apply(w, a), q) == AgentOf(w, q)
  {}

  lemma LocksStep(w: World, a: Action)
    requires LocksOk(w) && Enabled(w, a)
    ensures LocksOk(Apply(w, a))
  {
    forall q: nat | q != a.p ensures AgentOf(Apply(w, a), q) == AgentOf(w, q) {
      OthersStay(w, a, q);
    }
    LocksMove(w, Apply(w, a), a.p);
  }

  lemma FilesStep(w: World, a: Action)
    requires FilesOk(w) && AgentOk(w, AgentOf(w, a.p)) && Enabled(w, a)
    ensures FilesOk(Apply(w, a))
  {
    var v := Apply(w, a);
    forall i: nat ensures ContentOf(v, i) == 0 || ContentOf(v, i) in v.tokens {
      assert ContentOf(w, i) == 0 || ContentOf(w, i) in w.tokens;
    }
  }

  /** A bystander keeps what it knows: only its own lock holder may write its inode or delete its path. */
  lemma BystanderStep(w: World, a: Action, q: nat)
    requires Inv(w) && Enabled(w, a) && q != a.p
    ensures AgentOk(Apply(w, a), AgentOf(w, q))
  {
    var v := Apply(w, a);
    var mine, other := AgentOf(w, a.p), AgentOf(w, q);
    assert AgentOk(w, mine) && AgentOk(w, other);
    assert LockedIno(mine).Some? && LockedIno(other).Some? ==> LockedIno(mine) != LockedIno(other);
    if other.Wrote? || other.Reopened? {
      forall i: nat ensures ContentOf(v, i) == other.token <==> i == other.ino {
        assert ContentOf(w, i) == other.token <==> i == other.ino;
      }
    }
  }

  /** The acting agent's new knowledge is right; the token round trip is what establishes ownership. */
  lemma ActorStep(w: World, a: Action)
    requires Inv(w) && Enabled(w, a)
    ensures AgentOk(Apply(w, a), AgentOf(Apply(w, a), a.p))
  {
    var v := Apply(w, a);
    var ag := AgentOf(w, a.p);
    assert AgentOk(w, ag);
    match a {
      case WriteToken(p, token) =>
        forall i: nat ensures ContentOf(v, i) == token <==> i == ag.ino {
          assert ContentOf(w, i) == 0 || ContentOf(w, i) in w.tokens;
        }
      case Reopen(p) =>
        forall i: nat ensures ContentOf(v, i) == ag.token <==> i == ag.ino {
          assert ContentOf(w, i) == ag.token <==> i == ag.ino;
        }
      case _ =>
    }
  }

  /** Every step of every agent keeps the invariant. */
  lemma StepInv(w: World, a: Action)
    requires Inv(w) && Enabled(w, a)
    ensures Inv(Apply(w, a))
  {
    LocksStep(w, a);
    FilesStep(w, a);
    var v := Apply(w, a);
    forall q: nat ensures AgentOk(v, AgentOf(v, q)) {
      if q == a.p {
        ActorStep(w, a);
      } else {
        BystanderStep(w, a, q);
      }
    }
  }

  ghost predicate IsRun(states: seq<World>, actions: seq<Action>) {
    && |states| == |actions| + 1
    && forall i :: 0 <= i < |actions| ==> Enabled(states[i], actions[i]) && states[i + 1] == Apply(states[i], actions[i])
  }

  lemma {:induction false} RunInv(states: seq<World>, actions: seq<Action>, n: nat)
    requires IsRun(states, actions) && Init(states[0]) && n < |states|
    ensures Inv(states[n])
  {
    if n == 0 {
      InitInv(states[0]);
    } else {
      RunInv(states, actions, n - 1);
      StepInv(states[n - 1], actions[n - 1]);
    }
  }

  // ------------------------------------------------------------------ main results

  /**
   * In every reachable state at most one agent owns the database, and an owner's locked inode is the
   * one the path names, from verification until the owner's own delete.
   */
  lemma MutualExclusion(states: seq<World>, actions: seq<Action>, n: nat, p: nat, q: nat)
    requires IsRun(states, actions) && Init(states[0]) && n < |states|
    requires AgentOf(states[n], p).Owner?
    ensures states[n].path == Some(AgentOf(states[n], p).ino)
    ensures AgentOf(states[n], p).ino in states[n].locks && states[n].locks[AgentOf(states[n], p).ino] == p
    ensures AgentOf(states[n], q).Owner? ==> q == p
  {
    RunInv(states, actions, n);
    assert AgentOk(states[n], AgentOf(states[n], p)) && AgentOk(states[n], AgentOf(states[n], q));
  }

  /**
   * The token round trip decides identity exactly: reading one's own token back succeeds if and only
   * if the locked inode is the one the path names at that moment.
   */
  lemma RoundTripDecidesIdentity(states: seq<World>, actions: seq<Action>, n: nat, p: nat)
    requires IsRun(states, actions) && Init(states[0]) && n < |states|
    requires Enabled(states[n], ReadBack(p))
    ensures AgentOf(Apply(states[n], ReadBack(p)), p).Owner?
            <==> states[n].path == Some(AgentOf(states[n], p).ino)
  {
    RunInv(states, actions, n);
    assert AgentOk(states[n], AgentOf(states[n], p));
  }

  /** An agent that gives an attempt up was on an orphan, and the path will never name that inode again. */
  lemma {:induction false} OrphanStaysOrphan(states: seq<World>, actions: seq<Action>, n: nat, m: nat, p: nat)
    requires IsRun(states, actions) && Init(states[0]) && n <= m < |states|
    requires AgentOf(states[n], p).Orphaned?
    ensures AgentOf(states[n], p).ino in states[m].inodes && states[m].path != Some(AgentOf(states[n], p).ino)
  {
    RunInv(states, actions, m);
    if n == m {
      assert AgentOk(states[n], AgentOf(states[n], p));
    } else {
      OrphanStaysOrphan(states, actions, n, m - 1, p);
    }
  }

  lemma LockedIsKnown(w: World)
    requires Inv(w)
    ensures forall i: nat :: i in w.locks ==> i in w.inodes
  {
    forall i: nat | i in w.locks ensures i in w.inodes {
      assert Holds(w, w.locks[i], i);
      assert AgentOk(w, AgentOf(w, w.locks[i]));
    }
  }

  /** The five steps of one undisturbed attempt. */
  function Attempt(w: World, p: nat, newIno: nat, token: int): World
    requires Enabled(w, Start(p)) && newIno !in w.inodes && token != 0 && token !in w.tokens
    requires w.path.Some? ==> w.path.value !in w.locks
    requires w.path.None? ==> newIno !in w.locks
  {
    var w1 := Apply(w, Start(p));
    var w2 := Apply(w1, Open(p, newIno));
    var w3 := Apply(w2, TryLock(p));
    var w4 := Apply(w3, WriteToken(p, token));
    var w5 := Apply(w4, Reopen(p));
    Apply(w5, ReadBack(p))
  }

  /** An undisturbed acquire succeeds at the first attempt whenever the named sidecar is unlocked. */
  lemma SoloAcquireSucceeds(w: World, p: nat, newIno: nat, token: int)
    requires Inv(w) && (AgentOf(w, p).Away? || AgentOf(w, p).Failed?) && newIno !in w.inodes && token != 0 && token !in w.tokens
    requires w.path.Some? ==> w.path.value !in w.locks
    ensures Enabled(w, Start(p)) && (w.path.None? ==> newIno !in w.locks)
    ensures AgentOf(Attempt(w, p, newIno, token), p).Owner?
    ensures forall q: nat :: q != p ==> AgentOf(Attempt(w, p, newIno, token), q) == AgentOf(w, q)
  {
    LockedIsKnown(w);
  }

  /**
   * What close leaves: the path gone if the delete worked and as it was if it was refused, the lock
   * released, everybody else as before, so that the named sidecar, if any, is free for the next owner.
   */
  lemma CloseFrees(w: World, p: nat, works: bool)
    requires Inv(w) && AgentOf(w, p).Owner?
    ensures Enabled(w, Delete(p, works)) && Enabled(Apply(w, Delete(p, works)), Release(p))
    ensures var v := Apply(Apply(w, Delete(p, works)), Release(p));
            && AgentOf(v, p) == Away && v.path == (if works then None else w.path)
            && AgentOf(w, p).ino !in v.locks && (v.path.Some? ==> v.path.value !in v.locks)
            && forall q: nat :: q != p ==> AgentOf(v, q) == AgentOf(w, q)
  {
    assert AgentOk(w, AgentOf(w, p));
  }

  /** A crash frees the crashed agent's lock and leaves its sidecar: the file can be owned again. */
  lemma CrashFrees(w: World, p: nat)
    requires Inv(w)
    ensures Enabled(w, Crash(p))
    ensures var v := Apply(w, Crash(p));
            && AgentOf(v, p) == Away && v.path == w.path
            && (forall i: nat :: i in v.locks ==> v.locks[i] != p)
            && forall q: nat :: q != p ==> AgentOf(v, q) == AgentOf(w, q)
  {
    var v := Apply(w, Crash(p));
    forall i: nat | i in v.locks ensures v.locks[i] != p {
      assert Holds(w, w.locks[i], i);
    }
  }

  // ------------------------------------------------------------------ retrying

  /** The six steps from an orphan to the next undisturbed attempt's end. */
  function NextAttempt(w: World, p: nat, newIno: nat, token: int): World
    requires AgentOf(w, p).Orphaned? && AgentOf(w, p).n > 1 && newIno !in w.inodes && newIno !in w.locks
    requires token != 0 && token !in w.tokens && (w.path.Some? ==> w.path.value !in w.locks)
  {
    var w1 := Apply(w, Retry(p));
    var w2 := Apply(w1, Open(p, newIno));
    var w3 := Apply(w2, TryLock(p));
    var w4 := Apply(w3, WriteToken(p, token));
    var w5 := Apply(w4, Reopen(p));
    Apply(w5, ReadBack(p))
  }

  /**
   * An agent that met an orphan and has attempts left becomes owner in its next undisturbed attempt
   * whenever the named sidecar is unlocked, and gives up the orphan's lock.
   */
  lemma RetrySucceeds(w: World, p: nat, newIno: nat, token: int)
    requires Inv(w) && AgentOf(w, p).Orphaned? && AgentOf(w, p).n > 1
    requires newIno !in w.inodes && token != 0 && token !in w.tokens && (w.path.Some? ==> w.path.value !in w.locks)
    ensures newIno !in w.locks
    ensures var v := NextAttempt(w, p, newIno, token);
            && AgentOf(v, p).Owner? && v.path == Some(AgentOf(v, p).ino)
            && AgentOf(w, p).ino !in v.locks
            && forall q: nat :: q != p ==> AgentOf(v, q) == AgentOf(w, q)
  {
    LockedIsKnown(w);
    assert AgentOk(w, AgentOf(w, p));
  }

  /** How many times p retried since its last Start, in the first n actions. */
  function Retries(actions: seq<Action>, p: nat, n: nat): nat
    requires n <= |actions|
  {
    if n == 0 || actions[n - 1] == Start(p) then 0
    else if actions[n - 1] == Retry(p) then 1 + Retries(actions, p, n - 1)
    else Retries(actions, p, n - 1)
  }

  /** The position of p's last step among the first n actions, or None. */
  function LastStep(actions: seq<Action>, p: nat, n: nat): (k: Option<nat>)
    requires n <= |actions|
    ensures k.Some? ==> k.value < n && actions[k.value].p == p
  {
    if n == 0 then None else if actions[n - 1].p == p then Some(n - 1) else LastStep(actions, p, n - 1)
  }

  /** The attempts left of an agent inside acquire. */
  function Left(a: Agent): Option<nat> {
    match a
    case Trying(n) => Some(n)
    case Opened(n, _) => Some(n)
    case HasLock(n, _) => Some(n)
    case Wrote(n, _, _) => Some(n)
    case Reopened(n, _, _, _) => Some(n)
    case Orphaned(n, _) => Some(n)
    case _ => None
  }

  /** Over every run, an agent inside acquire has 16 attempts less one for each retry, and at least one left. */
  lemma {:induction false} AttemptsLeft(states: seq<World>, actions: seq<Action>, n: nat, p: nat)
    requires IsRun(states, actions) && Init(states[0]) && n < |states|
    ensures var left := Left(AgentOf(states[n], p));
            left.Some? ==> 1 <= left.value == 16 - Retries(actions, p, n)
  {
    if n > 0 {
      AttemptsLeft(states, actions, n - 1, p);
      if actions[n - 1].p != p {
        OthersStay(states[n - 1], actions[n - 1], p);
      }
    }
  }

  /**
   * Over every run, acquire fails for one of two reasons only: the agent's last step was a TryLock on an
   * inode somebody had locked, or it was the sixteenth retry since its Start.
   */
  lemma {:induction false} FailedOnlyWhen(states: seq<World>, actions: seq<Action>, n: nat, p: nat)
    requires IsRun(states, actions) && Init(states[0]) && n < |states| && AgentOf(states[n], p).Failed?
    ensures var k := LastStep(actions, p, n);
            && k.Some?
            && (if actions[k.value] == TryLock(p)
                then AgentOf(states[k.value], p).Opened? && AgentOf(states[k.value], p).ino in states[k.value].locks
                else actions[k.value] == Retry(p) && Retries(actions, p, n) == 16)
  {
    if n > 0 {
      if actions[n - 1].p == p {
        AttemptsLeft(states, actions, n - 1, p);
      } else {
        OthersStay(states[n - 1], actions[n - 1], p);
        FailedOnlyWhen(states, actions, n - 1, p);
      }
    }
  }

  // ------------------------------------------------------------------ the second close

  /** What a second close of an already closed owner does to the path: it deletes whatever is there. */
  function StaleDelete(w: World): World {
    w.(path := None)
  }

  /** A second close is harmless exactly while nobody owns the database or has just verified it. */
  lemma StaleDeleteHarmlessIff(w: World)
    requires Inv(w)
    ensures Inv(StaleDelete(w)) <==> forall p: nat :: !Verified(AgentOf(w, p))
  {
    var v := StaleDelete(w);
    assert forall p: nat :: AgentOf(v, p) == AgentOf(w, p);
    assert forall i: nat :: ContentOf(v, i) == ContentOf(w, i);
    if forall p: nat :: !Verified(AgentOf(w, p)) {
      forall p: nat ensures AgentOk(v, AgentOf(v, p)) {
        assert AgentOk(w, AgentOf(w, p));
      }
      assert LocksOk(v) by {
        forall i: nat | i in v.locks ensures Holds(v, v.locks[i], i) {
          assert Holds(w, w.locks[i], i);
        }
      }
      assert FilesOk(v);
    } else {
      var p: nat :| Verified(AgentOf(w, p));
      assert !AgentOk(v, AgentOf(v, p));
    }
  }

  /**
   * The unguarded second close (SqliteWal.close has no flag) breaks exclusion: after it, any agent
   * that starts an undisturbed acquire becomes a second owner beside the first.
   */
  lemma SecondCloseAdmitsSecondOwner(w: World, owner: nat, other: nat, newIno: nat, token: int)
    requires Inv(w) && AgentOf(w, owner).Owner? && other != owner && Enabled(w, Start(other))
    requires newIno !in w.inodes && token != 0 && token !in w.tokens
    ensures newIno !in w.locks
    ensures var v := Attempt(StaleDelete(w), other, newIno, token);
            AgentOf(v, owner).Owner? && AgentOf(v, other).Owner?
  {
    LockedIsKnown(w);
  }

  /**
   * So does a second close that strikes between an agent's re-open and its read back: the agent still
   * reads its own token and becomes owner of an inode the path no longer names, and any undisturbed
   * acquire makes a second owner.
   */
  lemma SecondCloseBeforeReadBack(w: World, p: nat, other: nat, newIno: nat, token: int)
    requires Inv(w) && AgentOf(w, p).Reopened? && Verified(AgentOf(w, p)) && other != p && Enabled(w, Start(other))
    requires newIno !in w.inodes && token != 0 && token !in w.tokens
    ensures newIno !in w.locks && Enabled(StaleDelete(w), ReadBack(p))
    ensures var owned := Apply(StaleDelete(w), ReadBack(p));
            && AgentOf(owned, p).Owner? && owned.path == None
            && var v := Attempt(owned, other, newIno, token);
            AgentOf(v, p).Owner? && AgentOf(v, other).Owner?
  {
    LockedIsKnown(w);
    var ag := AgentOf(w, p);
    assert AgentOk(w, ag);
    assert ContentOf(w, ag.ino) == ag.token;
  }
}
