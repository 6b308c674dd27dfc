/**
 * The registry of shared runtimes: one per database file and one for in-memory databases, each
 * counted by the ports opened on it.  A port's close is an atomic test-and-set followed by the
 * release of its reference.
 */
module Runtimes {
  import opened Common

  datatype Key = File(path: string) | Memory

  datatype Phase = Open | Closing | Released
  datatype Port = Port(key: Key, phase: Phase)

  datatype Entry = Entry(rt: nat, refs: int)

  /**
   * Registry fields, and beside them the ports, the owner locks held, and per runtime ever built how
   * often it was closed; `abandoned` are runtimes whose boot failed half-way.
   */
  datatype State = State(
    files: map<string, Entry>,
    memRt: Option<nat>,
    memRefs: int,
    ports: seq<Port>,
    locked: set<string>,
    closes: seq<nat>,
    abandoned: set<nat>)

  /** How booting a runtime goes: the owner lock or the constructor refuses, or the first statements fail. */
  datatype Boot = Booted | Refused | HalfWay

  datatype Step =
    | Start(key: Key, boot: Boot, spawned: bool, throws: bool)
    | BeginClose(port: nat)
    | Release(port: nat, throws: bool)

  function Init(): State {
    State(map[], None, 0, [], {}, [], {})
  }

  // ------------------------------------------------------------------ the registry, key by key

  function RefsOf(s: State, k: Key): int {
    match k
    case Memory => s.memRefs
    case File(p) => if p in s.files then s.files[p].refs else 0
  }

  function RtOf(s: State, k: Key): Option<nat> {
    match k
    case Memory => s.memRt
    case File(p) => if p in s.files then Some(s.files[p].rt) else None
  }

  /** getOrPut and refs++, with runtime rt. */
  function AddRef(s: State, k: Key, rt: nat): State {
    match k
    case Memory => s.(memRt := Some(rt), memRefs := s.memRefs + 1)
    case File(p) => s.(files := s.files[p := Entry(rt, RefsOf(s, k) + 1)], locked := if p in s.files then s.locked else s.locked + {p})
  }

  function Closed(closes: seq<nat>, rt: nat): seq<nat> {
    if rt < |closes| then closes[rt := closes[rt] + 1] else closes
  }

  /** releaseFile and releaseMemory: the last reference closes the runtime, then the owner lock. */
  function DropRef(s: State, k: Key, throws: bool): State {
    match k
    case Memory =>
      if s.memRefs - 1 > 0 then s.(memRefs := s.memRefs - 1)
      else s.(memRefs := s.memRefs - 1,
              closes := if s.memRt.Some? then Closed(s.closes, s.memRt.value) else s.closes,
              memRt := if s.memRt.Some? && throws then s.memRt else None)
    case File(p) =>
      if p !in s.files then s
      else if s.files[p].refs - 1 > 0 then s.(files := s.files[p := s.files[p].(refs := s.files[p].refs - 1)])
      else s.(files := s.files - {p}, closes := Closed(s.closes, s.files[p].rt), locked := s.locked - {p})
  }

  /** openFile and openMemory. */
  function Started(s: State, k: Key, boot: Boot, spawned: bool, throws: bool): State {
    if RtOf(s, k).None? && boot == Refused then s
    else if RtOf(s, k).None? && boot == HalfWay then s.(closes := s.closes + [0], abandoned := s.abandoned + {|s.closes|})
    else
      var rt := if RtOf(s, k).Some? then RtOf(s, k).value else |s.closes|;
      var grown := if RtOf(s, k).Some? then s else s.(closes := s.closes + [0]);
      var added := AddRef(grown, k, rt);
      if spawned then added.(ports := s.ports + [Port(k, Open)]) else DropRef(added, k, throws)
  }

  predicate Enabled(s: State, step: Step) {
    match step
    case Start(_, _, _, _) => true
    case BeginClose(p) => p < |s.ports|
    case Release(p, _) => p < |s.ports| && s.ports[p].phase == Closing
  }

  function Apply(s: State, step: Step): State
    requires Enabled(s, step)
  {
    match step
    case Start(k, boot, spawned, throws) => Started(s, k, boot, spawned, throws)
    case BeginClose(p) => if s.ports[p].phase == Open then s.(ports := s.ports[p := s.ports[p].(phase := Closing)]) else s
    case Release(p, throws) =>
      DropRef(s, s.ports[p].key, throws).(ports := s.ports[p := s.ports[p].(phase := Released)])
  }

  // ------------------------------------------------------------------ invariant

  /** Ports that still count as references. */
  ghost function Holders(ports: seq<Port>, k: Key): set<nat> {
    set i: nat | i < |ports| && ports[i].key == k && ports[i].phase != Released
  }

  ghost predicate InUse(s: State, rt: nat) {
    exists k :: RtOf(s, k) == Some(rt)
  }

  ghost predicate KeyOk(s: State, k: Key) {
    && (RtOf(s, k).Some? <==> RefsOf(s, k) > 0) && RefsOf(s, k) >= 0
    && (RtOf(s, k).Some? ==> RtOf(s, k).value < |s.closes| && s.closes[RtOf(s, k).value] == 0 && RtOf(s, k).value !in s.abandoned)
  }

  /** A runtime was closed once, unless it is still in use or its boot was abandoned. */
  ghost predicate RuntimeOk(s: State, rt: nat)
    requires rt < |s.closes|
  {
    s.closes[rt] <= 1 && (s.closes[rt] == 0 <==> rt in s.abandoned || InUse(s, rt))
  }

  ghost predicate TableOk(s: State) {
    && (forall k :: KeyOk(s, k))
    && (forall k, l :: RtOf(s, k).Some? && RtOf(s, k) == RtOf(s, l) ==> k == l)
    && (forall p :: p in s.locked <==> p in s.files)
    && (forall rt :: 0 <= rt < |s.closes| ==> RuntimeOk(s, rt))
    && (forall rt :: rt in s.abandoned ==> rt < |s.closes|)
  }

  ghost predicate CountOk(s: State) {
    forall k :: RefsOf(s, k) == |Holders(s.ports, k)|
  }

  ghost predicate Inv(s: State) {
    TableOk(s) && CountOk(s)
  }

  // ------------------------------------------------------------------ the table

  lemma AddRefTable(s: State, k: Key)
    requires TableOk(s)
    ensures var absent := RtOf(s, k).None?;
            var rt := if absent then |s.closes| else RtOf(s, k).value;
            var t := AddRef(if absent then s.(closes := s.closes + [0]) else s, k, rt);
            && TableOk(t) && t.ports == s.ports && RtOf(t, k) == Some(rt)
            && (forall l :: RefsOf(t, l) == RefsOf(s, l) + if l == k then 1 else 0)
  {
    var absent := RtOf(s, k).None?;
    var rt := if absent then |s.closes| else RtOf(s, k).value;
    var t := AddRef(if absent then s.(closes := s.closes + [0]) else s, k, rt);
    assert KeyOk(s, k);
    assert forall l :: l != k ==> RtOf(t, l) == RtOf(s, l) && RefsOf(t, l) == RefsOf(s, l);
    forall l ensures KeyOk(t, l) {
      assert KeyOk(s, l);
    }
    forall l, m | RtOf(t, l).Some? && RtOf(t, l) == RtOf(t, m) ensures l == m {
      assert KeyOk(s, l) && KeyOk(s, m);
    }
    forall r | 0 <= r < |t.closes| ensures RuntimeOk(t, r) {
      if r < |s.closes| {
        assert RuntimeOk(s, r);
        InUseElsewhere(s, t, k, r);
      } else {
        assert RtOf(t, k) == Some(r);
      }
    }
  }

  /** Keys other than k keep their runtime, so only k's runtime can change whether it is in use. */
  lemma InUseElsewhere(s: State, t: State, k: Key, r: nat)
    requires forall l :: l != k ==> RtOf(t, l) == RtOf(s, l)
    requires RtOf(s, k) == Some(r) <==> RtOf(t, k) == Some(r)
    ensures InUse(s, r) <==> InUse(t, r)
  {
    if InUse(s, r) {
      var l :| RtOf(s, l) == Some(r);
      assert RtOf(t, l) == Some(r);
    }
    if InUse(t, r) {
      var l :| RtOf(t, l) == Some(r);
      assert RtOf(s, l) == Some(r);
    }
  }

  /** The last release of the in-memory runtime, with its close throwing. */
  predicate Sticks(s: State, k: Key, throws: bool) {
    k.Memory? && throws && s.memRefs == 1
  }

  lemma DropRefRefs(s: State, k: Key, throws: bool)
    requires TableOk(s) && RefsOf(s, k) > 0
    ensures var t := DropRef(s, k, throws);
            && t.ports == s.ports && t.abandoned == s.abandoned && |t.closes| == |s.closes|
            && (forall l :: RefsOf(t, l) == RefsOf(s, l) - if l == k then 1 else 0)
            && (forall l :: l != k ==> RtOf(t, l) == RtOf(s, l))
  {
    assert KeyOk(s, k);
  }

  lemma DropRefTable(s: State, k: Key, throws: bool)
    requires TableOk(s) && RefsOf(s, k) > 0 && !Sticks(s, k, throws)
    ensures TableOk(DropRef(s, k, throws))
  {
    var t := DropRef(s, k, throws);
    DropRefRefs(s, k, throws);
    assert KeyOk(s, k);
    var rt := RtOf(s, k).value;
    assert forall r :: 0 <= r < |s.closes| ==> t.closes[r] == s.closes[r] + if r == rt && RefsOf(s, k) == 1 then 1 else 0;
    assert RtOf(t, k) == if RefsOf(s, k) == 1 then None else Some(rt);
    forall l ensures KeyOk(t, l) {
      assert KeyOk(s, l);
    }
    forall r | 0 <= r < |t.closes| ensures RuntimeOk(t, r) {
      assert RuntimeOk(s, r);
      if r != rt || RefsOf(s, k) > 1 {
        InUseElsewhere(s, t, k, r);
      } else {
        assert RtOf(s, k) == Some(r);
        assert !InUse(t, r);
      }
    }
  }

  // ------------------------------------------------------------------ the count

  lemma HoldersOpened(ports: seq<Port>, k: Key, l: Key)
    ensures |Holders(ports + [Port(k, Open)], l)| == |Holders(ports, l)| + if l == k then 1 else 0
  {
    var more := ports + [Port(k, Open)];
    if l == k {
      assert Holders(more, l) == Holders(ports, l) + {|ports|};
    } else {
      assert Holders(more, l) == Holders(ports, l);
    }
  }

  lemma HoldersReleased(ports: seq<Port>, p: nat, l: Key)
    requires p < |ports| && ports[p].phase != Released
    ensures var fewer := ports[p := ports[p].(phase := Released)];
            |Holders(fewer, l)| == |Holders(ports, l)| - if l == ports[p].key then 1 else 0
  {
    var fewer := ports[p := ports[p].(phase := Released)];
    if l == ports[p].key {
      assert Holders(ports, l) == Holders(fewer, l) + {p};
    } else {
      assert Holders(fewer, l) == Holders(ports, l);
    }
  }

  lemma HoldersClosing(ports: seq<Port>, p: nat, l: Key)
    requires p < |ports| && ports[p].phase == Open
    ensures Holders(ports[p := ports[p].(phase := Closing)], l) == Holders(ports, l)
  {}

  // ------------------------------------------------------------------ steps and runs

  /** The step throws away the closing of the in-memory runtime. */
  predicate Stuck(s: State, step: Step)
    requires Enabled(s, step)
  {
    match step
    case Start(k, boot, spawned, throws) =>
      !spawned && k.Memory? && throws && s.memRefs == 0 && boot == Booted
    case BeginClose(_) => false
    case Release(p, throws) => Sticks(s, s.ports[p].key, throws)
  }

  lemma StartInv(s: State, k: Key, boot: Boot, spawned: bool, throws: bool)
    requires Inv(s) && !Stuck(s, Start(k, boot, spawned, throws))
    ensures Inv(Started(s, k, boot, spawned, throws))
  {
    var t := Started(s, k, boot, spawned, throws);
    assert KeyOk(s, k);
    if RtOf(s, k).None? && boot == HalfWay {
      AbandonTable(s);
    } else if RtOf(s, k).Some? || boot == Booted {
      AddRefTable(s, k);
      if spawned {
        forall l ensures RefsOf(t, l) == |Holders(t.ports, l)| {
          HoldersOpened(s.ports, k, l);
        }
        TableIgnoresPorts(t, s.ports);
      } else {
        FailedSpawn(s, k, throws);
      }
    }
  }

  lemma TableIgnoresPorts(t: State, ports: seq<Port>)
    requires TableOk(t.(ports := ports))
    ensures TableOk(t)
  {
    var u := t.(ports := ports);
    assert forall k :: RtOf(t, k) == RtOf(u, k) && RefsOf(t, k) == RefsOf(u, k);
    forall k ensures KeyOk(t, k) {
      assert KeyOk(u, k);
    }
    forall r | 0 <= r < |t.closes| ensures RuntimeOk(t, r) {
      assert RuntimeOk(u, r);
      InUseElsewhere(u, t, Memory, r);
    }
  }

  lemma AbandonTable(s: State)
    requires Inv(s)
    ensures Inv(s.(closes := s.closes + [0], abandoned := s.abandoned + {|s.closes|}))
  {
    var t := s.(closes := s.closes + [0], abandoned := s.abandoned + {|s.closes|});
    assert forall k :: RtOf(t, k) == RtOf(s, k) && RefsOf(t, k) == RefsOf(s, k);
    forall k ensures KeyOk(t, k) {
      assert KeyOk(s, k);
    }
    forall r | 0 <= r < |t.closes| ensures RuntimeOk(t, r) {
      if r < |s.closes| {
        assert RuntimeOk(s, r);
        InUseElsewhere(s, t, Memory, r);
      }
    }
  }

  /** A failed spawn gives back the reference it took. */
  lemma FailedSpawn(s: State, k: Key, throws: bool)
    requires Inv(s) && !(k.Memory? && throws && s.memRefs == 0)
    ensures Inv(Started(s, k, Booted, false, throws))
  {
    AddRefTable(s, k);
    assert KeyOk(s, k);
    var absent := RtOf(s, k).None?;
    var u := AddRef(if absent then s.(closes := s.closes + [0]) else s, k, if absent then |s.closes| else RtOf(s, k).value);
    assert RefsOf(u, k) == RefsOf(s, k) + 1;
    DropRefTable(u, k, throws);
    DropRefRefs(u, k, throws);
  }

  lemma ReleaseInv(s: State, p: nat, throws: bool)
    requires Inv(s) && Enabled(s, Release(p, throws)) && !Stuck(s, Release(p, throws))
    ensures Inv(Apply(s, Release(p, throws)))
  {
    var k, t := s.ports[p].key, Apply(s, Release(p, throws));
    assert p in Holders(s.ports, k);
    assert RefsOf(s, k) > 0;
    DropRefTable(s, k, throws);
    DropRefRefs(s, k, throws);
    TableIgnoresPorts(t, s.ports);
    forall l ensures RefsOf(t, l) == |Holders(t.ports, l)| {
      HoldersReleased(s.ports, p, l);
      assert RefsOf(t, l) == RefsOf(DropRef(s, k, throws), l);
    }
  }

  lemma BeginCloseInv(s: State, p: nat)
    requires Inv(s) && p < |s.ports|
    ensures Inv(Apply(s, BeginClose(p)))
  {
    var t := Apply(s, BeginClose(p));
    if s.ports[p].phase == Open {
      TableIgnoresPorts(t, s.ports);
      forall l ensures RefsOf(t, l) == |Holders(t.ports, l)| {
        HoldersClosing(s.ports, p, l);
        assert RefsOf(t, l) == RefsOf(s, l);
      }
    }
  }

  /** A throwing close leaves the in-memory runtime in the registry with no reference. */
  lemma StuckBreaks(s: State, step: Step)
    requires Inv(s) && Enabled(s, step) && Stuck(s, step)
    ensures !Inv(Apply(s, step))
  {
    assert KeyOk(s, Memory);
    var t := Apply(s, step);
    assert RtOf(t, Memory).Some? && RefsOf(t, Memory) == 0;
    assert !KeyOk(t, Memory);
  }

  /** One step keeps the books exactly when the in-memory runtime's last close does not throw. */
  lemma StepKeepsIff(s: State, step: Step)
    requires Inv(s) && Enabled(s, step)
    ensures Inv(Apply(s, step)) <==> !Stuck(s, step)
  {
    if Stuck(s, step) {
      StuckBreaks(s, step);
    } else {
      match step
      case Start(k, boot, spawned, throws) => StartInv(s, k, boot, spawned, throws);
      case BeginClose(p) => BeginCloseInv(s, p);
      case Release(p, throws) => ReleaseInv(s, p, throws);
    }
  }

  function Run(s: State, steps: seq<Step>): State
    requires CleanRun(s, steps)
    decreases |steps|
  {
    if steps == [] then s else Run(Apply(s, steps[0]), steps[1..])
  }

  /** Every step is possible when it is taken, and the in-memory runtime's close never throws. */
  predicate CleanRun(s: State, steps: seq<Step>)
    decreases |steps|
  {
    steps == [] || (Enabled(s, steps[0]) && !Stuck(s, steps[0]) && CleanRun(Apply(s, steps[0]), steps[1..]))
  }

  lemma {:induction false} RunInv(s: State, steps: seq<Step>)
    requires Inv(s) && CleanRun(s, steps)
    ensures Inv(Run(s, steps))
    decreases |steps|
  {
    if steps != [] {
      StepKeepsIff(s, steps[0]);
      RunInv(Apply(s, steps[0]), steps[1..]);
    }
  }

  lemma InitInv()
    ensures Inv(Init())
  {
    forall k ensures KeyOk(Init(), k) && Holders(Init().ports, k) == {} {}
  }

  /**
   * Over every run of opens, failed boots, failed spawns and repeated closes: the count of a key is
   * its open ports, its runtime (and for a file its owner lock) is there exactly while one is open,
   * and every runtime out of use that finished booting was closed exactly once.
   */
  lemma Conservation(steps: seq<Step>, k: Key, rt: nat)
    requires CleanRun(Init(), steps) && rt < |Run(Init(), steps).closes|
    ensures var s := Run(Init(), steps);
            && RefsOf(s, k) == |Holders(s.ports, k)|
            && (RtOf(s, k).Some? <==> Holders(s.ports, k) != {})
            && (k.File? ==> (k.path in s.locked <==> Holders(s.ports, k) != {}))
            && (RtOf(s, k) == Some(rt) ==> s.closes[rt] == 0)
            && (rt !in s.abandoned && !InUse(s, rt) ==> s.closes[rt] == 1)
  {
    InitInv();
    RunInv(Init(), steps);
    var s := Run(Init(), steps);
    assert KeyOk(s, k);
    assert RuntimeOk(s, rt);
  }

  // ------------------------------------------------------------------ the registry object

  class Registry {
    var files: map<string, Entry>
    var memRt: Option<nat>
    var memRefs: int
    var ports: seq<Port>
    var locked: set<string>
    var closes: seq<nat>
    var abandoned: set<nat>

    ghost function View(): State
      reads this
    {
      State(files, memRt, memRefs, ports, locked, closes, abandoned)
    }

    constructor ()
      ensures View() == Init()
    {
      files, memRt, memRefs, ports, locked, closes, abandoned := map[], None, 0, [], {}, [], {};
    }

    /** Build a runtime: its number, or nothing when the boot failed. */
    method BootRuntime(boot: Boot) returns (rt: Option<nat>)
      modifies this`closes, this`abandoned
      ensures rt == if boot == Booted then Some(old(|closes|)) else None
      ensures closes == if boot == Refused then old(closes) else old(closes) + [0]
      ensures abandoned == if boot == HalfWay then old(abandoned) + {old(|closes|)} else old(abandoned)
    {
      if boot == Refused {
        return None;
      }
      closes := closes + [0];
      if boot == HalfWay {
        abandoned := abandoned + {|closes| - 1};
        return None;
      }
      return Some(|closes| - 1);
    }

    /** openFile: the port's index, or nothing when it threw. */
    method OpenFile(path: string, boot: Boot, spawned: bool, throws: bool) returns (port: Option<nat>)
      modifies this
      ensures View() == Apply(old(View()), Start(File(path), boot, spawned, throws))
      ensures port.Some? <==> spawned && (path in old(files) || boot == Booted)
    {
      if path !in files {
        var rt := BootRuntime(boot);
        if rt.None? {
          return None;
        }
        files, locked := files[path := Entry(rt.value, 0)], locked + {path};
      }
      files := files[path := Entry(files[path].rt, files[path].refs + 1)];
      if spawned {
        ports := ports + [Port(File(path), Open)];
        return Some(|ports| - 1);
      }
      ReleaseFile(path, throws);
      return None;
    }

    /** The owner lock is closed whether or not closing the runtime throws. */
    method ReleaseFile(path: string, ghost throws: bool)
      modifies this`files, this`closes, this`locked
      ensures View() == DropRef(old(View()), File(path), throws)
    {
      if path !in files {
        return;
      }
      var entry := files[path].(refs := files[path].refs - 1);
      files := files[path := entry];
      if entry.refs <= 0 {
        files := files - {path};
        closes := Closed(closes, entry.rt);
        locked := locked - {path};
      }
    }

    method OpenMemory(boot: Boot, spawned: bool, throws: bool) returns (port: Option<nat>)
      modifies this
      ensures View() == Apply(old(View()), Start(Memory, boot, spawned, throws))
      ensures port.Some? <==> spawned && (old(memRt).Some? || boot == Booted)
    {
      if memRt.None? {
        var rt := BootRuntime(boot);
        if rt.None? {
          return None;
        }
        memRt := rt;
      }
      memRefs := memRefs + 1;
      if spawned {
        ports := ports + [Port(Memory, Open)];
        return Some(|ports| - 1);
      }
      ReleaseMemory(throws);
      return None;
    }

    /** When the close throws, the reference to the runtime is not cleared. */
    method ReleaseMemory(throws: bool)
      modifies this`memRt, this`memRefs, this`closes
      ensures View() == DropRef(old(View()), Memory, throws)
    {
      memRefs := memRefs - 1;
      if memRefs <= 0 && memRt.Some? {
        closes := Closed(closes, memRt.value);
        if !throws {
          memRt := None;
        }
      }
    }

    /** close on a port: the worker stops and the reference is given back once; later calls do nothing. */
    method BeginPortClose(port: nat) returns (first: bool)
      requires port < |ports|
      modifies this`ports
      ensures View() == Apply(old(View()), BeginClose(port))
      ensures first <==> old(ports[port].phase) == Open
    {
      first := ports[port].phase == Open;
      if first {
        ports := ports[port := ports[port].(phase := Closing)];
      }
    }

    method FinishPortClose(port: nat, throws: bool)
      requires port < |ports| && ports[port].phase == Closing
      modifies this
      ensures View() == Apply(old(View()), Release(port, throws))
    {
      match ports[port].key {
        case File(path) => ReleaseFile(path, throws);
        case Memory => ReleaseMemory(throws);
      }
      ports := ports[port := ports[port].(phase := Released)];
    }
  }
}
