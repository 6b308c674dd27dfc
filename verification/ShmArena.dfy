/**
 * The bump allocator that hands out wal-index regions from one arena in the shared memory.
 * A region is found again by the text "name#region"; dropping a file forgets its regions but never
 * gives their bytes back.
 */
module ShmArena {
  import opened Common
  import opened Decimal

  // ------------------------------------------------------------------ keys

  function RegionText(i: int): (s: string) {
    if i < 0 then "-" + Padded(-i, Length(-i)) else Padded(i, Length(i))
  }

  function Key(name: string, i: int): string {
    name + "#" + RegionText(i)
  }

  lemma RegionTextPlain(i: int)
    ensures '#' !in RegionText(i) && RegionText(i) != []
  {
    var n := if i < 0 then -i else i;
    var s := Padded(n, Length(n));
    assert forall k :: 0 <= k < |s| ==> IsDigit(s[k]);
  }

  lemma PaddedInjective(m: nat, n: nat)
    requires Padded(m, Length(m)) == Padded(n, Length(n))
    ensures m == n
  {
    LengthIff(m, Length(m));
    LengthIff(n, Length(n));
    ValueOfPadded(m, Length(m));
    ValueOfPadded(n, Length(n));
  }

  lemma RegionSign(i: int)
    ensures RegionText(i) != [] && (RegionText(i)[0] == '-' <==> i < 0)
  {
    if i >= 0 {
      assert IsDigit(Padded(i, Length(i))[0]);
    }
  }

  lemma RegionTextInjective(i: int, j: int)
    requires RegionText(i) == RegionText(j)
    ensures i == j
  {
    RegionSign(i);
    RegionSign(j);
    if i >= 0 {
      PaddedInjective(i, j);
    } else {
      assert RegionText(i)[1..] == RegionText(j)[1..];
      PaddedInjective(-i, -j);
    }
  }

  /** The last '#' of a key is where the name ends. */
  lemma KeyMark(name: string, i: int)
    ensures var k := Key(name, i);
            |name| < |k| && k[|name|] == '#' && forall j :: |name| < j < |k| ==> k[j] != '#'
  {
    RegionTextPlain(i);
  }

  /** Different (file, region) pairs never share a key. */
  lemma KeyInjective(m: string, i: int, n: string, j: int)
    requires Key(m, i) == Key(n, j)
    ensures m == n && i == j
  {
    KeyMark(m, i);
    KeyMark(n, j);
    assert |m| == |n|;
    assert m == Key(m, i)[..|m|] && n == Key(n, j)[..|n|];
    assert RegionText(i) == Key(m, i)[|m| + 1..] && RegionText(j) == Key(n, j)[|n| + 1..];
    RegionTextInjective(i, j);
  }

  /** The test dropFile makes: the key starts with "name#". */
  predicate Covers(name: string, key: string) {
    name + "#" <= key
  }

  /** A drop of `name` reaches the regions of `name` and those of every name that extends "name#". */
  lemma CoversIff(name: string, n: string, i: int)
    ensures Covers(name, Key(n, i)) <==> n == name || Covers(name, n)
  {
    KeyMark(n, i);
    var k, p := Key(n, i), name + "#";
    assert k[..|n|] == n;
    if p <= k {
      assert k[|name|] == p[|name|] == '#';
      if |name| == |n| {
        assert n == k[..|n|] == p[..|n|] == name;
      } else {
        assert |p| <= |n| && p == k[..|p|] == n[..|p|];
      }
    }
    if n == name {
      assert k[..|p|] == p;
    }
    if p <= n {
      assert k[..|p|] == n[..|p|] == p;
    }
  }

  // ------------------------------------------------------------------ the allocator on values

  datatype Grant = Grant(key: string, ptr: int, size: int)

  /** Cursor and region table, with the record of everything ever handed out. */
  datatype State = State(base: int, cursor: int, regions: map<string, int>, grants: seq<Grant>)

  datatype Op = Map(name: string, region: int, size: int, extend: bool) | Drop(name: string)

  /** (size + 15) with the low four bits cleared, in 32-bit arithmetic. */
  function Round16(size: int): (r: int)
    ensures 0 < size <= TWO31 - 16 ==> size <= r <= size + 15 && r % 16 == 0
  {
    Wrap32(size + 15) - Wrap32(size + 15) % 16
  }

  function Reply(s: State, op: Op): int {
    match op
    case Drop(_) => 0
    case Map(name, i, size, extend) =>
      if Key(name, i) in s.regions then s.regions[Key(name, i)]
      else if !extend then 0
      else Wrap32(s.base + s.cursor)
  }

  predicate Grants(s: State, op: Op) {
    op.Map? && op.extend && Key(op.name, op.region) !in s.regions
  }

  function Forget(regions: map<string, int>, name: string): map<string, int> {
    map k | k in regions && !Covers(name, k) :: regions[k]
  }

  function Apply(s: State, op: Op): State {
    if op.Drop? then s.(regions := Forget(s.regions, op.name))
    else if Grants(s, op) then
      var k, ptr := Key(op.name, op.region), Wrap32(s.base + s.cursor);
      State(s.base, Wrap32(s.cursor + Round16(op.size)), s.regions[k := ptr], s.grants + [Grant(k, ptr, op.size)])
    else s
  }

  function Run(s: State, ops: seq<Op>): State
    decreases |ops|
  {
    if ops == [] then s else Run(Apply(s, ops[0]), ops[1..])
  }

  function Init(base: int): State {
    State(base, 0, map[], [])
  }

  /** Sizes are positive and what is handed out, rounded up, stays within `room` bytes. */
  predicate StepFits(s: State, op: Op, room: int) {
    Grants(s, op) ==> 0 < op.size <= TWO31 - 16 && s.cursor + Round16(op.size) <= room
  }

  predicate RunFits(s: State, ops: seq<Op>, room: int)
    decreases |ops|
  {
    ops == [] || (StepFits(s, ops[0], room) && RunFits(Apply(s, ops[0]), ops[1..], room))
  }

  predicate Disjoint(a: Grant, b: Grant) {
    a.ptr + a.size <= b.ptr || b.ptr + b.size <= a.ptr
  }

  // ------------------------------------------------------------------ safety over every run

  ghost predicate GrantOk(s: State, g: Grant) {
    g.size > 0 && s.base <= g.ptr && (g.ptr - s.base) % 16 == 0 && g.ptr + g.size <= s.base + s.cursor
  }

  /** Region k is backed by a grant made at or after position `from`. */
  ghost predicate Backed(s: State, k: string, from: nat)
    requires k in s.regions
  {
    exists j :: from <= j < |s.grants| && s.grants[j].key == k && s.grants[j].ptr == s.regions[k]
  }

  ghost predicate Inv(s: State, room: int) {
    && 0 < s.base && s.base + room < TWO31
    && 0 <= s.cursor <= room && s.cursor % 16 == 0
    && (forall j :: 0 <= j < |s.grants| ==> GrantOk(s, s.grants[j]))
    && (forall i, j :: 0 <= i < j < |s.grants| ==> s.grants[i].ptr + s.grants[i].size <= s.grants[j].ptr)
    && (forall k :: k in s.regions ==> Backed(s, k, 0))
  }

  /** Whatever key is backed stays backed; a key just granted is backed by the newest grant. */
  lemma BackedStep(s: State, op: Op, room: int, k: string, from: nat)
    requires Inv(s, room) && StepFits(s, op, room)
    requires k in Apply(s, op).regions && from <= |s.grants|
    requires k in s.regions ==> Backed(s, k, from)
    ensures Backed(Apply(s, op), k, from)
  {
    var t := Apply(s, op);
    if Grants(s, op) && k == Key(op.name, op.region) {
      assert t.grants[|s.grants|].key == k;
    } else {
      var j :| from <= j < |s.grants| && s.grants[j].key == k && s.grants[j].ptr == s.regions[k];
      assert t.grants[j] == s.grants[j];
    }
  }

  /** In a fitting step nothing wraps. */
  lemma GrantPlace(s: State, op: Op, room: int)
    requires Inv(s, room) && StepFits(s, op, room) && Grants(s, op)
    ensures var t := Apply(s, op);
            && t.cursor == s.cursor + Round16(op.size) && t.cursor % 16 == 0
            && t.grants == s.grants + [Grant(Key(op.name, op.region), s.base + s.cursor, op.size)]
  {}

  /** A new grant starts at the cursor, behind everything granted so far. */
  lemma GrantInv(s: State, op: Op, room: int)
    requires Inv(s, room) && StepFits(s, op, room) && Grants(s, op)
    ensures var t := Apply(s, op);
            && (forall j :: 0 <= j < |t.grants| ==> GrantOk(t, t.grants[j]))
            && (forall i, j :: 0 <= i < j < |t.grants| ==> t.grants[i].ptr + t.grants[i].size <= t.grants[j].ptr)
  {
    GrantPlace(s, op, room);
    GrantBehind(s, Apply(s, op), op.size, Round16(op.size));
  }

  lemma GrantBehind(s: State, t: State, size: int, rounded: int)
    requires forall j :: 0 <= j < |s.grants| ==> GrantOk(s, s.grants[j])
    requires forall i, j :: 0 <= i < j < |s.grants| ==> s.grants[i].ptr + s.grants[i].size <= s.grants[j].ptr
    requires 0 < size <= rounded && t.base == s.base && t.cursor == s.cursor + rounded && 0 <= s.cursor && s.cursor % 16 == 0
    requires |t.grants| == |s.grants| + 1 && t.grants[..|s.grants|] == s.grants
    requires t.grants[|s.grants|].ptr == s.base + s.cursor && t.grants[|s.grants|].size == size
    ensures forall j :: 0 <= j < |t.grants| ==> GrantOk(t, t.grants[j])
    ensures forall i, j :: 0 <= i < j < |t.grants| ==> t.grants[i].ptr + t.grants[i].size <= t.grants[j].ptr
  {
    assert forall j :: 0 <= j < |s.grants| ==> t.grants[j] == s.grants[j];
    forall j | 0 <= j < |t.grants| ensures GrantOk(t, t.grants[j]) {
      assert j < |s.grants| ==> GrantOk(s, s.grants[j]);
    }
    forall i, j | 0 <= i < j < |t.grants| ensures t.grants[i].ptr + t.grants[i].size <= t.grants[j].ptr {
      assert GrantOk(s, s.grants[i]);
    }
  }

  lemma StepInv(s: State, op: Op, room: int)
    requires Inv(s, room) && StepFits(s, op, room)
    ensures Inv(Apply(s, op), room)
  {
    var t := Apply(s, op);
    if Grants(s, op) {
      GrantPlace(s, op, room);
      GrantInv(s, op, room);
    }
    forall k | k in t.regions ensures Backed(t, k, 0) {
      BackedStep(s, op, room, k, 0);
    }
  }

  lemma {:induction false} RunInv(s: State, ops: seq<Op>, room: int)
    requires Inv(s, room) && RunFits(s, ops, room)
    ensures Inv(Run(s, ops), room)
    decreases |ops|
  {
    if ops != [] {
      StepInv(s, ops[0], room);
      RunInv(Apply(s, ops[0]), ops[1..], room);
    }
  }

  /**
   * Over every fitting run, all regions ever handed out are pairwise disjoint, 16-byte aligned
   * relative to the base, and inside the arena, also those whose file was dropped since.
   */
  lemma ArenaSafety(base: int, room: int, ops: seq<Op>)
    requires 0 < base && 0 <= room && base + room < TWO31 && RunFits(Init(base), ops, room)
    ensures var g := Run(Init(base), ops).grants;
            && (forall i, j :: 0 <= i < j < |g| ==> Disjoint(g[i], g[j]) && g[i].ptr != g[j].ptr)
            && (forall i :: 0 <= i < |g| ==> (g[i].ptr - base) % 16 == 0 && base <= g[i].ptr && g[i].ptr + g[i].size <= base + room)
  {
    RunInv(Init(base), ops, room);
    var s := Run(Init(base), ops);
    RunBase(Init(base), ops);
    forall i | 0 <= i < |s.grants| ensures GrantOk(s, s.grants[i]) {}
  }

  lemma {:induction false} RunBase(s: State, ops: seq<Op>)
    ensures Run(s, ops).base == s.base
    decreases |ops|
  {
    if ops != [] {
      RunBase(Apply(s, ops[0]), ops[1..]);
    }
  }

  /** Nothing checks the arena's end: a new region stays inside exactly when its rounded size still fits. */
  lemma InsideIffFits(s: State, op: Op, room: int)
    requires Inv(s, room) && Grants(s, op) && room % 16 == 0 && 0 < op.size <= TWO31 - 16
    ensures Reply(s, op) + op.size <= s.base + room <==> StepFits(s, op, room)
  {
    assert Reply(s, op) == s.base + s.cursor;
    RoundFits(op.size, room - s.cursor);
  }

  lemma RoundFits(size: int, n: int)
    requires n % 16 == 0 && 0 < size <= TWO31 - 16
    ensures size <= n <==> Round16(size) <= n
  {
    var r := Round16(size);
    assert r == 16 * (r / 16) && n == 16 * (n / 16);
  }

  /** Two live regions share a pointer exactly when they are the same region of the same file. */
  lemma SharedIffSame(s: State, room: int, m: string, i: int, n: string, j: int)
    requires Inv(s, room) && Key(m, i) in s.regions && Key(n, j) in s.regions
    ensures s.regions[Key(m, i)] == s.regions[Key(n, j)] <==> m == n && i == j
  {
    var a :| 0 <= a < |s.grants| && s.grants[a].key == Key(m, i) && s.grants[a].ptr == s.regions[Key(m, i)];
    var b :| 0 <= b < |s.grants| && s.grants[b].key == Key(n, j) && s.grants[b].ptr == s.regions[Key(n, j)];
    assert GrantOk(s, s.grants[a]) && GrantOk(s, s.grants[b]);
    if a == b {
      KeyInjective(m, i, n, j);
    }
  }

  // ------------------------------------------------------------------ stability and reuse

  /** No operation of the run drops the key. */
  predicate NeverDropped(key: string, ops: seq<Op>) {
    forall i :: 0 <= i < |ops| && ops[i].Drop? ==> !Covers(ops[i].name, key)
  }

  lemma {:induction false} LiveStays(s: State, ops: seq<Op>, key: string)
    requires key in s.regions && NeverDropped(key, ops)
    ensures key in Run(s, ops).regions && Run(s, ops).regions[key] == s.regions[key]
    decreases |ops|
  {
    if ops != [] {
      assert ops[0].Drop? ==> !Covers(ops[0].name, key);
      LiveStays(Apply(s, ops[0]), ops[1..], key);
    }
  }

  /**
   * Once a region was handed out, every later request for it returns the same pointer, whatever
   * size it asks for, for as long as no drop reaches the file.
   */
  lemma SamePointerWhileLive(s: State, first: Op, ops: seq<Op>, again: Op)
    requires first.Map? && first.extend && again.Map? && again.name == first.name && again.region == first.region
    requires forall i :: 0 <= i < |ops| && ops[i].Drop? ==> first.name != ops[i].name && !Covers(ops[i].name, first.name)
    ensures Reply(Run(Apply(s, first), ops), again) == Reply(s, first)
  {
    var key := Key(first.name, first.region);
    forall i | 0 <= i < |ops| && ops[i].Drop? ensures !Covers(ops[i].name, key) {
      CoversIff(ops[i].name, first.name, first.region);
    }
    LiveStays(Apply(s, first), ops, key);
  }

  lemma {:induction false} RunBacked(s: State, ops: seq<Op>, room: int, k: string, from: nat)
    requires Inv(s, room) && RunFits(s, ops, room) && from <= |s.grants| && (k in s.regions ==> Backed(s, k, from))
    ensures k in Run(s, ops).regions ==> Backed(Run(s, ops), k, from)
    ensures s.grants <= Run(s, ops).grants
    decreases |ops|
  {
    if ops != [] {
      var t := Apply(s, ops[0]);
      StepInv(s, ops[0], room);
      if k in t.regions {
        BackedStep(s, ops[0], room, k, from);
      }
      RunBacked(t, ops[1..], room, k, from);
    }
  }

  /**
   * After a drop of a file, whatever its regions are mapped to later is disjoint from everything
   * handed out before the drop: a remap starts on bytes no old holder can reach.
   */
  lemma RemapNeverAliases(s: State, ops: seq<Op>, room: int, name: string, i: int, g: Grant)
    requires Inv(s, room) && RunFits(Apply(s, Drop(name)), ops, room) && g in s.grants
    requires Key(name, i) in Run(Apply(s, Drop(name)), ops).regions
    ensures var t := Run(Apply(s, Drop(name)), ops);
            exists h :: h in t.grants && h.key == Key(name, i) && h.ptr == t.regions[h.key] && Disjoint(g, h) && h.ptr != g.ptr
  {
    var d, k := Apply(s, Drop(name)), Key(name, i);
    CoversIff(name, name, i);
    StepInv(s, Drop(name), room);
    RunInv(d, ops, room);
    RunBacked(d, ops, room, k, |s.grants|);
    var t := Run(d, ops);
    var j :| |s.grants| <= j < |t.grants| && t.grants[j].key == k && t.grants[j].ptr == t.regions[k];
    var a :| 0 <= a < |s.grants| && s.grants[a] == g;
    assert t.grants[a] == g && GrantOk(t, t.grants[a]);
    assert Disjoint(g, t.grants[j]);
  }

  /**
   * dropFile forgets exactly the regions of the named file if and only if no live name extends
   * "name#".
   */
  lemma DropIsExactIff(regions: map<string, int>, name: string)
    ensures (forall n, i :: Key(n, i) in regions ==> (Key(n, i) in Forget(regions, name) <==> n != name))
            <==> (forall n, i :: Key(n, i) in regions ==> !Covers(name, n) || n == name)
  {
    forall n, i ensures Covers(name, Key(n, i)) <==> n == name || Covers(name, n) {
      CoversIff(name, n, i);
    }
  }

  /** A file whose name extends another's by '#' loses its regions with it. */
  lemma DropTakesExtendedName()
    ensures Key("a#b", 0) !in Forget(map[Key("a#b", 0) := 16], "a")
  {
    CoversIff("a", "a#b", 0);
  }

  lemma GrantsBelow(s: State, room: int)
    requires Inv(s, room)
    ensures forall g :: g in s.grants ==> GrantOk(s, g)
  {
    forall g | g in s.grants ensures GrantOk(s, g) {
      var j :| 0 <= j < |s.grants| && s.grants[j] == g;
      assert GrantOk(s, s.grants[j]);
    }
  }

  /** The range mem.fill is given lies in memory. */
  predicate InMemory(ptr: int, size: int, limit: int) {
    0 <= ptr && 0 <= size && ptr + size <= limit
  }

  /** From `before` to `after`, the bytes of a new region became zero and those of every earlier grant stayed. */
  ghost predicate ZeroedBehind(s: State, before: seq<int>, after: seq<int>, ptr: int, size: int) {
    && |before| == |after| && 0 <= ptr && ptr + size <= |after|
    && (forall a :: ptr <= a < ptr + size ==> after[a] == 0)
    && (forall g :: g in s.grants ==> 0 <= g.ptr && 0 <= g.size && g.ptr + g.size <= |before| && Slice(before, g) == Slice(after, g))
  }

  /** The bytes of a grant. */
  ghost function Slice(mem: seq<int>, g: Grant): seq<int>
    requires 0 <= g.ptr && 0 <= g.size && g.ptr + g.size <= |mem|
  {
    mem[g.ptr..g.ptr + g.size]
  }

  lemma FittingGrant(s: State, op: Op, room: int, limit: int)
    requires Inv(s, room) && Grants(s, op) && StepFits(s, op, room) && s.base + room <= limit
    ensures Inv(Apply(s, op), room) && Wrap32(s.base + s.cursor) == s.base + s.cursor
    ensures InMemory(Wrap32(s.base + s.cursor), op.size, limit)
  {
    StepInv(s, op, room);
    GrantPlace(s, op, room);
  }

  lemma GrantsUntouched(s: State, room: int, before: seq<int>, after: seq<int>, ptr: int, size: int)
    requires Inv(s, room) && ptr == s.base + s.cursor && 0 <= size && ptr + size <= |before| == |after|
    requires forall a :: ptr <= a < ptr + size ==> after[a] == 0
    requires forall a :: 0 <= a < ptr ==> after[a] == before[a]
    ensures ZeroedBehind(s, before, after, ptr, size)
  {
    GrantsBelow(s, room);
    forall g | g in s.grants ensures 0 <= g.ptr && 0 <= g.size && g.ptr + g.size <= |before| && Slice(before, g) == Slice(after, g) {
      assert GrantOk(s, g);
    }
  }

  // ------------------------------------------------------------------ the arena object

  class Arena {
    const mem: array<int>
    const base: int
    ghost const room: int
    var cursor: int
    var regions: map<string, int>
    ghost var grants: seq<Grant>

    ghost function View(): State
      reads this
    {
      State(base, cursor, regions, grants)
    }

    ghost predicate Valid()
      reads this
    {
      Inv(View(), room) && base + room <= mem.Length
    }

    constructor (mem: array<int>, base: int, room: int)
      requires 0 < base && 0 <= room && base + room < TWO31 && base + room <= mem.Length
      ensures Valid() && View() == Init(base) && this.mem == mem && this.room == room
    {
      this.mem, this.base, this.room := mem, base, room;
      cursor, regions, grants := 0, map[], [];
    }

    /**
     * A request for a live region, or one that may not extend, touches nothing. A new region that fits
     * keeps the arena valid, reads as zero and changes no byte of an earlier region. One that does not
     * fit is taken all the same; when it leaves memory the fill throws, after the cursor has moved and
     * before the region is recorded.
     */
    method MapRegion(name: string, i: int, size: int, extend: bool) returns (ptr: int, trapped: bool)
      requires Valid()
      modifies this, mem
      ensures StepFits(old(View()), Map(name, i, size, extend), room) ==>
                && Valid() && !trapped
                && (Grants(old(View()), Map(name, i, size, extend)) ==> ZeroedBehind(old(View()), old(mem[..]), mem[..], ptr, size))
      ensures !trapped ==> View() == Apply(old(View()), Map(name, i, size, extend)) && ptr == Reply(old(View()), Map(name, i, size, extend))
      ensures trapped ==> View() == old(View()).(cursor := Wrap32(old(cursor) + Round16(size))) && mem[..] == old(mem[..])
      ensures trapped <==> Grants(old(View()), Map(name, i, size, extend)) && !InMemory(Wrap32(base + old(cursor)), size, mem.Length)
      ensures !Grants(old(View()), Map(name, i, size, extend)) ==> mem[..] == old(mem[..])
    {
      var key := Key(name, i);
      if key in regions {
        return regions[key], false;
      }
      if !extend {
        return 0, false;
      }
      ptr, trapped := Extend(name, i, size);
    }

    method Extend(name: string, i: int, size: int) returns (ptr: int, trapped: bool)
      requires Valid() && Grants(View(), Map(name, i, size, true))
      modifies this, mem
      ensures StepFits(old(View()), Map(name, i, size, true), room) ==>
                Valid() && !trapped && ZeroedBehind(old(View()), old(mem[..]), mem[..], ptr, size)
      ensures !trapped ==> View() == Apply(old(View()), Map(name, i, size, true)) && ptr == Reply(old(View()), Map(name, i, size, true))
      ensures trapped ==> View() == old(View()).(cursor := Wrap32(old(cursor) + Round16(size))) && mem[..] == old(mem[..])
      ensures trapped <==> !InMemory(Wrap32(base + old(cursor)), size, mem.Length)
    {
      ghost var s, cells, op := View(), mem[..], Map(name, i, size, true);
      if StepFits(s, op, room) {
        FittingGrant(s, op, room, mem.Length);
      }
      ptr := Wrap32(base + cursor);
      var next, table := Wrap32(cursor + Round16(size)), regions[Key(name, i) := ptr];
      ghost var given := grants + [Grant(Key(name, i), ptr, size)];
      assert Apply(s, op) == State(base, next, table, given);
      cursor := next;
      trapped := !(0 <= ptr && 0 <= size && ptr + size <= mem.Length);
      if !trapped {
        Zero(ptr, size);
        if StepFits(s, op, room) {
          GrantsUntouched(s, room, cells, mem[..], ptr, size);
        }
        regions, grants := table, given;
      }
    }

    method Zero(ptr: int, size: int)
      requires 0 <= ptr && 0 <= size && ptr + size <= mem.Length
      modifies mem
      ensures forall b :: ptr <= b < ptr + size ==> mem[b] == 0
      ensures forall b :: 0 <= b < ptr || ptr + size <= b < mem.Length ==> mem[b] == old(mem[b])
    {
      var a := ptr;
      while a < ptr + size
        invariant ptr <= a <= ptr + size
        invariant forall b :: ptr <= b < a ==> mem[b] == 0
        invariant forall b :: 0 <= b < ptr || a <= b < mem.Length ==> mem[b] == old(mem[b])
      {
        mem[a] := 0;
        a := a + 1;
      }
    }

    method DropFile(name: string)
      requires Valid()
      modifies this
      ensures Valid() && View() == Apply(old(View()), Drop(name))
    {
      StepInv(View(), Drop(name), room);
      regions := Forget(regions, name);
    }
  }
}
