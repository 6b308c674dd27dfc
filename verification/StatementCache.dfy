/** The access-ordered statement cache: what it holds after any history of uses. */
module StatementCache {
  import opened Common

  const CAPACITY: nat := 64

  /** The text of a statement, compared as a whole. */
  datatype Sql = Sql(text: string)

  predicate Distinct(s: seq<Sql>) {
    forall i, j :: 0 <= i < j < |s| ==> s[i] != s[j]
  }

  function Remove(ks: seq<Sql>, k: Sql): seq<Sql> {
    if ks == [] then [] else if ks[0] == k then ks[1..] else [ks[0]] + Remove(ks[1..], k)
  }

  /** get on a hit: the key becomes the youngest. */
  function Touch(order: seq<Sql>, k: Sql): seq<Sql> {
    Remove(order, k) + [k]
  }

  /** put of a new key: appended, and the eldest goes when the size exceeds the capacity. */
  function Insert(order: seq<Sql>, k: Sql): seq<Sql> {
    if |order| + 1 > CAPACITY then (order + [k])[1..] else order + [k]
  }

  /** The key that an insertion pushes out. */
  function Evicted(order: seq<Sql>, k: Sql): Option<Sql> {
    if |order| + 1 > CAPACITY then Some((order + [k])[0]) else None
  }

  /** One use of a key. */
  function Use(order: seq<Sql>, k: Sql): seq<Sql> {
    if k in order then Touch(order, k) else Insert(order, k)
  }

  /** The cache order after a whole history of uses. */
  function OrderAfter(uses: seq<Sql>): seq<Sql> {
    if uses == [] then [] else Use(OrderAfter(uses[..|uses| - 1]), uses[|uses| - 1])
  }

  /** The distinct keys of a history, by time of last use, oldest first. */
  function Recency(uses: seq<Sql>): seq<Sql> {
    if uses == [] then [] else Remove(Recency(uses[..|uses| - 1]), uses[|uses| - 1]) + [uses[|uses| - 1]]
  }

  function LastN(s: seq<Sql>, n: nat): seq<Sql> {
    if |s| <= n then s else s[|s| - n..]
  }

  // ------------------------------------------------------------------ removing a key

  lemma {:induction false} RemoveKeys(ks: seq<Sql>, k: Sql)
    requires Distinct(ks)
    ensures Distinct(Remove(ks, k)) && |Remove(ks, k)| == |ks| - (if k in ks then 1 else 0)
    ensures forall x :: x in Remove(ks, k) <==> x in ks && x != k
  {
    if ks != [] {
      var rest := Remove(ks[1..], k);
      RemoveKeys(ks[1..], k);
      assert forall x :: x in ks <==> x == ks[0] || x in ks[1..];
      assert ks[0] !in ks[1..];
    }
  }

  lemma {:induction false} RemoveAbsent(ks: seq<Sql>, k: Sql)
    requires k !in ks
    ensures Remove(ks, k) == ks
  {
    if ks != [] {
      RemoveAbsent(ks[1..], k);
    }
  }

  lemma {:induction false} RemoveLeft(a: seq<Sql>, b: seq<Sql>, k: Sql)
    requires k in a
    ensures Remove(a + b, k) == Remove(a, k) + b
  {
    assert (a + b)[1..] == a[1..] + b;
    if a[0] != k {
      RemoveLeft(a[1..], b, k);
    }
  }

  lemma {:induction false} RemoveRight(a: seq<Sql>, b: seq<Sql>, k: Sql)
    requires k !in a
    ensures Remove(a + b, k) == a + Remove(b, k)
  {
    if a == [] {
      assert a + b == b;
    } else {
      assert (a + b)[1..] == a[1..] + b;
      RemoveRight(a[1..], b, k);
    }
  }

  lemma {:induction false} RecencyDistinct(uses: seq<Sql>)
    ensures Distinct(Recency(uses))
    ensures forall k :: k in Recency(uses) <==> k in uses
  {
    if uses != [] {
      var before, k := uses[..|uses| - 1], uses[|uses| - 1];
      RecencyDistinct(before);
      RemoveKeys(Recency(before), k);
      assert uses == before + [k];
    }
  }

  // ------------------------------------------------------------------ least recently used, over all histories

  /** What lies in front of n or more elements does not matter. */
  lemma LastNOfSuffix(a: seq<Sql>, x: seq<Sql>, n: nat)
    requires |x| >= n || a == []
    ensures LastN(a + x, n) == LastN(x, n)
  {
    assert a == [] ==> a + x == x;
  }

  /** A hit on a key among the last n keeps the last n in step with the full order. */
  lemma HitKeepsLastN(a: seq<Sql>, l: seq<Sql>, n: nat, k: Sql)
    requires Distinct(a + l) && k in l && (|l| == n || (a == [] && |l| <= n))
    ensures LastN(Touch(a + l, k), n) == Touch(l, k)
  {
    assert k !in a by {
      assert forall i :: 0 <= i < |a| ==> (a + l)[i] == a[i];
      assert forall i :: 0 <= i < |l| ==> (a + l)[|a| + i] == l[i];
    }
    assert Distinct(l) by {
      assert forall i :: 0 <= i < |l| ==> l[i] == (a + l)[|a| + i];
    }
    RemoveRight(a, l, k);
    RemoveKeys(l, k);
    assert Touch(a + l, k) == a + Touch(l, k);
    LastNOfSuffix(a, Touch(l, k), n);
  }

  /** A miss appends the key and drops the oldest of n. */
  lemma MissKeepsLastN(a: seq<Sql>, l: seq<Sql>, n: nat, k: Sql)
    requires n > 0 && k !in l && (|l| == n || (a == [] && |l| <= n))
    ensures LastN(Touch(a + l, k), n) == LastN(l + [k], n)
  {
    if k in a {
      RemoveLeft(a, l, k);
      assert (Remove(a, k) + l) + [k] == Remove(a, k) + (l + [k]);
      LastNOfSuffix(Remove(a, k), l + [k], n);
    } else {
      RemoveAbsent(a + l, k);
      assert (a + l) + [k] == a + (l + [k]);
      LastNOfSuffix(a, l + [k], n);
    }
  }

  lemma UseKeepsMostRecent(r: seq<Sql>, k: Sql)
    requires Distinct(r)
    ensures Use(LastN(r, CAPACITY), k) == LastN(Touch(r, k), CAPACITY)
  {
    var l := LastN(r, CAPACITY);
    var a := r[..|r| - |l|];
    assert r == a + l;
    if k in l {
      HitKeepsLastN(a, l, CAPACITY, k);
    } else {
      MissKeepsLastN(a, l, CAPACITY, k);
    }
  }

  /**
   * After any history of uses the cache holds exactly the last 64 distinct keys, in order of last
   * use: a hit reorders, a miss evicts the least recently used one.
   */
  lemma {:induction false} CacheIsMostRecent(uses: seq<Sql>)
    ensures OrderAfter(uses) == LastN(Recency(uses), 64)
  {
    if uses != [] {
      var before := uses[..|uses| - 1];
      CacheIsMostRecent(before);
      RecencyDistinct(before);
      UseKeepsMostRecent(Recency(before), uses[|uses| - 1]);
    }
  }

  // ------------------------------------------------------------------ one use

  /** A hit keeps the keys. */
  lemma TouchKeys(order: seq<Sql>, k: Sql)
    requires k in order && Distinct(order)
    ensures |Touch(order, k)| == |order| && Distinct(Touch(order, k))
    ensures forall x :: x in Touch(order, k) <==> x in order
  {
    RemoveKeys(order, k);
  }

  /** A miss adds the new key and gives up exactly the eldest, which is never the new one. */
  lemma InsertKeys(order: seq<Sql>, k: Sql)
    requires Distinct(order) && k !in order && |order| <= CAPACITY
    ensures |Insert(order, k)| <= 64 && Distinct(Insert(order, k)) && (|order| < 64 ==> Evicted(order, k) == None)
    ensures Evicted(order, k).Some? ==> Evicted(order, k).value in order && Evicted(order, k).value != k
    ensures forall x :: x in Insert(order, k) <==> x == k || (x in order && Evicted(order, k) != Some(x))
  {
    var t := Insert(order, k);
    if |order| + 1 > CAPACITY {
      assert t == order[1..] + [k];
      assert forall x :: x in order <==> x == order[0] || x in order[1..];
      assert order[0] !in order[1..];
    }
  }

  lemma TouchYoungest(rest: seq<Sql>, k: Sql)
    requires k !in rest
    ensures Touch(rest + [k], k) == rest + [k]
  {
    RemoveRight(rest, [k], k);
    assert Remove([k], k) == [];
    assert rest + [] == rest;
  }

  /** Using a key twice in a row is using it once. */
  lemma UseIdempotent(order: seq<Sql>, k: Sql)
    requires Distinct(order)
    ensures Use(Use(order, k), k) == Use(order, k)
  {
    if k in order {
      RemoveKeys(order, k);
      TouchYoungest(Remove(order, k), k);
    } else {
      var rest := if |order| + 1 > CAPACITY then order[1..] else order;
      assert Insert(order, k) == rest + [k];
      TouchYoungest(rest, k);
    }
  }
}
