/**
 * IEEE 754 binary64 values as reals: rounding to nearest, ties to even (section 4.3.1 of IEEE 754-2008).
 * Overflow to infinity is left out.
 */
module Binary64 {
  const MIN_EXP: int := -1074
  const MAX_EXP: int := 971
  const TWO53: int := 0x20_0000_0000_0000

  /** x * 2^n, one doubling or halving at a time. */
  function Scale(x: real, n: int): real
    decreases if n < 0 then -n else n
  {
    if n == 0 then x else if n > 0 then Scale(2.0 * x, n - 1) else Scale(x / 2.0, n + 1)
  }

  function Pow2(e: int): real {
    Scale(1.0, e)
  }

  /** The whole number nearest to q, the even one when two are equally near. */
  function RoundEven(q: real): int {
    var f := q.Floor;
    var d := q - f as real;
    if d < 0.5 || (d == 0.5 && f % 2 == 0) then f else f + 1
  }

  /** Exponent of the unit in the last place of a magnitude, looked for from e downwards. */
  function UlpExp(a: real, e: int): (u: int)
    decreases e - MIN_EXP
  {
    if e <= MIN_EXP then MIN_EXP else if Pow2(e + 52) <= a then e else UlpExp(a, e - 1)
  }

  /** The multiple of 2^u nearest to x. */
  function Nearest(x: real, u: int): real {
    Scale(RoundEven(Scale(x, -u)) as real, u)
  }

  /** The double nearest to x. */
  function Double(x: real): real {
    if x < 0.0 then -Nearest(-x, UlpExp(-x, MAX_EXP)) else Nearest(x, UlpExp(x, MAX_EXP))
  }

  // ------------------------------------------------------------------ scaling

  lemma {:induction false} ScaleOne(x: real, n: int)
    ensures Scale(x, n + 1) == 2.0 * Scale(x, n) && Scale(x, n - 1) == Scale(x, n) / 2.0
    decreases if n < 0 then -n else n
  {
    if n > 0 {
      ScaleOne(2.0 * x, n - 1);
    } else if n < 0 {
      ScaleOne(x / 2.0, n + 1);
    } else {
      assert Scale(x, 1) == Scale(2.0 * x, 0) && Scale(x, -1) == Scale(x / 2.0, 0);
    }
  }

  lemma {:induction false} ScaleScale(x: real, a: int, b: int)
    ensures Scale(Scale(x, a), b) == Scale(x, a + b)
    decreases if b < 0 then -b else b
  {
    if b > 0 {
      ScaleOne(Scale(x, a), b - 1);
      ScaleOne(x, a + b - 1);
      ScaleScale(x, a, b - 1);
    } else if b < 0 {
      ScaleOne(Scale(x, a), b + 1);
      ScaleOne(x, a + b + 1);
      ScaleScale(x, a, b + 1);
    }
  }

  lemma {:induction false} ScaleMono(x: real, y: real, n: int)
    ensures x <= y <==> Scale(x, n) <= Scale(y, n)
    decreases if n < 0 then -n else n
  {
    if n > 0 {
      ScaleMono(2.0 * x, 2.0 * y, n - 1);
    } else if n < 0 {
      ScaleMono(x / 2.0, y / 2.0, n + 1);
    }
  }

  lemma {:induction false} ScaleAdd(x: real, y: real, n: int)
    ensures Scale(x + y, n) == Scale(x, n) + Scale(y, n) && Scale(-x, n) == -Scale(x, n)
    decreases if n < 0 then -n else n
  {
    if n > 0 {
      ScaleAdd(2.0 * x, 2.0 * y, n - 1);
      assert 2.0 * (x + y) == 2.0 * x + 2.0 * y;
    } else if n < 0 {
      ScaleAdd(x / 2.0, y / 2.0, n + 1);
      assert (x + y) / 2.0 == x / 2.0 + y / 2.0;
    }
  }

  lemma {:induction false} ScaleInt(k: int, n: nat) returns (m: int)
    ensures Scale(k as real, n) == m as real
    decreases n
  {
    if n == 0 {
      m := k;
    } else {
      m := ScaleInt(2 * k, n - 1);
    }
  }

  lemma {:induction false} Pow2Mono(a: int, b: int)
    requires a <= b
    ensures 0.0 < Pow2(a) <= Pow2(b) && (a < b ==> 2.0 * Pow2(a) <= Pow2(b))
    decreases b - a
  {
    if a < b {
      ScaleOne(1.0, b - 1);
      Pow2Mono(a, b - 1);
    } else {
      ScaleMono(1.0, 0.0, a);
      ScaleAdd(0.0, 0.0, a);
    }
  }

  // ------------------------------------------------------------------ the unit in the last place

  lemma {:induction false} UlpBounds(a: real, e: int)
    requires MIN_EXP <= e && 0.0 <= a < Pow2(e + 53)
    ensures var u := UlpExp(a, e);
            MIN_EXP <= u <= e && a < Pow2(u + 53) && (u == MIN_EXP || Pow2(u + 52) <= a)
    decreases e - MIN_EXP
  {
    if e > MIN_EXP && a < Pow2(e + 52) {
      UlpBounds(a, e - 1);
    }
  }

  /** A magnitude below 2^e has an ulp of at most 2^(e - 53). */
  lemma UlpBelow(a: real, e: int)
    requires 0.0 <= a < Pow2(e) && MIN_EXP + 53 <= e <= MAX_EXP + 53
    ensures MIN_EXP <= UlpExp(a, MAX_EXP) <= e - 53
  {
    Pow2Mono(e, MAX_EXP + 53);
    UlpBounds(a, MAX_EXP);
    var u := UlpExp(a, MAX_EXP);
    if e - 53 < u {
      Pow2Mono(e, u + 52);
    }
  }

  /** A magnitude from 2^e on has an ulp of at least 2^(e - 52). */
  lemma UlpFrom(a: real, e: int)
    requires Pow2(e) <= a < Pow2(MAX_EXP + 53)
    ensures UlpExp(a, MAX_EXP) >= e - 52
  {
    Pow2Mono(e, e);
    UlpBounds(a, MAX_EXP);
    var u := UlpExp(a, MAX_EXP);
    if u + 53 <= e {
      Pow2Mono(u + 53, e);
    }
  }

  // ------------------------------------------------------------------ nearest

  lemma NearestError(x: real, u: int)
    ensures -Pow2(u - 1) <= Nearest(x, u) - x <= Pow2(u - 1)
  {
    var q := Scale(x, -u);
    var m := RoundEven(q) as real;
    ScaleScale(x, -u, u);
    ScaleAdd(m, -q, u);
    ScaleAdd(q, 0.0, u);
    ScaleMono(-0.5, m - q, u);
    ScaleMono(m - q, 0.5, u);
    ScaleAdd(0.5, 0.0, u);
    ScaleScale(1.0, -1, u);
    assert Scale(1.0, -1) == Scale(0.5, 0);
  }

  lemma NearestExact(m: int, u: int)
    ensures Nearest(Scale(m as real, u), u) == Scale(m as real, u)
  {
    ScaleScale(m as real, u, -u);
  }

  lemma RoundEvenKeepsSide(q: real, m: int)
    ensures m as real <= q ==> m <= RoundEven(q)
    ensures q <= m as real ==> RoundEven(q) <= m
  {}

  /** Rounding does not cross a multiple of the unit. */
  lemma NearestKeepsSide(x: real, m: int, u: int)
    ensures Scale(m as real, u) <= x ==> Scale(m as real, u) <= Nearest(x, u)
    ensures x <= Scale(m as real, u) ==> Nearest(x, u) <= Scale(m as real, u)
  {
    var q := Scale(x, -u);
    ScaleScale(x, -u, u);
    assert Scale(q, u) == x;
    ScaleMono(m as real, q, u);
    ScaleMono(q, m as real, u);
    RoundEvenKeepsSide(q, m);
    var n := RoundEven(q);
    ScaleMono(m as real, n as real, u);
    ScaleMono(n as real, m as real, u);
  }

  // ------------------------------------------------------------------ rounding

  /** Below 2^e the error is at most 2^(e - 54). */
  lemma DoubleError(x: real, e: int)
    requires -Pow2(e) < x < Pow2(e) && MIN_EXP + 54 <= e <= MAX_EXP + 53
    ensures -Pow2(e - 54) <= Double(x) - x <= Pow2(e - 54)
  {
    var a := if x < 0.0 then -x else x;
    UlpBelow(a, e);
    var u := UlpExp(a, MAX_EXP);
    NearestError(a, u);
    Pow2Mono(u - 1, e - 54);
  }

  /** A grid point of at most 53 bits, k * 2^j. */
  predicate OnGrid(x: real, k: int, j: int) {
    x == Scale(k as real, j) && -TWO53 <= k <= TWO53 && MIN_EXP <= j <= MAX_EXP
  }

  lemma ScaleFive(x: real, e: int)
    ensures Scale(x, e + 5) == 32.0 * Scale(x, e)
  {
    ScaleOne(x, e);
    ScaleOne(x, e + 1);
    ScaleOne(x, e + 2);
    ScaleOne(x, e + 3);
    ScaleOne(x, e + 4);
  }

  lemma Pow2Five(e: int)
    ensures Pow2(e + 5) == 32.0 * Pow2(e)
  {
    ScaleFive(1.0, e);
  }

  lemma Pow2Twenty(e: int)
    ensures Pow2(e + 20) == 1048576.0 * Pow2(e)
  {
    Pow2Five(e);
    Pow2Five(e + 5);
    Pow2Five(e + 10);
    Pow2Five(e + 15);
  }

  lemma TwoTo53()
    ensures Pow2(53) == TWO53 as real
  {
    Pow2Twenty(0);
    Pow2Twenty(20);
    Pow2Five(40);
    Pow2Five(45);
    ScaleOne(1.0, 50);
    ScaleOne(1.0, 51);
    ScaleOne(1.0, 52);
  }

  /** A 53-bit grid point is at most 2^(j + 53). */
  lemma GridTop(g: real, k: int, j: int)
    requires OnGrid(g, k, j)
    ensures g <= Pow2(j + 53)
  {
    TwoTo53();
    ScaleScale(1.0, 53, j);
    ScaleMono(k as real, TWO53 as real, j);
  }

  /** At or above 2^(u + 52), a point of a 53-bit grid is a multiple of 2^u. */
  lemma GridMultiple(g: real, k: int, j: int, u: int) returns (m: int)
    requires OnGrid(g, k, j) && (Pow2(u + 52) <= g || u <= j)
    ensures g == Scale(m as real, u)
  {
    if u <= j {
      m := ScaleInt(k, j - u);
      ScaleScale(k as real, j - u, u);
    } else {
      GridTop(g, k, j);
      assert u == j + 1 by {
        Pow2Mono(j + 53, u + 52);
      }
      m := ScaleInt(1, 52);
      ScaleScale(1.0, 52, u);
    }
  }

  lemma GridMagnitudeExact(a: real, k: int, j: int)
    requires OnGrid(a, k, j) && 0.0 <= a < Pow2(MAX_EXP + 53)
    ensures Nearest(a, UlpExp(a, MAX_EXP)) == a
  {
    UlpBounds(a, MAX_EXP);
    var u := UlpExp(a, MAX_EXP);
    if j < u {
      Pow2Mono(u + 52, u + 52);
    }
    var m := GridMultiple(a, k, j, u);
    NearestExact(m, u);
  }

  /** Numbers of at most 53 bits are doubles. */
  lemma DoubleExact(x: real, k: int, j: int)
    requires OnGrid(x, k, j) && -Pow2(MAX_EXP + 53) < x < Pow2(MAX_EXP + 53)
    ensures Double(x) == x
  {
    if x < 0.0 {
      ScaleAdd(k as real, 0.0, j);
      assert (-k) as real == -(k as real);
      GridMagnitudeExact(-x, -k, j);
    } else {
      GridMagnitudeExact(x, k, j);
    }
  }

  /** Rounding a non-negative number does not cross a double. */
  lemma DoubleKeepsSide(x: real, g: real, k: int, j: int)
    requires 0.0 <= x < Pow2(MAX_EXP + 53) && OnGrid(g, k, j) && 0.0 <= g
    ensures g <= x ==> g <= Double(x)
    ensures x <= g ==> Double(x) <= g
  {
    UlpBounds(x, MAX_EXP);
    var u := UlpExp(x, MAX_EXP);
    if u <= j || Pow2(u + 52) <= g {
      var m := GridMultiple(g, k, j, u);
      NearestKeepsSide(x, m, u);
    } else {
      var m := ScaleInt(1, 52);
      ScaleScale(1.0, 52, u);
      NearestKeepsSide(x, m, u);
    }
  }

  // ------------------------------------------------------------------ in numbers

  lemma Powers()
    ensures Pow2(6) == 64.0 && Pow2(26) == 67108864.0 && Pow2(27) == 134217728.0 && Pow2(32) == 4294967296.0
    ensures Pow2(-48) <= 0.00000000000001 && Pow2(-28) == 1.0 / 268435456.0 && Pow2(-27) == 1.0 / 134217728.0
    ensures Pow2(-22) == 1.0 / 4194304.0 && Pow2(MAX_EXP + 53) > 18446744073709551616.0
  {
    Pow2Five(0);
    ScaleOne(1.0, 5);
    Pow2Twenty(0);
    Pow2Five(20);
    ScaleOne(1.0, 25);
    ScaleOne(1.0, 26);
    Pow2Five(27);
    Pow2Five(-5);
    Pow2Twenty(-20);
    Pow2Five(-25);
    Pow2Five(-30);
    ScaleOne(1.0, -30);
    ScaleOne(1.0, -29);
    ScaleOne(1.0, -28);
    Pow2Five(-27);
    Pow2Twenty(-48);
    TwoTo53();
    Pow2Mono(53, 54);
    Pow2Five(53);
    Pow2Five(58);
    Pow2Five(63);
    Pow2Mono(68, MAX_EXP + 53);
  }

  lemma ScaleTo48(x: real)
    ensures Scale(x, 48) == 281474976710656.0 * x
  {
    assert Scale(x, 3) == Scale(8.0 * x, 0) by {
      ScaleOne(x, 0);
      ScaleOne(x, 1);
      ScaleOne(x, 2);
    }
    ScaleFive(x, 3);
    ScaleFive(x, 8);
    ScaleFive(x, 13);
    ScaleFive(x, 18);
    ScaleFive(x, 23);
    ScaleFive(x, 28);
    ScaleFive(x, 33);
    ScaleFive(x, 38);
    ScaleFive(x, 43);
  }

  lemma ScaleFrom48(x: real)
    ensures 281474976710656.0 * Scale(x, -48) == x
  {
    ScaleScale(x, -48, 48);
    ScaleTo48(Scale(x, -48));
  }

  lemma IntIsDouble(k: int)
    requires -TWO53 <= k <= TWO53
    ensures Double(k as real) == k as real
  {
    Powers();
    DoubleExact(k as real, k, 0);
  }

  lemma QuarterIsDouble(k: int)
    requires -TWO53 <= k <= TWO53
    ensures Double(k as real / 4.0) == k as real / 4.0
  {
    Powers();
    assert Scale(k as real, -2) == Scale(k as real / 2.0, -1) == Scale(k as real / 4.0, 0);
    DoubleExact(k as real / 4.0, k, -2);
  }

  /** The error below 2^6, 2^26, 2^27 and 2^32. */
  lemma ErrorIn(x: real)
    ensures -64.0 < x < 64.0 ==> -0.00000000000001 <= Double(x) - x <= 0.00000000000001
    ensures -67108864.0 < x < 67108864.0 ==> -1.0 / 268435456.0 <= Double(x) - x <= 1.0 / 268435456.0
    ensures -134217728.0 < x < 134217728.0 ==> -1.0 / 134217728.0 <= Double(x) - x <= 1.0 / 134217728.0
    ensures -4294967296.0 < x < 4294967296.0 ==> -1.0 / 4194304.0 <= Double(x) - x <= 1.0 / 4194304.0
  {
    Powers();
    if -64.0 < x < 64.0 {
      DoubleError(x, 6);
    }
    if -67108864.0 < x < 67108864.0 {
      DoubleError(x, 26);
    }
    if -134217728.0 < x < 134217728.0 {
      DoubleError(x, 27);
    }
    if -4294967296.0 < x < 4294967296.0 {
      DoubleError(x, 32);
    }
  }

  // ------------------------------------------------------------------ from 2^26 to 2^27: multiples of 2^-26

  lemma ScaleFrom26(x: real)
    ensures Scale(x, -26) == x / 67108864.0
  {
    ScaleScale(x, -26, 26);
    var y := Scale(x, -26);
    ScaleOne(y, 0);
    ScaleFive(y, 1);
    ScaleFive(y, 6);
    ScaleFive(y, 11);
    ScaleFive(y, 16);
    ScaleFive(y, 21);
  }

  lemma ExactAt26(m: int)
    requires -TWO53 <= m <= TWO53
    ensures Double(m as real / 67108864.0) == m as real / 67108864.0
  {
    Powers();
    ScaleFrom26(m as real);
    DoubleExact(m as real / 67108864.0, m, -26);
  }

  lemma KeepsSideOfInt(x: real, k: int)
    requires 0.0 <= x < 4294967296.0 && 0 <= k <= TWO53
    ensures k as real <= x ==> k as real <= Double(x)
    ensures x <= k as real ==> Double(x) <= k as real
  {
    Powers();
    DoubleKeepsSide(x, k as real, k, 0);
  }

  lemma GridAt26(y: real) returns (m: int)
    requires 67108864.0 <= y < 134217728.0
    ensures Double(y) == m as real / 67108864.0 && 0 <= m <= TWO53
    ensures 67108864.0 <= Double(y) <= 134217728.0
  {
    Powers();
    UlpFrom(y, 26);
    UlpBelow(y, 27);
    m := RoundEven(Scale(y, 26));
    ScaleFrom26(m as real);
    KeepsSideOfInt(y, 67108864);
    KeepsSideOfInt(y, 134217728);
  }

  // ------------------------------------------------------------------ above 2^53: whole numbers are lost

  lemma ThousandsAreDoubles(k: int)
    requires -TWO53 <= k <= TWO53
    ensures Double((1024 * k) as real) == (1024 * k) as real
  {
    Powers();
    ScaleFive(k as real, 0);
    ScaleFive(k as real, 5);
    DoubleExact((1024 * k) as real, k, 10);
  }

  /** One below a multiple of 1024 beyond 53 bits rounds up to it. */
  lemma OneBelowIsLost(k: int)
    requires TWO53 < 1024 * k < 32 * TWO53
    ensures Double((1024 * k - 1) as real) == (1024 * k) as real
  {
    var x := (1024 * k - 1) as real;
    TwoTo53();
    Pow2Five(53);
    Powers();
    UlpFrom(x, 53);
    UlpBelow(x, 58);
    var u := UlpExp(x, MAX_EXP);
    RoundsUp(k, u);
  }

  lemma RoundsUp(k: int, u: int)
    requires 1 <= u <= 5
    ensures Nearest((1024 * k - 1) as real, u) == (1024 * k) as real
  {
    var x, r := (1024 * k - 1) as real, (1024 * k) as real;
    Fractions(k);
    EvenMultiple(256, k);
    EvenMultiple(128, k);
    EvenMultiple(64, k);
    EvenMultiple(32, k);
    EvenMultiple(16, k);
    if u == 1 {
      UpBy(x, 1, 512 * k, 1.0 / 2.0, 2.0, r);
    } else if u == 2 {
      UpBy(x, 2, 256 * k, 1.0 / 4.0, 4.0, r);
    } else if u == 3 {
      UpBy(x, 3, 128 * k, 1.0 / 8.0, 8.0, r);
    } else if u == 4 {
      UpBy(x, 4, 64 * k, 1.0 / 16.0, 16.0, r);
    } else {
      UpBy(x, 5, 32 * k, 1.0 / 32.0, 32.0, r);
    }
  }

  lemma Fractions(k: int)
    ensures var x := (1024 * k - 1) as real;
            && x / 2.0 == (512 * k) as real - 1.0 / 2.0 && x / 4.0 == (256 * k) as real - 1.0 / 4.0
            && x / 8.0 == (128 * k) as real - 1.0 / 8.0 && x / 16.0 == (64 * k) as real - 1.0 / 16.0
            && x / 32.0 == (32 * k) as real - 1.0 / 32.0
    ensures var r := (1024 * k) as real;
            && (512 * k) as real * 2.0 == r && (256 * k) as real * 4.0 == r && (128 * k) as real * 8.0 == r
            && (64 * k) as real * 16.0 == r && (32 * k) as real * 32.0 == r
  {
    assert (1024 * k - 1) as real == 1024.0 * k as real - 1.0;
  }

  lemma EvenMultiple(c: int, k: int)
    ensures (2 * c * k) % 2 == 0
  {
    assert 2 * c * k == 2 * (c * k);
  }

  lemma UpBy(x: real, u: int, m: int, t: real, p: real, r: real)
    requires 1 <= u <= 5 && p == (if u == 1 then 2.0 else if u == 2 then 4.0 else if u == 3 then 8.0 else if u == 4 then 16.0 else 32.0)
    requires x / p == m as real - t && 0.0 < t <= 0.5 && m % 2 == 0
    requires m as real * p == r
    ensures Nearest(x, u) == r
  {
    Halvings(x);
    Doublings(m as real);
    NearestUp(x, u, x / p, m);
  }

  lemma NearestUp(x: real, u: int, q: real, m: int)
    requires Scale(x, -u) == q && m as real - 0.5 <= q < m as real && m % 2 == 0
    ensures Nearest(x, u) == Scale(m as real, u)
  {
    RoundEvenUp(q, m);
  }

  lemma RoundEvenUp(q: real, m: int)
    requires m as real - 0.5 <= q < m as real && m % 2 == 0
    ensures RoundEven(q) == m
  {
    assert q.Floor == m - 1;
  }

  lemma Halvings(x: real)
    ensures Scale(x, -1) == x / 2.0 && Scale(x, -2) == x / 4.0 && Scale(x, -3) == x / 8.0
    ensures Scale(x, -4) == x / 16.0 && Scale(x, -5) == x / 32.0
  {
    ScaleOne(x, 0);
    ScaleOne(x, -1);
    ScaleOne(x, -2);
    ScaleOne(x, -3);
    ScaleOne(x, -4);
  }

  lemma Doublings(x: real)
    ensures Scale(x, 1) == 2.0 * x && Scale(x, 2) == 4.0 * x && Scale(x, 3) == 8.0 * x
    ensures Scale(x, 4) == 16.0 * x && Scale(x, 5) == 32.0 * x
  {
    ScaleOne(x, 0);
    ScaleOne(x, 1);
    ScaleOne(x, 2);
    ScaleOne(x, 3);
    ScaleOne(x, 4);
  }

  /** The smallest positive double is 2^-1074, and half of it is rounded to zero. */
  lemma {:induction false} SmallestDouble()
    ensures Double(Pow2(-1074)) == Pow2(-1074) && Double(Pow2(-1075)) == 0.0
  {
    SmallestUlp(-1074);
    SmallestUlp(-1075);
    ScaleScale(1.0, -1074, 1074);
    ScaleScale(1.0, -1075, 1074);
    ScaleAdd(0.0, 0.0, -1074);
    Halvings(1.0);
    assert RoundEven(1.0) == 1 && RoundEven(0.5) == 0;
  }

  lemma {:induction false} SmallestUlp(e: int)
    requires e <= -1023
    ensures Pow2(e) > 0.0 && UlpExp(Pow2(e), MAX_EXP) == -1074
  {
    Pow2Mono(e, MAX_EXP + 52);
    Pow2Mono(MAX_EXP + 52, MAX_EXP + 53);
    UlpBounds(Pow2(e), MAX_EXP);
    var u := UlpExp(Pow2(e), MAX_EXP);
    if u > MIN_EXP {
      Pow2Mono(e, u + 51);
      Pow2Mono(u + 51, u + 52);
    }
  }
}
