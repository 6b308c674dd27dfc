/**
 * The Julian day conversion and the REAL encoding in the doubles the code really uses: every operation
 * is rounded. The conversion survives the rounding; the encoding loses the last millisecond of a day
 * once the timestamp needs more than 53 bits.
 */
module JulianDouble {
  import opened Common
  import opened Binary64
  import opened JulianDay

  // ------------------------------------------------------------------ the code, operation by operation

  /** The constant 30.6001 as a double. */
  const MONTH_LENGTH: real := 8613162434843745.0 / 281474976710656.0

  lemma MonthLengthIs()
    ensures Double(30.6001) == MONTH_LENGTH
  {
    Powers();
    ScaleOne(1.0, 4);
    UlpFrom(30.6001, 4);
    UlpBelow(30.6001, 5);
    assert UlpExp(30.6001, MAX_EXP) == -48;
    ScaleTo48(30.6001);
    var k := 8613162434843745;
    assert RoundEven(Scale(30.6001, 48)) == k;
    ScaleFrom48(k as real);
  }

  function CenturyDouble(z: int): int {
    Trunc(Double(Double(z as real - 1867216.25) / 36524.25))
  }

  function CorrectedDouble(z: int): int {
    if z < GREGORIAN_START then z
    else z + 1 + CenturyDouble(z) - Trunc(Double(CenturyDouble(z) as real / 4.0))
  }

  function YearDouble(b: int): int {
    Trunc(Double(Double(b as real - Double(122.1)) / 365.25))
  }

  function YearDays(c: int): int {
    Trunc(Double(365.25 * c as real))
  }

  function MonthDouble(r: int): int {
    Trunc(Double(r as real / MONTH_LENGTH))
  }

  function MonthDays(e: int): int {
    Trunc(Double(MONTH_LENGTH * e as real))
  }

  function FromBDouble(b: int): Date {
    var c := YearDouble(b);
    var d := YearDays(c);
    var e := MonthDouble(b - d);
    DateAt(c, e, b - d - MonthDays(e))
  }

  function ToDateDouble(z: int): Date {
    FromBDouble(Wrap32(CorrectedDouble(z) + 1524))
  }

  /** The date part of julianDateToCalendar. */
  function DateOfDouble(jd: real): Date {
    var w := Double(jd + 0.5);
    var z := Trunc(w);
    var f := Double(w - z as real);
    var date := ToDateDouble(z);
    date.(day := Trunc(Double(date.day as real + f)))
  }

  /** The REAL written for a millisecond timestamp. */
  function RealOf(millis: int): real {
    Double(Double(Double(millis as real) / 86400000.0) + 2440587.5)
  }

  // ------------------------------------------------------------------ truncation away from whole numbers

  lemma TruncBetween(x: real, f: int)
    requires f as real < x < f as real + 1.0
    ensures Trunc(x) == if f >= 0 then f else f + 1
  {
    if f >= 0 {
      assert x.Floor == f;
    } else {
      assert (-x).Floor == -f - 1;
    }
  }

  /** y is within `error` of x, and x that far inside (f, f + 1). */
  lemma TruncNear(x: real, y: real, f: int, error: real)
    requires f as real + error < x < f as real + 1.0 - error && -error <= y - x <= error
    ensures Trunc(y) == Trunc(x)
  {
    TruncBetween(x, f);
    TruncBetween(y, f);
  }

  // ------------------------------------------------------------------ century

  lemma CenturySplit(z: int, n: int, k: int, r: int)
    requires n == 4 * z - 7468865 && n == 146097 * k + r && 0 <= r < 146097
    ensures z as real - 1867216.25 == n as real / 4.0
    ensures (z as real - 1867216.25) / 36524.25 == k as real + r as real / 146097.0
  {
    assert n as real == 146097.0 * k as real + r as real;
  }

  lemma CenturyAgrees(z: int)
    requires GREGORIAN_START <= z < TWO31
    ensures CenturyDouble(z) == Trunc((z as real - 1867216.25) / 36524.25)
    ensures 0 <= CenturyDouble(z) <= 60000
  {
    var n := 4 * z - 7468865;
    var k, r := n / 146097, n % 146097;
    var x := (z as real - 1867216.25) / 36524.25;
    CenturySplit(z, n, k, r);
    QuarterIsDouble(n);
    if r == 0 {
      IntIsDouble(k);
    } else {
      ErrorIn(x);
      TruncNear(x, Double(x), k, 0.000001);
      TruncBetween(x, k);
    }
  }

  lemma CorrectedAgrees(z: int)
    requires 0 <= z < TWO31
    ensures CorrectedDouble(z) == Corrected(z)
  {
    if z >= GREGORIAN_START {
      CenturyAgrees(z);
      QuarterIsDouble(CenturyDouble(z));
    }
  }

  // ------------------------------------------------------------------ year

  lemma YearResidue(b: int, k: int, r: int)
    requires 20 * b - 2442 == 7305 * k + r && 0 <= r < 7305
    ensures 3 <= r <= 7303
  {
    assert r == 5 * (4 * b - 489 - 1461 * k) + 3;
  }

  lemma YearSplit(b: int, k: int, r: int)
    requires 20 * b - 2442 == 7305 * k + r
    ensures (b as real - 122.1) / 365.25 == k as real + r as real / 7305.0
  {
    assert 20.0 * b as real - 2442.0 == 7305.0 * k as real + r as real;
  }

  /** The three roundings of the year quotient stay far from a whole number. */
  lemma YearError(b: int, c: real, y: real, q: real)
    requires -0.00000001 <= c - 122.1 <= 0.00000001 && -0.000001 <= y - (b as real - c) <= 0.000001
    requires -0.000001 <= q - y / 365.25 <= 0.000001
    ensures Trunc(q) == Trunc((b as real - 122.1) / 365.25)
  {
    var n := 20 * b - 2442;
    var k, r := n / 7305, n % 7305;
    YearResidue(b, k, r);
    YearSplit(b, k, r);
    TruncNear((b as real - 122.1) / 365.25, q, k, 0.00001);
  }

  lemma YearAgrees(b: int)
    requires -TWO31 <= b < TWO31
    ensures YearDouble(b) == Trunc((b as real - 122.1) / 365.25)
  {
    var c := Double(122.1);
    ErrorIn(122.1);
    var y := Double(b as real - c);
    ErrorIn(b as real - c);
    ErrorIn(y / 365.25);
    YearError(b, c, y, Double(y / 365.25));
  }

  lemma YearRemainder(b: int, c: int)
    requires -TWO31 <= b < TWO31 && c == Trunc((b as real - 122.1) / 365.25)
    ensures -6000000 <= c <= 6000000 && -1000 <= b - Trunc(365.25 * c as real) <= 1000
  {
    var x := (b as real - 122.1) / 365.25;
    assert x - 1.0 <= c as real <= x + 1.0;
    var y := 365.25 * c as real;
    assert y - 1.0 <= Trunc(y) as real <= y + 1.0;
  }

  lemma YearDaysAgrees(c: int)
    requires -6000000 <= c <= 6000000
    ensures YearDays(c) == Trunc(365.25 * c as real)
  {
    QuarterIsDouble(1461 * c);
    assert 365.25 * c as real == (1461 * c) as real / 4.0;
  }

  // ------------------------------------------------------------------ month

  lemma MonthSplitReal(r: int, f: int, s: int)
    requires 10000 * r == 306001 * f + s
    ensures r as real == f as real * 30.6001 + s as real / 10000.0
  {
    assert 10000.0 * r as real == 306001.0 * f as real + s as real;
  }

  lemma MonthResidue(r: int, f: int, s: int)
    requires -1000 <= r <= 1000 && r != 0 && 10000 * r == 306001 * f + s && 0 <= s < 306001
    ensures s != 0 && -40 <= f <= 40
  {
    assert f == 10000 * (r - 30 * f) - 6000 * f - s;
  }

  lemma MonthAgrees(r: int)
    requires -1000 <= r <= 1000
    ensures MonthDouble(r) == Trunc(r as real / 30.6001)
  {
    if r == 0 {
      IntIsDouble(0);
    } else {
      var f, s := (10000 * r) / 306001, (10000 * r) % 306001;
      MonthResidue(r, f, s);
      MonthSplitReal(r, f, s);
      MonthQuotient(r as real, f as real, s as real);
      ErrorIn(r as real / MONTH_LENGTH);
      TruncBetween(Double(r as real / MONTH_LENGTH), f);
      TruncBetween(r as real / 30.6001, f);
    }
  }

  lemma MonthQuotient(r: real, f: real, s: real)
    requires r == f * 30.6001 + s / 10000.0 && 1.0 <= s <= 306000.0 && -40.0 <= f <= 40.0
    ensures f + 0.000001 < r / MONTH_LENGTH < f + 1.0 - 0.000001
    ensures f < r / 30.6001 < f + 1.0
  {}

  lemma MonthDaysSplit(e: int, f: int, s: int)
    requires 306001 * e == 10000 * f + s
    ensures 30.6001 * e as real == f as real + s as real / 10000.0
  {
    assert 306001.0 * e as real == 10000.0 * f as real + s as real;
  }

  lemma MonthDaysResidue(e: int, f: int, s: int)
    requires -40 <= e <= 40 && e != 0 && 306001 * e == 10000 * f + s && 0 <= s < 10000
    ensures s != 0
  {
  }

  lemma MonthDaysAgrees(e: int)
    requires -40 <= e <= 40
    ensures MonthDays(e) == Trunc(30.6001 * e as real)
  {
    if e == 0 {
      IntIsDouble(0);
    } else {
      var f, s := (306001 * e) / 10000, (306001 * e) % 10000;
      MonthDaysResidue(e, f, s);
      MonthDaysSplit(e, f, s);
      ErrorIn(MONTH_LENGTH * e as real);
      TruncNear(30.6001 * e as real, Double(MONTH_LENGTH * e as real), f, 0.00001);
    }
  }

  // ------------------------------------------------------------------ the conversion survives

  lemma MonthRange(r: int)
    requires -1000 <= r <= 1000
    ensures -40 <= Trunc(r as real / 30.6001) <= 40
  {}

  lemma YearPart(b: int)
    requires -TWO31 <= b < TWO31
    ensures YearDouble(b) == YearTrunc(b) && YearDays(YearTrunc(b)) == YearDaysTrunc(YearTrunc(b))
    ensures -1000 <= b - YearDaysTrunc(YearTrunc(b)) <= 1000
  {
    YearAgrees(b);
    YearRemainder(b, YearTrunc(b));
    YearDaysAgrees(YearTrunc(b));
  }

  lemma MonthPart(r: int)
    requires -1000 <= r <= 1000
    ensures MonthDouble(r) == MonthTrunc(r) && MonthDays(MonthTrunc(r)) == MonthDaysTrunc(MonthTrunc(r))
  {
    MonthAgrees(r);
    MonthRange(r);
    MonthDaysAgrees(MonthTrunc(r));
  }

  /** Both dates are put together from four numbers. */
  lemma DoubleParts(b: int, c: int, d: int, e: int, m: int)
    requires YearDouble(b) == c && YearDays(c) == d && MonthDouble(b - d) == e && MonthDays(e) == m
    ensures FromBDouble(b) == DateAt(c, e, b - d - m)
  {}

  lemma ExactParts(b: int, c: int, d: int, e: int, m: int)
    requires YearTrunc(b) == c && YearDaysTrunc(c) == d && MonthTrunc(b - d) == e && MonthDaysTrunc(e) == m
    ensures FromB(b) == DateAt(c, e, b - d - m)
  {}

  lemma FromBAgrees(b: int)
    requires -TWO31 <= b < TWO31
    ensures FromBDouble(b) == FromB(b)
  {
    var c := YearTrunc(b);
    var d := YearDaysTrunc(c);
    var e := MonthTrunc(b - d);
    YearPart(b);
    MonthPart(b - d);
    DoubleParts(b, c, d, e, MonthDaysTrunc(e));
    ExactParts(b, c, d, e, MonthDaysTrunc(e));
  }

  lemma SameCount(z: int, a: int)
    requires CorrectedDouble(z) == a && Corrected(z) == a
    requires FromBDouble(Wrap32(a + 1524)) == FromB(Wrap32(a + 1524))
    ensures ToDateDouble(z) == ToDate(z)
  {}

  /** For every non-negative int the rounded conversion gives the same date as the exact one. */
  lemma ConversionSurvivesRounding(z: int)
    requires 0 <= z < TWO31
    ensures ToDateDouble(z) == ToDate(z)
  {
    CorrectedAgrees(z);
    var a := Corrected(z);
    FromBAgrees(Wrap32(a + 1524));
    SameCount(z, a);
  }

  // ------------------------------------------------------------------ reading a day back

  /** The fraction of the day never carries the day field over. */
  lemma DayField(day: int, x: real)
    requires 1 <= day <= 31 && 0.0 <= x <= 1.0 - 0.0000000003
    ensures Trunc(Double(day as real + Double(x))) == day
  {
    ErrorIn(x);
    KeepsSideOfInt(x, 0);
    var y := day as real + Double(x);
    ErrorIn(y);
    KeepsSideOfInt(y, day);
    TruncIs(Double(y), day);
  }

  lemma DayIsValid(z: nat)
    ensures 1 <= Civil(z).day <= 31
  {}

  lemma ReadBack(jd: real, w: real, z: int, date: Date)
    requires Double(jd + 0.5) == w && Trunc(w) == z && ToDateDouble(z) == date
    requires Trunc(Double(date.day as real + Double(w - z as real))) == date.day
    ensures DateOfDouble(jd) == date
  {}

  /** A REAL whose shifted value lands inside day z, clear of the next midnight, reads as the civil date of z. */
  lemma DateFromDay(jd: real, z: int)
    requires 0 <= z <= LAST_DAY && z as real <= Double(jd + 0.5) <= z as real + 1.0 - 0.0000000003
    ensures DateOfDouble(jd) == Civil(z)
  {
    var w := Double(jd + 0.5);
    TruncIs(w, z);
    ConversionSurvivesRounding(z);
    ToDateIsCivilIff(z);
    DayIsValid(z);
    DayField(Civil(z).day, w - z as real);
    ReadBack(jd, w, z, Civil(z));
  }

  // ------------------------------------------------------------------ whole days

  lemma WholeDayReal(n: int)
    requires -2440588 <= n < TWO31
    ensures RealOf(86400000 * n) == n as real + 2440587.5
  {
    assert 86400000 * n == 1024 * (84375 * n);
    ThousandsAreDoubles(84375 * n);
    assert (86400000 * n) as real / 86400000.0 == n as real;
    IntIsDouble(n);
    QuarterIsDouble(4 * n + 9762350);
    assert (4 * n + 9762350) as real / 4.0 == n as real + 2440587.5;
  }

  /** Every whole-day timestamp written as REAL comes back as the civil date of its day. */
  lemma WholeDayRoundTrip(n: int)
    requires 0 <= n + 2440588 <= LAST_DAY
    ensures DateOfDouble(RealOf(86400000 * n)) == Civil(n + 2440588)
  {
    WholeDayReal(n);
    IntIsDouble(n + 2440588);
    DateFromDay(RealOf(86400000 * n), n + 2440588);
  }

  // ------------------------------------------------------------------ times of day

  /** x is the shifted value before its last rounding, X the exact one; z the day. */
  predicate Near(x: real, z: int, ms: int, error: real) {
    -error <= x - (z as real + ms as real / 86400000.0) <= error
  }

  const ULP27: real := 1.0 / 134217728.0
  const ULP28: real := 1.0 / 268435456.0

  lemma Margin(w: real, z: int, ms: int)
    requires 1 <= ms < 86400000 && Near(w, z, ms, ULP27 + ULP28)
    ensures z as real <= w <= z as real + 1.0 - 0.0000000003
  {}

  /** From 2^26 on, adding halves to a double stays exact up to 2^27. */
  lemma HalvesAreExact(m: int, h: int)
    requires 0 <= m && 0 <= h && m as real / 67108864.0 + h as real / 2.0 <= 134217728.0
    ensures Double(m as real / 67108864.0 + h as real / 2.0) == m as real / 67108864.0 + h as real / 2.0
  {
    var k := m + 33554432 * h;
    assert k as real / 67108864.0 == m as real / 67108864.0 + h as real / 2.0;
    assert k <= TWO53;
    ExactAt26(k);
  }

  /** The last rounding, when the value before it is below 2^26 or just reached it. */
  lemma LastRounding(s: real, z: int, ms: int)
    requires 1 <= ms < 86400000 && 0 <= z && 0.0 <= s + 0.5 && s <= 67108864.0 && Near(s + 0.5, z, ms, 2.0 * ULP28)
    ensures z as real <= Double(s + 0.5) <= z as real + 1.0 - 0.0000000003
  {
    var x := s + 0.5;
    if x < 67108864.0 {
      ErrorIn(x);
      Margin(Double(x), z, ms);
    } else {
      assert z == 67108864;
      KeepsSideOfInt(x, z);
      QuarterIsDouble(4 * z + 2);
      HalfAbove(x, z);
    }
  }

  lemma HalfAbove(x: real, z: int)
    requires 0 <= z < TWO31 && 0.0 <= x <= z as real + 0.5
    ensures Double(x) <= z as real + 0.5
  {
    Powers();
    var k := 4 * z + 2;
    assert Scale(k as real, -2) == k as real / 4.0 by {
      Halvings(k as real);
    }
    DoubleKeepsSide(x, z as real + 0.5, k, -2);
  }

  /** q is the rounded number of days since 1970. */
  lemma ShiftedDay(q: real, z: int, ms: int)
    requires 1 <= ms < 86400000 && 0 <= z && -2440588.0 <= q < 67108864.0
    requires Near(q + 2440588.0, z, ms, ULP28)
    ensures z as real <= Double(Double(q + 2440587.5) + 0.5) <= z as real + 1.0 - 0.0000000003
  {
    var y := q + 2440587.5;
    var s := Double(y);
    if y < 67108864.0 {
      ErrorIn(y);
      if y >= 0.0 {
        KeepsSideOfInt(y, 67108864);
      }
      LastRounding(s, z, ms);
    } else {
      var m := GridAt26(y);
      ErrorIn(y);
      HalvesAreExact(m, 1);
      Margin(s + 0.5, z, ms);
    }
  }

  lemma LateDay(q: real, m: int, z: int, ms: int)
    requires 1 <= ms < 86400000 && 0 <= m && q == m as real / 67108864.0 && q <= 104249992.0
    requires Near(q + 2440588.0, z, ms, ULP27)
    ensures z as real <= Double(Double(q + 2440587.5) + 0.5) <= z as real + 1.0 - 0.0000000003
  {
    HalvesAreExact(m, 4881175);
    HalvesAreExact(m, 4881176);
    Margin(q + 2440588.0, z, ms);
  }

  const LAST_EXACT: int := 104249990

  /** The three roundings from the exact number of days x on. */
  lemma EncodedQuotient(x: real, n: int, ms: int)
    requires -2440588 <= n <= LAST_EXACT && 1 <= ms < 86400000 && x == n as real + ms as real / 86400000.0
    ensures var z := n + 2440588;
            z as real <= Double(Double(Double(x) + 2440587.5) + 0.5) <= z as real + 1.0 - 0.0000000003
  {
    var q, z := Double(x), n + 2440588;
    ErrorIn(x);
    if x < 67108864.0 {
      KeepsBelow(x);
      ShiftedDay(q, z, ms);
    } else {
      var m := GridAt26(x);
      LateDay(q, m, z, ms);
    }
  }

  lemma EncodedDay(n: int, ms: int)
    requires -2440588 <= n <= LAST_EXACT && 1 <= ms < 86400000
    ensures var w := Double(RealOf(86400000 * n + ms) + 0.5);
            var z := n + 2440588;
            z as real <= w <= z as real + 1.0 - 0.0000000003
  {
    IntIsDouble(86400000 * n + ms);
    DaysAndTime(n, ms);
    EncodedQuotient((86400000 * n + ms) as real / 86400000.0, n, ms);
  }

  lemma DaysAndTime(n: int, ms: int)
    ensures (86400000 * n + ms) as real / 86400000.0 == n as real + ms as real / 86400000.0
  {
    assert (86400000 * n + ms) as real == 86400000.0 * n as real + ms as real;
  }

  lemma KeepsBelow(x: real)
    requires -2440588.0 <= x < 67108864.0
    ensures -2440588.0 <= Double(x) <= 67108864.0
  {
    if x >= 0.0 {
      KeepsSideOfInt(x, 67108864);
      KeepsSideOfInt(x, 0);
    } else {
      KeepsSideOfInt(-x, 2440588);
      KeepsSideOfInt(-x, 0);
    }
  }

  // ------------------------------------------------------------------ exactly which days keep all their times

  /** The timestamp ms milliseconds into day n (from 1970) reads back as the civil date of that day. */
  ghost predicate ComesBack(n: int, ms: int)
    requires 0 <= n + 2440588
  {
    DateOfDouble(RealOf(86400000 * n + ms)) == Civil(n + 2440588)
  }

  lemma TimeComesBack(n: int, ms: int)
    requires -2440588 <= n <= LAST_EXACT && 0 <= ms < 86400000
    ensures ComesBack(n, ms)
  {
    if ms == 0 {
      WholeDayRoundTrip(n);
    } else {
      EncodedDay(n, ms);
      DateFromDay(RealOf(86400000 * n + ms), n + 2440588);
    }
  }

  /** Past 53 bits the last millisecond of a day is written as the next midnight. */
  lemma LastMillisecondIsMidnight(n: int)
    requires LAST_EXACT < n < TWO31
    ensures RealOf(86400000 * n + 86399999) == RealOf(86400000 * (n + 1))
  {
    var k := 84375 * (n + 1);
    assert 86400000 * (n + 1) == 1024 * k && 86400000 * n + 86399999 == 1024 * k - 1;
    OneBelowIsLost(k);
    ThousandsAreDoubles(k);
  }

  lemma {:induction false} DaysDiffer(z: nat)
    ensures Civil(z + 1) != Civil(z)
  {
    assert Civil(z + 1) == NextDay(Civil(z));
  }

  /** The day after the last readable one reads as a year before the calendar. */
  lemma PastTheEnd(z: int)
    requires LAST_DAY < z < TWO31
    ensures ToDate(z).year < -4712
  {
    FitsIff(z);
    WrappedYear(Wrap32(Shifted(z)));
  }

  lemma MidnightYear(n: int)
    requires LAST_DAY <= n + 2440588 < TWO31 - 1
    ensures DateOfDouble(RealOf(86400000 * (n + 1))).year < -4712
  {
    var z := n + 2440589;
    WholeDayReal(n + 1);
    IntIsDouble(z);
    TruncIs(z as real, z);
    ConversionSurvivesRounding(z);
    PastTheEnd(z);
  }

  lemma MidnightIsAnotherDay(n: int)
    requires LAST_EXACT < n && n + 2440588 <= LAST_DAY
    ensures DateOfDouble(RealOf(86400000 * (n + 1))) != Civil(n + 2440588)
  {
    if n + 2440589 <= LAST_DAY {
      WholeDayRoundTrip(n + 1);
      DaysDiffer(n + 2440588);
    } else {
      MidnightYear(n);
      CivilYearBound(n + 2440588);
    }
  }

  lemma LastMillisecondIsLost(n: int)
    requires LAST_EXACT < n && n + 2440588 <= LAST_DAY
    ensures !ComesBack(n, 86399999)
  {
    LastMillisecondIsMidnight(n);
    MidnightIsAnotherDay(n);
  }

  /**
   * Every time of day of a day comes back as the civil date of that day if and only if the day is at
   * most 104249990 days after 1970, that is, if its milliseconds fit 53 bits.
   */
  lemma EveryTimeComesBackIff(n: int)
    requires 0 <= n + 2440588 <= LAST_DAY
    ensures (forall ms :: 0 <= ms < 86400000 ==> ComesBack(n, ms)) <==> n <= LAST_EXACT
    ensures n <= LAST_EXACT <==> 86400000 * n + 86399999 <= TWO53
  {
    if n <= LAST_EXACT {
      forall ms | 0 <= ms < 86400000 ensures ComesBack(n, ms) {
        TimeComesBack(n, ms);
      }
    } else {
      LastMillisecondIsLost(n);
    }
  }

  /** A timestamp that does not: the last millisecond of day 104249991 reads as the day after. */
  lemma LostTimestamp()
    ensures DateOfDouble(RealOf(9007199308799999)) == Civil(106690580)
  {
    LastMillisecondIsMidnight(104249991);
    WholeDayRoundTrip(104249992);
  }
}
