/**
 * Julian day numbers: the conversion used when a date column holds a REAL, against the civil calendar
 * (Julian up to 4 October 1582, Gregorian from 15 October 1582, astronomical year numbering).
 *
 * Here the conversion is written over exact reals; `JulianDouble` shows that rounding every operation
 * to a double changes nothing.
 */
module JulianDay {
  import opened Common

  datatype Date = Date(year: int, month: int, day: int)

  // ------------------------------------------------------------------ the conversion

  /** Java's (int) cast of a finite double in range: truncation toward zero. */
  function Trunc(x: real): int {
    if x >= 0.0 then x.Floor else -((-x).Floor)
  }

  const GREGORIAN_START := 2299161

  /** The correction for dropped leap days, before the 32-bit sum. */
  function Corrected(z: int): int {
    if z < GREGORIAN_START then z
    else
      var alpha := Trunc((z as real - 1867216.25) / 36524.25);
      z + 1 + alpha - Trunc(alpha as real / 4.0)
  }

  /** The intermediate values C, D, E and the days before the month. */
  function YearTrunc(b: int): int {
    Trunc((b as real - 122.1) / 365.25)
  }

  function YearDaysTrunc(c: int): int {
    Trunc(365.25 * c as real)
  }

  function MonthTrunc(r: int): int {
    Trunc(r as real / 30.6001)
  }

  function MonthDaysTrunc(e: int): int {
    Trunc(30.6001 * e as real)
  }

  /** The date fields computed from the shifted day count B. */
  function FromB(b: int): Date {
    var c := YearTrunc(b);
    var d := YearDaysTrunc(c);
    var e := MonthTrunc(b - d);
    DateAt(c, e, b - d - MonthDaysTrunc(e))
  }

  /** Year and month from the March-year c and its month number e. */
  function DateAt(c: int, e: int, day: int): Date {
    var mm := e - (if e < 14 then 1 else 13);
    Date(c - (if mm > 2 then 4716 else 4715), mm, day)
  }

  /** julianDateToCalendar for whole day number z, with B in 32 bits. */
  function ToDate(z: int): Date {
    FromB(Wrap32(Corrected(z) + 1524))
  }

  // ------------------------------------------------------------------ the civil calendar

  predicate IsLeap(year: int, julian: bool) {
    if julian then year % 4 == 0 else year % 4 == 0 && (year % 100 != 0 || year % 400 == 0)
  }

  function DaysIn(year: int, month: int): int
    requires 1 <= month <= 12
  {
    if month == 2 then (if IsLeap(year, year <= 1582) then 29 else 28)
    else if month == 4 || month == 6 || month == 9 || month == 11 then 30
    else 31
  }

  predicate ValidDate(d: Date) {
    1 <= d.month <= 12 && 1 <= d.day <= DaysIn(d.year, d.month)
    && !(d.year == 1582 && d.month == 10 && 5 <= d.day <= 14)
  }

  /** The day after: the only place that knows about the ten days dropped in October 1582. */
  function NextDay(d: Date): Date
    requires ValidDate(d)
  {
    if d == Date(1582, 10, 4) then Date(1582, 10, 15)
    else if d.day < DaysIn(d.year, d.month) then Date(d.year, d.month, d.day + 1)
    else if d.month < 12 then Date(d.year, d.month + 1, 1)
    else Date(d.year + 1, 1, 1)
  }

  /** Day z counted from noon, 1 January 4713 BC (astronomical year -4712). */
  ghost function Civil(z: nat): (d: Date)
    ensures ValidDate(d)
  {
    if z == 0 then Date(-4712, 1, 1) else NextDay(Civil(z - 1))
  }

  // ------------------------------------------------------------------ the conversion in integers

  function YearOf(b: int): int {
    (20 * b - 2442) / 7305
  }

  /** Days before March-year c. */
  function YearBase(c: int): int {
    1461 * c / 4
  }

  /** Century number of a Gregorian day. */
  function Century(z: int): int {
    (4 * z - 7468865) / 146097
  }

  /** March-year c and 123-based day r as a date, with the month numbered 4 (March) to 15 (February). */
  function Decode(c: int, r: int): Date {
    var e := 10000 * r / 306001;
    DateAt(c, e, r - 306001 * e / 10000)
  }

  /** The fields for shifted day count b, in integers. */
  function IntDate(b: int): Date {
    Decode(YearOf(b), b - YearBase(YearOf(b)))
  }

  lemma TruncIs(x: real, n: int)
    requires 0 <= n && n as real <= x < n as real + 1.0
    ensures Trunc(x) == n
  {}

  lemma FromBInIntegers(b: int)
    requires b >= 1524
    ensures FromB(b) == IntDate(b)
  {
    var c := YearOf(b);
    TruncIs((b as real - 122.1) / 365.25, c);
    var d := YearBase(c);
    TruncIs(365.25 * c as real, d);
    var r := b - d;
    DayInYear(b);
    var e := 10000 * r / 306001;
    TruncIs(r as real / 30.6001, e);
    TruncIs(30.6001 * e as real, 306001 * e / 10000);
  }

  lemma CorrectedInIntegers(z: int)
    requires z >= GREGORIAN_START
    ensures Corrected(z) == z + 1 + Century(z) - Century(z) / 4
    ensures Century(z) >= 11
  {
    var k := Century(z);
    TruncIs((z as real - 1867216.25) / 36524.25, k);
    TruncIs(k as real / 4.0, k / 4);
  }

  /** Julian length of March-year c, whose February lies in year c - 4715. */
  function JulianLength(c: int): int {
    if (c + 1) % 4 == 0 then 366 else 365
  }

  /** Splitting off the year leaves a day number inside that year. */
  lemma DayInYear(b: int)
    requires b >= 1524
    ensures YearOf(b) >= 3
    ensures 123 <= b - YearBase(YearOf(b)) <= 122 + JulianLength(YearOf(b))
  {}

  /** The split is the only one. */
  lemma SplitUnique(b: int, c: int, r: int)
    requires b >= 1524 && b == YearBase(c) + r && 123 <= r <= 122 + JulianLength(c)
    ensures YearOf(b) == c
  {}

  lemma NextInYear(b: int)
    requires b >= 1524
    ensures var c, r := YearOf(b), b - YearBase(YearOf(b));
            if r < 122 + JulianLength(c) then YearOf(b + 1) == c else YearOf(b + 1) == c + 1 && b + 1 - YearBase(c + 1) == 123
  {
    var c, r := YearOf(b), b - YearBase(YearOf(b));
    DayInYear(b);
    if r < 122 + JulianLength(c) {
      SplitUnique(b + 1, c, r + 1);
    } else {
      SplitUnique(b + 1, c + 1, 123);
    }
  }

  /** February of March-year c has this many days in the civil calendar. */
  function FebruaryOf(c: int): int {
    DaysIn(c - 4715, 2)
  }

  /** Days before the month with internal number e (4 = March, ..., 15 = February). */
  function MonthBase(e: int): int
    requires 4 <= e <= 16
  {
    [122, 153, 183, 214, 244, 275, 306, 336, 367, 397, 428, 459, 489][e - 4]
  }

  /** The 30.6001 arithmetic picks the month by these bases, and no other month fits. */
  lemma MonthSplit(r: int)
    requires 123 <= r <= 489
    ensures var e := 10000 * r / 306001;
            4 <= e <= 15 && 306001 * e / 10000 == MonthBase(e) && MonthBase(e) < r <= MonthBase(e + 1)
  {}

  lemma MonthUnique(r: int, e: int)
    requires 4 <= e <= 15 && MonthBase(e) < r <= MonthBase(e + 1)
    ensures 10000 * r / 306001 == e
  {}

  lemma DecodeIs(c: int, r: int, e: int)
    requires 4 <= e <= 15 && MonthBase(e) < r <= MonthBase(e + 1)
    ensures Decode(c, r) == DateAt(c, e, r - MonthBase(e))
  {
    MonthSplit(r);
    MonthUnique(r, e);
  }

  /** Inside a March-year the decoded dates follow each other. */
  lemma DecodeNext(c: int, r: int)
    requires 123 <= r <= 459 + FebruaryOf(c) && ValidDate(Decode(c, r))
    ensures r < 459 + FebruaryOf(c) && Decode(c, r) != Date(1582, 10, 4) ==> Decode(c, r + 1) == NextDay(Decode(c, r))
    ensures r == 459 + FebruaryOf(c) ==> Decode(c + 1, 123) == NextDay(Decode(c, r))
  {
    if r == 459 + FebruaryOf(c) {
      DecodeYearEnd(c);
    } else if Decode(c, r) != Date(1582, 10, 4) {
      DecodeInside(c, r);
    }
  }

  lemma DecodeInside(c: int, r: int)
    requires 123 <= r < 459 + FebruaryOf(c) && ValidDate(Decode(c, r)) && Decode(c, r) != Date(1582, 10, 4)
    ensures Decode(c, r + 1) == NextDay(Decode(c, r))
  {
    var e := MonthOf(r);
    DecodeIs(c, r, e);
    AfterDecoded(c, r, e);
  }

  lemma AfterDecoded(c: int, r: int, e: int)
    requires 4 <= e <= 15 && MonthBase(e) < r <= MonthBase(e + 1) && r < 459 + FebruaryOf(c)
    requires ValidDate(DateAt(c, e, r - MonthBase(e))) && DateAt(c, e, r - MonthBase(e)) != Date(1582, 10, 4)
    ensures Decode(c, r + 1) == NextDay(DateAt(c, e, r - MonthBase(e)))
  {
    if r == MonthBase(e + 1) {
      DecodeIs(c, r + 1, e + 1);
      MonthEndNext(c, e);
    } else {
      DecodeIs(c, r + 1, e);
      MonthDayNext(c, e, r - MonthBase(e));
    }
  }

  lemma MonthOf(r: int) returns (e: int)
    requires 123 <= r <= 488
    ensures 4 <= e <= 15 && MonthBase(e) < r <= MonthBase(e + 1)
  {
    MonthSplit(r);
    e := 10000 * r / 306001;
  }

  /** The day after the last of a month is the first of the next. */
  lemma MonthEndNext(c: int, e: int)
    requires 4 <= e < 15 && ValidDate(DateAt(c, e, MonthBase(e + 1) - MonthBase(e)))
    ensures DateAt(c, e + 1, 1) == NextDay(DateAt(c, e, MonthBase(e + 1) - MonthBase(e)))
  {}

  lemma MonthDayNext(c: int, e: int, day: int)
    requires 4 <= e <= 15 && 1 <= day < MonthBase(e + 1) - MonthBase(e) && (e == 15 ==> day < FebruaryOf(c))
    requires ValidDate(DateAt(c, e, day)) && DateAt(c, e, day) != Date(1582, 10, 4)
    ensures DateAt(c, e, day + 1) == NextDay(DateAt(c, e, day))
  {}

  lemma DecodeYearEnd(c: int)
    requires ValidDate(Decode(c, 459 + FebruaryOf(c)))
    ensures Decode(c + 1, 123) == NextDay(Decode(c, 459 + FebruaryOf(c)))
  {
    DecodeIs(c, 459 + FebruaryOf(c), 15);
    DecodeIs(c + 1, 123, 4);
  }

  // ------------------------------------------------------------------ Julian and Gregorian days

  /** A Julian day below the reform: March-year and day in it, with the civil February. */
  lemma JulianDayFields(z: int)
    requires 0 <= z < GREGORIAN_START
    ensures var b := z + 1524;
            && 123 <= b - YearBase(YearOf(b)) <= 459 + FebruaryOf(YearOf(b))
            && FebruaryOf(YearOf(b)) == JulianLength(YearOf(b)) - 337
            && (z < GREGORIAN_START - 1 ==> IntDate(b) != Date(1582, 10, 4))
  {
    var b := z + 1524;
    DayInYear(b);
    var c, r := YearOf(b), b - YearBase(YearOf(b));
    assert c <= 6298;
    if z < GREGORIAN_START - 1 {
      assert c == 6298 ==> r <= 339;
      NotReformDay(c, r);
    }
  }

  lemma NotReformDay(c: int, r: int)
    requires 123 <= r <= 489 && (c < 6298 || (c == 6298 && r <= 339))
    ensures Decode(c, r) != Date(1582, 10, 4)
  {
    MonthSplit(r);
    DecodeIs(c, r, 10000 * r / 306001);
  }

  lemma JulianStep(z: int)
    requires 0 <= z && z + 1 < GREGORIAN_START && ValidDate(IntDate(z + 1524))
    ensures IntDate(z + 1525) == NextDay(IntDate(z + 1524))
  {
    JulianDayFields(z);
    var b := z + 1524;
    var c, r := YearOf(b), b - YearBase(YearOf(b));
    NextInYear(b);
    DecodeNext(c, r);
    if r < 459 + FebruaryOf(c) {
      assert IntDate(b + 1) == Decode(c, r + 1);
    } else {
      assert IntDate(b + 1) == Decode(c + 1, 123);
    }
  }

  /** The day count after adding back the dropped leap days. */
  function GregorianB(z: int): int {
    z + 1525 + Century(z) - Century(z) / 4
  }

  /** The century read off the day number is the century of the March-year. */
  lemma CenturyOfYear(z: int)
    requires z >= GREGORIAN_START
    ensures GregorianB(z) >= 2300695 && Century(z) == (YearOf(GregorianB(z)) - 5116) / 100
  {
    var k := Century(z);
    var q, s := k / 4, k % 4;
    var b := GregorianB(z);
    assert 146097 * k + 7468865 <= 4 * z <= 146097 * k + 7468865 + 146096;
    assert 4 * b == 4 * z + 6100 + 3 * k + s;
    assert 7305 * (100 * k + 5116) <= 20 * b - 2442 < 7305 * (100 * k + 5216);
  }

  /** 29 February of a century year is produced only when the year is divisible by 400. */
  lemma CenturyLeapDay(z: int)
    requires z >= GREGORIAN_START
    requires var b := GregorianB(z); b - YearBase(YearOf(b)) == 488 && (YearOf(b) - 4715) % 100 == 0
    ensures (YearOf(GregorianB(z)) - 4715) % 400 == 0
  {
    CenturyOfYear(z);
    CenturyYear(GregorianB(z), YearOf(GregorianB(z)), Century(z));
    LeapCentury(z, Century(z) + 1);
    FourCenturies(YearOf(GregorianB(z)), Century(z) + 1);
  }

  lemma FourCenturies(c: int, m: int)
    requires c == 5115 + 100 * m && m % 4 == 0
    ensures (c - 4715) % 400 == 0
  {
    assert c - 4715 == 400 * (m / 4 + 1);
  }

  /** Day 488 of a March-year that ends in a century year, by the number m of that century. */
  lemma CenturyYear(b: int, c: int, k: int)
    requires b - YearBase(c) == 488 && (c - 4715) % 100 == 0 && k == (c - 5116) / 100
    ensures c == 5115 + 100 * (k + 1) && b == 36525 * (k + 1) + 1868741
  {}

  lemma LeapCentury(z: int, m: int)
    requires GregorianB(z) == 36525 * m + 1868741 && Century(z) == m - 1
    ensures m % 4 == 0
  {
    var q, s := (m - 1) / 4, (m - 1) % 4;
    assert m - 1 == 4 * q + s;
    assert z == 36524 * m + 1867217 + q;
    assert 4 * z - 7468865 == 146096 * m + 3 + 4 * q;
    assert 146097 * (m - 1) <= 146096 * m + 3 + 4 * q < 146097 * m;
  }

  /** The March-year and day of a Gregorian day respect the Gregorian February. */
  lemma GregorianDayFields(z: int)
    requires z >= GREGORIAN_START
    ensures var b := GregorianB(z);
            && b >= 2300695 && YearOf(b) >= 6298
            && (YearOf(b) == 6298 ==> b - YearBase(YearOf(b)) >= 351)
            && 123 <= b - YearBase(YearOf(b)) <= 459 + FebruaryOf(YearOf(b))
            && FebruaryOf(YearOf(b)) <= JulianLength(YearOf(b)) - 337
  {
    CenturyOfYear(z);
    var b := GregorianB(z);
    DayInYear(b);
    var c, r := YearOf(b), b - YearBase(YearOf(b));
    if r == 488 && (c - 4715) % 100 == 0 {
      CenturyLeapDay(z);
    }
    assert c >= 6298 && (c == 6298 ==> r >= 351);
  }

  /** A century boundary between two March-years falls at the second of them. */
  lemma CenturyJump(c: int, c': int, k: int)
    requires k == (c - 5116) / 100 && k + 1 == (c' - 5116) / 100 && c <= c' <= c + 1 && c >= 6298
    ensures c' == c + 1 && JulianLength(c) == 366
    ensures (k + 1) % 4 != 0 ==> FebruaryOf(c) == 28
  {
    assert c + 1 == 100 * (k + 1) + 5116;
  }

  /** A day that moves two counts is 28 February of a common century year. */
  lemma CenturySkip(z: int)
    requires z >= GREGORIAN_START && GregorianB(z + 1) != GregorianB(z) + 1
    ensures var b, b' := GregorianB(z), GregorianB(z + 1);
            var c, r := YearOf(b), b - YearBase(YearOf(b));
            r == 487 && FebruaryOf(c) == 28 && YearOf(b') == c + 1 && b' - YearBase(c + 1) == 123
  {
    var b, b' := GregorianB(z), GregorianB(z + 1);
    CenturyMoves(z);
    CenturyOfYear(z);
    CenturyOfYear(z + 1);
    GregorianDayFields(z);
    TwoOn(b, YearOf(b), b - YearBase(YearOf(b)));
    CenturyJump(YearOf(b), YearOf(b'), Century(z));
  }

  lemma CenturyMoves(z: int)
    ensures var b, b' := GregorianB(z), GregorianB(z + 1);
            b' == b + 1 || (b' == b + 2 && Century(z + 1) == Century(z) + 1 && (Century(z) + 1) % 4 != 0)
  {}

  lemma TwoOn(b: int, c: int, r: int)
    requires b >= 1524 && c == YearOf(b) && r == b - YearBase(c)
    ensures c <= YearOf(b + 2) <= c + 1
    ensures YearOf(b + 2) == c + 1 && r < 122 + JulianLength(c) ==>
              r == 121 + JulianLength(c) && b + 2 - YearBase(c + 1) == 123
  {
    NextInYear(b);
    NextInYear(b + 1);
    DayInYear(b);
    DayInYear(b + 1);
  }

  /** The next day moves on one count, or two where the Julian rule has a leap day that Gregorian drops. */
  lemma GregorianAdvance(z: int)
    requires z >= GREGORIAN_START
    ensures var b, b' := GregorianB(z), GregorianB(z + 1);
            var c, r := YearOf(b), b - YearBase(YearOf(b));
            if r < 459 + FebruaryOf(c) then YearOf(b') == c && b' == b + 1
            else YearOf(b') == c + 1 && b' - YearBase(c + 1) == 123
  {
    GregorianDayFields(z);
    GregorianDayFields(z + 1);
    CenturyMoves(z);
    var b, b' := GregorianB(z), GregorianB(z + 1);
    if b' == b + 1 {
      NextInYear(b);
    } else {
      CenturySkip(z);
    }
  }

  /** No Gregorian day decodes to the eve of the reform. */
  lemma AfterReform(c: int, r: int)
    requires c >= 6298 && 123 <= r <= 489 && (c == 6298 ==> r >= 351)
    ensures Decode(c, r) != Date(1582, 10, 4)
  {
    MonthSplit(r);
    DecodeIs(c, r, 10000 * r / 306001);
  }

  lemma GregorianStep(z: int)
    requires z >= GREGORIAN_START && ValidDate(IntDate(GregorianB(z)))
    ensures IntDate(GregorianB(z + 1)) == NextDay(IntDate(GregorianB(z)))
  {
    GregorianDayFields(z);
    GregorianAdvance(z);
    var b := GregorianB(z);
    var c, r := YearOf(b), b - YearBase(YearOf(b));
    AfterReform(c, r);
    DecodeNext(c, r);
  }

  /** The first day, and both sides of the reform, computed. */
  lemma LandmarkDays()
    ensures IntDate(1524) == Date(-4712, 1, 1)
    ensures IntDate(GREGORIAN_START + 1523) == Date(1582, 10, 4)
    ensures GregorianB(GREGORIAN_START) == 2300695 && IntDate(2300695) == Date(1582, 10, 15)
    ensures GregorianB(2440588) == 2442125 && IntDate(2442125) == Date(1970, 1, 1)
  {
    DayAt(1524, 3, 429, 14);
    DayAt(GREGORIAN_START + 1523, 6298, 340, 11);
    DayAt(2300695, 6298, 351, 11);
    DayAt(2442125, 6685, 429, 14);
    assert Century(GREGORIAN_START) == 11 && Century(2440588) == 15;
  }

  lemma DayAt(b: int, c: int, r: int, e: int)
    requires b >= 1524 && b == 1461 * c / 4 + r && 123 <= r <= 487
    requires 4 <= e <= 15 && MonthBase(e) < r <= MonthBase(e + 1)
    ensures IntDate(b) == DateAt(c, e, r - MonthBase(e))
  {
    SplitUnique(b, c, r);
    DecodeIs(c, r, e);
  }

  /** The shifted count of day z, without the 32-bit limit. */
  function Shifted(z: int): int {
    if z < GREGORIAN_START then z + 1524 else GregorianB(z)
  }

  /** One step of the conversion is one step of the calendar. */
  lemma StepIsNextDay(z: nat)
    requires ValidDate(IntDate(Shifted(z)))
    ensures IntDate(Shifted(z + 1)) == NextDay(IntDate(Shifted(z)))
  {
    if z + 1 < GREGORIAN_START {
      JulianStep(z);
    } else if z + 1 == GREGORIAN_START {
      LandmarkDays();
    } else {
      GregorianStep(z);
    }
  }

  lemma FirstDay()
    ensures IntDate(Shifted(0)) == Civil(0)
  {
    LandmarkDays();
  }

  /** Whatever starts on the first day and steps like the calendar is the calendar. */
  lemma {:induction false} StepsLikeCivil(date: nat -> Date, z: nat)
    requires date(0) == Civil(0)
    requires forall y: nat :: ValidDate(date(y)) ==> date(y + 1) == NextDay(date(y))
    ensures date(z) == Civil(z)
  {
    if z > 0 {
      StepsLikeCivil(date, z - 1);
      assert date((z - 1) + 1) == NextDay(date(z - 1));
    }
  }

  /** Day z of the conversion is day z of the calendar, for every z. */
  lemma ConversionIsCivil(z: nat)
    ensures IntDate(Shifted(z)) == Civil(z)
  {
    var date := (y: nat) => IntDate(Shifted(y));
    FirstDay();
    forall y: nat | ValidDate(date(y)) ensures date(y + 1) == NextDay(date(y)) {
      StepIsNextDay(y);
    }
    StepsLikeCivil(date, z);
  }

  // ------------------------------------------------------------------ main results

  /** The largest day number whose shifted count still fits 32 bits. */
  const LAST_DAY: int := 2147438064

  lemma FitsIff(z: int)
    requires 0 <= z < TWO31
    ensures Corrected(z) + 1524 == Shifted(z)
    ensures 1524 <= Shifted(z) < TWO31 + 100000
    ensures Shifted(z) < TWO31 <==> z <= LAST_DAY
  {
    if z >= GREGORIAN_START {
      CorrectedInIntegers(z);
    }
  }

  lemma {:induction false} CivilYearBound(z: nat)
    ensures Civil(z).year >= -4712
  {
    if z > 0 {
      CivilYearBound(z - 1);
    }
  }

  /** A wrapped count decodes to a year far before the calendar begins. */
  lemma WrappedYear(b: int)
    requires b < -100000000
    ensures FromB(b).year < -4712
  {
    var x := (b as real - 122.1) / 365.25;
    assert -x >= 200000.0;
    assert (-x).Floor >= 200000;
  }

  /**
   * For every non-negative 32-bit day number, the computed fields are the civil date of that day if
   * and only if the day is at most LAST_DAY; past it the 32-bit sum wraps and the year is wrong.
   */
  lemma ToDateIsCivilIff(z: int)
    requires 0 <= z < TWO31
    ensures ToDate(z) == Civil(z) <==> z <= LAST_DAY
    ensures z <= LAST_DAY ==> ValidDate(ToDate(z))
  {
    if z <= LAST_DAY {
      ToDateFits(z);
    } else {
      ToDateWraps(z);
    }
  }

  lemma ToDateFits(z: int)
    requires 0 <= z <= LAST_DAY
    ensures ToDate(z) == Civil(z)
  {
    ToDateInIntegers(z);
    ConversionIsCivil(z);
  }

  lemma ToDateInIntegers(z: int)
    requires 0 <= z <= LAST_DAY
    ensures ToDate(z) == IntDate(Shifted(z))
  {
    FitsIff(z);
    FromBInIntegers(Shifted(z));
  }

  lemma ToDateWraps(z: int)
    requires LAST_DAY < z < TWO31
    ensures ToDate(z) != Civil(z)
  {
    FitsIff(z);
    CivilYearBound(z);
    WrappedYear(Wrap32(Shifted(z)));
  }

  lemma EpochDay()
    ensures Civil(2440588) == Date(1970, 1, 1)
  {
    ConversionIsCivil(2440588);
    LandmarkDays();
  }
}
