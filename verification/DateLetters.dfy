/** What each numeric pattern letter prints and what it sets, letter by letter. */
module DateLetters {
  import opened Common
  import opened Decimal
  import opened DateText
  import opened DatePattern

  /**
   * The letter, alone in a pattern with this width, prints the decimal digits of x, with zeros in front
   * up to `pad` digits; a number too long for a field of three or more digits is an error.
   */
  ghost predicate Prints(letter: char, width: nat, cal: Cal, x: nat, pad: nat) {
    && Plain(Number(letter, width))
    && var r := Print([Number(letter, width)], cal, "");
    if pad <= 2 || x < Pow10(pad)
    then r.Some? && AllDigits(r.value) && ValueOf(r.value) == x && |r.value| == (if Length(x) < pad then pad else Length(x))
    else r == None
  }

  /** The letter, alone in a pattern with this width, sets one field from the digits d. */
  ghost predicate Sets(letter: char, width: nat, d: string, start: nat, field: Field, value: int) {
    Parse([Number(letter, width)], d, start) == Fields([(field, value)], "")
  }

  lemma {:induction false} PrintsShown(t: Token, cal: Cal)
    requires t.Number? && Plain(t)
    ensures Prints(t.letter, t.width, cal, Shown(t, cal), Padding(t))
  {
    var v, pad := Shown(t, cal), Padding(t);
    OneRule(t, cal);
    LengthIff(v, pad);
    if pad <= 2 || v < Pow10(pad) {
      AppendIsText(t, cal, cal(Year), "");
      TextDenotes(t, cal, cal(Year));
      assert "" + FieldText(t, cal) == FieldText(t, cal);
    } else {
      BackfillOverwrites("" + Zeros(pad), pad, v);
    }
  }

  lemma {:induction false} OneRule(t: Token, cal: Cal)
    requires t.Number? && Plain(t)
    ensures Print([t], cal, "") == AppendNumber(t, cal, "")
  {
    assert [t][1..] == [];
  }

  lemma {:induction false} SetsModified(t: Token, d: string, start: nat)
    requires t.Number? && Plain(t) && d != "" && AllDigits(d) && ValueOf(d) < TWO31
    ensures Sets(t.letter, t.width, d, start, FieldOf(t.letter).value, Modify(t, ValueOf(d), start))
  {
    assert [t][1..] == [] && d + "" == d;
    DigitRunIs(d, "");
    assert d[..|d|] == d && d[|d|..] == "";
    assert Match([t], d) == Some(Matched([d] + [], ""));
    assert [d] + [] == [d] && [d][1..] == [];
    assert Assign([t], [d], start) == Some([(FieldOf(t.letter).value, Modify(t, ValueOf(d), start))] + []);
  }

  /** A number of 2^31 or more is an error, whatever its letter. */
  lemma {:induction false} TooLargeToParse(t: Token, d: string, start: nat)
    requires t.Number? && Plain(t) && d != "" && AllDigits(d)
    ensures Parse([t], d, start) == NumberError <==> ValueOf(d) >= 0x8000_0000
  {
    if ValueOf(d) >= 0x8000_0000 {
      assert [t][1..] == [] && d + "" == d;
      DigitRunIs(d, "");
      assert d[..|d|] == d && d[|d|..] == "";
      assert Match([t], d) == Some(Matched([d] + [], ""));
    } else {
      SetsModified(t, d, start);
    }
  }

  /** Day and week letters print their own calendar field. */
  lemma {:induction false} DayLettersPrint(cal: Cal, w: nat)
    requires w >= 1
    ensures Prints('d', w, cal, cal(DayOfMonth), w)
    ensures Prints('D', w, cal, cal(DayOfYear), w)
    ensures Prints('F', w, cal, cal(DayOfWeekInMonth), w)
    ensures Prints('w', w, cal, cal(WeekOfYear), w)
    ensures Prints('W', w, cal, cal(WeekOfMonth), w)
  {
    PrintsShown(Number('d', w), cal);
    PrintsShown(Number('D', w), cal);
    PrintsShown(Number('F', w), cal);
    PrintsShown(Number('w', w), cal);
    PrintsShown(Number('W', w), cal);
  }

  /** So do these time letters. */
  lemma {:induction false} TimeLettersPrint(cal: Cal, w: nat)
    requires w >= 1
    ensures Prints('H', w, cal, cal(HourOfDay), w)
    ensures Prints('K', w, cal, cal(Hour), w)
    ensures Prints('m', w, cal, cal(Minute), w)
    ensures Prints('s', w, cal, cal(Second), w)
    ensures Prints('S', w, cal, cal(Millisecond), w)
  {
    PrintsShown(Number('H', w), cal);
    PrintsShown(Number('K', w), cal);
    PrintsShown(Number('m', w), cal);
    PrintsShown(Number('s', w), cal);
    PrintsShown(Number('S', w), cal);
  }

  /** Hour 0 is shown as 12 or 24, and months count from 1. */
  lemma {:induction false} ShiftedLettersPrint(cal: Cal, w: nat)
    requires w >= 1
    ensures Prints('h', w, cal, if cal(Hour) == 0 then 12 else cal(Hour), w)
    ensures Prints('k', w, cal, if cal(HourOfDay) == 0 then 24 else cal(HourOfDay), w)
    ensures w <= 2 ==> Prints('M', w, cal, cal(Month) + 1, w)
  {
    PrintsShown(Number('h', w), cal);
    PrintsShown(Number('k', w), cal);
    if w <= 2 {
      PrintsShown(Number('M', w), cal);
    }
  }

  /** Years print in full with at least four digits, or modulo 100 with width two. */
  lemma {:induction false} YearLetterPrints(cal: Cal, w: nat)
    requires w >= 1
    ensures w == 2 ==> Prints('y', w, cal, cal(Year) % 100, 2)
    ensures w == 1 || w == 3 ==> Prints('y', w, cal, cal(Year), 4)
    ensures w >= 4 ==> Prints('y', w, cal, cal(Year), w)
  {
    PrintsShown(Number('y', w), cal);
  }

  /** Parsed from digits d of value v, day and week letters set their own calendar field to v. */
  lemma {:induction false} DayLettersParse(w: nat, d: string, v: nat, start: nat)
    requires w >= 1 && d != "" && AllDigits(d) && ValueOf(d) == v < 0x8000_0000
    ensures Sets('d', w, d, start, DayOfMonth, v)
    ensures Sets('D', w, d, start, DayOfYear, v)
    ensures Sets('F', w, d, start, DayOfWeekInMonth, v)
    ensures Sets('w', w, d, start, WeekOfYear, v)
    ensures Sets('W', w, d, start, WeekOfMonth, v)
  {
    SetsModified(Number('d', w), d, start);
    SetsModified(Number('D', w), d, start);
    SetsModified(Number('F', w), d, start);
    SetsModified(Number('w', w), d, start);
    SetsModified(Number('W', w), d, start);
  }

  /** So do these time letters. */
  lemma {:induction false} TimeLettersParse(w: nat, d: string, v: nat, start: nat)
    requires w >= 1 && d != "" && AllDigits(d) && ValueOf(d) == v < 0x8000_0000
    ensures Sets('H', w, d, start, HourOfDay, v)
    ensures Sets('K', w, d, start, Hour, v)
    ensures Sets('m', w, d, start, Minute, v)
    ensures Sets('s', w, d, start, Second, v)
    ensures Sets('S', w, d, start, Millisecond, v)
  {
    SetsModified(Number('H', w), d, start);
    SetsModified(Number('K', w), d, start);
    SetsModified(Number('m', w), d, start);
    SetsModified(Number('s', w), d, start);
    SetsModified(Number('S', w), d, start);
  }

  /** Hour 12 or 24 becomes 0, and months count from 0 in the calendar. */
  lemma {:induction false} ShiftedLettersParse(w: nat, d: string, v: nat, start: nat)
    requires w >= 1 && d != "" && AllDigits(d) && ValueOf(d) == v < 0x8000_0000
    ensures Sets('h', w, d, start, Hour, if v == 12 then 0 else v)
    ensures Sets('k', w, d, start, HourOfDay, if v == 24 then 0 else v)
    ensures w <= 2 ==> Sets('M', w, d, start, Month, v - 1)
  {
    SetsModified(Number('h', w), d, start);
    SetsModified(Number('k', w), d, start);
    if w <= 2 {
      SetsModified(Number('M', w), d, start);
    }
  }

  /** A year below 100 under y or yy means the one in the hundred years from the start that ends in it. */
  lemma {:induction false} YearLetterParses(w: nat, d: string, v: nat, start: nat)
    requires w >= 1 && d != "" && AllDigits(d) && ValueOf(d) == v < 0x8000_0000
    ensures w > 2 || v >= 100 ==> Sets('y', w, d, start, Year, v)
    ensures w <= 2 && v < 100 ==> forall y :: start <= y < start + 100 && y % 100 == v ==> Sets('y', w, d, start, Year, y)
  {
    SetsModified(Number('y', w), d, start);
    forall y | start <= y < start + 100 && y % 100 == v && w <= 2 ensures Sets('y', w, d, start, Year, y) {
      AdjustYearIff(start, y);
    }
  }

  /** The letters both sides know, the only limit on their width, and which of them are numbers. */
  lemma LettersKnown(c: char, n: nat)
    ensures Classify(c, n)
            == if c in {'y', 'd', 'h', 'H', 'm', 's', 'S', 'D', 'F', 'w', 'W', 'k', 'K'} || (c == 'M' && n <= 2)
               then Number(c, n) else Other(c, n)
    ensures KnownLetter(c) <==> c in {'G', 'y', 'M', 'd', 'h', 'H', 'm', 's', 'S', 'E', 'D', 'F', 'w', 'W', 'a', 'k', 'K', 'X', 'z', 'Z'}
    ensures KnownLetter(c) ==> IsLetter(c) && (Allowed(Classify(c, n)) <==> (c == 'X' ==> n <= 3))
    ensures IsLetter('A') && IsLetter('Z') && IsLetter('a') && IsLetter('z')
    ensures !IsLetter('@') && !IsLetter('[') && !IsLetter('`') && !IsLetter('{') && !IsLetter('\'')
  {}

  lemma ClockTexts()
    ensures "" + AtLeastTwo(10) == "10" && "10" + ":" == "10:" && "10:" + AtLeastTwo(5) == "10:05"
    ensures "10:05" + ":" == "10:05:" && "10:05:" + AtLeastTwo(7) == "10:05:07"
  {}

  /** HH:mm:ss at five minutes and seven seconds past ten. */
  lemma {:induction false} TenOFive(cal: Cal)
    requires cal(HourOfDay) == 10 && cal(Minute) == 5 && cal(Second) == 7
    ensures var ts := [Number('H', 2), Literal(":"), Number('m', 2), Literal(":"), Number('s', 2)];
            Print(ts, cal, "") == Some("10:05:07")
  {
    var t4 := [Number('s', 2)];
    var t3 := [Literal(":")] + t4;
    var t2 := [Number('m', 2)] + t3;
    var t1 := [Literal(":")] + t2;
    var ts := [Number('H', 2)] + t1;
    assert ts == [Number('H', 2), Literal(":"), Number('m', 2), Literal(":"), Number('s', 2)];
    ClockTexts();
    PrintTwo(Number('s', 2), [], cal, "10:05:", "10:05:07");
    PrintColon(t4, cal, "10:05", "10:05:");
    PrintTwo(Number('m', 2), t3, cal, "10:", "10:05");
    PrintColon(t2, cal, "10", "10:");
    PrintTwo(Number('H', 2), t1, cal, "", "10");
    assert t4 == [Number('s', 2)] + [];
  }

  lemma {:induction false} PrintTwo(t: Token, rest: seq<Token>, cal: Cal, before: string, after: string)
    requires t.Number? && Plain(t) && Padding(t) == 2 && after == before + AtLeastTwo(Shown(t, cal))
    requires forall i :: 0 <= i < |rest| ==> Plain(rest[i])
    ensures forall i :: 0 <= i < |[t] + rest| ==> Plain(([t] + rest)[i])
    ensures Print([t] + rest, cal, before) == Print(rest, cal, after)
  {
    assert ([t] + rest)[1..] == rest;
  }

  lemma {:induction false} PrintColon(rest: seq<Token>, cal: Cal, before: string, after: string)
    requires (forall i :: 0 <= i < |rest| ==> Plain(rest[i])) && after == before + ":"
    ensures forall i :: 0 <= i < |[Literal(":")] + rest| ==> Plain(([Literal(":")] + rest)[i])
    ensures Print([Literal(":")] + rest, cal, before) == Print(rest, cal, after)
  {
    assert ([Literal(":")] + rest)[1..] == rest;
  }
}
