/**
 * Date text: the printer and the parser that are compiled from one pattern, for patterns of numeric
 * fields and literal text.  The printer walks its rules over a calendar; the parser is the possessive
 * regular expression it builds, which never backtracks and so is a deterministic scan.
 */
module DateText {
  import opened Common
  import opened Decimal

  datatype Field =
    | Year | Month | DayOfMonth | DayOfYear | DayOfWeekInMonth | WeekOfYear | WeekOfMonth
    | Hour | HourOfDay | Minute | Second | Millisecond

  /** What `calendar.get` returns: month and hour are 0-based as in java.util.Calendar. */
  type Cal = Field -> nat

  /** One pattern component. `Other` stands for the text and zone letters. */
  datatype Token = Number(letter: char, width: nat) | Other(letter: char, width: nat) | Literal(text: string)

  // ------------------------------------------------------------------ pattern components

  predicate IsLetter(c: char) {
    'A' <= c <= 'Z' || 'a' <= c <= 'z'
  }

  function FieldOf(letter: char): Option<Field> {
    match letter
    case 'y' => Some(Year)
    case 'M' => Some(Month)
    case 'd' => Some(DayOfMonth)
    case 'D' => Some(DayOfYear)
    case 'F' => Some(DayOfWeekInMonth)
    case 'w' => Some(WeekOfYear)
    case 'W' => Some(WeekOfMonth)
    case 'h' => Some(Hour)
    case 'K' => Some(Hour)
    case 'H' => Some(HourOfDay)
    case 'k' => Some(HourOfDay)
    case 'm' => Some(Minute)
    case 's' => Some(Second)
    case 'S' => Some(Millisecond)
    case _ => None
  }

  function Classify(letter: char, width: nat): Token {
    if FieldOf(letter).Some? && !(letter == 'M' && width >= 3) then Number(letter, width) else Other(letter, width)
  }

  /** A numeric field or a non-empty literal. */
  predicate Plain(t: Token) {
    match t
    case Number(letter, width) => FieldOf(letter).Some? && width >= 1 && (letter == 'M' ==> width <= 2)
    case Literal(text) => text != []
    case Other(_, _) => false
  }

  // ------------------------------------------------------------------ printer

  /** The number a field prints: month + 1, hour 0 as 12 or 24, year modulo 100 for `yy`. */
  function Shown(t: Token, cal: Cal): nat
    requires t.Number? && Plain(t)
  {
    var v := cal(FieldOf(t.letter).value);
    match t.letter
    case 'y' => if t.width == 2 then v % 100 else v
    case 'M' => v + 1
    case 'h' => if v == 0 then 12 else v
    case 'k' => if v == 0 then 24 else v
    case _ => v
  }

  /** The padding handed to selectNumberRule. */
  function Padding(t: Token): nat
    requires t.Number?
  {
    if t.letter == 'y' && t.width != 2 then (if t.width < 4 then 4 else t.width) else t.width
  }

  function TwoDigits(v: nat): string
    requires v < 100
  {
    [DigitChar(v / 10), DigitChar(v % 10)]
  }

  /** Integer.toString of a non-negative number. */
  function Plainly(v: nat): string {
    Padded(v, Length(v))
  }

  function Unpadded(v: nat): string {
    if v < 10 then [DigitChar(v)] else if v < 100 then TwoDigits(v) else Plainly(v)
  }

  function AtLeastTwo(v: nat): string {
    if v < 100 then TwoDigits(v) else Plainly(v)
  }

  /** One number rule applied to the output buffer; None is the index error of an overfull padded field. */
  function AppendNumber(t: Token, cal: Cal, buffer: string): Option<string>
    requires t.Number? && Plain(t)
  {
    var v := Shown(t, cal);
    if Padding(t) == 1 then Some(buffer + Unpadded(v))
    else if Padding(t) == 2 then Some(buffer + AtLeastTwo(v))
    else
      Backfill(buffer + Zeros(Padding(t)), |buffer| + Padding(t), v)
  }

  /** Applying the rules for the components in order. */
  function Print(ts: seq<Token>, cal: Cal, buffer: string): Option<string>
    requires forall i :: 0 <= i < |ts| ==> Plain(ts[i])
  {
    if ts == [] then Some(buffer)
    else
      assert Plain(ts[0]);
      match ts[0]
      case Literal(text) => Print(ts[1..], cal, buffer + text)
      case Number(_, _) =>
        var b := AppendNumber(ts[0], cal, buffer);
        if b.None? then None else Print(ts[1..], cal, b.value)
  }

  /** applyRules as the loop it is, with the padded rule done in place. */
  method Format(ts: seq<Token>, cal: Cal) returns (r: Option<string>)
    requires forall i :: 0 <= i < |ts| ==> Plain(ts[i])
    ensures r == Print(ts, cal, "")
  {
    var buffer := "";
    var i := 0;
    while i < |ts|
      invariant 0 <= i <= |ts| && Print(ts[i..], cal, buffer) == Print(ts, cal, "")
    {
      assert ts[i..][0] == ts[i] && ts[i..][1..] == ts[i + 1..];
      match ts[i] {
        case Literal(text) => buffer := buffer + text;
        case Number(_, _) =>
          var b := AppendNumber(ts[i], cal, buffer);
          if Padding(ts[i]) >= 3 {
            b := AppendPadded(buffer, Padding(ts[i]), Shown(ts[i], cal));
          }
          if b.None? {
            return None;
          }
          buffer := b.value;
      }
      i := i + 1;
    }
    return Some(buffer);
  }

  // ------------------------------------------------------------------ parser

  /** Will the regular expression after this point start with a digit? */
  predicate StartsNumber(ts: seq<Token>) {
    ts != [] && (ts[0].Number? || (ts[0].Literal? && ts[0].text != [] && IsDigit(ts[0].text[0])))
  }

  /** Length of the leading digit run. */
  function DigitRun(s: string): (n: nat)
    ensures n <= |s| && AllDigits(s[..n]) && (n < |s| ==> !IsDigit(s[n]))
  {
    if s == [] || !IsDigit(s[0]) then 0 else
      var n := DigitRun(s[1..]);
      assert s[..n + 1] == [s[0]] + s[1..][..n];
      n + 1
  }

  /** Exactly `width` digits before another number, the longest digit run otherwise. */
  function MatchNumber(width: nat, beforeNumber: bool, s: string): (r: Option<nat>)
    ensures r.Some? ==> r.value <= |s| && AllDigits(s[..r.value])
  {
    var run := DigitRun(s);
    if beforeNumber then
      if run >= width then
        assert s[..width] == s[..run][..width];
        Some(width)
      else None
    else if run >= 1 then Some(run) else None
  }

  datatype Matched = Matched(groups: seq<string>, rest: string)

  /** lookingAt: a prefix match that yields one group per numeric field. */
  function Match(ts: seq<Token>, s: string): Option<Matched> {
    if ts == [] then Some(Matched([], s))
    else
      match ts[0]
      case Other(_, _) => None
      case Literal(text) =>
        if text <= s then Match(ts[1..], s[|text|..]) else None
      case Number(_, width) =>
        var n := MatchNumber(width, StartsNumber(ts[1..]), s);
        if n.None? then None
        else
          var m := Match(ts[1..], s[n.value..]);
          if m.None? then None else Some(Matched([s[..n.value]] + m.value.groups, m.value.rest))
  }

  /** Two-digit years fall into the hundred years from `start`. */
  function AdjustYear(start: nat, twoDigit: nat): nat {
    var century := start / 100 * 100;
    var trial := century + twoDigit;
    if twoDigit >= start - century then trial else trial + 100
  }

  /** The calendar value a parsed number stands for. */
  function Modify(t: Token, v: nat, start: nat): int
    requires t.Number?
  {
    match t.letter
    case 'y' => if t.width <= 2 && v < 100 then AdjustYear(start, v) else v
    case 'M' => v - 1
    case 'h' => if v == 12 then 0 else v
    case 'k' => if v == 24 then 0 else v
    case _ => v
  }

  /** NumberError: a group is missing or its number does not fit an int. */
  datatype Parsed = NoMatch | NumberError | Fields(sets: seq<(Field, int)>, rest: string)

  /** setCalendar for every field in order; None when Integer.parseInt overflows. */
  function Assign(ts: seq<Token>, groups: seq<string>, start: nat): Option<seq<(Field, int)>> {
    if ts == [] || groups == [] then Some([])
    else if !ts[0].Number? then Assign(ts[1..], groups, start)
    else if !AllDigits(groups[0]) || ValueOf(groups[0]) >= TWO31 || FieldOf(ts[0].letter).None? then None
    else
      var more := Assign(ts[1..], groups[1..], start);
      if more.None? then None
      else Some([(FieldOf(ts[0].letter).value, Modify(ts[0], ValueOf(groups[0]), start))] + more.value)
  }

  function Parse(ts: seq<Token>, s: string, start: nat): Parsed {
    var m := Match(ts, s);
    if m.None? then NoMatch
    else
      var sets := Assign(ts, m.value.groups, start);
      if sets.None? then NumberError else Fields(sets.value, m.value.rest)
  }

  /** parse(String): a 19-character source gets ".000" appended first. */
  function ParseSource(ts: seq<Token>, source: string, start: nat): Parsed {
    Parse(ts, if |source| == 19 then source + ".000" else source, start)
  }

  // ------------------------------------------------------------------ the `yy` window

  /** A year survives truncation to two digits and adjustment exactly when it lies in the window. */
  lemma AdjustYearIff(start: nat, year: nat)
    ensures AdjustYear(start, year % 100) == year <==> start <= year < start + 100
  {}

  // ------------------------------------------------------------------ round trip

  /** The values java.util.Calendar can report for these fields. */
  ghost predicate CalOk(cal: Cal) {
    cal(Month) <= 11 && cal(Hour) <= 11 && cal(HourOfDay) <= 23 && forall f :: cal(f) < TWO31 - 1
  }

  /** The text a field appends when its value fits. */
  function FieldText(t: Token, cal: Cal): string
    requires t.Number? && Plain(t)
  {
    var v := Shown(t, cal);
    if Padding(t) >= 3 || (Padding(t) == 2 && v < 100) then Padded(v, Padding(t)) else Plainly(v)
  }

  /** The value fits the padded width, and a year that will be read through the window lies in it. */
  predicate Fits(t: Token, cal: Cal, start: nat)
    requires t.Number? && Plain(t)
  {
    && (Padding(t) >= 3 ==> Shown(t, cal) < Pow10(Padding(t)))
    && (t.letter == 'y' && t.width <= 2 && Shown(t, cal) < 100 ==> start <= cal(Year) < start + 100)
  }

  /** Every field fits, and one that is directly followed by a digit prints at exactly its width. */
  ghost predicate Printable(ts: seq<Token>, cal: Cal, start: nat) {
    && (forall i :: 0 <= i < |ts| ==> Plain(ts[i]))
    && (forall i :: 0 <= i < |ts| && ts[i].Number? ==>
          && Fits(ts[i], cal, start)
          && (StartsNumber(ts[i + 1..]) ==> |FieldText(ts[i], cal)| == ts[i].width))
  }

  function TextOf(ts: seq<Token>, cal: Cal): string
    requires forall i :: 0 <= i < |ts| ==> Plain(ts[i])
  {
    if ts == [] then [] else assert Plain(ts[0]); (if ts[0].Literal? then ts[0].text else FieldText(ts[0], cal)) + TextOf(ts[1..], cal)
  }

  lemma PrintableTail(ts: seq<Token>, cal: Cal, start: nat)
    requires Printable(ts, cal, start) && ts != []
    ensures Printable(ts[1..], cal, start)
  {
    forall i | 0 <= i < |ts[1..]| && ts[1..][i].Number?
      ensures Fits(ts[1..][i], cal, start)
      ensures StartsNumber(ts[1..][i + 1..]) ==> |FieldText(ts[1..][i], cal)| == ts[1..][i].width
    {
      assert ts[1..][i] == ts[i + 1] && ts[1..][i + 1..] == ts[i + 2..];
    }
  }

  lemma TwoDigitsIsPadded(v: nat)
    requires v < 100
    ensures TwoDigits(v) == Padded(v, 2) && Pow10(2) == 100
  {
    assert Padded(v / 10, 1) == Padded(v / 10 / 10, 0) + [DigitChar(v / 10)];
  }

  lemma UnpaddedIsPlain(v: nat)
    ensures Unpadded(v) == Plainly(v)
  {
    if v < 10 {
      assert Padded(v, 1) == Padded(v / 10, 0) + [DigitChar(v)];
    } else if v < 100 {
      TwoDigitsIsPadded(v);
      assert Length(v / 10) == 1;
    }
  }

  lemma PlainlyDenotes(v: nat)
    ensures ValueOf(Plainly(v)) == v
  {
    LengthIff(v, Length(v));
    ValueOfPadded(v, Length(v));
  }

  /** A field that fits appends its own text and nothing else. */
  lemma AppendIsText(t: Token, cal: Cal, start: nat, buffer: string)
    requires t.Number? && Plain(t) && Fits(t, cal, start)
    ensures AppendNumber(t, cal, buffer) == Some(buffer + FieldText(t, cal))
  {
    var v, pad := Shown(t, cal), Padding(t);
    if pad == 1 {
      UnpaddedIsPlain(v);
    } else if pad == 2 {
      if v < 100 {
        TwoDigitsIsPadded(v);
      }
    } else {
      var s := buffer + Zeros(pad);
      BackfillFits(s, |s|, v, pad);
      assert s[..|s| - pad] + Padded(v, pad) + s[|s|..] == buffer + Padded(v, pad);
    }
  }

  /** That text is a non-empty digit string denoting the shown number. */
  lemma TextDenotes(t: Token, cal: Cal, start: nat)
    requires t.Number? && Plain(t) && Fits(t, cal, start)
    ensures AllDigits(FieldText(t, cal)) && |FieldText(t, cal)| >= 1
    ensures ValueOf(FieldText(t, cal)) == Shown(t, cal)
  {
    var v, pad := Shown(t, cal), Padding(t);
    if pad >= 3 {
      ValueOfPadded(v, pad);
    } else if pad == 2 && v < 100 {
      TwoDigitsIsPadded(v);
      ValueOfPadded(v, 2);
    } else {
      PlainlyDenotes(v);
    }
  }

  /** Printing appends the concatenated field texts and literals. */
  lemma {:induction false} PrintIsText(ts: seq<Token>, cal: Cal, start: nat, buffer: string)
    requires Printable(ts, cal, start)
    ensures Print(ts, cal, buffer) == Some(buffer + TextOf(ts, cal))
  {
    if ts == [] {
      assert buffer + [] == buffer;
    } else {
      PrintableTail(ts, cal, start);
      var head := if ts[0].Literal? then ts[0].text else FieldText(ts[0], cal);
      if ts[0].Number? {
        AppendIsText(ts[0], cal, start, buffer);
      }
      PrintIsText(ts[1..], cal, start, buffer + head);
      assert buffer + head + TextOf(ts[1..], cal) == buffer + TextOf(ts, cal);
    }
  }

  /** Undoing the printed form of one field: month, 12- and 24-hour wraps, and the year window. */
  lemma ModifyUndoes(t: Token, cal: Cal, start: nat)
    requires t.Number? && Plain(t) && CalOk(cal) && Fits(t, cal, start)
    ensures Modify(t, Shown(t, cal), start) == cal(FieldOf(t.letter).value)
    ensures Shown(t, cal) < TWO31
  {
    AdjustYearIff(start, cal(Year));
  }

  lemma {:induction false} DigitRunIs(d: string, after: string)
    requires AllDigits(d) && (after == [] || !IsDigit(after[0]))
    ensures DigitRun(d + after) == |d|
  {
    if d == [] {
      assert d + after == after;
    } else {
      DigitRunIs(d[1..], after);
      assert (d + after)[1..] == d[1..] + after;
    }
  }

  lemma {:induction false} DigitRunAtLeast(d: string, after: string)
    requires AllDigits(d)
    ensures DigitRun(d + after) >= |d|
  {
    if d != [] {
      DigitRunAtLeast(d[1..], after);
      assert (d + after)[1..] == d[1..] + after;
    }
  }

  /** The texts of the numeric fields, in order. */
  function Groups(ts: seq<Token>, cal: Cal): seq<string>
    requires forall i :: 0 <= i < |ts| ==> Plain(ts[i])
  {
    if ts == [] then []
    else if ts[0].Literal? then Groups(ts[1..], cal)
    else assert Plain(ts[0]); [FieldText(ts[0], cal)] + Groups(ts[1..], cal)
  }

  /** Where the scan of one field ends: at its width before a number, at the first non-digit otherwise. */
  lemma NumberEnds(head: string, tail: string, width: nat, before: bool)
    requires AllDigits(head) && |head| >= 1
    requires if before then |head| == width else tail == [] || !IsDigit(tail[0])
    ensures MatchNumber(width, before, head + tail) == Some(|head|)
  {
    if before {
      DigitRunAtLeast(head, tail);
    } else {
      DigitRunIs(head, tail);
    }
  }

  lemma AfterField(ts: seq<Token>, cal: Cal, rest: string)
    requires forall i :: 0 <= i < |ts| ==> Plain(ts[i])
    requires !StartsNumber(ts) && (rest == [] || !IsDigit(rest[0]))
    ensures var tail := TextOf(ts, cal) + rest; tail == [] || !IsDigit(tail[0])
  {
    if ts != [] {
      assert Plain(ts[0]);
      assert TextOf(ts, cal)[0] == ts[0].text[0];
    }
  }

  lemma MatchHead(ts: seq<Token>, head: string, tail: string)
    requires ts != [] && Match(ts[1..], tail).Some?
    requires match ts[0]
             case Literal(text) => text == head
             case Number(_, width) => MatchNumber(width, StartsNumber(ts[1..]), head + tail) == Some(|head|)
             case Other(_, _) => false
    ensures var m := Match(ts[1..], tail).value;
            Match(ts, head + tail) == Some(Matched((if ts[0].Number? then [head] else []) + m.groups, m.rest))
  {
    assert (head + tail)[|head|..] == tail && (head + tail)[..|head|] == head;
    var m := Match(ts[1..], tail).value;
    assert [] + m.groups == m.groups;
  }

  /** The scan splits the printed text exactly where the printer joined it. */
  lemma {:induction false} MatchSplits(ts: seq<Token>, cal: Cal, start: nat, rest: string)
    requires Printable(ts, cal, start)
    requires rest == [] || !IsDigit(rest[0])
    ensures Match(ts, TextOf(ts, cal) + rest) == Some(Matched(Groups(ts, cal), rest))
  {
    if ts == [] {
      assert [] + rest == rest;
    } else {
      PrintableTail(ts, cal, start);
      MatchSplits(ts[1..], cal, start, rest);
      assert Plain(ts[0]);
      var tail := TextOf(ts[1..], cal) + rest;
      var head := if ts[0].Literal? then ts[0].text else FieldText(ts[0], cal);
      assert TextOf(ts, cal) + rest == head + tail;
      if ts[0].Number? {
        assert ts[0 + 1..] == ts[1..];
        TextDenotes(ts[0], cal, start);
        if !StartsNumber(ts[1..]) {
          AfterField(ts[1..], cal, rest);
        }
        NumberEnds(head, tail, ts[0].width, StartsNumber(ts[1..]));
      }
      MatchHead(ts, head, tail);
    }
  }

  /** What the parser should set: each field's own calendar value, in pattern order. */
  function Expected(ts: seq<Token>, cal: Cal): seq<(Field, int)>
    requires forall i :: 0 <= i < |ts| ==> Plain(ts[i])
  {
    if ts == [] then []
    else if ts[0].Literal? then Expected(ts[1..], cal)
    else assert Plain(ts[0]); [(FieldOf(ts[0].letter).value, cal(FieldOf(ts[0].letter).value) as int)] + Expected(ts[1..], cal)
  }

  lemma {:induction false} AssignRestores(ts: seq<Token>, cal: Cal, start: nat)
    requires Printable(ts, cal, start) && CalOk(cal)
    ensures Assign(ts, Groups(ts, cal), start) == Some(Expected(ts, cal))
  {
    if ts != [] {
      PrintableTail(ts, cal, start);
      AssignRestores(ts[1..], cal, start);
      if ts[0].Number? {
        TextDenotes(ts[0], cal, start);
        ModifyUndoes(ts[0], cal, start);
        assert Groups(ts, cal)[1..] == Groups(ts[1..], cal);
      } else {
        NoGroupsNoFields(ts[1..], cal);
      }
    }
  }

  lemma {:induction false} NoGroupsNoFields(ts: seq<Token>, cal: Cal)
    requires forall i :: 0 <= i < |ts| ==> Plain(ts[i])
    ensures Groups(ts, cal) == [] ==> Expected(ts, cal) == []
  {
    if ts != [] {
      NoGroupsNoFields(ts[1..], cal);
    }
  }

  /** The calendar after the sets, as a map. */
  function Result(sets: seq<(Field, int)>): map<Field, int> {
    if sets == [] then map[] else Result(sets[..|sets| - 1])[sets[|sets| - 1].0 := sets[|sets| - 1].1]
  }

  lemma {:induction false} ExpectedAgrees(ts: seq<Token>, cal: Cal)
    requires forall i :: 0 <= i < |ts| ==> Plain(ts[i])
    ensures forall i :: 0 <= i < |Expected(ts, cal)| ==> Expected(ts, cal)[i].1 == cal(Expected(ts, cal)[i].0)
    ensures forall j :: 0 <= j < |ts| && ts[j].Number? ==>
              exists i :: 0 <= i < |Expected(ts, cal)| && Expected(ts, cal)[i].0 == FieldOf(ts[j].letter).value
  {
    if ts != [] {
      var more := Expected(ts[1..], cal);
      ExpectedAgrees(ts[1..], cal);
      forall j | 0 <= j < |ts| && ts[j].Number?
        ensures exists i :: 0 <= i < |Expected(ts, cal)| && Expected(ts, cal)[i].0 == FieldOf(ts[j].letter).value
      {
        if j == 0 {
          assert Expected(ts, cal)[0].0 == FieldOf(ts[0].letter).value;
        } else {
          assert ts[1..][j - 1] == ts[j];
          var i :| 0 <= i < |more| && more[i].0 == FieldOf(ts[j].letter).value;
          var k := if ts[0].Literal? then i else i + 1;
          assert Expected(ts, cal)[k] == more[i];
        }
      }
    }
  }

  lemma {:induction false} ResultAgrees(sets: seq<(Field, int)>, cal: Cal)
    requires forall i :: 0 <= i < |sets| ==> sets[i].1 == cal(sets[i].0)
    ensures forall i :: 0 <= i < |sets| ==> sets[i].0 in Result(sets)
    ensures forall f :: f in Result(sets) ==> Result(sets)[f] == cal(f)
  {
    if sets != [] {
      ResultAgrees(sets[..|sets| - 1], cal);
      forall i | 0 <= i < |sets| ensures sets[i].0 in Result(sets) {
        if i < |sets| - 1 {
          assert sets[..|sets| - 1][i] == sets[i];
        }
      }
    }
  }

  /**
   * Parsing the printed text restores every field of the pattern to the calendar's own value, through
   * parse(String) with its 19-character rule, and consumes exactly the printed text.
   */
  lemma RoundTrip(ts: seq<Token>, cal: Cal, start: nat)
    requires Printable(ts, cal, start) && CalOk(cal)
    ensures Print(ts, cal, "").Some?
    ensures var text := Print(ts, cal, "").value;
            && var p := ParseSource(ts, text, start);
            && p.Fields? && p.rest == (if |text| == 19 then ".000" else "")
            && (forall f :: f in Result(p.sets) ==> Result(p.sets)[f] == cal(f))
            && (forall j :: 0 <= j < |ts| && ts[j].Number? ==> FieldOf(ts[j].letter).value in Result(p.sets))
  {
    PrintIsText(ts, cal, start, "");
    var text := TextOf(ts, cal);
    assert "" + text == text;
    var rest := if |text| == 19 then ".000" else "";
    assert text + "" == text;
    MatchSplits(ts, cal, start, rest);
    AssignRestores(ts, cal, start);
    var sets := Expected(ts, cal);
    assert ParseSource(ts, text, start) == Fields(sets, rest);
    ExpectedAgrees(ts, cal);
    ResultAgrees(sets, cal);
    forall j | 0 <= j < |ts| && ts[j].Number? ensures FieldOf(ts[j].letter).value in Result(sets) {
      var i :| 0 <= i < |sets| && sets[i].0 == FieldOf(ts[j].letter).value;
    }
  }
}
