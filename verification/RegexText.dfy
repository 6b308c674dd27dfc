/**
 * How the parser turns literal text into a regular expression and how that expression reads back:
 * escapeRegex wraps the text in \Q..\E (class Pattern of java.util.regex, "Quotation"), and a number
 * field adds one group. Expression characters are kept as such; a group is one symbol.
 */
module RegexText {
  import opened Common
  import opened Decimal

  /** One piece of an expression: a character, or the group of a number field. */
  datatype Sym = Ch(c: char) | Group(width: nat, exact: bool)

  /** What an expression asks of the input: one character, or a run of digits. */
  datatype Item = One(c: char) | Digits(width: nat, exact: bool)

  function Chs(s: string): (e: seq<Sym>)
    ensures |e| == |s| && forall i :: 0 <= i < |s| ==> e[i] == Ch(s[i])
  {
    seq(|s|, i requires 0 <= i < |s| => Ch(s[i]))
  }

  function Ones(s: string): (items: seq<Item>)
    ensures |items| == |s| && forall i :: 0 <= i < |s| ==> items[i] == One(s[i])
  {
    seq(|s|, i requires 0 <= i < |s| => One(s[i]))
  }

  // ------------------------------------------------------------------ escapeRegex

  /** The rest of a field on which the loop returns early: a single quote. */
  predicate Stops(v: string) {
    v == "'"
  }

  /** How many characters one round of the loop takes. */
  function Taken(v: string): (n: nat)
    requires v != ""
    ensures 1 <= n <= |v|
  {
    if (v[0] == '\'' || v[0] == '\\') && |v| > 1 then 2 else 1
  }

  /** The text one round stands for: the character after a quote, a backslash with its successor, or one character. */
  function Piece(v: string): (s: string)
    requires v != "" && !Stops(v)
  {
    if v[0] == '\'' then [v[1]] else v[..Taken(v)]
  }

  /** What the round appends: the same, with \E made harmless. */
  function Appended(v: string): string
    requires v != "" && !Stops(v)
  {
    if v[0] == '\\' && |v| > 1 && v[1] == 'E' then "\\E\\\\E\\Q" else Piece(v)
  }

  /** What escapeRegex appends after \Q for the rest v of a field. */
  function Escaped(v: string): string
    decreases |v|
  {
    if v == "" then "\\E" else if Stops(v) then "" else Appended(v) + Escaped(v[Taken(v)..])
  }

  function EscapeRegex(v: string): string {
    "\\Q" + Escaped(v)
  }

  /** One round of the loop; `stop` is the early return. */
  method EscapeOne(regex: string, value: string, at: nat) returns (r: string, next: nat, stop: bool)
    requires at < |value|
    ensures stop == Stops(value[at..]) && (stop ==> r == regex)
    ensures !stop ==> next == at + Taken(value[at..]) && r == regex + Appended(value[at..])
  {
    var i, c := at, value[at];
    r := regex;
    if c == '\'' {
      i := i + 1;
      if i == |value| {
        return r, i, true;
      }
      c := value[i];
    } else if c == '\\' && i + 1 < |value| {
      i := i + 1;
      r := r + [c];
      c := value[i];
      if c == 'E' {
        r := r + "E\\\\E\\";
        c := 'Q';
      }
    }
    return r + [c], i + 1, false;
  }

  /** The loop as it is written, with its early return. */
  method AppendEscaped(regex: string, value: string) returns (r: string)
    ensures r == regex + EscapeRegex(value)
  {
    ghost var goal := regex + EscapeRegex(value);
    r := regex + "\\Q";
    var i := 0;
    assert value[0..] == value;
    Assoc(regex, "\\Q", Escaped(value));
    while i < |value|
      invariant 0 <= i <= |value| && r + Escaped(value[i..]) == goal
      decreases |value| - i
    {
      ghost var v, before := value[i..], r;
      var next, stop;
      r, next, stop := EscapeOne(r, value, i);
      if stop {
        assert r + "" == r;
        return;
      }
      assert value[next..] == v[Taken(v)..];
      Assoc(before, Appended(v), Escaped(value[next..]));
      i := next;
    }
    assert value[i..] == "";
    r := r + "\\E";
  }

  lemma {:induction false} Assoc(a: string, b: string, c: string)
    ensures (a + b) + c == a + (b + c)
  {}

  // ------------------------------------------------------------------ reading an expression

  /** The characters of a number group, as they count when a quotation swallows them. */
  function GroupText(width: nat, exact: bool): (s: string)
    ensures s != "" && s[0] == '('
  {
    if exact then "(\\p{Nd}{" + Padded(width, Length(width)) + "}+)" else "(\\p{Nd}++)"
  }

  /** The digit group as written: possessive, with its width in front of another number. */
  lemma {:induction false} GroupTexts(width: nat)
    requires 0 < width < 10
    ensures GroupText(width, false) == "(\\p{Nd}++)"
    ensures GroupText(width, true) == "(\\p{Nd}{" + [['1', '2', '3', '4', '5', '6', '7', '8', '9'][width - 1]] + "}+)"
  {
    var t := "" + [DigitChar(width)];
    assert Padded(width, 1) == t;
  }

  function Quoted(s: Sym): (items: seq<Item>)
    ensures |items| > 0 && items[0].One?
  {
    match s
    case Ch(c) => [One(c)]
    case Group(width, exact) => Ones(GroupText(width, exact))
  }

  predicate Operator(c: char) {
    c in {'\\', '^', '$', '.', '|', '?', '*', '+', '(', ')', '[', '{'}
  }

  function Prepend(items: seq<Item>, o: Option<seq<Item>>): Option<seq<Item>> {
    if o.None? then None else Some(items + o.value)
  }

  /** \x at the front of an expression. */
  predicate Escape(e: seq<Sym>, x: char) {
    |e| > 1 && e[0] == Ch('\\') && e[1] == Ch(x)
  }

  /**
   * The sequence an expression asks for, when it is made of literal characters and number groups only;
   * None when it is not, or is no expression at all. A quotation that is not closed runs to the end.
   */
  function Read(e: seq<Sym>, quoted: bool): Option<seq<Item>>
    decreases |e|
  {
    if e == [] then Some([])
    else if quoted then
      if Escape(e, 'E') then Read(e[2..], false) else Prepend(Quoted(e[0]), Read(e[1..], true))
    else if Escape(e, 'Q') then Read(e[2..], true)
    else if Escape(e, '\\') then Prepend([One('\\')], Read(e[2..], false))
    else
      match e[0]
      case Group(width, exact) => Prepend([Digits(width, exact)], Read(e[1..], false))
      case Ch(c) => if Operator(c) then None else Prepend([One(c)], Read(e[1..], false))
  }

  lemma {:induction false} ReadQuoted(c: char, e: seq<Sym>)
    requires c == '\\' ==> e == [] || e[0] != Ch('E')
    ensures Read([Ch(c)] + e, true) == Prepend([One(c)], Read(e, true))
  {
    assert ([Ch(c)] + e)[1..] == e;
  }

  lemma {:induction false} ReadEnd(e: seq<Sym>)
    ensures Read([Ch('\\'), Ch('E')] + e, true) == Read(e, false)
  {
    assert ([Ch('\\'), Ch('E')] + e)[2..] == e;
  }

  lemma {:induction false} ReadBegin(e: seq<Sym>)
    ensures Read([Ch('\\'), Ch('Q')] + e, false) == Read(e, true)
  {
    assert ([Ch('\\'), Ch('Q')] + e)[2..] == e;
  }

  lemma {:induction false} ReadBackslash(e: seq<Sym>)
    ensures Read([Ch('\\'), Ch('\\')] + e, false) == Prepend([One('\\')], Read(e, false))
  {
    assert ([Ch('\\'), Ch('\\')] + e)[2..] == e;
  }

  lemma {:induction false} ReadOtherEscape(x: char, e: seq<Sym>)
    requires x != 'Q' && x != '\\'
    ensures Read([Ch('\\'), Ch(x)] + e, false) == None
  {}

  lemma {:induction false} ReadPlain(c: char, e: seq<Sym>)
    requires c != '\\'
    ensures Read([Ch(c)] + e, false) == if Operator(c) then None else Prepend([One(c)], Read(e, false))
  {
    assert ([Ch(c)] + e)[1..] == e;
  }

  lemma {:induction false} PrependTwice(a: seq<Item>, b: seq<Item>, o: Option<seq<Item>>)
    ensures Prepend(a, Prepend(b, o)) == Prepend(a + b, o)
  {
    assert o.Some? ==> a + (b + o.value) == (a + b) + o.value;
  }

  lemma {:induction false} ChsAppend(a: string, b: string)
    ensures Chs(a + b) == Chs(a) + Chs(b)
  {}

  lemma {:induction false} OnesAppend(a: string, b: string)
    ensures Ones(a + b) == Ones(a) + Ones(b)
  {}

  /** \E\\E\Q inside a quotation asks for the two characters \E and stays inside. */
  lemma {:induction false} ReadGuarded(e: seq<Sym>)
    ensures Read(Chs("\\E\\\\E\\Q") + e, true) == Prepend(Ones("\\E"), Read(e, true))
  {
    var q := [Ch('\\'), Ch('Q')] + e;
    var f := [Ch('E')] + q;
    var g := [Ch('\\'), Ch('\\')] + f;
    GuardSplits(e);
    ReadEnd(g);
    ReadBackslash(f);
    ReadPlain('E', q);
    ReadBegin(e);
    PrependTwice([One('\\')], [One('E')], Read(e, true));
    assert [One('\\')] + [One('E')] == Ones("\\E");
  }

  lemma {:induction false} GuardSplits(e: seq<Sym>)
    ensures Chs("\\E\\\\E\\Q") + e == [Ch('\\'), Ch('E')] + ([Ch('\\'), Ch('\\')] + ([Ch('E')] + ([Ch('\\'), Ch('Q')] + e)))
  {}

  // ------------------------------------------------------------------ which text survives escaping

  /** The text a whole field stands for, round by round. */
  function Lit(v: string): string
    decreases |v|
  {
    if v == "" || Stops(v) then "" else Piece(v) + Lit(v[Taken(v)..])
  }

  /** After this round the expression ends in a backslash that guards nothing. */
  predicate LeavesSlash(v: string)
    requires v != "" && !Stops(v)
  {
    Appended(v)[|Appended(v)| - 1] == '\\'
  }

  /**
   * No round that begins with E comes right after one that ends in a backslash (`slash`: the text
   * before v ends in one); only there does escaping produce an unintended \E.
   */
  predicate Safe(v: string, slash: bool)
    decreases |v|
  {
    v == "" || Stops(v) || (!(slash && Appended(v)[0] == 'E') && Safe(v[Taken(v)..], LeavesSlash(v)))
  }

  /** The loop returns early, so the quotation stays open. */
  predicate Dangling(v: string)
    decreases |v|
  {
    v != "" && (Stops(v) || Dangling(v[Taken(v)..]))
  }

  /** The appended characters of one round, case by case. */
  lemma {:induction false} AppendedCases(v: string)
    requires v != "" && !Stops(v)
    ensures || (|Piece(v)| == 1 && Appended(v) == Piece(v))
            || (|Piece(v)| == 2 && Piece(v)[0] == '\\' && Piece(v)[1] == 'E' && Appended(v) == "\\E\\\\E\\Q" && !LeavesSlash(v))
            || (|Piece(v)| == 2 && Piece(v)[0] == '\\' && Piece(v)[1] != 'E' && Appended(v) == Piece(v))
  {}

  lemma {:induction false} SafeWithoutSlash(v: string)
    requires Safe(v, true)
    ensures Safe(v, false)
  {}

  /** Behind a backslash, a safe rest does not continue with E. */
  lemma {:induction false} NextIsNotE(v: string, rest: seq<Sym>)
    requires Safe(v, true) && (rest == [] || rest[0] != Ch('E'))
    ensures var e := Chs(Escaped(v)) + rest; e == [] || e[0] != Ch('E')
  {
    if v != "" && !Stops(v) {
      AppendedCases(v);
      assert Escaped(v)[0] == Appended(v)[0];
    }
  }

  /** One round inside a quotation reads as its own text. */
  lemma {:induction false} RoundReads(v: string, e: seq<Sym>)
    requires v != "" && !Stops(v) && (LeavesSlash(v) ==> e == [] || e[0] != Ch('E'))
    ensures Read(Chs(Appended(v)) + e, true) == Prepend(Ones(Piece(v)), Read(e, true))
  {
    AppendedCases(v);
    var p := Piece(v);
    if Appended(v) != p {
      assert p == "\\E";
      ReadGuarded(e);
    } else if |p| == 1 {
      assert Chs(p) + e == [Ch(p[0])] + e;
      ReadQuoted(p[0], e);
      assert Ones(p) == [One(p[0])];
    } else {
      assert Chs(p) + e == [Ch(p[0])] + ([Ch(p[1])] + e);
      ReadQuoted(p[0], [Ch(p[1])] + e);
      ReadQuoted(p[1], e);
      PrependTwice([One(p[0])], [One(p[1])], Read(e, true));
      assert Ones(p) == [One(p[0])] + [One(p[1])];
    }
  }

  /** Safe text reads as itself, whatever expression follows, and leaves the quotation open exactly when it dangles. */
  lemma {:induction false} EscapedReads(v: string, rest: seq<Sym>)
    requires Safe(v, false) && (rest == [] || rest[0] != Ch('E'))
    ensures Read(Chs(Escaped(v)) + rest, true) == Prepend(Ones(Lit(v)), Read(rest, Dangling(v)))
    decreases |v|
  {
    if v == "" {
      assert Chs("\\E") == [Ch('\\'), Ch('E')];
      ReadEnd(rest);
      PrependNothing(Read(rest, false));
    } else if Stops(v) {
      assert Chs("") + rest == rest;
      PrependNothing(Read(rest, true));
    } else {
      var w := v[Taken(v)..];
      if LeavesSlash(v) {
        NextIsNotE(w, rest);
        SafeWithoutSlash(w);
      }
      EscapedReads(w, rest);
      EscapedSplits(v, rest);
      RoundReads(v, Chs(Escaped(w)) + rest);
      PrependTwice(Ones(Piece(v)), Ones(Lit(w)), Read(rest, Dangling(v)));
      OnesAppend(Piece(v), Lit(w));
    }
  }

  lemma {:induction false} EscapedSplits(v: string, rest: seq<Sym>)
    requires v != "" && !Stops(v)
    ensures Chs(Escaped(v)) + rest == Chs(Appended(v)) + (Chs(Escaped(v[Taken(v)..])) + rest)
  {
    ChsAppend(Appended(v), Escaped(v[Taken(v)..]));
  }

  lemma {:induction false} PrependNothing(o: Option<seq<Item>>)
    ensures Prepend(Ones(""), o) == o
  {
    assert o.Some? ==> Ones("") + o.value == o.value;
  }

  lemma {:induction false} FieldReads(v: string, rest: seq<Sym>)
    requires Safe(v, false) && (rest == [] || rest[0] != Ch('E'))
    ensures Read(Chs(EscapeRegex(v)) + rest, false) == Prepend(Ones(Lit(v)), Read(rest, Dangling(v)))
  {
    QuoteSplits(Escaped(v), rest);
    ReadBegin(Chs(Escaped(v)) + rest);
    EscapedReads(v, rest);
  }

  lemma {:induction false} QuoteSplits(s: string, rest: seq<Sym>)
    ensures Chs("\\Q" + s) + rest == [Ch('\\'), Ch('Q')] + (Chs(s) + rest)
  {
    ChsAppend("\\Q", s);
    assert Chs("\\Q") == [Ch('\\'), Ch('Q')];
  }

  // ------------------------------------------------------------------ and only that text

  predicate AtMost(o: Option<seq<Item>>, n: int) {
    o.Some? ==> |o.value| <= n
  }

  /** An optional backslash in front. */
  function Pend(slash: bool): string {
    if slash then "\\" else ""
  }

  /** A round that ends in a backslash: all but that one character is read. */
  lemma {:induction false} SlashRound(v: string, e: seq<Sym>)
    requires v != "" && !Stops(v) && LeavesSlash(v)
    ensures Read(Chs(Appended(v)) + e, true) == Prepend(Ones(Piece(v)[..|Piece(v)| - 1]), Read([Ch('\\')] + e, true))
  {
    AppendedCases(v);
    var p, f := Piece(v), [Ch('\\')] + e;
    if |p| == 1 {
      assert Chs(p) + e == f;
      assert p[..0] == "";
      PrependNothing(Read(f, true));
    } else {
      assert Chs(p) + e == [Ch('\\')] + f;
      ReadQuoted('\\', f);
      assert Ones(p[..1]) == [One('\\')];
    }
  }

  /** What a round has asked for, and the expression it leaves to be read. */
  function Asked(v: string): string
    requires v != "" && !Stops(v)
  {
    if LeavesSlash(v) then Piece(v)[..|Piece(v)| - 1] else Piece(v)
  }

  function Left(v: string, e: seq<Sym>): seq<Sym>
    requires v != "" && !Stops(v)
  {
    if LeavesSlash(v) then [Ch('\\')] + e else e
  }

  lemma {:induction false} PlainRound(v: string, e: seq<Sym>)
    requires v != "" && !Stops(v)
    ensures Read(Chs(Appended(v)) + e, true) == Prepend(Ones(Asked(v)), Read(Left(v, e), true))
  {
    if LeavesSlash(v) {
      SlashRound(v, e);
    } else {
      RoundReads(v, e);
    }
  }

  /** The same behind a backslash, when the round does not begin with E. */
  lemma {:induction false} InsideRound(v: string, slash: bool, e: seq<Sym>)
    requires v != "" && !Stops(v) && !(slash && Appended(v)[0] == 'E')
    ensures Read(Chs(Pend(slash)) + (Chs(Appended(v)) + e), true)
            == Prepend(Ones(Pend(slash) + Asked(v)), Read(Left(v, e), true))
  {
    PlainRound(v, e);
    BehindPend(Chs(Appended(v)) + e, slash, Asked(v), Read(Left(v, e), true));
  }

  lemma {:induction false} BehindPend(f: seq<Sym>, slash: bool, t: string, o: Option<seq<Item>>)
    requires Read(f, true) == Prepend(Ones(t), o) && (slash ==> f == [] || f[0] != Ch('E'))
    ensures Read(Chs(Pend(slash)) + f, true) == Prepend(Ones(Pend(slash) + t), o)
  {
    if slash {
      assert Chs("\\") + f == [Ch('\\')] + f;
      ReadQuoted('\\', f);
      PrependTwice([One('\\')], Ones(t), o);
      OnesAppend("\\", t);
      assert Ones("\\") == [One('\\')];
    } else {
      assert Chs("") + f == f;
      assert "" + t == t;
    }
  }

  lemma {:induction false} PrependBound(items: seq<Item>, o: Option<seq<Item>>, n: int)
    requires AtMost(o, n)
    ensures AtMost(Prepend(items, o), |items| + n)
  {}

  /** Two symbols in front of e, outside a quotation: what is left to bound. */
  lemma {:induction false} OutsideEscape(x: char, e: seq<Sym>, n: int)
    requires AtMost(Read(e, true), n) && AtMost(Read(e, false), n)
    ensures AtMost(Read([Ch('\\'), Ch(x)] + e, false), n + 1)
  {
    if x == 'Q' {
      ReadBegin(e);
    } else if x == '\\' {
      ReadBackslash(e);
      PrependBound([One('\\')], Read(e, false), n);
    } else {
      ReadOtherEscape(x, e);
    }
  }

  lemma {:induction false} OutsidePlain(c: char, e: seq<Sym>, n: int)
    requires c != '\\' && AtMost(Read(e, false), n)
    ensures AtMost(Read([Ch(c)] + e, false), n + 1)
  {
    ReadPlain(c, e);
    PrependBound([One(c)], Read(e, false), n);
  }

  /** \E\\E\Q behind a backslash, outside a quotation: four characters and a quotation begins. */
  lemma {:induction false} OutsideGuarded(e: seq<Sym>, n: int)
    requires AtMost(Read(e, true), n)
    ensures AtMost(Read([Ch('\\')] + (Chs("\\E\\\\E\\Q") + e), false), n + 4)
  {
    var q := [Ch('\\'), Ch('Q')] + e;
    var f := [Ch('E')] + q;
    var g := [Ch('\\'), Ch('\\')] + f;
    var h := [Ch('E')] + g;
    assert [Ch('\\')] + (Chs("\\E\\\\E\\Q") + e) == [Ch('\\'), Ch('\\')] + h;
    ReadBegin(e);
    OutsidePlain('E', q, n);
    ReadBackslash(f);
    PrependBound([One('\\')], Read(f, false), n + 1);
    OutsidePlain('E', g, n + 2);
    ReadBackslash(h);
    PrependBound([One('\\')], Read(h, false), n + 3);
  }

  /** The characters one round appends, outside a quotation. */
  lemma {:induction false} OutsideRound(v: string, e: seq<Sym>, n: int)
    requires v != "" && !Stops(v)
    requires AtMost(Read(e, true), n) && AtMost(Read(e, false), n + 1) && AtMost(Read([Ch('\\')] + e, false), n + 2)
    ensures AtMost(Read(Chs(Appended(v)) + e, false), |Piece(v)| + n + 1)
  {
    AppendedCases(v);
    var a, p := Appended(v), Piece(v);
    if a != p {
      assert Chs(a) + e == [Ch('\\'), Ch('E')] + (Chs(a)[2..] + e);
      ReadOtherEscape('E', Chs(a)[2..] + e);
    } else if |p| == 1 {
      assert Chs(a) + e == [Ch(p[0])] + e;
      if p[0] != '\\' {
        OutsidePlain(p[0], e, n + 1);
      }
    } else {
      assert Chs(a) + e == [Ch('\\'), Ch(p[1])] + e;
      OutsideEscape(p[1], e, n + 1);
    }
  }

  /** The same behind one more backslash. */
  lemma {:induction false} OutsideSlashRound(v: string, e: seq<Sym>, n: int)
    requires v != "" && !Stops(v)
    requires AtMost(Read(e, true), n) && AtMost(Read(e, false), n + 1) && AtMost(Read([Ch('\\')] + e, false), n + 2)
    ensures AtMost(Read([Ch('\\')] + (Chs(Appended(v)) + e), false), 1 + |Piece(v)| + n + 1)
  {
    AppendedCases(v);
    var a, p := Appended(v), Piece(v);
    if a != p {
      OutsideGuarded(e, n);
    } else if |p| == 1 {
      assert [Ch('\\')] + (Chs(a) + e) == [Ch('\\'), Ch(p[0])] + e;
      OutsideEscape(p[0], e, n + 1);
    } else {
      var f := [Ch(p[1])] + e;
      assert [Ch('\\')] + (Chs(a) + e) == [Ch('\\'), Ch('\\')] + f;
      if p[1] != '\\' {
        OutsidePlain(p[1], e, n + 1);
      }
      ReadBackslash(f);
      PrependBound([One('\\')], Read(f, false), n + 2);
    }
  }

  /**
   * However it is read, an escaped text asks for at most its own length inside a quotation and at most
   * one more outside.
   */
  lemma {:induction false} ReadingBound(w: string)
    ensures AtMost(Read(Chs(Escaped(w)), true), |Lit(w)|) && AtMost(Read([Ch('\\')] + Chs(Escaped(w)), true), 1 + |Lit(w)|)
    ensures AtMost(Read(Chs(Escaped(w)), false), |Lit(w)| + 1) && AtMost(Read([Ch('\\')] + Chs(Escaped(w)), false), |Lit(w)| + 2)
    decreases |w|
  {
    if w == "" {
      BoundAtEnd();
    } else if Stops(w) {
      assert Chs(Escaped(w)) == [];
      assert [Ch('\\')] + [] == [Ch('\\')];
      assert Read([Ch('\\')], false) == None;
      ReadQuoted('\\', []);
    } else {
      var rest := w[Taken(w)..];
      ReadingBound(rest);
      EscapedIsRound(w);
      RoundBound(w, Chs(Escaped(rest)), |Lit(rest)|);
    }
  }

  lemma {:induction false} EscapedIsRound(v: string)
    requires v != "" && !Stops(v)
    ensures Chs(Escaped(v)) == Chs(Appended(v)) + Chs(Escaped(v[Taken(v)..]))
  {
    ChsAppend(Appended(v), Escaped(v[Taken(v)..]));
  }

  lemma {:induction false} RoundBound(v: string, e: seq<Sym>, n: int)
    requires v != "" && !Stops(v)
    requires AtMost(Read(e, true), n) && AtMost(Read([Ch('\\')] + e, true), n + 1)
    requires AtMost(Read(e, false), n + 1) && AtMost(Read([Ch('\\')] + e, false), n + 2)
    ensures var f, m := Chs(Appended(v)) + e, |Piece(v)| + n;
            && AtMost(Read(f, true), m) && AtMost(Read([Ch('\\')] + f, true), m + 1)
            && AtMost(Read(f, false), m + 1) && AtMost(Read([Ch('\\')] + f, false), m + 2)
  {
    var f := Chs(Appended(v)) + e;
    OutsideRound(v, e, n);
    OutsideSlashRound(v, e, n);
    InsideStep(v, false, e, n);
    InsideStep(v, true, e, n);
    assert Chs("") + f == f;
    assert Chs("\\") == [Ch('\\')];
  }

  lemma {:induction false} BoundAtEnd()
    ensures AtMost(Read(Chs("\\E"), true), 0) && AtMost(Read([Ch('\\')] + Chs("\\E"), true), 1)
    ensures AtMost(Read(Chs("\\E"), false), 1) && AtMost(Read([Ch('\\')] + Chs("\\E"), false), 2)
  {
    assert Chs("\\E") == [Ch('\\'), Ch('E')] + [];
    ReadEnd([]);
    ReadOtherEscape('E', []);
    ReadQuoted('\\', Chs("\\E"));
    assert [Ch('\\')] + Chs("\\E") == [Ch('\\'), Ch('\\')] + [Ch('E')];
    ReadBackslash([Ch('E')]);
    OutsidePlain('E', [], 0);
  }

  lemma {:induction false} InsideStep(v: string, slash: bool, e: seq<Sym>, n: int)
    requires v != "" && !Stops(v)
    requires AtMost(Read(e, true), n) && AtMost(Read([Ch('\\')] + e, true), n + 1) && AtMost(Read(e, false), n + 1)
    ensures AtMost(Read(Chs(Pend(slash)) + (Chs(Appended(v)) + e), true), |Pend(slash)| + |Piece(v)| + n)
  {
    AppendedCases(v);
    var p := Piece(v);
    if slash && Appended(v)[0] == 'E' {
      assert Chs("\\") + (Chs(Appended(v)) + e) == [Ch('\\'), Ch('E')] + e;
      ReadEnd(e);
    } else {
      InsideRound(v, slash, e);
      PrependBound(Ones(Pend(slash) + Asked(v)), Read(Left(v, e), true), |p| - |Asked(v)| + n);
    }
  }

  /** Unsafe text asks for less than itself. */
  lemma {:induction false} UnsafeIsShort(v: string, slash: bool)
    requires !Safe(v, slash)
    ensures AtMost(Read(Chs(Pend(slash)) + Chs(Escaped(v)), true), |Pend(slash)| + |Lit(v)| - 1)
    decreases |v|
  {
    var w := v[Taken(v)..];
    var e := Chs(Escaped(w));
    EscapedIsRound(v);
    if slash && Appended(v)[0] == 'E' {
      ReadingBound(w);
      ShortAtE(v, e, |Lit(w)|);
    } else {
      UnsafeIsShort(w, LeavesSlash(v));
      assert Chs("\\") == [Ch('\\')] && Chs("") + e == e;
      ShortRound(v, slash, e, |Lit(w)|);
    }
  }

  /** A backslash, then a round that begins with E: the quotation ends and both characters are lost. */
  lemma {:induction false} ShortAtE(v: string, e: seq<Sym>, n: int)
    requires v != "" && !Stops(v) && Appended(v)[0] == 'E' && AtMost(Read(e, false), n + 1)
    ensures AtMost(Read(Chs(Pend(true)) + (Chs(Appended(v)) + e), true), |Piece(v)| + n)
  {
    AppendedCases(v);
    assert Chs("\\") + (Chs(Appended(v)) + e) == [Ch('\\'), Ch('E')] + e;
    ReadEnd(e);
  }

  lemma {:induction false} ShortRound(v: string, slash: bool, e: seq<Sym>, n: int)
    requires v != "" && !Stops(v) && !(slash && Appended(v)[0] == 'E')
    requires if LeavesSlash(v) then AtMost(Read([Ch('\\')] + e, true), n) else AtMost(Read(e, true), n - 1)
    ensures AtMost(Read(Chs(Pend(slash)) + (Chs(Appended(v)) + e), true), |Pend(slash)| + |Piece(v)| + n - 1)
  {
    InsideRound(v, slash, e);
    PrependBound(Ones(Pend(slash) + Asked(v)), Read(Left(v, e), true), |Piece(v)| - |Asked(v)| + n - 1);
  }

  /** The expression written for a field asks for exactly the field's text if and only if the text is safe. */
  lemma {:induction false} EscapeDenotesIff(v: string)
    ensures Read(Chs(EscapeRegex(v)), false) == Some(Ones(Lit(v))) <==> Safe(v, false)
  {
    ChsAppend("\\Q", Escaped(v));
    assert Chs(EscapeRegex(v)) == [Ch('\\'), Ch('Q')] + Chs(Escaped(v));
    ReadBegin(Chs(Escaped(v)));
    if Safe(v, false) {
      FieldReads(v, []);
      assert Chs(EscapeRegex(v)) + [] == Chs(EscapeRegex(v));
      assert Ones(Lit(v)) + [] == Ones(Lit(v));
    } else {
      UnsafeIsShort(v, false);
      assert Chs("") + Chs(Escaped(v)) == Chs(Escaped(v));
    }
  }

  // ------------------------------------------------------------------ quotes come in pairs

  /** A field's text with each doubled quote made one, as the printer shows it. */
  function Unquoted(v: string): string
    decreases |v|
  {
    if v == "" then "" else [v[0]] + Unquoted(v[if v[0] == '\'' && |v| > 1 then 2 else 1..])
  }

  predicate Paired(v: string)
    decreases |v|
  {
    v == "" || (if v[0] == '\'' then |v| > 1 && v[1] == '\'' && Paired(v[2..]) else Paired(v[1..]))
  }

  /** Text from its first character on, and text whose first character is the second quote of a pair. */
  lemma {:induction false} LitOfPaired(v: string)
    ensures Paired(v) ==> Lit(v) == Unquoted(v)
    ensures v != "" && v[0] == '\'' && Paired(v[1..]) ==> Lit(v) == Unquoted(v[1..])
    decreases |v|
  {
    if v != "" {
      LitOfPaired(v[1..]);
      if |v| > 1 {
        LitOfPaired(v[2..]);
        assert |v| > 2 ==> v[2..][1..] == v[3..];
        if v[0] == '\'' {
          SecondQuote(v);
        } else if Paired(v) && v[0] == '\\' {
          FirstBackslash(v);
        }
      } else {
        assert v == [v[0]];
      }
    }
  }

  lemma {:induction false} SecondQuote(v: string)
    requires |v| > 1 && v[0] == '\''
    requires Paired(v[2..]) ==> Lit(v[2..]) == Unquoted(v[2..])
    requires |v| > 2 && v[2] == '\'' && Paired(v[3..]) ==> Lit(v[2..]) == Unquoted(v[3..])
    ensures Paired(v) ==> Lit(v) == Unquoted(v)
    ensures Paired(v[1..]) ==> Lit(v) == Unquoted(v[1..])
  {
    var w := v[1..];
    assert w[1..] == v[2..];
    if v[1] == '\'' && |v| > 2 {
      assert w[2..] == v[3..];
    }
  }

  lemma {:induction false} FirstBackslash(v: string)
    requires |v| > 1 && v[0] == '\\' && Paired(v)
    requires Paired(v[2..]) ==> Lit(v[2..]) == Unquoted(v[2..])
    requires |v| > 2 && v[2] == '\'' && Paired(v[3..]) ==> Lit(v[2..]) == Unquoted(v[3..])
    ensures Lit(v) == Unquoted(v)
  {
    var w := v[1..];
    assert w[1..] == v[2..] && (|v| > 2 ==> w[2..] == v[3..]);
    var rest := if v[1] == '\'' then Unquoted(v[3..]) else Unquoted(v[2..]);
    assert Unquoted(w) == [v[1]] + rest;
    assert v[..2] + rest == [v[0]] + ([v[1]] + rest);
  }
}
