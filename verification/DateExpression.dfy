/**
 * The parser's regular expression: compiled field by field, read back as what it asks of the input, and
 * matched. Literal text goes through escapeRegex, so what is proved here includes its mistakes.
 */
module DateExpression {
  import opened Common
  import opened Decimal
  import opened DateText
  import opened RegexText
  import opened DatePattern

  // ------------------------------------------------------------------ compiling

  /** isNumber of a strategy: a number field, or literal text that begins with a digit. */
  predicate IsNumber(t: Token) {
    t.Number? || (t.Literal? && t.text != "" && IsDigit(t.text[if t.text[0] == '\'' && |t.text| > 1 then 1 else 0]))
  }

  predicate NextIsNumber(fs: seq<Token>) {
    fs != [] && IsNumber(fs[0])
  }

  /** What one strategy appends, given the fields behind it. */
  function FieldSyms(t: Token, rest: seq<Token>): seq<Sym> {
    match t
    case Literal(raw) => Chs(EscapeRegex(raw))
    case Number(_, width) => [Group(width, NextIsNumber(rest))]
    case Other(_, _) => []
  }

  function Compile(fs: seq<Token>): seq<Sym> {
    if fs == [] then [] else FieldSyms(fs[0], fs[1..]) + Compile(fs[1..])
  }

  /** What the expression should ask for: the fields' texts and digits. */
  function Items(ts: seq<Token>): seq<Item> {
    if ts == [] then []
    else (match ts[0]
          case Literal(text) => Ones(text)
          case Number(_, width) => [Digits(width, StartsNumber(ts[1..]))]
          case Other(_, _) => []) + Items(ts[1..])
  }

  /** Numeric fields and literals only. */
  predicate Numeric(fs: seq<Token>) {
    forall i :: 0 <= i < |fs| ==> !fs[i].Other?
  }

  /** Every literal's text is safe to escape, and only the last field may leave the quotation open. */
  predicate Escapable(fs: seq<Token>) {
    forall i :: 0 <= i < |fs| && fs[i].Literal? ==> Safe(fs[i].text, false) && (Dangling(fs[i].text) ==> i == |fs| - 1)
  }

  // ------------------------------------------------------------------ the expression means the fields

  lemma {:induction false} StartsAlike(fs: seq<Token>)
    requires Proper(fs)
    ensures NextIsNumber(fs) == StartsNumber(Texts(fs))
  {
    if fs != [] && fs[0].Literal? {
      var raw := fs[0].text;
      assert Unquoted(raw)[0] == raw[0];
    }
  }

  lemma {:induction false} TailProper(fs: seq<Token>)
    requires fs != [] && Proper(fs) && Numeric(fs) && Escapable(fs)
    ensures Proper(fs[1..]) && Numeric(fs[1..]) && Escapable(fs[1..])
    ensures fs[0].Literal? && Dangling(fs[0].text) ==> fs[1..] == []
  {
    var tail := fs[1..];
    assert forall i :: 0 <= i < |tail| ==> tail[i] == fs[i + 1];
  }

  /** An expression begins with a backslash or a group, never with E. */
  lemma {:induction false} CompileStart(fs: seq<Token>)
    requires Numeric(fs)
    ensures Compile(fs) == [] || Compile(fs)[0] != Ch('E')
  {
    if fs != [] && fs[0].Literal? {
      assert EscapeRegex(fs[0].text)[0] == '\\';
    }
  }

  lemma {:induction false} TextsTail(fs: seq<Token>)
    requires fs != []
    ensures Texts(fs)[1..] == Texts(fs[1..])
  {}

  lemma {:induction false} ReadGroup(width: nat, exact: bool, e: seq<Sym>)
    ensures Read([Group(width, exact)] + e, false) == Prepend([Digits(width, exact)], Read(e, false))
  {
    assert ([Group(width, exact)] + e)[1..] == e;
  }

  /** With escapable literals the compiled expression reads as exactly the fields it was built from. */
  lemma {:induction false} CompiledReads(fs: seq<Token>)
    requires Proper(fs) && Numeric(fs) && Escapable(fs)
    ensures Read(Compile(fs), false) == Some(Items(Texts(fs)))
  {
    if fs != [] {
      var tail := fs[1..];
      TailProper(fs);
      TextsTail(fs);
      CompiledReads(tail);
      if fs[0].Literal? {
        var raw := fs[0].text;
        CompileStart(tail);
        FieldReads(raw, Compile(tail));
        LitOfPaired(raw);
        assert Dangling(raw) ==> Compile(tail) == [];
      } else {
        StartsAlike(tail);
        ReadGroup(fs[0].width, NextIsNumber(tail), Compile(tail));
      }
    }
  }

  // ------------------------------------------------------------------ matching

  /** lookingAt over what an expression asks for. */
  function MatchItems(items: seq<Item>, s: string): Option<Matched> {
    if items == [] then Some(Matched([], s))
    else
      match items[0]
      case One(c) => if s != "" && s[0] == c then MatchItems(items[1..], s[1..]) else None
      case Digits(width, exact) =>
        var n := MatchNumber(width, exact, s);
        if n.None? then None
        else
          var m := MatchItems(items[1..], s[n.value..]);
          if m.None? then None else Some(Matched([s[..n.value]] + m.value.groups, m.value.rest))
  }

  lemma {:induction false} MatchOnes(text: string, items: seq<Item>, s: string)
    ensures MatchItems(Ones(text) + items, s) == if text <= s then MatchItems(items, s[|text|..]) else None
    decreases |text|
  {
    if text == "" {
      assert Ones("") + items == items && s[0..] == s;
    } else {
      var all := Ones(text) + items;
      assert all[1..] == Ones(text[1..]) + items;
      if s != "" {
        MatchOnes(text[1..], items, s[1..]);
        if s[0] == text[0] {
          assert text <= s <==> text[1..] <= s[1..] by {
            assert text == [text[0]] + text[1..] && s == [s[0]] + s[1..];
          }
          assert text <= s ==> s[1..][|text| - 1..] == s[|text|..];
        }
      }
    }
  }

  /** Matching what the expression asks for is matching the components. */
  lemma {:induction false} ItemsMatch(ts: seq<Token>, s: string)
    requires Numeric(ts)
    ensures MatchItems(Items(ts), s) == Match(ts, s)
    decreases |ts|
  {
    if ts != [] {
      var tail := ts[1..];
      match ts[0] {
        case Literal(text) =>
          MatchOnes(text, Items(tail), s);
          if text <= s {
            ItemsMatch(tail, s[|text|..]);
          }
        case Number(_, width) =>
          var d := [Digits(width, StartsNumber(tail))];
          assert (d + Items(tail))[1..] == Items(tail);
          var n := MatchNumber(width, StartsNumber(tail), s);
          if n.Some? {
            ItemsMatch(tail, s[n.value..]);
          }
        case Other(_, _) =>
      }
    }
  }

  // ------------------------------------------------------------------ joined literals match alike

  predicate NonemptyText(ts: seq<Token>) {
    forall i :: 0 <= i < |ts| && ts[i].Literal? ==> ts[i].text != []
  }

  lemma {:induction false} ConcatPrefix(a: string, b: string, s: string)
    ensures a + b <= s <==> a <= s && b <= s[|a|..]
    ensures a + b <= s ==> s[|a + b|..] == s[|a|..][|b|..]
  {
    if a + b <= s {
      assert s[..|a|] == (a + b)[..|a|] && s[|a|..][..|b|] == (a + b)[|a|..];
    }
    if a <= s && b <= s[|a|..] {
      assert s[..|a| + |b|] == s[..|a|] + s[|a|..][..|b|];
    }
  }

  lemma {:induction false} JoinMatch(t: Token, ts: seq<Token>, s: string)
    requires t.Literal?
    ensures Match(Join(t, ts), s) == if t.text <= s then Match(ts, s[|t.text|..]) else None
  {
    if ts != [] && ts[0].Literal? {
      assert Join(t, ts)[1..] == ts[1..];
      ConcatPrefix(t.text, ts[0].text, s);
    } else {
      assert ([t] + ts)[1..] == ts;
    }
  }

  lemma {:induction false} JoinStart(t: Token, ts: seq<Token>)
    requires t.Literal? ==> t.text != []
    ensures StartsNumber(Join(t, ts)) == StartsNumber([t])
  {
    if t.Literal? && ts != [] && ts[0].Literal? {
      assert (t.text + ts[0].text)[0] == t.text[0];
    }
  }

  lemma {:induction false} JoinedStart(ts: seq<Token>)
    requires NonemptyText(ts)
    ensures StartsNumber(Joined(ts)) == StartsNumber(ts)
  {
    if ts != [] {
      JoinStart(ts[0], Joined(ts[1..]));
    }
  }

  /** The compiled expression does not depend on where literal text was split. */
  lemma {:induction false} JoinedMatch(ts: seq<Token>, s: string)
    requires NonemptyText(ts)
    ensures Match(Joined(ts), s) == Match(ts, s)
    decreases |ts|
  {
    if ts != [] {
      assert NonemptyText(ts[1..]);
      var rest := Joined(ts[1..]);
      if ts[0].Literal? {
        JoinMatch(ts[0], rest, s);
        if ts[0].text <= s {
          JoinedMatch(ts[1..], s[|ts[0].text|..]);
        }
      } else {
        assert ([ts[0]] + rest)[1..] == rest;
        JoinedStart(ts[1..]);
        if ts[0].Number? {
          var n := MatchNumber(ts[0].width, StartsNumber(ts[1..]), s);
          if n.Some? {
            JoinedMatch(ts[1..], s[n.value..]);
          }
        }
      }
    }
  }

  lemma {:induction false} JoinedAssign(ts: seq<Token>, groups: seq<string>, start: nat)
    ensures Assign(Joined(ts), groups, start) == Assign(ts, groups, start)
    decreases |ts|
  {
    if ts != [] && groups != [] {
      var rest := Joined(ts[1..]);
      if ts[0].Number? {
        assert ([ts[0]] + rest)[1..] == rest;
        JoinedAssign(ts[1..], groups[1..], start);
      } else {
        JoinedAssign(ts[1..], groups, start);
        if ts[0].Literal? && rest != [] && rest[0].Literal? {
          assert Join(ts[0], rest)[1..] == rest[1..];
        } else {
          assert ([ts[0]] + rest)[1..] == rest;
        }
      }
    }
  }

  /** Assigning looks at number fields only. */
  lemma {:induction false} TextsAssign(fs: seq<Token>, groups: seq<string>, start: nat)
    ensures Assign(Texts(fs), groups, start) == Assign(fs, groups, start)
    decreases |fs|
  {
    if fs != [] && groups != [] {
      TextsTail(fs);
      if fs[0].Number? {
        TextsAssign(fs[1..], groups[1..], start);
      } else {
        TextsAssign(fs[1..], groups, start);
      }
    }
  }

  // ------------------------------------------------------------------ parsing by a pattern

  function Numbers(fs: seq<Token>): nat {
    if fs == [] then 0 else (if fs[0].Number? then 1 else 0) + Numbers(fs[1..])
  }

  /**
   * parse(String) of the parser compiled from p. None when p is refused or its expression is not a
   * sequence of literal characters and groups; NumberError also when a strategy finds no group.
   */
  function ParseBy(p: string, source: string, start: nat): Option<Parsed> {
    if FormatFields(p).None? then None
    else
      var fs := FormatFields(p).value;
      var items := Read(Compile(fs), false);
      if items.None? then None
      else
        var m := MatchItems(items.value, if |source| == 19 then source + ".000" else source);
        if m.None? then Some(NoMatch)
        else if |m.value.groups| < Numbers(fs) then Some(NumberError)
        else
          var sets := Assign(fs, m.value.groups, start);
          Some(if sets.None? then NumberError else Fields(sets.value, m.value.rest))
  }

  lemma {:induction false} EnoughGroups(ts: seq<Token>, s: string)
    requires Numeric(ts) && Match(ts, s).Some?
    ensures |Match(ts, s).value.groups| == Numbers(ts)
    decreases |ts|
  {
    if ts != [] {
      match ts[0] {
        case Literal(text) => EnoughGroups(ts[1..], s[|text|..]);
        case Number(_, width) => EnoughGroups(ts[1..], s[MatchNumber(width, StartsNumber(ts[1..]), s).value..]);
        case Other(_, _) =>
      }
    }
  }

  lemma {:induction false} TextsKeep(fs: seq<Token>)
    ensures Numbers(Texts(fs)) == Numbers(fs) && (Numeric(fs) ==> Numeric(Texts(fs)))
    ensures Proper(fs) ==> NonemptyText(Texts(fs))
  {
    if fs != [] {
      TextsTail(fs);
      TextsKeep(fs[1..]);
      assert Proper(fs) ==> forall i :: 0 <= i < |fs| && fs[i].Literal? ==> Unquoted(fs[i].text) != [];
    }
  }

  /** What the compiled expression finds is what the printer's components match. */
  lemma {:induction false} MatchesAgree(fs: seq<Token>, s: string)
    requires Proper(fs) && Numeric(fs) && Escapable(fs)
    ensures var items := Read(Compile(fs), false);
            && items.Some? && MatchItems(items.value, s) == Match(Joined(Texts(fs)), s)
            && (MatchItems(items.value, s).Some? ==> |MatchItems(items.value, s).value.groups| == Numbers(fs))
  {
    var ts := Texts(fs);
    CompiledReads(fs);
    TextsKeep(fs);
    ItemsMatch(ts, s);
    JoinedMatch(ts, s);
    if Match(ts, s).Some? {
      EnoughGroups(ts, s);
    }
  }

  /** On escapable patterns of numeric fields and literals, the parser reads any text as the printer's components do. */
  lemma {:induction false} ParsersAgree(p: string, source: string, start: nat)
    requires FormatFields(p).Some? && Numeric(FormatFields(p).value) && Escapable(FormatFields(p).value)
    ensures ParseBy(p, source, start) == Some(ParseSource(Tokens(p, 0), source, start))
  {
    var fs := FormatFields(p).value;
    var s := if |source| == 19 then source + ".000" else source;
    TokenizersAgree(p, 0);
    MatchesAgree(fs, s);
    var m := Match(Tokens(p, 0), s);
    if m.Some? {
      JoinedAssign(Texts(fs), m.value.groups, start);
      TextsAssign(fs, m.value.groups, start);
    }
  }

  /** The condition on the raw literal texts of a pattern. */
  predicate EscapablePattern(p: string) {
    FormatFields(p).Some? ==> Escapable(FormatFields(p).value)
  }

  lemma {:induction false} JoinedNumeric(ts: seq<Token>)
    requires Numeric(Joined(ts))
    ensures Numeric(ts)
  {
    if ts != [] {
      var rest := Joined(ts[1..]);
      var all := Join(ts[0], rest);
      assert forall i :: 0 <= i < |rest| ==> !rest[i].Other? by {
        if ts[0].Literal? && rest != [] && rest[0].Literal? {
          assert forall i :: 1 <= i < |rest| ==> all[i] == rest[i];
        } else {
          assert forall i :: 0 <= i < |rest| ==> all[i + 1] == rest[i];
        }
      }
      JoinedNumeric(ts[1..]);
      assert !ts[0].Other? by {
        assert all[0].Other? <==> ts[0].Other?;
      }
    }
  }

  /**
   * The round trip on pattern strings: what the printer compiled from p writes, the parser compiled
   * from p reads back field by field, for every legal pattern of numeric fields and literals whose
   * literal text survives escaping.
   */
  lemma {:induction false} PatternRoundTrip(p: string, cal: Cal, start: nat)
    requires p != "" && Legal(p, 0, false) && EscapablePattern(p)
    requires Printable(Tokens(p, 0), cal, start) && CalOk(cal)
    ensures Print(Tokens(p, 0), cal, "").Some?
    ensures var text := Print(Tokens(p, 0), cal, "").value;
            && var r := ParseBy(p, text, start);
            && r.Some? && r.value.Fields?
            && (forall f :: f in Result(r.value.sets) ==> Result(r.value.sets)[f] == cal(f))
            && (forall j :: 0 <= j < |Tokens(p, 0)| && Tokens(p, 0)[j].Number? ==>
                  FieldOf(Tokens(p, 0)[j].letter).value in Result(r.value.sets))
  {
    FieldsIffLegal(p, 0);
    RoundTrip(Tokens(p, 0), cal, start);
    TokenizersAgree(p, 0);
    var fs := FormatFields(p).value;
    assert Numeric(Tokens(p, 0)) by {
      assert forall i :: 0 <= i < |Tokens(p, 0)| ==> Plain(Tokens(p, 0)[i]);
    }
    JoinedNumeric(Texts(fs));
    assert forall i :: 0 <= i < |fs| ==> Texts(fs)[i] == TextOfField(fs[i]);
    ParsersAgree(p, Print(Tokens(p, 0), cal, "").value, start);
  }

  // ------------------------------------------------------------------ what breaks

  /**
   * A literal that leaves the quotation open swallows the group behind it: no text in which a digit
   * follows the literal is matched, whatever comes after.
   */
  lemma {:induction false} DanglingNeverMatches(raw: string, width: nat, exact: bool, rest: seq<Sym>, s: string)
    requires Safe(raw, false) && Dangling(raw) && Lit(raw) <= s && |s| > |Lit(raw)| && IsDigit(s[|Lit(raw)|])
    ensures var items := Read(Chs(EscapeRegex(raw)) + ([Group(width, exact)] + rest), false);
            items.Some? ==> MatchItems(items.value, s) == None
  {
    var e := [Group(width, exact)] + rest;
    FieldReads(raw, e);
    var inner := Read(e, true);
    assert e[1..] == rest;
    if inner.Some? {
      assert inner.value[0] == One('(');
      MatchOnes(Lit(raw), inner.value, s);
    }
  }

  /** The components of a pattern that begins with a literal and a number field. */
  lemma {:induction false} LeadingTokens(raw: string, n: Token, more: seq<Token>)
    requires n.Number?
    ensures Joined(Texts([Literal(raw)] + ([n] + more))) == [Literal(Unquoted(raw)), n] + Joined(Texts(more))
  {
    TextsOfCons(Literal(raw), [n] + more);
    TextsOfCons(n, more);
  }

  /** What is printed begins with the literal and a digit. */
  lemma {:induction false} LeadingText(ts: seq<Token>, cal: Cal, start: nat)
    requires |ts| >= 2 && ts[0].Literal? && ts[1].Number? && Printable(ts, cal, start)
    ensures Print(ts, cal, "").Some?
    ensures var s := Print(ts, cal, "").value; ts[0].text <= s && |s| > |ts[0].text| && IsDigit(s[|ts[0].text|])
  {
    PrintIsText(ts, cal, start, "");
    PrintableTail(ts, cal, start);
    FirstDigit(ts[1..], cal, start);
    var text, tail := ts[0].text, TextOf(ts[1..], cal);
    assert "" + TextOf(ts, cal) == text + tail;
    assert (text + tail)[|text|] == tail[0];
  }

  lemma {:induction false} FirstDigit(ts: seq<Token>, cal: Cal, start: nat)
    requires ts != [] && ts[0].Number? && Printable(ts, cal, start)
    ensures TextOf(ts, cal) != [] && IsDigit(TextOf(ts, cal)[0])
  {
    assert Plain(ts[0]);
    TextDenotes(ts[0], cal, start);
    assert TextOf(ts, cal)[0] == FieldText(ts[0], cal)[0];
  }

  lemma {:induction false} LeadingExpression(raw: string, n: Token, more: seq<Token>) returns (exact: bool)
    requires n.Number?
    ensures Compile([Literal(raw)] + ([n] + more)) == Chs(EscapeRegex(raw)) + ([Group(n.width, exact)] + Compile(more))
  {
    exact := NextIsNumber(more);
    assert ([Literal(raw)] + ([n] + more))[1..] == [n] + more && ([n] + more)[1..] == more;
  }

  lemma {:induction false} DanglingParse(p: string, raw: string, n: Token, more: seq<Token>, text: string, start: nat)
    requires FormatFields(p) == Some([Literal(raw)] + ([n] + more)) && n.Number? && Safe(raw, false) && Dangling(raw)
    requires Lit(raw) <= text && |text| > |Lit(raw)| && IsDigit(text[|Lit(raw)|])
    ensures var r := ParseBy(p, text, start); r.None? || r == Some(NoMatch)
  {
    var exact := LeadingExpression(raw, n, more);
    var source := if |text| == 19 then text + ".000" else text;
    assert source[..|Lit(raw)|] == text[..|Lit(raw)|] && source[|Lit(raw)|] == text[|Lit(raw)|];
    DanglingNeverMatches(raw, n.width, exact, Compile(more), source);
  }

  /** No pattern that begins with a dangling literal and a number field can read back what it prints. */
  lemma {:induction false} DanglingPattern(p: string, raw: string, n: Token, more: seq<Token>, cal: Cal, start: nat)
    requires FormatFields(p) == Some([Literal(raw)] + ([n] + more)) && n.Number?
    requires Safe(raw, false) && Dangling(raw) && Printable(Tokens(p, 0), cal, start)
    ensures Print(Tokens(p, 0), cal, "").Some?
    ensures var r := ParseBy(p, Print(Tokens(p, 0), cal, "").value, start); r.None? || r == Some(NoMatch)
  {
    TokenizersAgree(p, 0);
    LeadingTokens(raw, n, more);
    assert FormatFields(p).value[0] == Literal(raw);
    LitOfPaired(raw);
    LeadingText(Tokens(p, 0), cal, start);
    DanglingParse(p, raw, n, more, Print(Tokens(p, 0), cal, "").value, start);
  }

  const BROKEN: string := "'a\\'''yyyy"

  /** The pattern 'a\'''yyyy is legal and is one of them: the quoted text ends in a backslash and a doubled quote. */
  lemma {:induction false} BrokenPattern()
    ensures Legal(BROKEN, 0, false) && !EscapablePattern(BROKEN)
    ensures FormatFields(BROKEN) == Some([Literal("a\\''")] + ([Number('y', 4)] + []))
    ensures Safe("a\\''", false) && Dangling("a\\''")
  {
    BrokenFields();
    BrokenText();
    FieldsIffLegal(BROKEN, 0);
    var fs := FormatFields(BROKEN).value;
    assert fs[0].Literal? && Dangling(fs[0].text);
  }

  lemma {:induction false} BrokenFields()
    ensures FormatFields(BROKEN) == Some([Literal("a\\''")] + ([Number('y', 4)] + []))
  {
    var p := BROKEN;
    assert p[0] == '\'' && p[1] == 'a' && p[2] == '\\' && p[3] == '\'' && p[4] == '\'' && p[5] == '\'' && p[6] == 'y';
    assert QuoteEnd(p, 5) == Some(6);
    assert QuoteEnd(p, 3) == Some(6);
    assert QuoteEnd(p, 2) == Some(6);
    assert QuoteEnd(p, 1) == Some(6);
    assert p[1..5] == "a\\''";
    assert FieldAt(p, 0) == Some((Literal("a\\''"), 6));
    assert p[6..] == "yyyy";
    RunIs(p[6..], 'y', 4);
    assert TokenOf(p, 6) == (Classify('y', 4), 10);
    assert FieldsFrom(p, 10) == Some([]);
    assert FieldsFrom(p, 6) == Some([Number('y', 4)] + []);
  }

  lemma {:induction false} BrokenText()
    ensures Safe("a\\''", false) && Dangling("a\\''")
  {
    var raw, v1, v2 := "a\\''", "\\''", "'";
    assert raw[1..] == v1 && v1[2..] == v2;
    assert Stops(v2);
    assert Appended(v1) == v1[..2] == "\\'";
    assert Safe(v1, false) && Dangling(v1);
  }
}
