/**
 * Compiling a pattern string: the printer's hand-written tokenizer, and the parser's format expression
 * together with the regular expression it builds, quoted text included; and the round trip stated on
 * patterns.
 */
module DatePattern {
  import opened Common
  import opened Decimal
  import opened DateText
  import opened RegexText

  /** Length of the leading run of c. */
  function SameRun(p: string, c: char): (n: nat)
    ensures n <= |p| && (n < |p| ==> p[n] != c) && forall i :: 0 <= i < n ==> p[i] == c
  {
    if p == [] || p[0] != c then 0 else 1 + SameRun(p[1..], c)
  }

  predicate Doubled(p: string, i: nat)
    requires i < |p|
  {
    p[i] == '\'' && i + 1 < |p| && p[i + 1] == '\''
  }

  /** The letters that printer and parser know. */
  predicate KnownLetter(c: char) {
    c in {'D', 'E', 'F', 'G', 'H', 'K', 'M', 'S', 'W', 'X', 'Z', 'a', 'd', 'h', 'k', 'm', 's', 'w', 'y', 'z'}
  }

  /** Components both sides take: literal text, and known letters with at most three X. */
  predicate Allowed(t: Token) {
    t.Literal? || (KnownLetter(t.letter) && (t.letter == 'X' ==> t.width <= 3))
  }

  // ------------------------------------------------------------------ printer side

  /** Text put in front of what a scan found. */
  function Before(text: string, r: (string, nat)): (string, nat) {
    (text + r.0, r.1)
  }

  /** The literal branch of parseToken from position i: the unquoted text and where it stops. */
  function LiteralScan(p: string, i: nat, inLiteral: bool): (r: (string, nat))
    requires i <= |p|
    ensures i <= r.1 <= |p|
    ensures i < |p| && (inLiteral || !IsLetter(p[i])) ==> i < r.1
    decreases |p| - i
  {
    if i == |p| then ("", i)
    else if p[i] == '\'' then
      if Doubled(p, i) then Before("'", LiteralScan(p, i + 2, inLiteral))
      else LiteralScan(p, i + 1, !inLiteral)
    else if !inLiteral && IsLetter(p[i]) then ("", i)
    else Before([p[i]], LiteralScan(p, i + 1, inLiteral))
  }

  /** The component at i and the position behind it: a run of one letter, or text with its quotes resolved. */
  function TokenOf(p: string, i: nat): (r: (Token, nat))
    requires i < |p|
    ensures i < r.1 <= |p|
  {
    if IsLetter(p[i]) then
      var n := SameRun(p[i..], p[i]);
      assert p[i..][0] == p[i];
      (Classify(p[i], n), i + n)
    else (Literal(LiteralScan(p, i, false).0), LiteralScan(p, i, false).1)
  }

  /** The printer's components from position i on. */
  function Tokens(p: string, i: nat): seq<Token>
    requires i <= |p|
    decreases |p| - i
  {
    if i == |p| then [] else [TokenOf(p, i).0] + Tokens(p, TokenOf(p, i).1)
  }

  lemma {:induction false} RunIs(p: string, c: char, n: nat)
    requires n <= |p| && (forall i :: 0 <= i < n ==> p[i] == c) && (n < |p| ==> p[n] != c)
    ensures SameRun(p, c) == n
  {
    if n > 0 {
      RunIs(p[1..], c, n - 1);
    }
  }

  /** parseToken, with its two scanning loops. */
  method ParseToken(p: string, i: nat) returns (t: Token, next: nat)
    requires i < |p|
    ensures (t, next) == TokenOf(p, i)
  {
    if IsLetter(p[i]) {
      next := i + 1;
      while next < |p| && p[next] == p[i]
        invariant i < next <= |p|
        invariant forall k :: i <= k < next ==> p[k] == p[i]
      {
        next := next + 1;
      }
      RunIs(p[i..], p[i], next - i);
      t := Classify(p[i], next - i);
    } else {
      var buf;
      buf, next := ParseLiteral(p, i);
      t := Literal(buf);
    }
  }

  /** The literal loop of parseToken. */
  method ParseLiteral(p: string, i: nat) returns (buf: string, next: nat)
    requires i < |p|
    ensures (buf, next) == LiteralScan(p, i, false)
  {
    var inLiteral := false;
    buf, next := "", i;
    assert "" + LiteralScan(p, i, false).0 == LiteralScan(p, i, false).0;
    while next < |p| && (inLiteral || !IsLetter(p[next]))
      invariant i <= next <= |p|
      invariant LiteralScan(p, i, false) == Before(buf, LiteralScan(p, next, inLiteral))
      decreases |p| - next
    {
      if p[next] == '\'' && !(next + 1 < |p| && p[next + 1] == '\'') {
        inLiteral := !inLiteral;
        next := next + 1;
      } else {
        var skip := if p[next] == '\'' then 2 else 1;
        Associate(buf, [p[next]], LiteralScan(p, next + skip, inLiteral));
        buf := buf + [p[next]];
        next := next + skip;
      }
    }
    assert buf + "" == buf;
  }

  lemma {:induction false} Associate(a: string, b: string, r: (string, nat))
    ensures Before(a, Before(b, r)) == Before(a + b, r)
  {
    assert a + (b + r.0) == (a + b) + r.0;
  }

  /** parsePattern: the components of the whole pattern, or its illegal-component error. */
  method ParsePattern(p: string) returns (r: Option<seq<Token>>)
    ensures r == if AllAllowed(Tokens(p, 0)) then Some(Tokens(p, 0)) else None
  {
    var ts: seq<Token>, i := [], 0;
    while i < |p|
      invariant 0 <= i <= |p| && ts + Tokens(p, i) == Tokens(p, 0) && AllAllowed(ts)
    {
      var t, next := ParseToken(p, i);
      OneMore(ts, t, Tokens(p, next));
      if !Allowed(t) {
        return None;
      }
      ts := ts + [t];
      i := next;
    }
    assert ts + [] == ts;
    return Some(ts);
  }

  predicate AllAllowed(ts: seq<Token>) {
    forall k :: 0 <= k < |ts| ==> Allowed(ts[k])
  }

  lemma {:induction false} OneMore(ts: seq<Token>, t: Token, more: seq<Token>)
    ensures ts + ([t] + more) == (ts + [t]) + more
    ensures AllAllowed(ts) && Allowed(t) ==> AllAllowed(ts + [t])
    ensures !Allowed(t) ==> !AllAllowed(ts + ([t] + more))
  {
    assert (ts + ([t] + more))[|ts|] == t;
  }

  // ------------------------------------------------------------------ parser side

  /** The quoted alternative from inside the quote: the position behind the closing quote. */
  function QuoteEnd(p: string, i: nat): (r: Option<nat>)
    requires i <= |p|
    ensures r.Some? ==> i < r.value <= |p|
    decreases |p| - i
  {
    if i == |p| then None
    else if Doubled(p, i) then QuoteEnd(p, i + 2)
    else if p[i] == '\'' then Some(i + 1)
    else QuoteEnd(p, i + 1)
  }

  /** Length of the leading run of characters that are neither letters nor quotes. */
  function TextRun(p: string): (n: nat)
    ensures n <= |p| && (n < |p| ==> IsLetter(p[n]) || p[n] == '\'')
    ensures forall i :: 0 <= i < n ==> !IsLetter(p[i]) && p[i] != '\''
  {
    if p == [] || IsLetter(p[0]) || p[0] == '\'' then 0 else 1 + TextRun(p[1..])
  }

  /**
   * What the format expression finds at i; literals keep the raw text their strategy is given. None when
   * it finds nothing or getStrategy throws.
   */
  function FieldAt(p: string, i: nat): (r: Option<(Token, nat)>)
    requires i < |p|
    ensures r.Some? ==> i < r.value.1 <= |p|
  {
    if IsLetter(p[i]) then
      if Allowed(TokenOf(p, i).0) then Some(TokenOf(p, i)) else None
    else if Doubled(p, i) then Some((Literal("''"), i + 2))
    else if p[i] == '\'' then
      var q := QuoteEnd(p, i + 1);
      if q.None? then None else Some((Literal(p[i + 1..q.value - 1]), q.value))
    else
      var n := TextRun(p[i..]);
      assert p[i..][0] == p[i];
      Some((Literal(p[i..i + n]), i + n))
  }

  function FieldsFrom(p: string, i: nat): Option<seq<Token>>
    requires i <= |p|
    decreases |p| - i
  {
    if i == |p| then Some([])
    else
      var f := FieldAt(p, i);
      if f.None? then None
      else
        var more := FieldsFrom(p, f.value.1);
        if more.None? then None else Some([f.value.0] + more.value)
  }

  /** The parser's fields; None is its illegal-pattern error, which the empty pattern gets too. */
  function FormatFields(p: string): Option<seq<Token>> {
    if p == "" then None else FieldsFrom(p, 0)
  }

  // ------------------------------------------------------------------ which patterns the parser takes

  /** Every letter run outside quotes is allowed, and no quote is left open. */
  predicate Legal(p: string, i: nat, inLiteral: bool)
    requires i <= |p|
    decreases |p| - i
  {
    if i == |p| then !inLiteral
    else if Doubled(p, i) then Legal(p, i + 2, inLiteral)
    else if p[i] == '\'' then Legal(p, i + 1, !inLiteral)
    else if !inLiteral && IsLetter(p[i]) then Allowed(TokenOf(p, i).0) && Legal(p, TokenOf(p, i).1, false)
    else Legal(p, i + 1, inLiteral)
  }

  lemma {:induction false} QuoteLegal(p: string, i: nat)
    requires i <= |p|
    ensures Legal(p, i, true) <==> QuoteEnd(p, i).Some? && Legal(p, QuoteEnd(p, i).value, false)
    decreases |p| - i
  {
    if i < |p| && (p[i] != '\'' || Doubled(p, i)) {
      QuoteLegal(p, if Doubled(p, i) then i + 2 else i + 1);
    }
  }

  lemma {:induction false} RunLegal(p: string, i: nat, n: nat)
    requires i + n <= |p| && forall k :: i <= k < i + n ==> p[k] != '\'' && !IsLetter(p[k])
    ensures Legal(p, i, false) <==> Legal(p, i + n, false)
    decreases n
  {
    if n > 0 {
      RunLegal(p, i + 1, n - 1);
    }
  }

  lemma {:induction false} TextRunAt(p: string, i: nat)
    requires i < |p|
    ensures i + TextRun(p[i..]) <= |p|
    ensures forall k :: i <= k < i + TextRun(p[i..]) ==> !IsLetter(p[k]) && p[k] != '\''
  {
    forall k | i <= k < i + TextRun(p[i..]) ensures !IsLetter(p[k]) && p[k] != '\'' {
      assert p[i..][k - i] == p[k];
    }
  }

  lemma {:induction false} TextLegal(p: string, i: nat)
    requires i < |p|
    ensures Legal(p, i, false) <==> Legal(p, i + TextRun(p[i..]), false)
  {
    TextRunAt(p, i);
    RunLegal(p, i, TextRun(p[i..]));
  }

  /** One field of the expression is one stretch of the legality scan. */
  lemma {:induction false} FieldLegal(p: string, i: nat)
    requires i < |p|
    ensures Legal(p, i, false) <==> FieldAt(p, i).Some? && Legal(p, FieldAt(p, i).value.1, false)
  {
    if p[i] == '\'' {
      QuoteLegal(p, i + 1);
    } else if !IsLetter(p[i]) {
      TextLegal(p, i);
    }
  }

  /** The parser splits a non-empty pattern into strategies exactly when it is legal. */
  lemma {:induction false} FieldsIffLegal(p: string, i: nat)
    requires i <= |p|
    ensures FieldsFrom(p, i).Some? <==> Legal(p, i, false)
    decreases |p| - i
  {
    if i < |p| {
      FieldLegal(p, i);
      if FieldAt(p, i).Some? {
        FieldsIffLegal(p, FieldAt(p, i).value.1);
      }
    }
  }

  /** The parser takes exactly the legal patterns, and never the empty one. */
  lemma {:induction false} AcceptedIff(p: string)
    ensures FormatFields(p).Some? <==> p != "" && Legal(p, 0, false)
  {
    FieldsIffLegal(p, 0);
  }

  // ------------------------------------------------------------------ both read the same components

  /** A field with its raw text replaced by the text it stands for. */
  function TextOfField(t: Token): Token {
    if t.Literal? then Literal(Unquoted(t.text)) else t
  }

  function Texts(fs: seq<Token>): (ts: seq<Token>)
    ensures |ts| == |fs| && forall i :: 0 <= i < |fs| ==> ts[i] == TextOfField(fs[i])
  {
    if fs == [] then [] else [TextOfField(fs[0])] + Texts(fs[1..])
  }

  /** Put a component in front, joining it to a literal when it is one itself. */
  function Join(t: Token, ts: seq<Token>): seq<Token> {
    if t.Literal? && ts != [] && ts[0].Literal? then [Literal(t.text + ts[0].text)] + ts[1..] else [t] + ts
  }

  /** The same components with neighbouring literals joined. */
  function Joined(ts: seq<Token>): seq<Token> {
    if ts == [] then [] else Join(ts[0], Joined(ts[1..]))
  }

  /** The raw text between i and a closing quote: its quotes come in pairs. */
  lemma {:induction false} QuoteIsScan(p: string, i: nat)
    requires i <= |p| && QuoteEnd(p, i).Some?
    ensures var raw := p[i..QuoteEnd(p, i).value - 1];
            && Paired(raw)
            && LiteralScan(p, i, true) == Before(Unquoted(raw), LiteralScan(p, QuoteEnd(p, i).value, false))
    decreases |p| - i
  {
    var end := QuoteEnd(p, i).value;
    if p[i] == '\'' && !Doubled(p, i) {
      assert p[i..end - 1] == "";
      assert "" + LiteralScan(p, end, false).0 == LiteralScan(p, end, false).0;
    } else {
      var n := if Doubled(p, i) then 2 else 1;
      QuoteIsScan(p, i + n);
      QuoteStep(p, i, n);
    }
  }

  /** One round of the quoted scan: a doubled quote or an ordinary character. */
  lemma {:induction false} QuoteStep(p: string, i: nat, n: nat)
    requires i < |p| && QuoteEnd(p, i).Some? && n == (if Doubled(p, i) then 2 else 1) && (p[i] == '\'' ==> n == 2)
    requires i + n <= |p| && QuoteEnd(p, i + n) == QuoteEnd(p, i)
    requires var raw := p[i + n..QuoteEnd(p, i).value - 1];
             && Paired(raw)
             && LiteralScan(p, i + n, true) == Before(Unquoted(raw), LiteralScan(p, QuoteEnd(p, i).value, false))
    ensures var raw := p[i..QuoteEnd(p, i).value - 1];
            && Paired(raw)
            && LiteralScan(p, i, true) == Before(Unquoted(raw), LiteralScan(p, QuoteEnd(p, i).value, false))
  {
    var end := QuoteEnd(p, i).value;
    var raw, rest := p[i..end - 1], LiteralScan(p, end, false);
    assert raw[n..] == p[i + n..end - 1];
    assert n == 2 ==> raw[1] == '\'';
    assert Unquoted(raw) == [p[i]] + Unquoted(raw[n..]);
    Associate([p[i]], Unquoted(raw[n..]), rest);
  }

  lemma {:induction false} TextIsScan(p: string, i: nat, n: nat)
    requires i + n <= |p| && forall k :: i <= k < i + n ==> !IsLetter(p[k]) && p[k] != '\''
    ensures Paired(p[i..i + n]) && LiteralScan(p, i, false) == Before(Unquoted(p[i..i + n]), LiteralScan(p, i + n, false))
    decreases n
  {
    var raw := p[i..i + n];
    if n > 0 {
      TextIsScan(p, i + 1, n - 1);
      assert raw[1..] == p[i + 1..i + n];
      Associate([p[i]], Unquoted(raw[1..]), LiteralScan(p, i + n, false));
    } else {
      assert "" + LiteralScan(p, i, false).0 == LiteralScan(p, i, false).0;
    }
  }

  /** A literal field of the parser: raw text with paired quotes, and the printer's literal continuing behind it. */
  predicate ScanSplits(p: string, i: nat, raw: string, next: nat)
    requires i < |p|
  {
    i < next <= |p| && FieldAt(p, i) == Some((Literal(raw), next)) && raw != "" && Paired(raw)
    && LiteralScan(p, i, false) == Before(Unquoted(raw), LiteralScan(p, next, false))
  }

  lemma {:induction false} TextSplits(p: string, i: nat)
    requires i < |p| && !IsLetter(p[i]) && p[i] != '\''
    ensures ScanSplits(p, i, p[i..i + TextRun(p[i..])], i + TextRun(p[i..]))
  {
    assert p[i..][0] == p[i];
    TextRunAt(p, i);
    TextIsScan(p, i, TextRun(p[i..]));
  }

  lemma {:induction false} DoubledSplits(p: string, i: nat)
    requires i < |p| && Doubled(p, i)
    ensures ScanSplits(p, i, "''", i + 2)
  {
    var raw := "''";
    assert raw[2..] == "" && |raw| == 2 && raw[0] == '\'' && raw[1] == '\'';
    assert Unquoted(raw) == [raw[0]] + Unquoted(raw[2..]) == "'";
    assert Paired(raw[2..]);
    assert Paired(raw);
  }

  lemma {:induction false} QuotedSplits(p: string, i: nat)
    requires i < |p| && p[i] == '\'' && !Doubled(p, i) && QuoteEnd(p, i + 1).Some?
    ensures ScanSplits(p, i, p[i + 1..QuoteEnd(p, i + 1).value - 1], QuoteEnd(p, i + 1).value)
  {
    var end := QuoteEnd(p, i + 1).value;
    QuoteIsScan(p, i + 1);
    assert p[i + 1..end - 1] != "" by {
      assert i + 1 < end - 1;
    }
    assert LiteralScan(p, i, false) == LiteralScan(p, i + 1, true);
  }

  /** A literal field of the parser is the beginning of the printer's literal at the same place. */
  lemma {:induction false} LiteralFieldIsScan(p: string, i: nat) returns (raw: string, next: nat)
    requires i < |p| && !IsLetter(p[i]) && FieldAt(p, i).Some?
    ensures ScanSplits(p, i, raw, next)
  {
    if p[i] != '\'' {
      raw, next := p[i..i + TextRun(p[i..])], i + TextRun(p[i..]);
      TextSplits(p, i);
    } else if Doubled(p, i) {
      raw, next := "''", i + 2;
      DoubledSplits(p, i);
    } else {
      raw, next := p[i + 1..QuoteEnd(p, i + 1).value - 1], QuoteEnd(p, i + 1).value;
      QuotedSplits(p, i);
    }
  }

  /** A literal split off the front of the printer's components. */
  lemma {:induction false} LiteralSplits(p: string, i: nat, text: string, next: nat)
    requires i < next <= |p| && !IsLetter(p[i]) && LiteralScan(p, i, false) == Before(text, LiteralScan(p, next, false))
    ensures Tokens(p, i) == Join(Literal(text), Tokens(p, next))
  {
    if next == |p| || IsLetter(p[next]) {
      assert text + "" == text;
    } else {
      var more := Tokens(p, LiteralScan(p, next, false).1);
      assert Tokens(p, next) == [Literal(LiteralScan(p, next, false).0)] + more;
      assert Tokens(p, next)[1..] == more;
    }
  }

  /** Raw literal texts are non-empty and their quotes come in pairs. */
  predicate Proper(fs: seq<Token>) {
    forall i :: 0 <= i < |fs| && fs[i].Literal? ==> fs[i].text != "" && Paired(fs[i].text)
  }

  /** On every pattern the parser takes, the texts of its fields are the printer's components, literals joined. */
  lemma {:induction false} TokenizersAgree(p: string, i: nat)
    requires i <= |p| && FieldsFrom(p, i).Some?
    ensures Joined(Texts(FieldsFrom(p, i).value)) == Tokens(p, i) && Proper(FieldsFrom(p, i).value)
    decreases |p| - i
  {
    if i < |p| {
      var (t, next) := FieldAt(p, i).value;
      var more := FieldsFrom(p, next).value;
      TokenizersAgree(p, next);
      assert FieldsFrom(p, i).value == [t] + more;
      TextsOfCons(t, more);
      if !IsLetter(p[i]) {
        var raw, end := LiteralFieldIsScan(p, i);
        LiteralSplits(p, i, Unquoted(raw), end);
      }
    }
  }

  lemma {:induction false} TextsOfCons(t: Token, more: seq<Token>)
    ensures Texts([t] + more) == [TextOfField(t)] + Texts(more)
    ensures Joined(Texts([t] + more)) == Join(TextOfField(t), Joined(Texts(more)))
  {
    assert ([t] + more)[1..] == more;
    assert ([TextOfField(t)] + Texts(more))[1..] == Texts(more);
  }
}
