/** Decimal text as the date printer writes it and the date parser reads it. */
module Decimal {
  import opened Common

  predicate IsDigit(c: char) {
    '0' <= c <= '9'
  }

  predicate AllDigits(s: string) {
    forall i :: 0 <= i < |s| ==> IsDigit(s[i])
  }

  function DigitChar(d: int): (c: char)
    requires 0 <= d < 10
    ensures IsDigit(c) && c as int - '0' as int == d
  {
    ('0' as int + d) as char
  }

  /** The number a digit string denotes. */
  function ValueOf(s: string): (n: nat)
    requires AllDigits(s)
  {
    if s == [] then 0 else ValueOf(s[..|s| - 1]) * 10 + (s[|s| - 1] as int - '0' as int)
  }

  function Pow10(k: nat): (p: nat)
    ensures p >= 1
  {
    if k == 0 then 1 else 10 * Pow10(k - 1)
  }

  /** The low `width` decimal digits of n. */
  function Padded(n: nat, width: nat): (s: string)
    ensures |s| == width && AllDigits(s)
  {
    if width == 0 then [] else Padded(n / 10, width - 1) + [DigitChar(n % 10)]
  }

  /** Number of decimal digits of n. */
  function Length(n: nat): (k: nat)
    ensures k >= 1
  {
    if n < 10 then 1 else 1 + Length(n / 10)
  }

  lemma {:induction false} ValueOfPadded(n: nat, width: nat)
    requires n < Pow10(width)
    ensures ValueOf(Padded(n, width)) == n
  {
    if width > 0 {
      ValueOfPadded(n / 10, width - 1);
      var s := Padded(n, width);
      assert s[..|s| - 1] == Padded(n / 10, width - 1);
    }
  }

  /** k digits are enough exactly for the numbers below 10^k. */
  lemma {:induction false} LengthIff(n: nat, k: nat)
    requires k >= 1
    ensures n < Pow10(k) <==> Length(n) <= k
    decreases k
  {
    if n >= 10 && k >= 2 {
      LengthIff(n / 10, k - 1);
    }
  }

  lemma {:induction false} ValueBound(s: string)
    requires AllDigits(s)
    ensures ValueOf(s) < Pow10(|s|)
  {
    if s != [] {
      ValueBound(s[..|s| - 1]);
    }
  }

  // ------------------------------------------------------------------ the zero-padded rule

  /** Write the digits of `value` backwards from `index`; None when the buffer start is overrun. */
  function Backfill(s: string, index: nat, value: int): Option<string>
    requires index <= |s|
    decreases if value > 0 then value else 0
  {
    if value <= 0 then Some(s)
    else if index == 0 then None
    else Backfill(s[index - 1 := DigitChar(value % 10)], index - 1, value / 10)
  }

  function Zeros(n: nat): (s: string)
    ensures |s| == n && forall i :: 0 <= i < n ==> s[i] == '0'
  {
    if n == 0 then [] else Zeros(n - 1) + ['0']
  }

  /** Digits that fit into a block of zeros fill exactly that block. */
  lemma {:induction false} BackfillFits(s: string, index: nat, value: nat, k: nat)
    requires k <= index <= |s| && value < Pow10(k)
    requires forall i :: index - k <= i < index ==> s[i] == '0'
    ensures Backfill(s, index, value) == Some(s[..index - k] + Padded(value, k) + s[index..])
    decreases k
  {
    if k == 0 {
      assert s == s[..index] + [] + s[index..];
    } else if value == 0 {
      PaddedZero(k);
      assert s == s[..index - k] + Padded(0, k) + s[index..];
    } else {
      var t := s[index - 1 := DigitChar(value % 10)];
      BackfillFits(t, index - 1, value / 10, k - 1);
      assert t[index - 1..] == [DigitChar(value % 10)] + s[index..];
      assert t[..index - k] == s[..index - k];
      assert s[..index - k] + Padded(value / 10, k - 1) + t[index - 1..] == s[..index - k] + Padded(value, k) + s[index..];
    }
  }

  lemma {:induction false} PaddedZero(k: nat)
    ensures forall i :: 0 <= i < k ==> Padded(0, k)[i] == '0'
  {
    if k > 0 {
      PaddedZero(k - 1);
    }
  }

  /** The general effect: the digits replace the end of the buffer, wherever that end came from. */
  lemma {:induction false} BackfillOverwrites(s: string, index: nat, value: int)
    requires value > 0 && index <= |s|
    ensures Backfill(s, index, value)
         == if Length(value) <= index
            then Some(s[..index - Length(value)] + Padded(value, Length(value)) + s[index..])
            else None
    decreases value
  {
    if index > 0 {
      var t := s[index - 1 := DigitChar(value % 10)];
      var n := Length(value);
      if value >= 10 {
        BackfillOverwrites(t, index - 1, value / 10);
        if n <= index {
          assert t[index - 1..] == [DigitChar(value % 10)] + s[index..];
          assert t[..index - n] == s[..index - n];
          assert s[..index - n] + Padded(value / 10, n - 1) + t[index - 1..] == s[..index - n] + Padded(value, n) + s[index..];
        }
      } else {
        assert t == s[..index - 1] + [DigitChar(value)] + s[index..];
        assert Padded(value, 1) == [DigitChar(value)];
      }
    }
  }

  /**
   * PaddedNumberField.appendTo: pads with zeros, then backfills in place.  A value that needs more
   * digits than the field overwrites the text before the field, or throws when there is none.
   */
  method AppendPadded(buffer: string, size: nat, value: int) returns (r: Option<string>)
    ensures 0 <= value < Pow10(size) ==> r == Some(buffer + Padded(value, size))
    ensures value >= Pow10(size) ==>
              r == if Length(value) <= |buffer| + size
                   then Some((buffer + Zeros(size))[..|buffer| + size - Length(value)] + Padded(value, Length(value)))
                   else None
    ensures r == Backfill(buffer + Zeros(size), |buffer| + size, value)
  {
    var s := buffer;
    var digit := 0;
    while digit < size
      invariant 0 <= digit <= size && s == buffer + Zeros(digit)
    {
      s := s + ['0'];
      digit := digit + 1;
    }
    ghost var padded := s;
    if 0 <= value < Pow10(size) {
      BackfillFits(padded, |padded|, value, size);
      assert padded[..|padded| - size] + Padded(value, size) + padded[|padded|..] == buffer + Padded(value, size);
    } else if value > 0 {
      BackfillOverwrites(padded, |padded|, value);
      if Length(value) <= |padded| {
        var keep := padded[..|padded| - Length(value)];
        assert keep + Padded(value, Length(value)) + padded[|padded|..] == keep + Padded(value, Length(value));
      }
    }
    var index, v := |s|, value;
    while v > 0
      invariant 0 <= index <= |s| == |padded|
      invariant Backfill(s, index, v) == Backfill(padded, |padded|, value)
    {
      if index == 0 {
        return None;
      }
      index := index - 1;
      s := s[index := DigitChar(v % 10)];
      v := v / 10;
    }
    return Some(s);
  }

  /** The rule leaves earlier text alone and denotes the value exactly when the value fits the field. */
  lemma PaddedFaithfulIff(buffer: string, size: nat, value: nat)
    ensures var r := Backfill(buffer + Zeros(size), |buffer| + size, value);
            (r.Some? && |r.value| >= |buffer| && r.value[..|buffer|] == buffer
             && AllDigits(r.value[|buffer|..]) && ValueOf(r.value[|buffer|..]) == value)
            <==> value < Pow10(size)
  {
    var s := buffer + Zeros(size);
    if value < Pow10(size) {
      BackfillFits(s, |s|, value, size);
      assert s[..|s| - size] + Padded(value, size) + s[|s|..] == buffer + Padded(value, size);
      assert (buffer + Padded(value, size))[|buffer|..] == Padded(value, size);
      ValueOfPadded(value, size);
    } else {
      BackfillOverwrites(s, |s|, value);
      var r := Backfill(s, |s|, value);
      if r.Some? && AllDigits(r.value[|buffer|..]) {
        ValueBound(r.value[|buffer|..]);
      }
    }
  }
}
