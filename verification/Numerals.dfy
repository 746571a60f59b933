/** Decimal and hexadecimal numerals: their value, the canonical decimal text of a number, and the
    part of strconv.ParseInt / ParseUint that the parsers rely on. */
module Numerals {
  import opened Options
  import opened UriGrammar
  import Utf8

  predicate AllDigits(t: string) { forall k :: 0 <= k < |t| ==> IsDigit(t[k]) }

  predicate AllHex(t: string) { forall k :: 0 <= k < |t| ==> IsHexdig(t[k]) }

  /** The number a numeral denotes in the given base. */
  function Value(base: nat, t: string): nat
    requires AllHex(t)
  {
    if t == "" then 0 else base * Value(base, t[..|t| - 1]) + Utf8.Unhex(t[|t| - 1])
  }

  function Pow2(n: nat): (p: nat)
    ensures p >= 1
  {
    if n == 0 then 1 else 2 * Pow2(n - 1)
  }

  /** strconv.ParseInt/ParseUint on a text of digits only: the error is an overflow of `bits` bits. */
  function Parse(base: nat, t: string, bits: nat): Option<nat>
    requires AllHex(t)
  {
    if Value(base, t) < Pow2(bits) then Some(Value(base, t)) else None
  }

  /** The canonical decimal text of a number. */
  function Dec(n: nat): (t: string)
    ensures t != "" && AllDigits(t)
    ensures |t| > 1 ==> t[0] != '0'
    ensures n > 0 ==> t[0] != '0'
  {
    if n < 10 then [('0' as nat + n) as char] else Dec(n / 10) + [('0' as nat + n % 10) as char]
  }

  // A non-empty text of digits without a leading zero.
  predicate Canonical(t: string) {
    t != "" && AllDigits(t) && (|t| > 1 ==> t[0] != '0')
  }

  lemma {:induction false} ValueOfDec(n: nat)
    ensures Value(10, Dec(n)) == n
  {
    if n >= 10 {
      ValueOfDec(n / 10);
      assert Dec(n)[..|Dec(n)| - 1] == Dec(n / 10);
    } else {
      assert Dec(n)[..0] == "";
    }
  }

  /** Canonical numerals are exactly the canonical texts of their values. */
  lemma {:induction false} DecOfValue(t: string)
    requires Canonical(t)
    ensures Dec(Value(10, t)) == t
    ensures |t| > 1 ==> Value(10, t) >= 10
    ensures |t| > 2 ==> Value(10, t) >= 100
    ensures |t| > 3 ==> Value(10, t) >= 1000
    decreases |t|
  {
    if |t| == 1 {
      OneDigit(t);
    } else {
      DecOfValue(t[..|t| - 1]);
      if |t| == 2 { FirstDigit(t[..1]); }
      LastDigit(t);
    }
  }

  lemma OneDigit(t: string)
    requires |t| == 1 && AllDigits(t)
    ensures Value(10, t) == Utf8.Unhex(t[0]) < 10 && Dec(Value(10, t)) == t
  {
    assert t[..0] == "";
  }

  lemma FirstDigit(t: string)
    requires |t| == 1 && AllDigits(t) && t[0] != '0'
    ensures Value(10, t) > 0
  {
    OneDigit(t);
  }

  lemma LastDigit(t: string)
    requires |t| > 1 && AllDigits(t) && Value(10, t[..|t| - 1]) > 0
    ensures Value(10, t) >= 10 * Value(10, t[..|t| - 1])
    ensures Dec(Value(10, t)) == Dec(Value(10, t[..|t| - 1])) + [t[|t| - 1]]
  {
    var v, d := Value(10, t[..|t| - 1]), Utf8.Unhex(t[|t| - 1]);
    assert Value(10, t) == 10 * v + d && d < 10;
    assert (10 * v + d) / 10 == v && (10 * v + d) % 10 == d;
  }

  lemma SmallValue(t: string)
    requires AllDigits(t) && |t| <= 3
    ensures |t| == 1 ==> Value(10, t) == Utf8.Unhex(t[0])
    ensures |t| == 2 ==> Value(10, t) == 10 * Utf8.Unhex(t[0]) + Utf8.Unhex(t[1])
    ensures |t| == 3 ==> Value(10, t) == 100 * Utf8.Unhex(t[0]) + 10 * Utf8.Unhex(t[1]) + Utf8.Unhex(t[2])
  {
    if |t| >= 1 { assert t[..1][..0] == "" && Value(10, t[..1]) == Utf8.Unhex(t[0]); }
    if |t| >= 2 { assert t[..2][..1] == t[..1] && Value(10, t[..2]) == 10 * Value(10, t[..1]) + Utf8.Unhex(t[1]); }
    if |t| >= 1 { assert t[..|t|] == t; }
  }

  lemma DecInjective(a: nat, b: nat)
    requires Dec(a) == Dec(b)
    ensures a == b
  {
    ValueOfDec(a);
    ValueOfDec(b);
  }

  lemma {:induction false} HexBound(t: string)
    requires AllHex(t)
    ensures Value(16, t) < Pow2(4 * |t|)
    decreases |t|
  {
    if t != "" {
      var init := t[..|t| - 1];
      HexBound(init);
      var m := 4 * |init|;
      assert Pow2(m + 4) == 2 * Pow2(m + 3) == 4 * Pow2(m + 2) == 8 * Pow2(m + 1) == 16 * Pow2(m);
    }
  }
}
