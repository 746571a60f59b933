/** Go's unsigned shifts and bitwise operators on w-bit words, defined on the natural numbers that the
    words stand for, and the arithmetic they perform in the address code. */
module Bits {
  import opened Numerals

  function Bit(b: bool): nat { if b then 1 else 0 }

  function And(x: nat, y: nat): nat {
    if x == 0 || y == 0 then 0 else 2 * And(x / 2, y / 2) + Bit(x % 2 == 1 && y % 2 == 1)
  }

  function Or(x: nat, y: nat): nat
    decreases x + y
  {
    if x == 0 then y else if y == 0 then x
    else 2 * Or(x / 2, y / 2) + Bit(x % 2 == 1 || y % 2 == 1)
  }

  // x << k and x >> k on w-bit words
  function Shl(w: nat, x: nat, k: nat): nat { (x * Pow2(k)) % Pow2(w) }

  function Shr(x: nat, k: nat): nat { Quotient(x, Pow2(k)) }

  function Quotient(x: nat, d: nat): nat
    requires d >= 1
  {
    x / d
  }

  function Remainder(x: nat, d: nat): (r: nat)
    requires d >= 1
    ensures r <= x
  {
    DivModEq(x, d);
    x % d
  }

  function Ones(w: nat): nat { Pow2(w) - 1 }

  // ^x on w-bit words
  function Not(w: nat, x: nat): nat
    requires x < Pow2(w)
  {
    Ones(w) - x
  }

  // x is a multiple of 2^m.
  predicate MultipleOf2To(x: nat, m: nat) { x % Pow2(m) == 0 }

  lemma {:induction false} Pow2Add(a: nat, b: nat)
    ensures Pow2(a + b) == Pow2(a) * Pow2(b)
  {
    if a > 0 {
      Pow2Add(a - 1, b);
      Associate(2, Pow2(a - 1), Pow2(b));
    }
  }

  lemma Distribute(a: int, b: int, c: int)
    ensures (a + b) * c == a * c + b * c
  {
  }

  lemma Associate(a: int, b: int, c: int)
    ensures (a * b) * c == a * (b * c)
  {
  }

  lemma AtLeastOnce(a: nat, d: nat)
    ensures a >= 1 ==> a * d >= d
  {
    if a >= 1 { Distribute(a - 1, 1, d); }
  }

  lemma DivUnique(q: nat, q': nat, d: nat, r: nat, r': nat)
    requires q * d + r == q' * d + r' && r < d && r' < d
    ensures q == q' && r == r'
  {
    Distribute(q - q', q', d);
    Distribute(q' - q, q, d);
    if q > q' { AtLeastOnce(q - q', d); }
    if q < q' { AtLeastOnce(q' - q, d); }
  }

  lemma DivModEq(x: nat, d: nat)
    requires d > 0
    ensures x == (x / d) * d + x % d
  {
  }

  lemma MulDivMod(q: nat, d: nat, r: nat)
    requires r < d
    ensures (q * d + r) / d == q && (q * d + r) % d == r
  {
    var x := q * d + r;
    DivModEq(x, d);
    DivUnique(q, x / d, d, r, x % d);
  }

  /** Words without a common bit: `|` is addition. */
  lemma {:induction false} OrIsSum(x: nat, y: nat, k: nat)
    requires y < Pow2(k)
    ensures Or(x * Pow2(k), y) == x * Pow2(k) + y
    decreases k
  {
    if k > 0 && x > 0 && y > 0 {
      var h := Pow2(k - 1);
      assert x * Pow2(k) == 2 * (x * h);
      assert (2 * (x * h)) / 2 == x * h && (2 * (x * h)) % 2 == 0;
      assert x * h >= 1 by { assert x * h >= 1 * h; }
      OrIsSum(x, y / 2, k - 1);
      assert Or(2 * (x * h), y) == 2 * Or(x * h, y / 2) + y % 2;
    }
  }

  function Mask(w: nat, m: nat): nat
    requires m <= w
  {
    Pow2Monotone(m, w);
    Pow2(w) - Pow2(m)
  }

  lemma AndStep(p: nat, n: nat)
    ensures And(p, 2 * n) == 2 * And(p / 2, n)
    ensures And(p, 2 * n + 1) == 2 * And(p / 2, n) + p % 2
  {
    assert (2 * n) / 2 == n && (2 * n) % 2 == 0;
    assert (2 * n + 1) / 2 == n && (2 * n + 1) % 2 == 1;
  }

  // What masking with w - m ones followed by m zeros leaves of p.
  function Cleared(p: nat, m: nat): nat {
    p - Remainder(p, Pow2(m))
  }

  lemma ClearedStep(p: nat, m: nat)
    ensures m > 0 ==> Cleared(p, m) == 2 * Cleared(p / 2, m - 1)
    ensures Cleared(p, 0) == p
  {
    if m > 0 { ModTwice(p, Pow2(m - 1)); }
  }

  lemma ClearedAll(p: nat, m: nat)
    requires p < Pow2(m)
    ensures Cleared(p, m) == 0
  {
    MulDivMod(0, Pow2(m), p);
  }

  /** Masking with w - m ones followed by m zeros clears the low m bits. */
  lemma {:induction false} MaskClears(w: nat, m: nat, p: nat)
    requires m <= w && p < Pow2(w)
    ensures And(p, Mask(w, m)) == Cleared(p, m)
    decreases w
  {
    if m == w {
      MaskStep(w, m);
      ClearedAll(p, m);
    } else {
      HalfBelow(p, w);
      MaskClears(w - 1, if m > 0 then m - 1 else 0, p / 2);
      MaskClearsNext(w, m, p);
    }
  }

  lemma HalfBelow(p: nat, w: nat)
    requires w > 0 && p < Pow2(w)
    ensures p / 2 < Pow2(w - 1)
  {
  }

  lemma MaskClearsNext(w: nat, m: nat, p: nat)
    requires m < w && (m > 0 ==> And(p / 2, Mask(w - 1, m - 1)) == Cleared(p / 2, m - 1))
    requires m == 0 ==> And(p / 2, Mask(w - 1, 0)) == Cleared(p / 2, 0)
    ensures And(p, Mask(w, m)) == Cleared(p, m)
  {
    hide And, Cleared, Mask, Pow2;
    MaskStep(w, m);
    ClearedStep(p, m);
    if m > 0 {
      AndStep(p, Mask(w - 1, m - 1));
    } else {
      ClearedStep(p / 2, 0);
      AndStep(p, Mask(w - 1, 0));
    }
  }

  lemma MaskStep(w: nat, m: nat)
    requires m <= w
    ensures m == w ==> Mask(w, m) == 0
    ensures 0 < m < w ==> Mask(w, m) == 2 * Mask(w - 1, m - 1)
    ensures 0 == m < w ==> Mask(w, m) == 2 * Mask(w - 1, 0) + 1
  {
  }

  lemma ModTwice(p: nat, h: nat)
    requires h > 0
    ensures p % (2 * h) == 2 * ((p / 2) % h) + p % 2
  {
    var q, r := (p / 2) / h, (p / 2) % h;
    assert p / 2 == q * h + r;
    assert p == q * (2 * h) + (2 * r + p % 2);
    MulDivMod(q, 2 * h, 2 * r + p % 2);
  }

  lemma {:induction false} Pow2Monotone(m: nat, w: nat)
    requires m <= w
    ensures Pow2(m) <= Pow2(w)
    decreases w
  {
    if m < w { Pow2Monotone(m, w - 1); }
  }

  lemma ProductMinusOne(a: nat, d: nat)
    requires a >= 1 && d >= 1
    ensures (a * d - 1) / d == a - 1
  {
    Distribute(a - 1, 1, d);
    MulDivMod(a - 1, d, d - 1);
  }

  /** ^(ones >> n) is the mask of n ones followed by w - n zeros. */
  lemma NotShrOnes(w: nat, n: nat)
    requires n <= w
    ensures Shr(Ones(w), n) < Pow2(w)
    ensures Not(w, Shr(Ones(w), n)) == Mask(w, w - n)
  {
    Pow2Add(w - n, n);
    ProductMinusOne(Pow2(w - n), Pow2(n));
    Pow2Monotone(w - n, w);
  }

  lemma LowRemainder(hi: nat, lo: nat, c: nat, d: nat)
    requires d > 0
    ensures (hi * (c * d) + lo) % d == lo % d
  {
    Associate(hi, c, d);
    DivModEq(lo, d);
    Distribute(hi * c, lo / d, d);
    MulDivMod(hi * c + lo / d, d, lo % d);
  }

  lemma HighRemainder(hi: nat, lo: nat, d: nat, b: nat)
    requires lo < b && d > 0
    ensures (hi * b + lo) % (d * b) == (hi % d) * b + lo
  {
    var q, r := hi / d, hi % d;
    DivModEq(hi, d);
    Distribute(q * d, r, b);
    Associate(q, d, b);
    Distribute(d - 1 - r, r, b);
    Distribute(d - 1, 1, b);
    assert (d - 1 - r) * b >= 0;
    MulDivMod(q, d * b, r * b + lo);
  }

  lemma DivisibleLow(hi: nat, lo: nat, v: nat, m: nat)
    requires m <= v
    ensures (hi * Pow2(v) + lo) % Pow2(m) == lo % Pow2(m)
  {
    Pow2Add(v - m, m);
    hide Pow2;
    LowRemainder(hi, lo, Pow2(v - m), Pow2(m));
  }

  lemma DivisibleHigh(hi: nat, lo: nat, v: nat, m: nat)
    requires m >= v && lo < Pow2(v)
    ensures (hi * Pow2(v) + lo) % Pow2(m) == 0 <==> lo == 0 && hi % Pow2(m - v) == 0
  {
    Pow2Add(m - v, v);
    hide Pow2;
    HighRemainder(hi, lo, Pow2(m - v), Pow2(v));
    AtLeastOnce(hi % Pow2(m - v), Pow2(v));
  }

  /** A big-endian pair of words is divisible by 2^m iff its low words' share of the m bits are zero. */
  lemma DivisibleSplit(hi: nat, lo: nat, v: nat, m: nat)
    requires lo < Pow2(v)
    ensures m <= v ==> (MultipleOf2To(hi * Pow2(v) + lo, m) <==> MultipleOf2To(lo, m))
    ensures m >= v ==> (MultipleOf2To(hi * Pow2(v) + lo, m) <==> lo == 0 && MultipleOf2To(hi, m - v))
  {
    hide Pow2;
    if m <= v { DivisibleLow(hi, lo, v, m); }
    if m >= v { DivisibleHigh(hi, lo, v, m); }
  }
}
