/** The IPv4 parser of cel/library.go: dotted decimal addresses and address prefixes. */
module Ipv4 {
  import opened Options
  import opened Abnf
  import opened UriGrammar
  import opened Numerals
  import opened Bits

  predicate Octets(o: seq<nat>) {
    |o| == 4 && forall k :: 0 <= k < 4 ==> o[k] <= 255
  }

  /** The dotted decimal text of four octets. */
  function Dotted(o: seq<nat>): string
    requires |o| == 4
  {
    Dec(o[0]) + "." + Dec(o[1]) + "." + Dec(o[2]) + "." + Dec(o[3])
  }

  // The 32-bit number the four octets stand for.
  function Number(o: seq<nat>): nat
    requires |o| == 4
  {
    ((o[0] * 0x100 + o[1]) * 0x100 + o[2]) * 0x100 + o[3]
  }

  /* ---- dec-octet and IPv4address of RFC 3986 ---- */

  lemma TwoChars(a: Rule, b: Rule, s: string, i: nat, j: nat)
    requires a.Range? && b.Range?
    ensures Derives(Cat(a, b), s, i, j)
            <==> j == i + 2 && j <= |s| && a.lo <= s[i] <= a.hi && b.lo <= s[i + 1] <= b.hi
  {
    if Derives(Cat(a, b), s, i, j) { var k := CatSplit(a, b, s, i, j); }
    if j == i + 2 && j <= |s| && a.lo <= s[i] <= a.hi && b.lo <= s[i + 1] <= b.hi {
      CatJoin(a, b, s, i, i + 1, j);
    }
  }

  lemma ThreeChars(a: Rule, b: Rule, c: Rule, s: string, i: nat, j: nat)
    requires a.Range? && b.Range? && c.Range?
    ensures Derives(Cat(a, Cat(b, c)), s, i, j)
            <==> && j == i + 3 && j <= |s| && a.lo <= s[i] <= a.hi
                 && b.lo <= s[i + 1] <= b.hi && c.lo <= s[i + 2] <= c.hi
  {
    TwoChars(b, c, s, i + 1, j);
    if Derives(Cat(a, Cat(b, c)), s, i, j) { var k := CatSplit(a, Cat(b, c), s, i, j); }
    if Derives(Cat(b, c), s, i + 1, j) && a.lo <= s[i] <= a.hi {
      CatJoin(a, Cat(b, c), s, i, i + 1, j);
    }
  }

  // The five alternatives of dec-octet, character by character
  predicate OctetForm(t: string) {
    || (|t| == 1 && IsDigit(t[0]))
    || (|t| == 2 && '1' <= t[0] <= '9' && IsDigit(t[1]))
    || (|t| == 3 && t[0] == '1' && IsDigit(t[1]) && IsDigit(t[2]))
    || (|t| == 3 && t[0] == '2' && '0' <= t[1] <= '4' && IsDigit(t[2]))
    || (|t| == 3 && t[0] == '2' && t[1] == '5' && '0' <= t[2] <= '5')
  }

  lemma OctetForms(s: string, i: nat, j: nat)
    requires i <= j <= |s|
    ensures Derives(DEC_OCTET, s, i, j) <==> OctetForm(s[i..j])
  {
    hide Derives;
    var t := s[i..j];
    var r2, r3, r4 := Cat(Range('1', '9'), DIGIT), Cat(Ch('1'), Cat(DIGIT, DIGIT)),
      Cat(Ch('2'), Cat(Range('0', '4'), DIGIT));
    var r5 := Cat(Ch('2'), Cat(Ch('5'), Range('0', '5')));
    Alt3(DIGIT, r2, Alt(r3, Alt(r4, r5)), s, i, j);
    Alt3(r3, r4, r5, s, i, j);
    CharRules(s, i, j);
    TwoChars(Range('1', '9'), DIGIT, s, i, j);
    ThreeChars(Ch('1'), DIGIT, DIGIT, s, i, j);
    ThreeChars(Ch('2'), Range('0', '4'), DIGIT, s, i, j);
    ThreeChars(Ch('2'), Ch('5'), Range('0', '5'), s, i, j);
    assert forall k :: 0 <= k < |t| ==> t[k] == s[i + k];
  }

  lemma OctetFormIsCanonical(t: string)
    ensures OctetForm(t) <==> Canonical(t) && Value(10, t) <= 255
  {
    hide Value, Dec;
    if |t| <= 3 && AllDigits(t) { SmallValue(t); }
    if Canonical(t) { DecOfValue(t); }
  }

  /** dec-octet derives exactly the canonical numerals up to 255. */
  lemma DecOctetRule(s: string, i: nat, j: nat)
    requires i <= j <= |s|
    ensures Derives(DEC_OCTET, s, i, j) <==> Canonical(s[i..j]) && Value(10, s[i..j]) <= 255
  {
    hide *;
    OctetForms(s, i, j);
    OctetFormIsCanonical(s[i..j]);
  }

  lemma DottedNested(o: seq<nat>)
    requires |o| == 4
    ensures Dotted(o) == Dec(o[0]) + "." + (Dec(o[1]) + "." + (Dec(o[2]) + "." + Dec(o[3])))
  {
  }

  lemma CutAtDot(s: string, i: nat, j: nat, x: string, rest: string)
    requires i <= j <= |s| && s[i..j] == x + "." + rest
    ensures i + |x| + 1 <= j && s[i + |x|] == '.'
    ensures s[i..i + |x|] == x && s[i + |x| + 1..j] == rest
  {
    var t, a := s[i..j], i + |x|;
    assert s[i..a] == t[..|x|] && s[a + 1..j] == t[|x| + 1..] && s[a] == t[|x|];
  }

  lemma PasteAtDot(s: string, i: nat, a: nat, j: nat)
    requires i <= a < j <= |s| && s[a] == '.'
    ensures s[i..j] == s[i..a] + "." + s[a + 1..j]
  {
  }

  lemma Ipv4Join(s: string, i: nat, a: nat, b: nat, c: nat, j: nat)
    requires a < |s| && b < |s| && c < |s| && s[a] == '.' && s[b] == '.' && s[c] == '.'
    requires Derives(DEC_OCTET, s, i, a) && Derives(DEC_OCTET, s, a + 1, b)
    requires Derives(DEC_OCTET, s, b + 1, c) && Derives(DEC_OCTET, s, c + 1, j)
    ensures Derives(IPV4, s, i, j)
  {
    var dot := Ch('.');
    var r3 := Cat(dot, DEC_OCTET);
    var r2 := Cat(dot, Cat(DEC_OCTET, r3));
    var r1 := Cat(dot, Cat(DEC_OCTET, r2));
    CatJoin(dot, DEC_OCTET, s, c, c + 1, j);
    CatJoin(DEC_OCTET, r3, s, b + 1, c, j);
    CatJoin(dot, Cat(DEC_OCTET, r3), s, b, b + 1, j);
    CatJoin(DEC_OCTET, r2, s, a + 1, b, j);
    CatJoin(dot, Cat(DEC_OCTET, r2), s, a, a + 1, j);
    CatJoin(DEC_OCTET, r1, s, i, a, j);
  }

  lemma DottedCuts(s: string, i: nat, j: nat, o: seq<nat>) returns (a: nat, b: nat, c: nat)
    requires |o| == 4 && i <= j <= |s| && s[i..j] == Dotted(o)
    ensures i <= a && a + 1 <= b && b + 1 <= c && c + 1 <= j
    ensures s[a] == '.' && s[b] == '.' && s[c] == '.'
    ensures s[i..a] == Dec(o[0]) && s[a + 1..b] == Dec(o[1]) && s[b + 1..c] == Dec(o[2]) && s[c + 1..j] == Dec(o[3])
  {
    hide Dec;
    DottedNested(o);
    hide Dotted;
    var t2 := Dec(o[2]) + "." + Dec(o[3]);
    CutAtDot(s, i, j, Dec(o[0]), Dec(o[1]) + "." + t2);
    a := i + |Dec(o[0])|;
    CutAtDot(s, a + 1, j, Dec(o[1]), t2);
    b := a + 1 + |Dec(o[1])|;
    CutAtDot(s, b + 1, j, Dec(o[2]), Dec(o[3]));
    c := b + 1 + |Dec(o[2])|;
  }

  /** A dotted text at i..j is derived by IPv4address. */
  lemma DottedDerives(s: string, i: nat, j: nat, o: seq<nat>)
    requires Octets(o) && i <= j <= |s| && s[i..j] == Dotted(o)
    ensures Derives(IPV4, s, i, j)
  {
    var a, b, c := DottedCuts(s, i, j, o);
    OctetDerives(s, i, a, o[0]);
    OctetDerives(s, a + 1, b, o[1]);
    OctetDerives(s, b + 1, c, o[2]);
    OctetDerives(s, c + 1, j, o[3]);
    Ipv4Join(s, i, a, b, c, j);
  }

  lemma PasteDotted(s: string, i: nat, a: nat, b: nat, c: nat, j: nat, o: seq<nat>)
    requires Octets(o) && i <= a && a + 1 <= b && b + 1 <= c && c + 1 <= j <= |s|
    requires s[a] == '.' && s[b] == '.' && s[c] == '.'
    requires s[i..a] == Dec(o[0]) && s[a + 1..b] == Dec(o[1]) && s[b + 1..c] == Dec(o[2]) && s[c + 1..j] == Dec(o[3])
    ensures s[i..j] == Dotted(o) && Derives(IPV4, s, i, j)
  {
    hide Derives, Dec;
    PasteAtDot(s, b + 1, c, j);
    PasteAtDot(s, a + 1, b, j);
    PasteAtDot(s, i, a, j);
    DottedNested(o);
    DottedDerives(s, i, j, o);
  }

  lemma OctetDerives(s: string, i: nat, j: nat, v: nat)
    requires i <= j <= |s| && s[i..j] == Dec(v) && v <= 255
    ensures Derives(DEC_OCTET, s, i, j)
  {
    ValueOfDec(v);
    DecOctetRule(s, i, j);
  }

  /** What IPv4address derives, cut at its dots. */
  lemma Ipv4Shape(s: string, i: nat, j: nat) returns (a: nat, b: nat, c: nat)
    requires Derives(IPV4, s, i, j)
    ensures i < a && a + 1 < b && b + 1 < c && c + 1 < j <= |s|
    ensures s[a] == '.' && s[b] == '.' && s[c] == '.'
    ensures Derives(DEC_OCTET, s, i, a) && Derives(DEC_OCTET, s, a + 1, b)
    ensures Derives(DEC_OCTET, s, b + 1, c) && Derives(DEC_OCTET, s, c + 1, j)
  {
    var dot := Ch('.');
    var r3 := Cat(dot, DEC_OCTET);
    var r2 := Cat(dot, Cat(DEC_OCTET, r3));
    hide Derives;
    a := CatSplit(DEC_OCTET, Cat(dot, Cat(DEC_OCTET, r2)), s, i, j);
    CharCut('.', Cat(DEC_OCTET, r2), s, a, j);
    b := CatSplit(DEC_OCTET, r2, s, a + 1, j);
    CharCut('.', Cat(DEC_OCTET, r3), s, b, j);
    c := CatSplit(DEC_OCTET, r3, s, b + 1, j);
    CharCut('.', DEC_OCTET, s, c, j);
    OctetNonEmpty(s, i, a);
    OctetNonEmpty(s, a + 1, b);
    OctetNonEmpty(s, b + 1, c);
    OctetNonEmpty(s, c + 1, j);
  }

  lemma OctetNonEmpty(s: string, i: nat, j: nat)
    requires i <= j <= |s| && Derives(DEC_OCTET, s, i, j)
    ensures i < j
  {
    DecOctetRule(s, i, j);
  }

  lemma OctetOf(s: string, i: nat, j: nat) returns (v: nat)
    requires Derives(DEC_OCTET, s, i, j)
    ensures v <= 255 && s[i..j] == Dec(v)
  {
    DecOctetRule(s, i, j);
    DecOfValue(s[i..j]);
    v := Value(10, s[i..j]);
  }

  lemma DerivesDotted(s: string, i: nat, j: nat) returns (o: seq<nat>)
    requires Derives(IPV4, s, i, j)
    ensures Octets(o) && s[i..j] == Dotted(o)
  {
    hide Derives, Dec, Dotted;
    var a, b, c := Ipv4Shape(s, i, j);
    var v0 := OctetOf(s, i, a);
    var v1 := OctetOf(s, a + 1, b);
    var v2 := OctetOf(s, b + 1, c);
    var v3 := OctetOf(s, c + 1, j);
    o := [v0, v1, v2, v3];
    PasteDotted(s, i, a, b, c, j, o);
  }

  /** The texts of IPv4address are exactly the dotted decimals of four octets. */
  lemma MatchesIffDotted(t: string)
    ensures Matches(IPV4, t) <==> exists o :: Octets(o) && t == Dotted(o)
  {
    assert t[0..|t|] == t;
    if Matches(IPV4, t) { var o := DerivesDotted(t, 0, |t|); }
    if o :| Octets(o) && t == Dotted(o) { DottedDerives(t, 0, |t|, o); }
  }

  lemma SplitAtDot(x: string, y: string, p: string, q: string)
    requires AllDigits(x) && AllDigits(y) && x + "." + p == y + "." + q
    ensures x == y && p == q
  {
    var u, v := x + "." + p, y + "." + q;
    assert u[|x|] == '.' && v[|y|] == '.';
    assert forall k :: 0 <= k < |x| ==> IsDigit(u[k]);
    assert forall k :: 0 <= k < |y| ==> IsDigit(v[k]);
    assert u[..|x|] == x && v[..|y|] == y;
    assert u[|x| + 1..] == p && v[|y| + 1..] == q;
  }

  /** Different octets have different texts. */
  lemma DottedInjective(o: seq<nat>, o': seq<nat>)
    requires |o| == |o'| == 4 && Dotted(o) == Dotted(o')
    ensures o == o'
  {
    DottedNested(o);
    DottedNested(o');
    var t3, t3' := Dec(o[3]), Dec(o'[3]);
    var t2, t2' := Dec(o[2]) + "." + t3, Dec(o'[2]) + "." + t3';
    SplitAtDot(Dec(o[0]), Dec(o'[0]), Dec(o[1]) + "." + t2, Dec(o'[1]) + "." + t2');
    SplitAtDot(Dec(o[1]), Dec(o'[1]), t2, t2');
    SplitAtDot(Dec(o[2]), Dec(o'[2]), t3, t3');
    DecInjective(o[0], o'[0]);
    DecInjective(o[1], o'[1]);
    DecInjective(o[2], o'[2]);
    DecInjective(o[3], o'[3]);
  }

  /** Every 32-bit number is the number of exactly one quadruple of octets. */
  lemma NumberBijection(n: nat)
    requires n < 0x1_0000_0000
    ensures exists o :: Octets(o) && Number(o) == n
    ensures forall o, o' :: Octets(o) && Octets(o') && Number(o) == n && Number(o') == n ==> o == o'
  {
    var q := n / 0x100;
    var p := q / 0x100;
    var o := [p / 0x100, p % 0x100, q % 0x100, n % 0x100];
    assert Octets(o) && Number(o) == n;
    forall o, o' | Octets(o) && Octets(o') && Number(o) == n && Number(o') == n
      ensures o == o'
    {
      NumberInjective(o, o');
    }
  }

  lemma NumberInjective(o: seq<nat>, o': seq<nat>)
    requires Octets(o) && Octets(o') && Number(o) == Number(o')
    ensures o == o'
  {
    DivUnique((o[0] * 0x100 + o[1]) * 0x100 + o[2], (o'[0] * 0x100 + o'[1]) * 0x100 + o'[2], 0x100, o[3], o'[3]);
    DivUnique(o[0] * 0x100 + o[1], o'[0] * 0x100 + o'[1], 0x100, o[2], o'[2]);
    DivUnique(o[0], o'[0], 0x100, o[1], o'[1]);
  }

  /* ---- The greedy reading ---- */

  // Where the greedy reading of a canonical numeral up to `limit` that starts at i ends.
  function NumeralEnd(s: string, i: nat, limit: nat): Option<nat>
    requires i <= |s|
  {
    var e := Span(DigitC, s, i);
    RunIsDigits(s, i, e);
    if Canonical(s[i..e]) && Value(10, s[i..e]) <= limit then Some(e) else None
  }

  function OctetEnd(s: string, i: nat): Option<nat>
    requires i <= |s|
  {
    NumeralEnd(s, i, 255)
  }

  /** It finds any such numeral that no digit follows. */
  lemma NumeralEndComplete(s: string, i: nat, k: nat, n: nat, limit: nat)
    requires i <= k <= |s| && s[i..k] == Dec(n) && n <= limit && (k == |s| || !IsDigit(s[k]))
    ensures NumeralEnd(s, i, limit) == Some(k)
  {
    ValueOfDec(n);
    RunIsDigits(s, i, k);
    SpanIsTheRun(DigitC, s, i, k);
  }

  // The position after the octet and the dot that start at i.
  function OctetDotEnd(s: string, i: nat): Option<nat>
    requires i <= |s|
    ensures OctetDotEnd(s, i).Some? ==> OctetDotEnd(s, i).value <= |s|
  {
    var e := OctetEnd(s, i);
    if e.Some? && e.value < |s| && s[e.value] == '.' then Some(e.value + 1) else None
  }

  lemma {:induction false} RunIsDigits(s: string, i: nat, j: nat)
    requires i <= j <= |s|
    ensures RunAt(DigitC, s, i, j) <==> AllDigits(s[i..j])
    decreases j - i
  {
    if i < j {
      RunIsDigits(s, i + 1, j);
      assert s[i..j] == [s[i]] + s[i + 1..j];
      ConsDigits(s[i], s[i + 1..j]);
    }
  }

  lemma ConsDigits(c: char, t: string)
    ensures AllDigits([c] + t) <==> IsDigit(c) && AllDigits(t)
  {
    var u := [c] + t;
    if AllDigits(u) {
      forall k | 0 <= k < |t|
        ensures IsDigit(t[k])
      {
        assert u[k + 1] == t[k];
      }
      assert u[0] == c;
    }
  }

  /** The greedy reading of an octet finds any dec-octet that no digit follows. */
  lemma OctetEndComplete(s: string, i: nat, k: nat)
    requires Derives(DEC_OCTET, s, i, k) && (k == |s| || !IsDigit(s[k]))
    ensures OctetEnd(s, i) == Some(k)
  {
    DecOctetRule(s, i, k);
    RunIsDigits(s, i, k);
    SpanIsTheRun(DigitC, s, i, k);
  }

  lemma OctetDotComplete(s: string, i: nat, a: nat)
    requires Derives(DEC_OCTET, s, i, a) && a < |s| && s[a] == '.'
    ensures OctetDotEnd(s, i) == Some(a + 1)
  {
    OctetEndComplete(s, i, a);
  }

  // The end of the greedy reading of a whole address.
  function GreedyEnd(s: string, i: nat): Option<nat>
    requires i <= |s|
  {
    var a := OctetDotEnd(s, i);
    if a.None? then None else
    var b := OctetDotEnd(s, a.value);
    if b.None? then None else
    var c := OctetDotEnd(s, b.value);
    if c.None? then None else OctetEnd(s, c.value)
  }

  /** So the greedy reading of an address finds any IPv4address that ends before `/` or at the end. */
  lemma GreedyComplete(s: string, i: nat, k: nat)
    requires Derives(IPV4, s, i, k) && EndsAt("/", s, k)
    ensures i <= |s| && GreedyEnd(s, i) == Some(k)
  {
    hide *;
    var a, b, c := Ipv4Shape(s, i, k);
    OctetDotComplete(s, i, a);
    OctetDotComplete(s, a + 1, b);
    OctetDotComplete(s, b + 1, c);
    OctetDelimited(s, c + 1, k);
    GreedySteps(s, i, a + 1, b + 1, c + 1, k);
  }

  lemma OctetDelimited(s: string, i: nat, k: nat)
    requires Derives(DEC_OCTET, s, i, k) && EndsAt("/", s, k)
    ensures OctetEnd(s, i) == Some(k)
  {
    OctetEndComplete(s, i, k);
  }

  lemma GreedySteps(s: string, i: nat, a: nat, b: nat, c: nat, k: nat)
    requires i <= |s| && OctetDotEnd(s, i) == Some(a) && OctetDotEnd(s, a) == Some(b)
    requires OctetDotEnd(s, b) == Some(c) && OctetEnd(s, c) == Some(k)
    ensures GreedyEnd(s, i) == Some(k)
  {
    hide OctetDotEnd, OctetEnd;
  }

  ghost predicate IsPrefixText(s: string, o: seq<nat>, n: nat) {
    Octets(o) && n <= 32 && s == Dotted(o) + "/" + Dec(n)
  }

  // The greedy reading of address "/" numeral ends at the end of the text.
  predicate GreedyPrefix(s: string) {
    var e := GreedyEnd(s, 0);
    e.Some? && e.value < |s| && s[e.value] == '/' && NumeralEnd(s, e.value + 1, 32) == Some(|s|)
  }

  /** The greedy reading succeeds on every text of the form address "/" numeral. */
  lemma PrefixTextComplete(s: string, o: seq<nat>, n: nat)
    requires IsPrefixText(s, o, n)
    ensures GreedyPrefix(s)
  {
    hide Dotted, Dec, NumeralEnd, GreedyEnd;
    var k := |Dotted(o)|;
    assert s[0..k] == Dotted(o) && s[k + 1..|s|] == Dec(n);
    DottedDerives(s, 0, k, o);
    GreedyComplete(s, 0, k);
    NumeralEndComplete(s, k + 1, |s|, n, 32);
  }

  lemma PasteSlash(s: string, p: nat, address: string, number: string)
    requires p < |s| && s[0..p] == address && s[p] == '/' && s[p + 1..|s|] == number
    ensures s == address + "/" + number
  {
    assert s == s[0..p] + "/" + s[p + 1..|s|];
  }

  /* ---- getBits ---- */

  function GetBits(o: seq<nat>): nat {
    if |o| != 4 then 0
    else Or(Or(Or(Shl(32, o[0], 24), Shl(32, o[1], 16)), Shl(32, o[2], 8)), o[3])
  }

  lemma Pow2Facts()
    ensures Pow2(8) == 0x100 && Pow2(16) == 0x1_0000 && Pow2(24) == 0x100_0000 && Pow2(32) == 0x1_0000_0000
  {
    Pow2Add(8, 8);
    Pow2Add(16, 8);
    Pow2Add(16, 16);
  }

  lemma ShlByte(x: nat)
    requires x <= 255
    ensures Shl(32, x, 24) == x * 0x100_0000 && Shl(32, x, 16) == x * 0x1_0000 && Shl(32, x, 8) == x * 0x100
  {
    Pow2Facts();
  }

  /** The shifts and ors of getBits compute the number of the octets. */
  lemma GetBitsIsNumber(o: seq<nat>)
    requires Octets(o)
    ensures GetBits(o) == Number(o) < 0x1_0000_0000
  {
    ShlByte(o[0]);
    ShlByte(o[1]);
    ShlByte(o[2]);
    hide Shl, Or;
    OrBytes(o[0], o[1], o[2], o[3]);
  }

  lemma OrBytes(a: nat, b: nat, c: nat, d: nat)
    requires a <= 255 && b <= 255 && c <= 255 && d <= 255
    ensures Or(Or(Or(a * 0x100_0000, b * 0x1_0000), c * 0x100), d) == ((a * 0x100 + b) * 0x100 + c) * 0x100 + d
  {
    hide Or, Pow2;
    Pow2Facts();
    OrIsSum(a, b * 0x1_0000, 24);
    OrIsSum(a * 0x100 + b, c * 0x100, 16);
    OrIsSum((a * 0x100 + b) * 0x100 + c, d, 8);
  }

  // The text is an address, and getBits returns n for it.
  ghost predicate Denotes(t: string, n: nat) {
    exists o :: Octets(o) && t == Dotted(o) && GetBits(o) == n
  }

  /** Every 32-bit number is denoted by exactly one text. */
  lemma OneTextPerNumber(n: nat)
    requires n < 0x1_0000_0000
    ensures exists t :: Denotes(t, n)
    ensures forall t, t' :: Denotes(t, n) && Denotes(t', n) ==> t == t'
  {
    NumberBijection(n);
    var o :| Octets(o) && Number(o) == n;
    GetBitsIsNumber(o);
    assert Denotes(Dotted(o), n);
    forall t, t' | Denotes(t, n) && Denotes(t', n)
      ensures t == t'
    {
      var p :| Octets(p) && t == Dotted(p) && GetBits(p) == n;
      var p' :| Octets(p') && t' == Dotted(p') && GetBits(p') == n;
      GetBitsIsNumber(p);
      GetBitsIsNumber(p');
      NumberInjective(p, p');
    }
  }

  /** And the texts of IPv4address are exactly those that denote a number, one each. */
  lemma OneNumberPerText(t: string)
    ensures Matches(IPV4, t) <==> exists n: nat :: n < 0x1_0000_0000 && Denotes(t, n)
    ensures forall m: nat, n: nat :: Denotes(t, m) && Denotes(t, n) ==> m == n
  {
    MatchesIffDotted(t);
    if Matches(IPV4, t) {
      var o :| Octets(o) && t == Dotted(o);
      GetBitsIsNumber(o);
      assert Denotes(t, Number(o));
    }
    forall m: nat, n: nat | Denotes(t, m) && Denotes(t, n)
      ensures m == n
    {
      var p :| Octets(p) && t == Dotted(p) && GetBits(p) == m;
      var q :| Octets(q) && t == Dotted(q) && GetBits(q) == n;
      DottedInjective(p, q);
    }
  }

  /** The mask test of isPrefixOnly. */
  function PrefixOnly(bits: nat, prefixLen: nat): bool
    requires prefixLen <= 32
  {
    NotShrOnes(32, prefixLen);
    var mask := if prefixLen == 32 then Ones(32) else Not(32, Shr(Ones(32), prefixLen));
    bits == And(bits, mask)
  }

  /** It decides whether the address is a multiple of 2^(32-n). */
  lemma PrefixOnlyIffDivisible(bits: nat, n: nat)
    requires n <= 32 && bits < 0x1_0000_0000
    ensures PrefixOnly(bits, n) <==> MultipleOf2To(bits, 32 - n)
  {
    Pow2Facts();
    NotShrOnes(32, n);
    assert Mask(32, 0) == Ones(32);
    MaskClears(32, 32 - n, bits);
  }

  /* ---- The parser object ---- */

  class Parser {
    const str: string
    var index: nat
    var octets: seq<nat>
    var prefixLen: nat

    ghost predicate Valid()
      reads this
    {
      index <= |str|
    }

    constructor (s: string)
      ensures Valid() && str == s && index == 0 && octets == [] && prefixLen == 0
    {
      str := s;
      index := 0;
      octets := [];
      prefixLen := 0;
    }

    method Digit() returns (ok: bool)
      requires Valid()
      modifies this`index
      ensures Valid()
      ensures ok <==> old(index) < |str| && IsDigit(str[old(index)])
      ensures index == if ok then old(index) + 1 else old(index)
    {
      if index >= |str| { return false; }
      var c := str[index];
      if '0' <= c <= '9' {
        index := index + 1;
        return true;
      }
      return false;
    }

    method Take(c: char) returns (ok: bool)
      requires Valid()
      modifies this`index
      ensures Valid()
      ensures ok <==> old(index) < |str| && str[old(index)] == c
      ensures index == if ok then old(index) + 1 else old(index)
    {
      if index >= |str| { return false; }
      if str[index] == c {
        index := index + 1;
        return true;
      }
      return false;
    }

    /** The loop shared by decOctet and prefixLength: read digits, give up beyond `most`. */
    method ScanDigits(most: nat) returns (ok: bool)
      requires Valid()
      modifies this`index
      ensures Valid()
      ensures ok <==> Span(DigitC, str, old(index)) <= old(index) + most
      ensures ok ==> index == Span(DigitC, str, old(index))
      ensures !ok ==> index == old(index) + most + 1
    {
      var start := index;
      ghost var e := Span(DigitC, str, index);
      var more := Digit();
      while more
        invariant Valid() && start <= index <= start + most + 1
        invariant e == Span(DigitC, str, index)
        invariant more ==> index > start
        invariant !more ==> index == e <= start + most
        decreases |str| - index, more
      {
        if index - start > most { return false; }
        more := Digit();
      }
      return true;
    }

    /** dec-octet, up to a character that is not a digit. */
    method DecOctet() returns (ok: bool)
      requires Valid()
      modifies this`index, this`octets
      ensures Valid()
      ensures ok <==> OctetEnd(str, old(index)).Some?
      ensures ok ==> old(index) <= index == OctetEnd(str, old(index)).value
      ensures ok ==> |octets| == |old(octets)| + 1 && octets[..|octets| - 1] == old(octets)
      ensures ok ==> octets[|octets| - 1] <= 255 && str[old(index)..index] == Dec(octets[|octets| - 1])
      ensures !ok ==> octets == old(octets)
    {
      hide Value, Dec;
      var start := index;
      ghost var e := Span(DigitC, str, start);
      RunIsDigits(str, start, e);
      ghost var whole := str[start..e];
      if Canonical(whole) { DecOfValue(whole); }
      var short := ScanDigits(3);
      if !short { return false; }
      var t := str[start..index];
      if |t| == 0 { return false; }
      if |t| > 1 && t[0] == '0' { return false; }
      var value := Parse(10, t, 31);
      if value.None? { SmallValue(t); return false; }
      if value.value > 255 { return false; }
      octets := octets + [value.value];
      return true;
    }

    /** An octet and the dot after it. */
    method OctetDot() returns (ok: bool)
      requires Valid()
      modifies this`index, this`octets
      ensures Valid()
      ensures ok <==> OctetDotEnd(str, old(index)).Some?
      ensures ok ==> old(index) < index == OctetDotEnd(str, old(index)).value
      ensures ok ==> |octets| == |old(octets)| + 1 && octets[..|octets| - 1] == old(octets)
      ensures ok ==> octets[|octets| - 1] <= 255 && str[index - 1] == '.'
      ensures ok ==> str[old(index)..index - 1] == Dec(octets[|octets| - 1])
    {
      ok := DecOctet();
      if ok { ok := Take('.'); }
    }

    /** Four octets separated by dots. The octets read stay in `octets`, also those of a failed try. */
    method AddressPart() returns (ok: bool)
      requires Valid()
      modifies this`index, this`octets
      ensures Valid()
      ensures !ok ==> index == old(index)
      ensures ok ==> |octets| == |old(octets)| + 4 && octets[..|octets| - 4] == old(octets)
      ensures ok ==> Octets(octets[|octets| - 4..]) && old(index) <= index
      ensures ok ==> str[old(index)..index] == Dotted(octets[|octets| - 4..])
      ensures ok <==> GreedyEnd(str, old(index)).Some?
      ensures ok ==> index == GreedyEnd(str, old(index)).value
    {
      hide Derives, Dec, Dotted, OctetEnd, OctetDotEnd;
      var start := index;
      ghost var n, before := |octets|, octets;
      ghost var a, b, c;
      ok := OctetDot();
      assert ok ==> octets[..n] == before;
      if ok {
        a := index - 1;
        ok := OctetDot();
        assert ok ==> octets[..n] == before;
        if ok {
          b := index - 1;
          ok := OctetDot();
          assert ok ==> octets[..n] == before;
          if ok {
            c := index - 1;
            ok := DecOctet();
            assert ok ==> octets[..n] == before;
            if ok {
              ghost var o := octets[n..];
              assert o == [octets[n], octets[n + 1], octets[n + 2], octets[n + 3]];
              PasteDotted(str, start, a, b, c, index, o);
              return true;
            }
          }
        }
      }
      index := start;
      return false;
    }

    /** prefixLength: a canonical numeral up to 32. */
    method PrefixLength() returns (ok: bool)
      requires Valid()
      modifies this`index, this`prefixLen
      ensures Valid()
      ensures ok <==> NumeralEnd(str, old(index), 32).Some?
      ensures ok ==> old(index) <= index == NumeralEnd(str, old(index), 32).value
      ensures ok ==> prefixLen <= 32 && str[old(index)..index] == Dec(prefixLen)
      ensures !ok ==> prefixLen == old(prefixLen)
    {
      var start := index;
      ghost var e := Span(DigitC, str, start);
      RunIsDigits(str, start, e);
      ghost var whole := str[start..e];
      if Canonical(whole) { DecOfValue(whole); }
      var short := ScanDigits(2);
      if !short { return false; }
      var t := str[start..index];
      if |t| == 0 { return false; }
      if |t| > 1 && t[0] == '0' { return false; }
      var value := Parse(10, t, 31);
      if value.None? { SmallValue(t); return false; }
      if value.value > 32 { return false; }
      prefixLen := value.value;
      return true;
    }

    /** A whole text is accepted iff it is an IPv4address, and then `octets` are what it denotes. */
    method Address() returns (ok: bool)
      requires Valid() && index == 0 && octets == []
      modifies this`index, this`octets
      ensures Valid()
      ensures ok <==> Matches(IPV4, str)
      ensures ok ==> Octets(octets) && str == Dotted(octets)
    {
      ok := AddressPart();
      ok := ok && index == |str|;
      assert str[0..|str|] == str;
      if Matches(IPV4, str) { GreedyComplete(str, 0, |str|); }
      if ok {
        assert octets[|octets| - 4..] == octets;
        DottedDerives(str, 0, |str|, octets);
      }
    }

    /** address "/" n with n a canonical numeral up to 32. */
    method AddressPrefix() returns (ok: bool)
      requires Valid() && index == 0 && octets == []
      modifies this`index, this`octets, this`prefixLen
      ensures Valid()
      ensures ok <==> GreedyPrefix(str)
      ensures ok ==> IsPrefixText(str, octets, prefixLen)
    {
      hide Dotted, Dec, GreedyEnd, NumeralEnd;
      ok := AddressPart();
      if !ok { return false; }
      ghost var p, text := index, Dotted(octets[|octets| - 4..]);
      assert octets[|octets| - 4..] == octets;
      assert GreedyEnd(str, 0) == Some(p);
      ok := Take('/');
      if !ok { return false; }
      ok := PrefixLength();
      if !ok { return false; }
      if index != |str| { return false; }
      assert IsPrefixText(str, octets, prefixLen) by { PasteSlash(str, p, text, Dec(prefixLen)); }
      return true;
    }

    method IsPrefixOnly() returns (r: bool)
      requires Valid() && Octets(octets) && prefixLen <= 32
      ensures r <==> MultipleOf2To(Number(octets), 32 - prefixLen)
    {
      var bits := GetBits(octets);
      r := PrefixOnly(bits, prefixLen);
      GetBitsIsNumber(octets);
      PrefixOnlyIffDivisible(bits, prefixLen);
    }
  }
}
