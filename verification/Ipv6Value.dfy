/** The 128-bit number that a parsed address stands for: section 2.2 of RFC 4291. */
module Ipv6Value {
  import opened Options
  import opened Numerals
  import opened Bits
  import opened Ipv6Scan
  import Ipv4

  const TWO64: nat := 0x1_0000_0000_0000_0000

  predicate Words(v: seq<nat>) { forall k :: 0 <= k < |v| ==> v[k] < 0x1_0000 }

  // The two 16-bit groups that four octets stand for.
  function DottedGroups(o: seq<nat>): seq<nat>
    requires |o| == 4
  {
    [o[0] * 0x100 + o[1], o[2] * 0x100 + o[3]]
  }

  predicate WellRead(st: State) {
    && (st.dotted.Some? ==> Ipv4.Octets(st.dotted.value))
    && (st.seen ==> 0 <= st.at <= |st.pieces|)
  }

  // All groups that the text writes out.
  function Pieces(st: State): seq<nat>
    requires WellRead(st)
  {
    if st.dotted.Some? then
      var bits := Ipv4.GetBits(st.dotted.value);
      st.pieces + [Shr(bits, 16) % 0x1_0000, bits % 0x1_0000]
    else st.pieces
  }

  // Zeros inserted at a position until there are eight groups.
  function Insert(v: seq<nat>, at: int): seq<nat>
    requires 0 <= at <= |v|
    decreases 8 - |v|
  {
    if |v| >= 8 then v else Insert(v[..at] + [0] + v[at..], at)
  }

  function Zeros(n: nat): seq<nat> { seq(n, _ => 0) }

  // (a << 48) | (b << 32) | (c << 16) | d
  function Word64(a: nat, b: nat, c: nat, d: nat): nat {
    Or(Or(Or(Shl(64, a, 48), Shl(64, b, 32)), Shl(64, c, 16)), d)
  }

  function Bits128(st: State): (nat, nat)
    requires WellRead(st)
  {
    var p16 := if st.seen then Insert(Pieces(st), st.at) else Pieces(st);
    if |p16| != 8 then (0, 0)
    else (Word64(p16[0], p16[1], p16[2], p16[3]), Word64(p16[4], p16[5], p16[6], p16[7]))
  }

  function Number128(st: State): nat
    requires WellRead(st)
  {
    Bits128(st).0 * TWO64 + Bits128(st).1
  }

  /** The eight groups that a state denotes: "::" stands for zeros. */
  function Denoted(st: State): seq<nat>
    requires WellRead(st)
  {
    var groups := st.pieces + if st.dotted.Some? then DottedGroups(st.dotted.value) else [];
    if st.seen && |groups| < 8 then groups[..st.at] + Zeros(8 - |groups|) + groups[st.at..] else groups
  }

  // The big-endian number of a sequence of groups.
  function BigEndian(v: seq<nat>): nat {
    if v == [] then 0 else BigEndian(v[..|v| - 1]) * 0x1_0000 + v[|v| - 1]
  }

  lemma {:induction false} InsertZeros(v: seq<nat>, at: int)
    requires 0 <= at <= |v| <= 8
    ensures Insert(v, at) == v[..at] + Zeros(8 - |v|) + v[at..]
    decreases 8 - |v|
  {
    if |v| < 8 {
      var v' := v[..at] + [0] + v[at..];
      InsertZeros(v', at);
      assert v'[..at] == v[..at] && v'[at..] == [0] + v[at..];
      assert Zeros(8 - |v|) == Zeros(8 - |v'|) + [0];
    }
  }

  lemma Pow2Wide()
    ensures Pow2(16) == 0x1_0000 && Pow2(32) == 0x1_0000_0000
    ensures Pow2(48) == 0x1_0000_0000_0000 && Pow2(64) == TWO64
  {
    Ipv4.Pow2Facts();
    Pow2Add(32, 16);
    Pow2Add(32, 32);
  }

  function Fields(a: nat, b: nat, c: nat, d: nat): nat {
    ((a * 0x1_0000 + b) * 0x1_0000 + c) * 0x1_0000 + d
  }

  lemma ShlWord(x: nat)
    requires x < 0x1_0000
    ensures Shl(64, x, 48) == x * 0x1_0000_0000_0000
    ensures Shl(64, x, 32) == x * 0x1_0000_0000
    ensures Shl(64, x, 16) == x * 0x1_0000
  {
    hide Pow2;
    Pow2Wide();
  }

  /** The shifts and ors compute the big-endian number of four groups. */
  lemma Word64IsNumber(a: nat, b: nat, c: nat, d: nat)
    requires Words([a, b, c, d])
    ensures Word64(a, b, c, d) == Fields(a, b, c, d) < TWO64
  {
    var v := [a, b, c, d];
    assert v[0] < 0x1_0000 && v[1] < 0x1_0000 && v[2] < 0x1_0000 && v[3] < 0x1_0000;
    ShlWord(a);
    ShlWord(b);
    ShlWord(c);
    hide Shl, Or, Pow2;
    OrWords(a, b, c, d);
  }

  lemma OrWords(a: nat, b: nat, c: nat, d: nat)
    requires a < 0x1_0000 && b < 0x1_0000 && c < 0x1_0000 && d < 0x1_0000
    ensures Or(Or(Or(a * 0x1_0000_0000_0000, b * 0x1_0000_0000), c * 0x1_0000), d) == Fields(a, b, c, d) < TWO64
  {
    hide Or, Pow2;
    Pow2Wide();
    OrIsSum(a, b * 0x1_0000_0000, 48);
    OrIsSum(a * 0x1_0000 + b, c * 0x1_0000, 32);
    OrIsSum((a * 0x1_0000 + b) * 0x1_0000 + c, d, 16);
  }

  lemma DottedBits(o: seq<nat>)
    requires Ipv4.Octets(o)
    ensures [Shr(Ipv4.GetBits(o), 16) % 0x1_0000, Ipv4.GetBits(o) % 0x1_0000] == DottedGroups(o)
  {
    Ipv4.GetBitsIsNumber(o);
    Pow2Wide();
    var h, l := o[0] * 0x100 + o[1], o[2] * 0x100 + o[3];
    assert Ipv4.Number(o) == h * 0x1_0000 + l;
    hide Ipv4.GetBits, Ipv4.Number, Pow2, Shr;
    Halves(h, l);
  }

  lemma Halves(h: nat, l: nat)
    requires h < 0x1_0000 && l < 0x1_0000
    ensures Shr(h * 0x1_0000 + l, 16) % 0x1_0000 == h && (h * 0x1_0000 + l) % 0x1_0000 == l
  {
    Pow2Wide();
    hide Pow2;
    MulDivMod(h, 0x1_0000, l);
  }

  lemma PiecesAreGroups(st: State)
    requires WellRead(st)
    ensures Pieces(st) == st.pieces + if st.dotted.Some? then DottedGroups(st.dotted.value) else []
    ensures Words(st.pieces) ==> Words(Pieces(st))
  {
    if st.dotted.Some? { DottedBits(st.dotted.value); }
  }

  lemma BigEndian8(v: seq<nat>)
    requires |v| == 8
    ensures BigEndian(v) == Fields(v[0], v[1], v[2], v[3]) * TWO64 + Fields(v[4], v[5], v[6], v[7])
  {
    assert v[..8] == v && v[..0] == [];
    assert BigEndian([]) == 0;
    hide BigEndian;
    BigEndianStep(v, 1);
    BigEndianStep(v, 2);
    BigEndianStep(v, 3);
    BigEndianStep(v, 4);
    BigEndianStep(v, 5);
    BigEndianStep(v, 6);
    BigEndianStep(v, 7);
    BigEndianStep(v, 8);
  }

  lemma BigEndianStep(v: seq<nat>, n: nat)
    requires 1 <= n <= |v|
    ensures BigEndian(v[..n]) == BigEndian(v[..n - 1]) * 0x1_0000 + v[n - 1]
  {
    assert v[..n][..n - 1] == v[..n - 1];
  }

  /** getBits returns the big-endian value of the eight groups that the text denotes. */
  lemma BitsAreDenoted(st: State)
    requires WellRead(st) && Words(st.pieces) && |Denoted(st)| == 8
    ensures Number128(st) == BigEndian(Denoted(st))
    ensures Words(Denoted(st))
  {
    PiecesAreGroups(st);
    var groups := Pieces(st);
    if st.seen { InsertZeros(groups, st.at); }
    var v := Denoted(st);
    assert Words(v);
    assert v == if st.seen then Insert(groups, st.at) else groups;
    Bits128Of(v);
    hide Word64;
    BigEndian8(v);
  }

  lemma Bits128Of(v: seq<nat>)
    requires |v| == 8 && Words(v)
    ensures Word64(v[0], v[1], v[2], v[3]) == Fields(v[0], v[1], v[2], v[3]) < TWO64
    ensures Word64(v[4], v[5], v[6], v[7]) == Fields(v[4], v[5], v[6], v[7]) < TWO64
  {
    hide Word64, Fields;
    Word64IsNumber(v[0], v[1], v[2], v[3]);
    Word64IsNumber(v[4], v[5], v[6], v[7]);
  }

  lemma Bits128Bound(st: State)
    requires WellRead(st) && Words(st.pieces)
    ensures Bits128(st).0 < TWO64 && Bits128(st).1 < TWO64
  {
    PiecesAreGroups(st);
    var groups := Pieces(st);
    if st.seen { InsertWords(groups, st.at); }
    var v := if st.seen then Insert(groups, st.at) else groups;
    if |v| == 8 { Bits128Of(v); }
  }

  lemma {:induction false} InsertWords(v: seq<nat>, at: int)
    requires Words(v)
    ensures 0 <= at <= |v| ==> Words(Insert(v, at))
    decreases 8 - |v|
  {
    if 0 <= at <= |v| < 8 { InsertWords(v[..at] + [0] + v[at..], at); }
  }

  /* ---- The mask test ---- */

  function Mask64(size: int): nat {
    if size >= 64 then Ones(64)
    else if size < 0 then 0
    else NotShrOnes(64, size); Not(64, Shr(Ones(64), size))
  }

  lemma MaskTest(p: nat, size: int)
    requires p < TWO64
    ensures size >= 64 ==> p == And(p, Mask64(size))
    ensures size < 0 ==> (p == And(p, Mask64(size)) <==> p == 0)
    ensures 0 <= size <= 64 ==> (p == And(p, Mask64(size)) <==> MultipleOf2To(p, 64 - size))
  {
    if size >= 64 { AllOnes(p); }
    if 0 <= size < 64 { SomeOnes(p, size); }
  }

  lemma AllOnes(p: nat)
    requires p < TWO64
    ensures p == And(p, Ones(64)) && MultipleOf2To(p, 0)
  {
    assert Pow2(0) == 1;
    hide And, Pow2;
    Pow2Wide();
    MaskClears(64, 0, p);
  }

  lemma SomeOnes(p: nat, size: nat)
    requires p < TWO64 && size < 64
    ensures p == And(p, Mask64(size)) <==> MultipleOf2To(p, 64 - size)
  {
    hide And, Pow2, Mask, Not, Shr;
    Pow2Wide();
    NotShrOnes(64, size);
    MaskClears(64, 64 - size, p);
  }

  /** The loop over the two words decides whether the address is a multiple of 2^(128-n). */
  lemma PrefixOnlyIffDivisible(hi: nat, lo: nat, n: nat)
    requires hi < TWO64 && lo < TWO64 && n <= 128
    ensures hi == And(hi, Mask64(n)) && lo == And(lo, Mask64(n - 64)) <==> MultipleOf2To(hi * TWO64 + lo, 128 - n)
  {
    Pow2Wide();
    MaskTest(hi, n);
    MaskTest(lo, n - 64);
    DivisibleSplit(hi, lo, 64, 128 - n);
  }

  lemma PrefixTest(st: State, n: nat)
    requires WellRead(st) && Words(st.pieces) && n <= 128
    ensures MultipleOf2To(Number128(st), 128 - n)
            <==> Bits128(st).0 == And(Bits128(st).0, Mask64(n)) && Bits128(st).1 == And(Bits128(st).1, Mask64(n - 64))
  {
    hide Bits128, And, Mask64, MultipleOf2To, Words;
    Bits128Bound(st);
    PrefixOnlyIffDivisible(Bits128(st).0, Bits128(st).1, n);
  }
}
