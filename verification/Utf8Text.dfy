/** Written forms and what they read as: hexadecimal digits in either case, percent-encoded octets, and the UTF-8
    encoding of scalar values (section 3 of RFC 3629). */
module Utf8Text {
  import opened Utf8

  /* ---- Hexadecimal digits ---- */

  const LOWER_DIGITS := "0123456789abcdef"
  const UPPER_DIGITS := "0123456789ABCDEF"

  function HexDigit(v: nat, upper: bool): char
    requires v < 16
  {
    if upper then UPPER_DIGITS[v] else LOWER_DIGITS[v]
  }

  /** Both digits of a value are read as this value, and they are the only characters from '0' to '9', 'a' to 'f' and
      'A' to 'F' that are. */
  lemma DigitRead(v: nat, upper: bool)
    requires v < 16
    ensures var c := HexDigit(v, upper);
      Unhex(c) == v && c != '%' && ('0' <= c <= '9' || 'a' <= c <= 'f' || 'A' <= c <= 'F')
  {
    assert v == 0 || v == 1 || v == 2 || v == 3 || v == 4 || v == 5 || v == 6 || v == 7 || v == 8 || v == 9 || v == 10
           || v == 11 || v == 12 || v == 13 || v == 14 || v == 15;
  }

  lemma DigitWritten(c: char)
    requires '0' <= c <= '9' || 'a' <= c <= 'f' || 'A' <= c <= 'F'
    ensures c == HexDigit(Unhex(c), 'A' <= c <= 'F')
  {
    var v, upper := Unhex(c), 'A' <= c <= 'F';
    DigitRead(v, upper);
    var d := HexDigit(v, upper);
    assert upper ==> v < 10 || 'A' <= d <= 'F' by { DigitCase(v, upper); }
    DigitCase(v, upper);
  }

  lemma DigitCase(v: nat, upper: bool)
    requires v < 16
    ensures var c := HexDigit(v, upper);
      if v < 10 then '0' <= c <= '9' else if upper then 'A' <= c <= 'F' else 'a' <= c <= 'f'
  {
    assert v == 0 || v == 1 || v == 2 || v == 3 || v == 4 || v == 5 || v == 6 || v == 7 || v == 8 || v == 9 || v == 10
           || v == 11 || v == 12 || v == 13 || v == 14 || v == 15;
  }

  /* ---- Percent-encoding ---- */

  // A character that stands for its own byte, or a byte as a triplet with the case of each of its digits.
  datatype Piece = Literal(c: char) | Triplet(b: nat, upper: bool, lastUpper: bool)

  predicate Encodable(ps: seq<Piece>) {
    forall k :: 0 <= k < |ps| ==> if ps[k].Literal? then ps[k].c != '%' else ps[k].b < 256
  }

  function PieceText(p: Piece): string
    requires Encodable([p])
  {
    assert [p][0] == p;
    if p.Literal? then [p.c] else ['%', HexDigit(p.b / 16, p.upper), HexDigit(p.b % 16, p.lastUpper)]
  }

  function Encoded(ps: seq<Piece>): string
    requires Encodable(ps)
  {
    if ps == [] then "" else
      assert [ps[0]][0] == ps[0];
      PieceText(ps[0]) + Encoded(ps[1..])
  }

  function Bytes(ps: seq<Piece>): seq<nat> {
    seq(|ps|, k requires 0 <= k < |ps| => if ps[k].Literal? then ps[k].c as nat else ps[k].b)
  }

  /** Percent-decoding inverts percent-encoding, whatever is encoded and in whatever case. */
  lemma {:induction false} DecodeEncoded(ps: seq<Piece>)
    requires Encodable(ps)
    ensures PctDecode(Encoded(ps)) == Bytes(ps)
    decreases |ps|
  {
    if ps != [] {
      DecodeEncoded(ps[1..]);
      DecodePiece(ps[0], Encoded(ps[1..]));
      assert Bytes(ps) == [Bytes(ps)[0]] + Bytes(ps[1..]);
    }
  }

  lemma DecodePiece(p: Piece, rest: string)
    requires Encodable([p])
    ensures PctDecode(PieceText(p) + rest) == [if p.Literal? then p.c as nat else p.b] + PctDecode(rest)
  {
    assert [p][0] == p;
    var s := PieceText(p) + rest;
    if p.Literal? {
      assert s[1..] == rest;
    } else {
      DigitRead(p.b / 16, p.upper);
      DigitRead(p.b % 16, p.lastUpper);
      assert s[3..] == rest;
    }
  }

  /* ---- UTF-8 ---- */

  // Unicode scalar values: code points but for the surrogates
  predicate IsScalar(u: nat) { u < 0xD800 || 0xE000 <= u < 0x11_0000 }

  function EncodeScalar(u: nat): (b: seq<nat>)
    requires IsScalar(u)
  {
    if u < 0x80 then [u]
    else if u < 0x800 then [0xC0 + u / 64, 0x80 + u % 64]
    else if u < 0x1_0000 then [0xE0 + u / 4096, 0x80 + u / 64 % 64, 0x80 + u % 64]
    else [0xF0 + u / 26_2144, 0x80 + u / 4096 % 64, 0x80 + u / 64 % 64, 0x80 + u % 64]
  }

  predicate Scalars(us: seq<nat>) { forall k :: 0 <= k < |us| ==> IsScalar(us[k]) }

  function EncodeScalars(us: seq<nat>): seq<nat>
    requires Scalars(us)
  {
    if us == [] then [] else EncodeScalar(us[0]) + EncodeScalars(us[1..])
  }

  lemma WidthOfScalar(u: nat, rest: seq<nat>)
    requires IsScalar(u)
    ensures Width(EncodeScalar(u) + rest) == |EncodeScalar(u)| > 0
  {
    var b := EncodeScalar(u) + rest;
    assert forall k :: 0 <= k < |EncodeScalar(u)| ==> b[k] == EncodeScalar(u)[k];
    if u < 0x80 {
    } else if u < 0x800 {
      assert Tail(b, 1);
    } else if u < 0x1_0000 {
      assert b[0] == 0xE0 + u / 4096 && Tail(b, 1) && Tail(b, 2);
    } else {
      assert b[0] == 0xF0 + u / 26_2144 && Tail(b, 1) && Tail(b, 2) && Tail(b, 3);
    }
  }

  // The scalar value of the well-formed sequence that starts b.
  function FirstScalar(b: seq<nat>): (u: nat)
    requires Width(b) > 0
  {
    match Width(b)
    case 1 => b[0]
    case 2 => (b[0] - 0xC0) * 64 + (b[1] - 0x80)
    case 3 => (b[0] - 0xE0) * 4096 + (b[1] - 0x80) * 64 + (b[2] - 0x80)
    case _ => (b[0] - 0xF0) * 26_2144 + (b[1] - 0x80) * 4096 + (b[2] - 0x80) * 64 + (b[3] - 0x80)
  }

  lemma FirstScalarEncodes(b: seq<nat>)
    requires Width(b) > 0
    ensures IsScalar(FirstScalar(b)) && EncodeScalar(FirstScalar(b)) == b[..Width(b)]
  {
    match Width(b)
    case 1 =>
    case 2 => SecondSextet(b[0] - 0xC0, b[1] - 0x80);
    case 3 => ThreeEncode(b);
    case _ => FourEncode(b);
  }

  lemma SecondSextet(x: nat, y: nat)
    requires y < 64
    ensures (x * 64 + y) / 64 == x && (x * 64 + y) % 64 == y
  {
  }

  lemma Sextets(x: nat, y: nat, z: nat)
    requires y < 64 && z < 64
    ensures var u := x * 4096 + y * 64 + z; u / 4096 == x && u / 64 % 64 == y && u % 64 == z
  {
    SecondSextet(x * 64 + y, z);
    SecondSextet(x, y);
  }

  lemma ThreeEncode(b: seq<nat>)
    requires Width(b) == 3
    ensures IsScalar(FirstScalar(b)) && EncodeScalar(FirstScalar(b)) == b[..3]
  {
    var x, y, z := b[0] - 0xE0, b[1] - 0x80, b[2] - 0x80;
    assert 0 <= x < 16 && 0 <= y < 64 && 0 <= z < 64 && (x == 0 ==> y >= 32) && (x == 13 ==> y < 32);
    Sextets(x, y, z);
    var u := FirstScalar(b);
    assert u == x * 4096 + y * 64 + z && 0x800 <= u < 0x1_0000 && IsScalar(u);
    hide Width, FirstScalar;
    assert EncodeScalar(u) == [b[0], b[1], b[2]];
  }

  lemma FourEncode(b: seq<nat>)
    requires Width(b) == 4
    ensures IsScalar(FirstScalar(b)) && EncodeScalar(FirstScalar(b)) == b[..4]
  {
    var w, x, y, z := b[0] - 0xF0, b[1] - 0x80, b[2] - 0x80, b[3] - 0x80;
    assert 0 <= w <= 4 && 0 <= x < 64 && 0 <= y < 64 && 0 <= z < 64 && (w == 0 ==> x >= 16) && (w == 4 ==> x < 16);
    var u := FirstScalar(b);
    assert u == w * 26_2144 + x * 4096 + y * 64 + z && 0x1_0000 <= u < 0x11_0000;
    hide Width, FirstScalar;
    Sextets(w * 64 + x, y, z);
    SecondSextet(w, x);
    assert u / 26_2144 == u / 4096 / 64;
    assert EncodeScalar(u) == [b[0], b[1], b[2], b[3]];
  }

  /** Well-formed UTF-8 is what encoding a sequence of scalar values gives. */
  lemma {:induction false} ValidIffEncoded(b: seq<nat>)
    ensures Valid(b) <==> exists us :: Scalars(us) && b == EncodeScalars(us)
    decreases |b|
  {
    if Valid(b) { var us := ScalarsOf(b); }
    if us :| Scalars(us) && b == EncodeScalars(us) { EncodedIsValid(us); }
  }

  lemma {:induction false} ScalarsOf(b: seq<nat>) returns (us: seq<nat>)
    requires Valid(b)
    ensures Scalars(us) && b == EncodeScalars(us)
    decreases |b|
  {
    if b == [] {
      us := [];
    } else {
      var u, rest := FirstScalar(b), b[Width(b)..];
      FirstScalarEncodes(b);
      var vs := ScalarsOf(rest);
      us := [u] + vs;
      assert us[1..] == vs;
    }
  }

  lemma {:induction false} EncodedIsValid(us: seq<nat>)
    requires Scalars(us)
    ensures Valid(EncodeScalars(us))
    decreases |us|
  {
    if us != [] {
      var rest := EncodeScalars(us[1..]);
      EncodedIsValid(us[1..]);
      WidthOfScalar(us[0], rest);
      assert EncodeScalars(us)[|EncodeScalar(us[0])|..] == rest;
    }
  }
}
