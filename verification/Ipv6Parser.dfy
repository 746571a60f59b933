/** The IPv6 parser object of cel/library.go. */
module Ipv6Parser {
  import opened Options
  import opened Abnf
  import opened UriGrammar
  import opened Numerals
  import opened Bits
  import opened Ipv6Text
  import opened Ipv6Scan
  import opened Ipv6Value
  import Ipv4

  class Parser {
    const str: string
    var index: nat
    var pieces: seq<nat>
    var doubleColonAt: int
    var doubleColonSeen: bool
    var dottedRaw: string
    var dottedAddr: Ipv4.Parser?
    var zoneIDFound: bool
    var prefixLen: nat

    ghost predicate Valid()
      reads this
    {
      index <= |str|
    }

    ghost function Abs(): State
      reads this, dottedAddr
    {
      State(index, pieces, doubleColonSeen, doubleColonAt,
            if dottedAddr == null then None else Some(dottedAddr.octets), zoneIDFound)
    }

    constructor (s: string)
      ensures Valid() && str == s && Abs() == INITIAL && dottedAddr == null && prefixLen == 0
    {
      str := s;
      index, pieces, doubleColonAt, doubleColonSeen := 0, [], -1, false;
      dottedRaw, dottedAddr, zoneIDFound, prefixLen := "", null, false, 0;
    }

    method Hexdig() returns (ok: bool)
      requires Valid()
      modifies this`index
      ensures Valid()
      ensures ok <==> old(index) < |str| && IsHexdig(str[old(index)])
      ensures index == if ok then old(index) + 1 else old(index)
    {
      if index >= |str| { return false; }
      var c := str[index];
      if '0' <= c <= '9' || 'a' <= c <= 'f' || 'A' <= c <= 'F' {
        index := index + 1;
        return true;
      }
      return false;
    }

    method Digit() returns (ok: bool)
      requires Valid()
      modifies this`index
      ensures Valid()
      ensures ok <==> old(index) < |str| && IsDigit(str[old(index)])
      ensures index == if ok then old(index) + 1 else old(index)
    {
      if index >= |str| { return false; }
      var c := str[index];
      if '0' <= c <= '9' {
        index := index + 1;
        return true;
      }
      return false;
    }

    method Take(c: char) returns (ok: bool)
      requires Valid()
      modifies this`index
      ensures Valid()
      ensures ok <==> old(index) < |str| && str[old(index)] == c
      ensures index == if ok then old(index) + 1 else old(index)
    {
      if index >= |str| { return false; }
      if str[index] == c {
        index := index + 1;
        return true;
      }
      return false;
    }

    /** One to four hexadecimal digits become a piece; none is no match, more is an error. */
    method H16() returns (ok: bool, err: bool)
      requires Valid()
      modifies this`index, this`pieces
      ensures Valid()
      ensures err <==> HexEnd(str, old(index)) > old(index) + 4
      ensures ok <==> GroupAt(str, old(index))
      ensures !err ==> index == HexEnd(str, old(index))
      ensures pieces == if ok then old(pieces) + [HexAt(str, old(index))] else old(pieces)
    {
      var start := index;
      ghost var e := Span(HexC, str, index);
      var more := Hexdig();
      while more
        invariant Valid() && start <= index <= start + 5 && pieces == old(pieces)
        invariant e == Span(HexC, str, index)
        invariant more ==> index > start
        invariant !more ==> index == e <= start + 4
        decreases |str| - index, more
      {
        if index - start > 4 { return false, true; }
        more := Hexdig();
      }
      var t := str[start..index];
      assert index == HexEnd(str, start) && AllHex(t);
      if |t| == 0 { return false, false; }
      var value := Parse(16, t, 16);
      HexBound(t);
      Pow2Monotone(4 * |t|, 16);
      if value.None? { return false, true; }
      pieces := pieces + [value.value];
      return true, false;
    }

    /** A run of at least seven digits and dots is kept as the dotted notation. */
    method Dotted() returns (ok: bool)
      requires Valid()
      modifies this`index, this`dottedRaw
      ensures Valid()
      ensures ok <==> DottedEnd(str, old(index)) >= old(index) + 7
      ensures ok ==> index == DottedEnd(str, old(index)) && dottedRaw == str[old(index)..index]
      ensures !ok ==> index == old(index) && dottedRaw == ""
    {
      var start := index;
      dottedRaw := "";
      var more := Digit();
      if !more { more := Take('.'); }
      while more
        invariant Valid() && start <= index && dottedRaw == ""
        invariant DottedEnd(str, index) == DottedEnd(str, start)
        invariant !more ==> index == DottedEnd(str, start)
        decreases |str| - index, more
      {
        more := Digit();
        if !more { more := Take('.'); }
      }
      if index - start >= 7 {
        dottedRaw := str[start..index];
        return true;
      }
      index := start;
      return false;
    }

    /** A percent sign and everything behind it, which must not be empty. */
    method ZoneID() returns (ok: bool)
      requires Valid()
      modifies this`index, this`zoneIDFound
      ensures Valid()
      ensures ok <==> old(index) + 1 < |str| && str[old(index)] == '%'
      ensures zoneIDFound == ok
      ensures index == if ok then |str| else old(index)
    {
      var start := index;
      var percent := Take('%');
      if percent {
        if |str| - index > 0 {
          index := |str|;
          zoneIDFound := true;
          return true;
        }
      }
      index := start;
      zoneIDFound := false;
      return false;
    }

    /** The dotted branch of the loop, entered when TriesDotted. */
    method DottedTail() returns (ok: bool)
      requires Valid() && dottedAddr == null && !zoneIDFound
      modifies this`dottedAddr
      ensures ok <==> Matches(IPV4, dottedRaw)
      ensures ok ==> fresh(dottedAddr) && dottedAddr.octets == OctetsOf(dottedRaw)
      ensures !ok ==> dottedAddr == null
    {
      var dotted := new Ipv4.Parser(dottedRaw);
      ok := dotted.Address();
      if ok {
        dottedAddr := dotted;
        Ipv4.DottedInjective(dotted.octets, OctetsOf(dottedRaw));
      }
    }

    /** The colon branch of the loop: one colon, or the double colon. */
    method Colons() returns (taken: bool, ok: bool)
      requires Valid() && index < |str| && dottedAddr == null && !zoneIDFound
      requires !TriesDotted(str, Abs()) && HexEnd(str, index) == index
      modifies this`index, this`doubleColonAt, this`doubleColonSeen
      ensures Valid()
      ensures taken <==> str[old(index)] == ':'
      ensures taken ==> index > old(index)
      ensures taken && ok ==> Scan(str, Abs()) == Scan(str, old(Abs()))
      ensures taken && !ok ==> Scan(str, old(Abs())).Reject?
      ensures !taken ==> Abs() == old(Abs())
    {
      taken := Take(':');
      if !taken { return false, false; }
      var second := Take(':');
      if second {
        if doubleColonSeen { return true, false; }
        doubleColonSeen := true;
        doubleColonAt := |pieces|;
        var third := Take(':');
        return true, !third;
      }
      return true, !(index == 1 || index == |str|);
    }

    /** The address part: the method accepts iff the scan of the text does, in the same state. */
    method AddressPart() returns (ok: bool)
      requires Valid() && dottedAddr == null && !zoneIDFound
      modifies this
      ensures Valid()
      ensures ok <==> Scan(str, old(Abs())).Accept?
      ensures ok ==> Abs() == Scan(str, old(Abs())).state
      ensures dottedAddr == null || fresh(dottedAddr)
      ensures prefixLen == old(prefixLen)
    {
      hide Matches, Derives, OctetsOf, HexAt, DottedEnd;
      ghost var outcome := Scan(str, Abs());
      while index < |str|
        invariant Valid() && dottedAddr == null && !zoneIDFound && prefixLen == old(prefixLen)
        invariant Scan(str, Abs()) == outcome
        decreases |str| - index
      {
        ghost var st := Abs();
        if doubleColonSeen || |pieces| == 6 {
          var d := Dotted();
          if d {
            ok := DottedTail();
            return;
          }
        }
        assert !TriesDotted(str, st) && Abs() == st;
        var group, err := H16();
        if err { return false; }
        if group { continue; }
        assert Abs() == st;
        var taken, fine := Colons();
        if taken {
          if !fine { return false; }
          continue;
        }
        if str[index] == '%' {
          var zone := ZoneID();
          if !zone { return false; }
        }
        assert outcome == Finish(Abs());
        break;
      }
      if doubleColonSeen { return |pieces| < 8; }
      return |pieces| == 8;
    }

    /** A whole text: IPv6 address, optionally with a zone. */
    method Address() returns (ok: bool)
      requires Valid() && Abs() == INITIAL && dottedAddr == null
      modifies this
      ensures Valid()
      ensures ok <==> Accepts(str)
      ensures ok ==> Abs() == Scan(str, INITIAL).state
      ensures dottedAddr == null || fresh(dottedAddr)
    {
      ok := AddressPart();
      ok := ok && index == |str|;
    }

    /** prefixLength: a canonical numeral up to 128. */
    method PrefixLength() returns (ok: bool)
      requires Valid()
      modifies this`index, this`prefixLen
      ensures Valid()
      ensures ok <==> Ipv4.NumeralEnd(str, old(index), 128).Some?
      ensures ok ==> old(index) <= index == Ipv4.NumeralEnd(str, old(index), 128).value
      ensures ok ==> prefixLen <= 128 && str[old(index)..index] == Dec(prefixLen)
      ensures !ok ==> prefixLen == old(prefixLen)
    {
      var start := index;
      ghost var e := Span(DigitC, str, start);
      Ipv4.RunIsDigits(str, start, e);
      ghost var whole := str[start..e];
      if Canonical(whole) { DecOfValue(whole); }
      var more := Digit();
      while more
        invariant Valid() && start <= index <= start + 4 && prefixLen == old(prefixLen)
        invariant e == Span(DigitC, str, index)
        invariant more ==> index > start
        invariant !more ==> index == e <= start + 3
        decreases |str| - index, more
      {
        if index - start > 3 { return false; }
        more := Digit();
      }
      var t := str[start..index];
      if |t| == 0 { return false; }
      if |t| > 1 && t[0] == '0' { return false; }
      var value := Parse(10, t, 31);
      if value.None? { SmallValue(t); return false; }
      if value.value > 128 { return false; }
      prefixLen := value.value;
      return true;
    }

    /** address "/" n, without a zone, n a canonical numeral up to 128. */
    method AddressPrefix() returns (ok: bool)
      requires Valid() && Abs() == INITIAL && dottedAddr == null
      modifies this
      ensures Valid()
      ensures ok <==> AcceptsPrefix(str)
      ensures ok ==> Abs().(index := 0) == Scan(str, INITIAL).state.(index := 0)
      ensures ok ==> prefixLen <= 128 && str[Scan(str, INITIAL).state.index + 1..] == Dec(prefixLen)
      ensures dottedAddr == null || fresh(dottedAddr)
    {
      hide Scan, Dec;
      ok := AddressPart();
      if !ok || zoneIDFound { return false; }
      ghost var st := Abs();
      ok := Take('/');
      if !ok { return false; }
      ok := PrefixLength();
      if !ok { return false; }
      ok := index == |str|;
      assert str[st.index + 1..|str|] == str[st.index + 1..];
    }

    /** getBits, as the pair of 64-bit words. */
    method GetBits() returns (hi: nat, lo: nat)
      requires WellRead(Abs())
      ensures (hi, lo) == Bits128(Abs())
    {
      var p16: seq<nat> := pieces;
      if dottedAddr != null {
        var dotted32 := Ipv4.GetBits(dottedAddr.octets);
        p16 := p16 + [Shr(dotted32, 16) % 0x1_0000];
        p16 := p16 + [dotted32 % 0x1_0000];
        assert p16 == Pieces(Abs());
      }
      if doubleColonSeen {
        ghost var all := p16;
        while |p16| < 8
          invariant doubleColonAt <= |p16| && Insert(p16, doubleColonAt) == Insert(all, doubleColonAt)
          decreases 8 - |p16|
        {
          p16 := p16[..doubleColonAt] + [0] + p16[doubleColonAt..];
        }
      }
      if |p16| != 8 { return 0, 0; }
      hi := Word64(p16[0], p16[1], p16[2], p16[3]);
      lo := Word64(p16[4], p16[5], p16[6], p16[7]);
    }

    /** The loop of isPrefixOnly over the two words. */
    static method MaskLoop(hi: nat, lo: nat, prefixLen: nat) returns (r: bool)
      ensures r <==> hi == And(hi, Mask64(prefixLen)) && lo == And(lo, Mask64(prefixLen - 64))
    {
      hide *;
      var p64s := [hi, lo];
      for idx := 0 to 2
        invariant idx >= 1 ==> hi == And(hi, Mask64(prefixLen))
        invariant idx == 2 ==> lo == And(lo, Mask64(prefixLen - 64))
      {
        var size := prefixLen - 64 * idx;
        var mask := Mask64(size);
        var masked := And(p64s[idx], mask);
        if p64s[idx] != masked {
          return false;
        }
      }
      return true;
    }

    /** isPrefixOnly: is the address a multiple of 2^(128-n)? */
    method IsPrefixOnly() returns (r: bool)
      requires WellRead(Abs()) && Words(Abs().pieces) && prefixLen <= 128
      ensures r <==> MultipleOf2To(Number128(Abs()), 128 - prefixLen)
    {
      hide *;
      var hi, lo := GetBits();
      PrefixTest(Abs(), prefixLen);
      r := MaskLoop(hi, lo, prefixLen);
    }
  }
}
