/** isIP and isIPPrefix. */
module IpAddress {
  import opened Abnf
  import opened UriGrammar
  import opened Numerals
  import opened Bits
  import opened Ipv6Text
  import opened Ipv6Scan
  import opened Ipv6Value
  import opened Ipv6Language
  import opened Ipv6Meaning
  import Ipv4
  import Ipv6Parser

  /* ---- The two entry points ---- */

  method IsIp(str: string, version: int) returns (ok: bool)
    ensures ok <==> || ((version == 6 || version == 0) && Accepts(str))
                    || ((version == 4 || version == 0) && Matches(IPV4, str))
  {
    if version == 6 {
      var ip := new Ipv6Parser.Parser(str);
      ok := ip.Address();
      return;
    }
    if version == 4 {
      var ip := new Ipv4.Parser(str);
      ok := ip.Address();
      return;
    }
    if version == 0 {
      var ip4 := new Ipv4.Parser(str);
      ok := ip4.Address();
      if !ok {
        var ip6 := new Ipv6Parser.Parser(str);
        ok := ip6.Address();
      }
      return;
    }
    return false;
  }

  /** An address and a prefix length; in strict mode the address is a multiple of 2^(128-n). Where a dotted tail
      makes more than eight groups getBits returns 0, and every prefix length will do. */
  ghost predicate IsPrefix6(s: string, strict: bool) {
    exists e: nat, v: seq<nat>, n: nat ::
      PrefixText(s, e, v, n) && (strict ==> |v| != 8 || MultipleOf2To(BigEndian(v), 128 - n))
  }

  ghost predicate IsPrefix4(s: string, strict: bool) {
    exists o: seq<nat>, n: nat :: Ipv4.IsPrefixText(s, o, n) && (strict ==> MultipleOf2To(Ipv4.Number(o), 32 - n))
  }

  method IsIpPrefix6(str: string, strict: bool) returns (ok: bool)
    ensures ok <==> IsPrefix6(str, strict)
  {
    hide Scan, Dec, MultipleOf2To, Number128, PrefixText, NumberOf;
    PrefixLanguage(str);
    var ip := new Ipv6Parser.Parser(str);
    ok := ip.AddressPrefix();
    if ok && strict {
      ScanWellRead(str);
      ghost var st, n := Scan(str, INITIAL).state, ip.prefixLen;
      assert ip.Abs().pieces == st.pieces && ip.Abs() == st.(index := ip.index);
      assert Number128(ip.Abs()) == Number128(st) by { IndexIsNoMatter(ip.Abs(), st); }
      ok := ip.IsPrefixOnly();
      forall e: nat, v: seq<nat>, m: nat | PrefixText(str, e, v, m)
        ensures m == n && (ok <==> |v| != 8 || MultipleOf2To(BigEndian(v), 128 - m))
      {
        DecInjective(m, n);
        StrictNumber(v, n);
      }
    }
  }

  lemma IndexIsNoMatter(a: State, b: State)
    requires WellRead(a) && a == b.(index := a.index)
    ensures WellRead(b) && Number128(a) == Number128(b)
  {
  }

  lemma StrictNumber(v: seq<nat>, n: nat)
    requires n <= 128
    ensures MultipleOf2To(NumberOf(v), 128 - n) <==> |v| != 8 || MultipleOf2To(BigEndian(v), 128 - n)
  {
    hide BigEndian, Pow2;
  }

  method IsIpPrefix4(str: string, strict: bool) returns (ok: bool)
    ensures ok <==> IsPrefix4(str, strict)
  {
    hide Dec, Ipv4.Dotted, Ipv4.GreedyPrefix, MultipleOf2To, Ipv4.Number;
    var ip := new Ipv4.Parser(str);
    ok := ip.AddressPrefix();
    forall o, n | Ipv4.IsPrefixText(str, o, n)
      ensures ok && o == ip.octets && n == ip.prefixLen
    {
      Ipv4.PrefixTextComplete(str, o, n);
      PrefixTextUnique(str, o, n, ip.octets, ip.prefixLen);
    }
    if ok && strict {
      ok := ip.IsPrefixOnly();
    }
  }

  lemma PrefixTextUnique(s: string, o: seq<nat>, n: nat, o': seq<nat>, n': nat)
    requires Ipv4.IsPrefixText(s, o, n) && Ipv4.IsPrefixText(s, o', n')
    ensures o == o' && n == n'
  {
    var a, b := |Ipv4.Dotted(o)|, |Ipv4.Dotted(o')|;
    assert s[..a] == Ipv4.Dotted(o) && s[..b] == Ipv4.Dotted(o') && s[a] == '/' && s[b] == '/';
    assert s[0..a] == Ipv4.Dotted(o) && s[0..b] == Ipv4.Dotted(o');
    Ipv4.DottedDerives(s, 0, a, o);
    Ipv4.DottedDerives(s, 0, b, o');
    Ipv4Chars(s, 0, a);
    Ipv4Chars(s, 0, b);
    assert a == b;
    Ipv4.DottedInjective(o, o');
    assert s[a + 1..] == Dec(n) && s[b + 1..] == Dec(n');
    DecInjective(n, n');
  }

  method IsIpPrefix(str: string, version: int, strict: bool) returns (ok: bool)
    ensures ok <==> || ((version == 6 || version == 0) && IsPrefix6(str, strict))
                    || ((version == 4 || version == 0) && IsPrefix4(str, strict))
  {
    hide *;
    if version == 6 {
      ok := IsIpPrefix6(str, strict);
      return;
    }
    if version == 4 {
      ok := IsIpPrefix4(str, strict);
      return;
    }
    if version == 0 {
      ok := IsIpPrefix6(str, strict);
      if !ok { ok := IsIpPrefix4(str, strict); }
      return;
    }
    return false;
  }
}
