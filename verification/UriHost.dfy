/** The shapes of the host: bracketed literals, the characters of a host, and its percent-triplets. */
module UriHost {
  import opened Abnf
  import opened UriGrammar
  import opened UriShapes
  import Ipv6Text
  import Ipv6Rfc
  import Ipv6Scan
  import Utf8

  const IPV6_HEX: Rule := Ipv6Address(LS32_HEX)
  const ADDRZ_TAIL: Rule := Cat(Ch('%'), Cat(Ch('2'), Cat(Ch('5'), ZONE_ID)))

  predicate HexColons(s: string, i: nat, j: nat) {
    i <= j <= |s| && forall k :: i <= k < j ==> In(HexColonC, s[k])
  }

  lemma {:induction false} HexColonsIsRun(s: string, i: nat, j: nat)
    requires i <= j <= |s|
    ensures HexColons(s, i, j) <==> RunAt(HexColonC, s, i, j)
    decreases j - i
  {
    if i < j { HexColonsIsRun(s, i + 1, j); }
  }

  lemma {:induction false} GroupsChars(s: string, i: nat, j: nat, n: nat)
    requires i <= |s| && Ipv6Text.Groups(s, i, j, n)
    ensures HexColons(s, i, j)
    decreases n
  {
    Ipv6Text.GroupsEnd(s, i, j, n);
    if n > 0 {
      var e := Ipv6Text.HexEnd(s, i);
      var t := s[i..e];
      assert forall k :: i <= k < e ==> s[k] == t[k - i];
      if n > 1 { GroupsChars(s, e + 1, j, n - 1); }
    }
  }

  lemma FormChars(s: string, j: nat)
    requires Ipv6Text.HexForm(s, j)
    ensures HexColons(s, 0, j)
  {
    hide Ipv6Text.Groups;
    if Ipv6Text.Groups(s, 0, j, 8) {
      GroupsChars(s, 0, j, 8);
    } else {
      var d: nat, l: nat, r: nat :| Ipv6Text.Elided(s, j, d, l, r);
      GroupsChars(s, 0, d, l);
      GroupsChars(s, d + 2, j, r);
    }
  }

  /** The call isIP(str[i..j], 6) on hexadecimal digits and colons recognises IPv6address. */
  lemma Ipv6Slice(s: string, i: nat, j: nat)
    requires HexColons(s, i, j)
    ensures Ipv6Scan.Accepts(s[i..j]) <==> Derives(IPV6_HEX, s, i, j)
  {
    var t := s[i..j];
    hide Derives, Ipv6Scan.Accepts, Ipv6Address;
    Ipv6Rfc.AcceptsIffRfcHex(t);
    Shift(IPV6_HEX, s, i, t, 0, j - i);
  }

  /** IPv6address in hexadecimal is made of hexadecimal digits and colons. */
  lemma Ipv6Chars(s: string, i: nat, j: nat)
    requires Derives(IPV6_HEX, s, i, j)
    ensures HexColons(s, i, j)
  {
    var t := s[i..j];
    Shift(IPV6_HEX, s, i, t, 0, j - i);
    hide Derives, Ipv6Address;
    Ipv6Text.HexFormIffIpv6Address(t, |t|);
    FormChars(t, |t|);
    assert forall k :: i <= k < j ==> s[k] == t[k - i];
  }

  /* ---- Bracketed literals ---- */

  lemma AddrzShape(s: string, i: nat, j: nat) returns (m: nat)
    requires Derives(ADDRZ_GO, s, i, j)
    ensures i <= m && m + 3 < j <= |s| && Derives(IPV6_HEX, s, i, m) && HexColons(s, i, m)
    ensures s[m] == '%' && s[m + 1] == '2' && s[m + 2] == '5' && RunAt(ZoneC, s, m + 3, j)
    ensures Span(HexColonC, s, i) == m
  {
    hide Derives, RunAt, Span, Ipv6Address;
    var t5 := Cat(Ch('5'), ZONE_ID);
    var t2 := Cat(Ch('2'), t5);
    m := CatSplit(IPV6_HEX, ADDRZ_TAIL, s, i, j);
    var a := CatSplit(Ch('%'), t2, s, m, j);
    OneChar('%', s, m, a);
    var b := CatSplit(Ch('2'), t5, s, a, j);
    OneChar('2', s, a, b);
    var c := CatSplit(Ch('5'), ZONE_ID, s, b, j);
    OneChar('5', s, b, c);
    PlusOfItems(ZoneC, s, c, j);
    Ipv6Chars(s, i, m);
    HexColonsIsRun(s, i, m);
    SpanIsTheRun(HexColonC, s, i, m);
  }

  lemma AddrzJoin(s: string, i: nat, m: nat, j: nat)
    requires i <= m && m + 3 < j <= |s| && Derives(IPV6_HEX, s, i, m)
    requires s[m] == '%' && s[m + 1] == '2' && s[m + 2] == '5' && RunAt(ZoneC, s, m + 3, j)
    ensures Derives(ADDRZ_GO, s, i, j)
  {
    hide Derives, RunAt, Ipv6Address;
    PlusOfItems(ZoneC, s, m + 3, j);
    OneChar('%', s, m, m + 1);
    OneChar('2', s, m + 1, m + 2);
    OneChar('5', s, m + 2, m + 3);
    var t5 := Cat(Ch('5'), ZONE_ID);
    var t2 := Cat(Ch('2'), t5);
    CatJoin(Ch('5'), ZONE_ID, s, m + 2, m + 3, j);
    CatJoin(Ch('2'), t5, s, m + 1, m + 2, j);
    CatJoin(Ch('%'), t2, s, m, m + 1, j);
    CatJoin(IPV6_HEX, ADDRZ_TAIL, s, i, m, j);
  }

  const FUTURE_TAIL: Rule := Cat(Ch('.'), Plus(Alt(UNRESERVED, Alt(SUB_DELIMS, Ch(':')))))

  lemma FutureShape(s: string, i: nat, j: nat) returns (m: nat)
    requires Derives(FUTURE_GO, s, i, j)
    ensures i + 1 < m && m + 1 < j <= |s| && s[i] == 'v' && RunAt(HexC, s, i + 1, m)
    ensures s[m] == '.' && RunAt(FutureC, s, m + 1, j)
    ensures Span(HexC, s, i + 1) == m
  {
    hide Derives, RunAt, Span;
    var a := CatSplit(Ch('v'), Cat(Plus(HEXDIG), FUTURE_TAIL), s, i, j);
    OneChar('v', s, i, a);
    m := CatSplit(Plus(HEXDIG), FUTURE_TAIL, s, a, j);
    PlusOfItems(HexC, s, a, m);
    var b := CatSplit(Ch('.'), Plus(ItemRule(FutureC)), s, m, j);
    OneChar('.', s, m, b);
    PlusOfItems(FutureC, s, b, j);
    SpanIsTheRun(HexC, s, i + 1, m);
  }

  lemma FutureJoin(s: string, i: nat, m: nat, j: nat)
    requires i + 1 < m && m + 1 < j <= |s| && s[i] == 'v' && RunAt(HexC, s, i + 1, m)
    requires s[m] == '.' && RunAt(FutureC, s, m + 1, j)
    ensures Derives(FUTURE_GO, s, i, j)
  {
    hide Derives, RunAt;
    PlusOfItems(FutureC, s, m + 1, j);
    OneChar('.', s, m, m + 1);
    CatJoin(Ch('.'), Plus(ItemRule(FutureC)), s, m, m + 1, j);
    PlusOfItems(HexC, s, i + 1, m);
    CatJoin(Plus(HEXDIG), FUTURE_TAIL, s, i + 1, m, j);
    OneChar('v', s, i, i + 1);
    CatJoin(Ch('v'), Cat(Plus(HEXDIG), FUTURE_TAIL), s, i, i + 1, j);
  }

  const LITERAL_BODY: Rule := Alt(IPV6_HEX, Alt(ADDRZ_GO, FUTURE_GO))

  lemma LiteralRule(s: string, i: nat, j: nat)
    ensures Derives(IP_LITERAL_GO, s, i, j) <==>
            && i + 2 <= j <= |s| && s[i] == '[' && s[j - 1] == ']'
            && (|| Derives(IPV6_HEX, s, i + 1, j - 1)
                || Derives(ADDRZ_GO, s, i + 1, j - 1)
                || Derives(FUTURE_GO, s, i + 1, j - 1))
  {
    if 1 <= j { Alt3(IPV6_HEX, ADDRZ_GO, FUTURE_GO, s, i + 1, j - 1); }
    hide Derives, Ipv6Address, Ipv6Addrz, IpvFuture;
    var rest := Cat(LITERAL_BODY, Ch(']'));
    if Derives(IP_LITERAL_GO, s, i, j) {
      var k := CatSplit(Ch('['), rest, s, i, j);
      OneChar('[', s, i, k);
      var m := CatSplit(LITERAL_BODY, Ch(']'), s, k, j);
      OneChar(']', s, m, j);
    }
    if i + 2 <= j <= |s| && s[i] == '[' && s[j - 1] == ']' && Derives(LITERAL_BODY, s, i + 1, j - 1) {
      OneChar('[', s, i, i + 1);
      OneChar(']', s, j - 1, j);
      CatJoin(LITERAL_BODY, Ch(']'), s, i + 1, j - 1, j);
      CatJoin(Ch('['), rest, s, i, i + 1, j);
    }
  }

  /* ---- Percent-triplets and characters of a host ---- */

  // Every percent sign in s[i..j] starts a complete triplet inside it; every character is ASCII and none
  // is a delimiter of the authority.
  predicate Triplets(s: string, i: nat, j: nat) {
    && i <= j <= |s|
    && forall k :: i <= k < j ==>
         s[k] < '\U{80}' && s[k] !in "@/?#" && (s[k] == '%' ==> k + 3 <= j && PctAt(s, k))
  }

  lemma {:induction false} RunTriplets(cls: Class, s: string, i: nat, j: nat)
    requires i <= j <= |s| && RunAt(cls, s, i, j)
    requires cls.RegNameC? || cls.ZoneC? || cls.HexC? || cls.FutureC? || cls.UserinfoC? || cls.DigitC?
    ensures Triplets(s, i, j)
    decreases j - i
  {
    if i < j {
      if In(cls, s[i]) && RunAt(cls, s, i + 1, j) {
        RunTriplets(cls, s, i + 1, j);
      } else {
        RunTriplets(cls, s, i + 3, j);
      }
    }
  }

  lemma LiteralTriplets(s: string, i: nat, j: nat)
    requires Derives(IP_LITERAL_GO, s, i, j)
    ensures Triplets(s, i, j)
  {
    LiteralRule(s, i, j);
    hide Derives, Ipv6Address, Ipv6Addrz, IpvFuture;
    var a, b := i + 1, j - 1;
    if Derives(IPV6_HEX, s, a, b) {
      Ipv6Chars(s, a, b);
    } else if Derives(ADDRZ_GO, s, a, b) {
      var m := AddrzShape(s, a, b);
      RunTriplets(ZoneC, s, m + 3, b);
    } else {
      var m := FutureShape(s, a, b);
      RunTriplets(HexC, s, a + 1, m);
      RunTriplets(FutureC, s, m + 1, b);
    }
  }

  /** In every host that the grammar of the parser derives, each percent sign starts a triplet. */
  lemma HostTriplets(s: string, i: nat, j: nat)
    requires Derives(HOST_GO, s, i, j)
    ensures Triplets(s, i, j)
  {
    if Derives(IP_LITERAL_GO, s, i, j) {
      LiteralTriplets(s, i, j);
    } else {
      AuthorityRunShapes(s, i, j);
      RunTriplets(RegNameC, s, i, j);
    }
  }

  // Apart from "%25" there is no percent sign in s[i..j].
  predicate PlainPct(s: string, i: nat, j: nat) {
    j <= |s| && forall k :: i <= k < j && s[k] == '%' ==> k + 3 <= j && s[k + 1] == '2' && s[k + 2] == '5'
  }

  /** A host without other percent-encoding passes the UTF-8 condition. */
  lemma PlainHost(s: string, i: nat, j: nat)
    requires Derives(HOST_GO, s, i, j) && PlainPct(s, i, j)
    ensures Derives(HOST_PARSED, s, i, j)
  {
    HostTriplets(s, i, j);
    var t := s[i..j];
    assert forall k :: 0 <= k < |t| ==> t[k] == s[i + k];
    assert t[0..] == t;
    Utf8.PlainIsValid(t, 0);
  }

  lemma HostCases(s: string, i: nat, j: nat)
    ensures Derives(HOST_GO, s, i, j) <==> Derives(IP_LITERAL_GO, s, i, j) || Derives(REG_NAME, s, i, j)
    ensures i <= j <= |s| ==>
      (Derives(HOST_PARSED, s, i, j) <==> Derives(HOST_GO, s, i, j) && Utf8.Valid(Utf8.PctDecode(s[i..j])))
  {
  }
}
