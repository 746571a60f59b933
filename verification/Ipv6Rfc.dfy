/** The IPv6 parser against IPv6address of section 3.2.2 of RFC 3986, the IPv4 form of ls32 included. */
module Ipv6Rfc {
  import opened Options
  import opened Abnf
  import opened UriGrammar
  import opened Numerals
  import opened Ipv6Text
  import opened Ipv6Scan
  import opened Ipv6Language
  import Ipv4

  /* ---- IPv6address with ls32 in hexadecimal, or with ls32 an IPv4address ---- */

  // Over texts that end at j, r derives what a or b derive.
  ghost predicate Either(r: Rule, a: Rule, b: Rule, s: string, j: nat) {
    forall i: nat :: Derives(r, s, i, j) <==> Derives(a, s, i, j) || Derives(b, s, i, j)
  }

  lemma EitherBehind(x: Rule, r: Rule, a: Rule, b: Rule, s: string, j: nat)
    requires Either(r, a, b, s, j)
    ensures Either(Cat(x, r), Cat(x, a), Cat(x, b), s, j)
  {
    hide Derives;
    forall i: nat
      ensures Derives(Cat(x, r), s, i, j) <==> Derives(Cat(x, a), s, i, j) || Derives(Cat(x, b), s, i, j)
    {
      if Derives(Cat(x, r), s, i, j) {
        var k := CatSplit(x, r, s, i, j);
        if Derives(a, s, k, j) { CatJoin(x, a, s, i, k, j); } else { CatJoin(x, b, s, i, k, j); }
      }
      if Derives(Cat(x, a), s, i, j) { OneBehind(x, r, a, s, i, j); }
      if Derives(Cat(x, b), s, i, j) { OneBehind(x, r, b, s, i, j); }
    }
  }

  lemma OneBehind(x: Rule, r: Rule, a: Rule, s: string, i: nat, j: nat)
    requires Derives(Cat(x, a), s, i, j) && forall k: nat :: Derives(a, s, k, j) ==> Derives(r, s, k, j)
    ensures Derives(Cat(x, r), s, i, j)
  {
    hide Derives;
    var k := CatSplit(x, a, s, i, j);
    CatJoin(x, r, s, i, k, j);
  }

  lemma ElidedEither(p: nat, n: nat, s: string, j: nat)
    ensures Derives(ElidedForm(p, n, LS32), s, 0, j)
            <==> Derives(ElidedForm(p, n, LS32_HEX), s, 0, j) || Derives(ElidedForm(p, n, IPV4), s, 0, j)
  {
    assert Either(LS32, LS32_HEX, IPV4, s, j);
    hide Derives, Times, UpToGroups;
    var t := Times(n, H16_COLON);
    EitherBehind(t, LS32, LS32_HEX, IPV4, s, j);
    EitherBehind(DOUBLE_COLON, Cat(t, LS32), Cat(t, LS32_HEX), Cat(t, IPV4), s, j);
    EitherBehind(UpToGroups(p), Cat(DOUBLE_COLON, Cat(t, LS32)), Cat(DOUBLE_COLON, Cat(t, LS32_HEX)),
                 Cat(DOUBLE_COLON, Cat(t, IPV4)), s, j);
  }

  lemma FirstTwoEither(s: string, j: nat)
    ensures Derives(Cat(Times(6, H16_COLON), LS32), s, 0, j)
            <==> || Derives(Cat(Times(6, H16_COLON), LS32_HEX), s, 0, j)
                 || Derives(Cat(Times(6, H16_COLON), IPV4), s, 0, j)
    ensures Derives(Cat(DOUBLE_COLON, Cat(Times(5, H16_COLON), LS32)), s, 0, j)
            <==> || Derives(Cat(DOUBLE_COLON, Cat(Times(5, H16_COLON), LS32_HEX)), s, 0, j)
                 || Derives(Cat(DOUBLE_COLON, Cat(Times(5, H16_COLON), IPV4)), s, 0, j)
  {
    assert Either(LS32, LS32_HEX, IPV4, s, j);
    hide Derives, Times;
    EitherBehind(Times(6, H16_COLON), LS32, LS32_HEX, IPV4, s, j);
    var t := Times(5, H16_COLON);
    EitherBehind(t, LS32, LS32_HEX, IPV4, s, j);
    EitherBehind(DOUBLE_COLON, Cat(t, LS32), Cat(t, LS32_HEX), Cat(t, IPV4), s, j);
  }

  lemma NineAlternatives(ls32: Rule, s: string, j: nat)
    ensures Derives(Ipv6Address(ls32), s, 0, j) <==>
            || Derives(Cat(Times(6, H16_COLON), ls32), s, 0, j)
            || Derives(Cat(DOUBLE_COLON, Cat(Times(5, H16_COLON), ls32)), s, 0, j)
            || Derives(ElidedForm(0, 4, ls32), s, 0, j)
            || Derives(ElidedForm(1, 3, ls32), s, 0, j)
            || Derives(ElidedForm(2, 2, ls32), s, 0, j)
            || Derives(ElidedForm(3, 1, ls32), s, 0, j)
            || Derives(ElidedForm(4, 0, ls32), s, 0, j)
            || Derives(Cat(UpToGroups(5), Cat(DOUBLE_COLON, H16)), s, 0, j)
            || Derives(Cat(UpToGroups(6), DOUBLE_COLON), s, 0, j)
  {
    hide Derives, Times, UpToGroups;
    Alt9(Cat(Times(6, H16_COLON), ls32), Cat(DOUBLE_COLON, Cat(Times(5, H16_COLON), ls32)),
         ElidedForm(0, 4, ls32), ElidedForm(1, 3, ls32), ElidedForm(2, 2, ls32),
         ElidedForm(3, 1, ls32), ElidedForm(4, 0, ls32),
         Cat(UpToGroups(5), Cat(DOUBLE_COLON, H16)), Cat(UpToGroups(6), DOUBLE_COLON), s, 0, j);
  }

  lemma Ipv6Either(s: string, j: nat)
    ensures Derives(Ipv6Address(LS32), s, 0, j)
            <==> Derives(Ipv6Address(LS32_HEX), s, 0, j) || Derives(Ipv6Address(IPV4), s, 0, j)
  {
    hide Derives, Times, UpToGroups, ElidedForm;
    NineAlternatives(LS32, s, j);
    NineAlternatives(LS32_HEX, s, j);
    NineAlternatives(IPV4, s, j);
    FirstTwoEither(s, j);
    ElidedEither(0, 4, s, j);
    ElidedEither(1, 3, s, j);
    ElidedEither(2, 2, s, j);
    ElidedEither(3, 1, s, j);
    ElidedEither(4, 0, s, j);
  }

  /* ---- The dotted alternatives ---- */

  // n groups, each with its colon, from i up to q.
  predicate GroupsAndColon(s: string, i: nat, q: nat, n: nat) {
    if n == 0 then i == q else i < q <= |s| && s[q - 1] == ':' && Groups(s, i, q - 1, n)
  }

  lemma {:induction false} TimesIsGroupsAndColon(n: nat, s: string, i: nat, q: nat)
    requires i <= q <= |s|
    ensures Derives(Times(n, H16_COLON), s, i, q) <==> GroupsAndColon(s, i, q, n)
    decreases n
  {
    if n > 0 {
      var rest := Times(n - 1, H16_COLON);
      if Derives(Times(n, H16_COLON), s, i, q) {
        var e := CatSplit(H16_COLON, rest, s, i, q);
        H16ColonRule(s, i, e);
        TimesIsGroupsAndColon(n - 1, s, e, q);
        if n == 1 {
          assert Groups(s, i, q - 1, 1);
        } else {
          GroupsEnd(s, e, q - 1, n - 1);
        }
      }
      if GroupsAndColon(s, i, q, n) {
        var e := HexEnd(s, i) + 1;
        GroupsEnd(s, i, q - 1, n);
        H16ColonRule(s, i, e);
        TimesIsGroupsAndColon(n - 1, s, e, q);
        CatJoin(H16_COLON, rest, s, i, e, q);
      }
    }
  }

  // At most m groups in all before a dotted tail at p.
  ghost predicate ShortDotted(s: string, p: nat, j: nat, m: nat) {
    Derives(IPV4, s, p, j) && exists d: nat, l: nat, r: nat :: l + r <= m && ElidedBefore(s, p, d, l, r)
  }

  lemma ElidedDotted(u: nat, n: nat, m: nat, s: string, j: nat)
    requires j <= |s| && u + 1 + n <= m
    ensures Derives(ElidedForm(u, n, IPV4), s, 0, j) ==> exists p: nat :: ShortDotted(s, p, j, m)
  {
    hide Derives, Times;
    if Derives(ElidedForm(u, n, IPV4), s, 0, j) {
      var t := Times(n, H16_COLON);
      var right := Cat(t, IPV4);
      var d := CatSplit(UpToGroups(u), Cat(DOUBLE_COLON, right), s, 0, j);
      var e := CatSplit(DOUBLE_COLON, right, s, d, j);
      DoubleColonRule(s, d, e);
      var l := LeftRule(u, s, 0, d);
      var p := CatSplit(t, IPV4, s, e, j);
      TimesIsGroupsAndColon(n, s, e, p);
      assert ElidedBefore(s, p, d, l, n);
      assert ShortDotted(s, p, j, m);
    }
  }

  lemma DottedElided(u: nat, s: string, p: nat, j: nat, d: nat, l: nat, r: nat)
    requires Derives(IPV4, s, p, j) && ElidedBefore(s, p, d, l, r) && l <= u + 1
    ensures Derives(ElidedForm(u, r, IPV4), s, 0, j)
  {
    Ipv4Chars(s, p, j);
    hide Derives, Times;
    var t := Times(r, H16_COLON);
    LeftRuleConverse(u, l, s, 0, d);
    DoubleColonRule(s, d, d + 2);
    TimesIsGroupsAndColon(r, s, d + 2, p);
    CatJoin(t, IPV4, s, d + 2, p, j);
    CatJoin(DOUBLE_COLON, Cat(t, IPV4), s, d, d + 2, j);
    CatJoin(UpToGroups(u), Cat(DOUBLE_COLON, Cat(t, IPV4)), s, 0, d, j);
  }

  lemma FirstTwoDotted(s: string, j: nat)
    requires j <= |s|
    ensures Derives(Cat(Times(6, H16_COLON), IPV4), s, 0, j)
            <==> exists p: nat :: Derives(IPV4, s, p, j) && SixBefore(s, p)
    ensures Derives(Cat(DOUBLE_COLON, Cat(Times(5, H16_COLON), IPV4)), s, 0, j)
            ==> exists p: nat :: ShortDotted(s, p, j, 5)
    ensures forall p: nat ::
              (Derives(IPV4, s, p, j) && ElidedBefore(s, p, 0, 0, 5)
               ==> Derives(Cat(DOUBLE_COLON, Cat(Times(5, H16_COLON), IPV4)), s, 0, j))
  {
    hide Derives, Times, Groups;
    var t6, t5 := Times(6, H16_COLON), Times(5, H16_COLON);
    if Derives(Cat(t6, IPV4), s, 0, j) {
      var p := CatSplit(t6, IPV4, s, 0, j);
      TimesIsGroupsAndColon(6, s, 0, p);
      assert SixBefore(s, p);
    }
    if p: nat :| Derives(IPV4, s, p, j) && SixBefore(s, p) {
      TimesIsGroupsAndColon(6, s, 0, p);
      CatJoin(t6, IPV4, s, 0, p, j);
    }
    if Derives(Cat(DOUBLE_COLON, Cat(t5, IPV4)), s, 0, j) {
      var e := CatSplit(DOUBLE_COLON, Cat(t5, IPV4), s, 0, j);
      DoubleColonRule(s, 0, e);
      var p := CatSplit(t5, IPV4, s, e, j);
      TimesIsGroupsAndColon(5, s, e, p);
      NoGroups(s, 0);
      assert ElidedBefore(s, p, 0, 0, 5);
      assert ShortDotted(s, p, j, 5);
    }
    forall p: nat | Derives(IPV4, s, p, j) && ElidedBefore(s, p, 0, 0, 5)
      ensures Derives(Cat(DOUBLE_COLON, Cat(t5, IPV4)), s, 0, j)
    {
      Ipv4Chars(s, p, j);
      DoubleColonRule(s, 0, 2);
      TimesIsGroupsAndColon(5, s, 2, p);
      CatJoin(t5, IPV4, s, 2, p, j);
      CatJoin(DOUBLE_COLON, Cat(t5, IPV4), s, 0, 2, j);
    }
  }

  // A dotted tail with the group counts that RFC 3986 allows.
  ghost predicate RfcDottedForm(s: string, p: nat) {
    || (Derives(IPV4, s, p, |s|) && SixBefore(s, p))
    || ShortDotted(s, p, |s|, 5)
  }

  lemma DottedFromRfc(s: string)
    requires Derives(Ipv6Address(IPV4), s, 0, |s|)
    ensures Derives(Ipv6Address(LS32_HEX), s, 0, |s|) || exists p: nat :: RfcDottedForm(s, p)
  {
    var j := |s|;
    NineAlternatives(IPV4, s, j);
    NineAlternatives(LS32_HEX, s, j);
    FirstTwoDotted(s, j);
    ElidedDotted(0, 4, 5, s, j);
    ElidedDotted(1, 3, 5, s, j);
    ElidedDotted(2, 2, 5, s, j);
    ElidedDotted(3, 1, 5, s, j);
    ElidedDotted(4, 0, 5, s, j);
    hide Derives, Times, ElidedForm, Ipv6Address, SixBefore, ShortDotted;
    forall p: nat
      ensures ShortDotted(s, p, j, 5) ==> RfcDottedForm(s, p)
      ensures Derives(IPV4, s, p, j) && SixBefore(s, p) ==> RfcDottedForm(s, p)
    {
    }
  }

  lemma ShortAlternative(s: string, p: nat, d: nat, l: nat, r: nat)
    requires Derives(IPV4, s, p, |s|) && l + r <= 5 && ElidedBefore(s, p, d, l, r)
    ensures r == 5 ==> Derives(Cat(DOUBLE_COLON, Cat(Times(5, H16_COLON), IPV4)), s, 0, |s|)
    ensures r < 5 ==> Derives(ElidedForm(4 - r, r, IPV4), s, 0, |s|)
  {
    hide Derives, Times, ElidedForm;
    if r == 5 {
      OnlyFive(s, p, d);
      FirstTwoDotted(s, |s|);
    } else {
      DottedElided(4 - r, s, p, |s|, d, l, r);
    }
  }

  lemma ShortIsRfc(s: string, p: nat)
    requires ShortDotted(s, p, |s|, 5)
    ensures Derives(Ipv6Address(IPV4), s, 0, |s|)
  {
    hide Derives, Times, ElidedForm, Ipv6Address, ElidedBefore;
    NineAlternatives(IPV4, s, |s|);
    var d: nat, l: nat, r: nat :| l + r <= 5 && ElidedBefore(s, p, d, l, r);
    ShortAlternative(s, p, d, l, r);
    assert r == 0 || r == 1 || r == 2 || r == 3 || r == 4 || r == 5;
  }

  lemma DottedIsRfc(s: string, p: nat)
    requires RfcDottedForm(s, p)
    ensures Derives(Ipv6Address(IPV4), s, 0, |s|)
  {
    hide Derives, Times, ElidedForm, Ipv6Address, SixBefore, ElidedBefore, ShortDotted;
    if ShortDotted(s, p, |s|, 5) {
      ShortIsRfc(s, p);
    } else {
      FirstTwoDotted(s, |s|);
      NineAlternatives(IPV4, s, |s|);
    }
  }

  lemma OnlyFive(s: string, p: nat, d: nat)
    requires ElidedBefore(s, p, d, 0, 5)
    ensures d == 0
  {
  }

  /** What IPv6address of RFC 3986 derives, in terms of groups. */
  lemma Ipv6AddressForms(s: string)
    ensures Matches(Ipv6Address(LS32), s) <==> HexForm(s, |s|) || exists p: nat :: RfcDottedForm(s, p)
  {
    hide Derives, Ipv6Address, HexForm, RfcDottedForm;
    Ipv6Either(s, |s|);
    HexFormIffIpv6Address(s, |s|);
    if Derives(Ipv6Address(IPV4), s, 0, |s|) { DottedFromRfc(s); }
    if p: nat :| RfcDottedForm(s, p) { DottedIsRfc(s, p); }
  }

  /* ---- The parser and the RFC ---- */

  // Six or more groups around a "::" before a dotted tail: no room for the "::".
  ghost predicate Overlong(s: string, p: nat) {
    Derives(IPV4, s, p, |s|) && exists d: nat, l: nat, r: nat :: l + r >= 6 && ElidedBefore(s, p, d, l, r)
  }

  lemma DottedCases(s: string, p: nat)
    ensures DottedForm(s, p) <==> RfcDottedForm(s, p) || Overlong(s, p)
  {
    hide Derives, SixBefore, ElidedBefore;
  }

  /** The scan tells the two apart by the number of pieces. */
  lemma OverlongIsNotRfc(s: string, p: nat)
    requires Overlong(s, p)
    ensures !Matches(Ipv6Address(LS32), s)
  {
    var st := OverlongState(s, p);
    if Matches(Ipv6Address(LS32), s) {
      Ipv6AddressForms(s);
      if HexForm(s, |s|) {
        var st' := FormReads(s, |s|);
        StopsAtEnd(s, st');
      } else {
        var q: nat :| RfcDottedForm(s, q);
        var st' := RfcDottedState(s, q);
      }
    }
  }

  lemma OverlongState(s: string, p: nat) returns (st: State)
    requires Overlong(s, p)
    ensures Scan(s, INITIAL) == Accept(st) && st.seen && |st.pieces| >= 6 && st.dotted.Some? && st.index == |s|
  {
    hide Scan, Read, Groups, Derives, Matches;
    Ipv4Chars(s, p, |s|);
    var d: nat, l: nat, r: nat :| l + r >= 6 && ElidedBefore(s, p, d, l, r);
    st := ElidedReads(s, p, d, l, r);
    StopsAtDotted(s, st, |s|);
    st := st.(index := |s|, dotted := Some(OctetsOf(s[p..|s|])));
  }

  lemma RfcDottedState(s: string, p: nat) returns (st: State)
    requires RfcDottedForm(s, p)
    ensures Scan(s, INITIAL) == Accept(st) && st.dotted.Some? && st.index == |s|
    ensures if st.seen then |st.pieces| <= 5 else |st.pieces| == 6
  {
    hide Scan, Read, Groups, Derives, Matches;
    Ipv4Chars(s, p, |s|);
    if Derives(IPV4, s, p, |s|) && SixBefore(s, p) {
      st := SixReads(s, p);
    } else {
      var d: nat, l: nat, r: nat :| l + r <= 5 && ElidedBefore(s, p, d, l, r);
      st := ElidedReads(s, p, d, l, r);
    }
    StopsAtDotted(s, st, |s|);
    st := st.(index := |s|, dotted := Some(OctetsOf(s[p..|s|])));
  }

  /** Every text without a zone: the parser accepts exactly the IPv6address texts of RFC 3986 and, in
      addition, those with a dotted tail behind six or more groups around a "::". */
  lemma AcceptsIffRfc(s: string)
    requires '%' !in s
    ensures Accepts(s) <==> Matches(Ipv6Address(LS32), s) || exists p: nat :: Overlong(s, p)
    ensures (exists p: nat :: Overlong(s, p)) ==> !Matches(Ipv6Address(LS32), s)
  {
    AddressLanguage(s);
    Ipv6AddressForms(s);
    assert forall j: nat :: !ZoneForm(s, j);
    forall p: nat { DottedCases(s, p); }
    if p: nat :| Overlong(s, p) { OverlongIsNotRfc(s, p); }
    hide Accepts, Matches, HexForm, RfcDottedForm, Overlong, DottedForm;
    if p: nat :| Overlong(s, p) { assert DottedForm(s, p); }
    if p: nat :| RfcDottedForm(s, p) { assert DottedForm(s, p); }
  }

  /** On texts of hexadecimal digits and colons the two agree, and ls32 is never dotted. */
  lemma AcceptsIffRfcHex(s: string)
    requires forall k :: 0 <= k < |s| ==> IsHexdig(s[k]) || s[k] == ':'
    ensures Accepts(s) <==> Matches(Ipv6Address(LS32), s)
    ensures Accepts(s) <==> Matches(Ipv6Address(LS32_HEX), s)
  {
    AcceptsIffRfc(s);
    Ipv6AddressForms(s);
    HexFormIffIpv6Address(s, |s|);
    forall p: nat
      ensures !Overlong(s, p) && !RfcDottedForm(s, p)
    {
      if Derives(IPV4, s, p, |s|) { var a, b, c := Ipv4.Ipv4Shape(s, p, |s|); }
    }
  }
}
