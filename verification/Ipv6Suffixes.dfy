/** Addresses with a zone (section 11 of RFC 4007) and address prefixes (section 2.3 of RFC 4291): the texts that the
    parser accepts against IPv6address of section 3.2.2 of RFC 3986, with the suffix behind it. */
module Ipv6Suffixes {
  import opened Options
  import opened Abnf
  import opened UriGrammar
  import opened Numerals
  import opened Ipv6Text
  import opened Ipv6Scan
  import opened Ipv6Language
  import opened Ipv6Meaning
  import opened Ipv6Rfc
  import Ipv4
  import IpAddress
  import IpRoundTrip
  import opened UriHost

  /* ---- Groups in front of a suffix ---- */

  lemma HexEndPrefix(s: string, e: nat, i: nat)
    requires i <= e <= |s| && HexStops(s, e)
    ensures HexEnd(s, i) <= e && HexEnd(s[..e], i) == HexEnd(s, i)
  {
    var t, h := s[..e], HexEnd(s[..e], i);
    assert t[i..h] == s[i..h];
    RunIsHex(s, i, h);
    SpanIsTheRun(HexC, s, i, h);
  }

  lemma {:induction false} GroupsPrefix(s: string, e: nat, i: nat, j: nat, n: nat)
    requires i <= e <= |s| && j <= e && HexStops(s, e)
    ensures Groups(s, i, j, n) <==> Groups(s[..e], i, j, n)
    decreases n
  {
    if n > 0 {
      HexEndPrefix(s, e, i);
      var k := HexEnd(s, i);
      if k + 1 < j { GroupsPrefix(s, e, k + 1, j, n - 1); }
    }
  }

  lemma BeforePrefix(s: string, e: nat, p: nat)
    requires p <= e <= |s| && HexStops(s, e)
    ensures SixBefore(s, p) <==> SixBefore(s[..e], p)
    ensures forall d: nat, l: nat, r: nat :: ElidedBefore(s, p, d, l, r) <==> ElidedBefore(s[..e], p, d, l, r)
  {
    hide Groups;
    if p > 0 { GroupsPrefix(s, e, 0, p - 1, 6); }
    forall d: nat, l: nat, r: nat
      ensures ElidedBefore(s, p, d, l, r) <==> ElidedBefore(s[..e], p, d, l, r)
    {
      if d + 2 <= p {
        GroupsPrefix(s, e, 0, d, l);
        if d + 2 < p { GroupsPrefix(s, e, d + 2, p - 1, r); }
      }
    }
  }

  /** A dotted tail of s[..e], read inside s. */
  lemma DottedPrefix(s: string, e: nat, p: nat)
    requires e <= |s| && HexStops(s, e)
    ensures DottedForm(s[..e], p) <==>
            && Derives(IPV4, s, p, e)
            && (SixBefore(s, p) || exists d: nat, l: nat, r: nat :: ElidedBefore(s, p, d, l, r))
  {
    hide SixBefore, ElidedBefore;
    var t := s[..e];
    if p <= e {
      Shift(IPV4, s, 0, t, p, e);
      BeforePrefix(s, e, p);
    } else {
      if Derives(IPV4, t, p, |t|) { Ipv4Chars(t, p, |t|); }
      if Derives(IPV4, s, p, e) { Ipv4Chars(s, p, e); }
    }
  }

  /** The hexadecimal forms of s[..e], read inside s. */
  lemma HexPrefix(s: string, e: nat)
    requires e <= |s| && HexStops(s, e)
    ensures HexForm(s, e) <==> Matches(IPV6_HEX, s[..e])
  {
    hide Derives, HexForm;
    HexFormIffIpv6Address(s, e);
    Shift(IPV6_HEX, s, 0, s[..e], 0, e);
  }

  /* ---- The texts in front of a suffix ---- */

  /** An address in hexadecimal and a single colon behind it. */
  ghost predicate LoneColon(t: string) {
    |t| > 1 && t[|t| - 1] == ':' && t[|t| - 2] != ':' && Matches(IPV6_HEX, t[..|t| - 1])
  }

  lemma LoneColonPrefix(s: string, e: nat)
    requires e + 1 < |s| && LoneColonAt(s, e)
    ensures HexForm(s, e) <==> LoneColon(s[..e + 1])
  {
    hide HexForm, Matches;
    HexPrefix(s, e);
    assert s[..e + 1][..e] == s[..e];
  }

  lemma LoneColonCut(s: string, q: nat)
    requires q < |s| && LoneColon(s[..q])
    ensures q > 0 && LoneColonAt(s, q - 1) && HexForm(s, q - 1)
  {
    hide HexForm, Matches;
    assert s[..q][..q - 1] == s[..q - 1];
    HexPrefix(s, q - 1);
  }

  lemma HexTextEnd(t: string)
    requires Matches(IPV6_HEX, t)
    ensures |t| > 1 && (IsHexdig(t[|t| - 1]) || (t[|t| - 2] == ':' && t[|t| - 1] == ':'))
    ensures HexColons(t, 0, |t|)
  {
    hide Matches, Groups;
    HexPrefix(t, |t|);
    assert t[..|t|] == t;
    FormChars(t, |t|);
    FormEnd(t);
  }

  lemma FormEnd(t: string)
    requires HexForm(t, |t|)
    ensures |t| > 1 && (IsHexdig(t[|t| - 1]) || (t[|t| - 2] == ':' && t[|t| - 1] == ':'))
  {
    hide Groups, Elided, IsHexdig;
    if Groups(t, 0, |t|, 8) {
      EightEnd(t);
    } else {
      var d: nat, l: nat, r: nat :| Elided(t, |t|, d, l, r);
      ElidedEnd(t, d, l, r);
    }
  }

  lemma EightEnd(t: string)
    requires Groups(t, 0, |t|, 8)
    ensures |t| > 1 && IsHexdig(t[|t| - 1])
  {
    hide *;
    GroupsEnd(t, 0, |t|, 8);
    GroupsFirst(t, 0, |t|, 8);
  }

  lemma ElidedEnd(t: string, d: nat, l: nat, r: nat)
    requires Elided(t, |t|, d, l, r)
    ensures |t| > 1 && (IsHexdig(t[|t| - 1]) || (t[|t| - 2] == ':' && t[|t| - 1] == ':'))
  {
    hide Groups, IsHexdig;
    GroupsEnd(t, d + 2, |t|, r);
  }

  lemma DottedTextEnd(t: string, p: nat)
    requires Derives(IPV4, t, p, |t|)
    ensures p < |t| && IsDigit(t[|t| - 1]) && '.' in t[p..]
  {
    Ipv4Chars(t, p, |t|);
    var a, b, c := Ipv4.Ipv4Shape(t, p, |t|);
    OctetChars(t, c + 1, |t|);
    OctetChars(t, p, a);
    assert t[p..][a - p] == '.';
  }

  /** In hexadecimal means without a dot. */
  lemma HexIffNoDot(t: string)
    ensures Matches(IPV6_HEX, t) <==> Matches(Ipv6Address(LS32), t) && '.' !in t
  {
    hide Matches, Derives, HexForm;
    Ipv6AddressForms(t);
    HexPrefix(t, |t|);
    assert t[..|t|] == t;
    if Matches(IPV6_HEX, t) { HexTextEnd(t); }
    if p: nat :| RfcDottedForm(t, p) { DottedTextEnd(t, p); }
  }

  lemma RfcText(t: string)
    requires Matches(Ipv6Address(LS32), t)
    ensures !LoneColon(t) && '%' !in t
  {
    hide Matches, Derives, HexForm;
    Ipv6AddressForms(t);
    HexPrefix(t, |t|);
    assert t[..|t|] == t;
    if HexForm(t, |t|) {
      HexTextEnd(t);
    } else {
      var p: nat :| RfcDottedForm(t, p);
      DottedTextEnd(t, p);
      DottedCases(t, p);
      DottedTextChars(t, p);
    }
  }

  lemma DottedTextChars(t: string, p: nat)
    requires DottedForm(t, p)
    ensures '%' !in t
  {
    Ipv4Chars(t, p, |t|);
    BeforeChars(t, p);
    hide Derives, Groups, SixBefore, ElidedBefore;
    assert forall k :: p <= k < |t| ==> t[k] != '%';
  }

  lemma BeforeChars(t: string, p: nat)
    requires SixBefore(t, p) || exists d: nat, l: nat, r: nat :: ElidedBefore(t, p, d, l, r)
    ensures p <= |t| && forall k :: 0 <= k < p ==> t[k] != '%'
  {
    hide Groups;
    if SixBefore(t, p) {
      GroupsChars(t, 0, p - 1, 6);
    } else {
      var d: nat, l: nat, r: nat :| ElidedBefore(t, p, d, l, r);
      GroupsChars(t, 0, d, l);
      if r > 0 { GroupsChars(t, d + 2, p - 1, r); }
    }
  }

  lemma LoneColonChars(t: string)
    requires LoneColon(t)
    ensures '%' !in t
  {
    hide Matches;
    HexTextEnd(t[..|t| - 1]);
    assert forall k :: 0 <= k < |t| - 1 ==> t[k] == t[..|t| - 1][k];
  }

  /* ---- Zones ---- */

  /** An address that r derives, a percent sign, and at least one more character. */
  ghost predicate Zoned(r: Rule, s: string) {
    exists j: nat :: ZoneAt(s, j) && Matches(r, s[..j])
  }

  ghost predicate LoneColonZoned(s: string) {
    exists j: nat :: ZoneAt(s, j) && LoneColon(s[..j])
  }

  lemma ZoneFormIff(s: string)
    ensures (exists j: nat :: ZoneForm(s, j)) <==> Zoned(IPV6_HEX, s) || LoneColonZoned(s)
  {
    hide HexForm, Matches, LoneColon;
    if j: nat :| ZoneForm(s, j) {
      if ZoneAt(s, j) { HexPrefix(s, j); } else { LoneColonPrefix(s, j); }
    }
    if j: nat :| ZoneAt(s, j) && Matches(IPV6_HEX, s[..j]) {
      HexPrefix(s, j);
      assert ZoneForm(s, j);
    }
    if j: nat :| ZoneAt(s, j) && LoneColon(s[..j]) {
      LoneColonCut(s, j);
      assert ZoneForm(s, j - 1);
    }
  }

  lemma FirstPercent(s: string, j: nat, k: nat)
    requires ZoneAt(s, j) && ZoneAt(s, k) && '%' !in s[..j] && '%' !in s[..k]
    ensures j == k
  {
    assert forall i :: 0 <= i < j ==> s[i] == s[..j][i];
    assert forall i :: 0 <= i < k ==> s[i] == s[..k][i];
  }

  lemma NoZoneAround(s: string)
    requires '%' in s
    ensures !HexForm(s, |s|) && forall p: nat :: !DottedForm(s, p)
  {
    hide Groups, Derives;
    if HexForm(s, |s|) { FormChars(s, |s|); }
    if p: nat :| DottedForm(s, p) { DottedTextChars(s, p); }
  }

  /** Every text with a percent sign: it is accepted iff it is an IPv6address in hexadecimal with a zone behind it, or
      has a lone colon in front of the zone. The second kind is no address with a zone, and of the addresses with a
      zone exactly those with a dotted tail are left out. */
  lemma ZonedIffRfc(s: string)
    requires '%' in s
    ensures Accepts(s) <==> Zoned(IPV6_HEX, s) || LoneColonZoned(s)
    ensures LoneColonZoned(s) ==> !Zoned(Ipv6Address(LS32), s)
    ensures forall j: nat :: ZoneAt(s, j) && Matches(Ipv6Address(LS32), s[..j]) ==> (Accepts(s) <==> '.' !in s[..j])
  {
    hide Accepts, Matches, ZoneForm, Zoned, LoneColon, LoneColonZoned, HexForm, DottedForm;
    AddressLanguage(s);
    ZoneFormIff(s);
    NoZoneAround(s);
    ZonedHere(s);
    forall j: nat | ZoneAt(s, j) && Matches(Ipv6Address(LS32), s[..j])
      ensures !LoneColonZoned(s) && (Zoned(IPV6_HEX, s) <==> '.' !in s[..j])
    {
      OneZone(s, j);
    }
  }

  lemma ZonedHere(s: string)
    ensures Zoned(Ipv6Address(LS32), s) <==> exists j: nat :: ZoneAt(s, j) && Matches(Ipv6Address(LS32), s[..j])
  {
  }

  lemma OneZone(s: string, j: nat)
    requires ZoneAt(s, j) && Matches(Ipv6Address(LS32), s[..j])
    ensures !LoneColonZoned(s) && (Zoned(IPV6_HEX, s) <==> '.' !in s[..j])
  {
    hide Matches, LoneColon;
    RfcText(s[..j]);
    HexIffNoDot(s[..j]);
    if k: nat :| ZoneAt(s, k) && LoneColon(s[..k]) {
      LoneColonChars(s[..k]);
      FirstPercent(s, j, k);
    }
    if k: nat :| ZoneAt(s, k) && Matches(IPV6_HEX, s[..k]) {
      HexIffNoDot(s[..k]);
      RfcText(s[..k]);
      FirstPercent(s, j, k);
    }
  }

  /* ---- Prefixes ---- */

  /** What may stand before the slash: an IPv6address, and what the parser lets pass beyond it. */
  ghost predicate PrefixHead(t: string) {
    Matches(Ipv6Address(LS32), t) || LoneColon(t) || exists p: nat :: Overlong(t, p)
  }

  lemma HexHead(s: string, e: nat, v: seq<nat>)
    requires e < |s| && HexMeans(s, e, v)
    ensures s[e] == '/' ==> PrefixHead(s[..e])
    ensures LoneColonAt(s, e) && e + 1 < |s| ==> PrefixHead(s[..e + 1])
  {
    hide Groups, Vals, Matches, LoneColon, Overlong;
    assert HexForm(s, e);
    hide HexForm;
    if s[e] == '/' {
      HexPrefix(s, e);
      HexIffNoDot(s[..e]);
    }
    if LoneColonAt(s, e) && e + 1 < |s| { LoneColonPrefix(s, e); }
  }

  lemma DottedHead(s: string, e: nat, v: seq<nat>)
    requires e < |s| && s[e] == '/' && SomeDotted(s, e, v)
    ensures PrefixHead(s[..e])
  {
    var p: nat, o: seq<nat> :| DottedMeans(s, p, e, v, o);
    hide Groups, Vals, Derives, SixBefore, ElidedBefore, Matches, LoneColon, Ipv4.Dotted;
    Ipv4.DottedDerives(s, p, e, o);
    DottedPrefix(s, e, p);
    HeadOfDotted(s[..e], p);
  }

  lemma HeadOfDotted(t: string, p: nat)
    requires DottedForm(t, p)
    ensures PrefixHead(t)
  {
    hide Matches, LoneColon, DottedForm, RfcDottedForm, Overlong;
    DottedCases(t, p);
    Ipv6AddressForms(t);
  }

  lemma HeadCases(t: string)
    requires PrefixHead(t)
    ensures Matches(IPV6_HEX, t) || LoneColon(t) || exists p: nat :: DottedForm(t, p)
  {
    hide Matches, LoneColon, DottedForm, RfcDottedForm, Overlong, HexForm;
    Ipv6AddressForms(t);
    HexPrefix(t, |t|);
    assert t[..|t|] == t;
    forall p: nat { DottedCases(t, p); }
  }

  lemma HeadMeans(s: string, q: nat, n: nat)
    requires LengthAt(s, q, n) && PrefixHead(s[..q])
    ensures exists e: nat, v: seq<nat>, m: nat :: PrefixText(s, e, v, m)
  {
    var t := s[..q];
    hide Matches, LoneColon, DottedForm, HexForm, PrefixHead, Dec, HexMeans, SomeDotted;
    HeadCases(t);
    if Matches(IPV6_HEX, t) {
      HexPrefix(s, q);
      FormMeans(s, q);
      var v :| HexMeans(s, q, v);
      assert PrefixText(s, q, v, n);
    } else if LoneColon(t) {
      LoneColonCut(s, q);
      FormMeans(s, q - 1);
      var v :| HexMeans(s, q - 1, v);
      assert PrefixText(s, q - 1, v, n);
    } else {
      var p: nat :| DottedForm(t, p);
      DottedPrefix(s, q, p);
      Ipv4Chars(s, p, q);
      DottedTextMeans(s, p, q);
      var v :| SomeDotted(s, q, v);
      assert PrefixText(s, q, v, n);
    }
  }

  lemma MeansHead(s: string, e: nat, v: seq<nat>, n: nat)
    requires PrefixText(s, e, v, n)
    ensures exists q: nat :: LengthAt(s, q, n) && PrefixHead(s[..q])
  {
    hide Dec, HexMeans, SomeDotted, PrefixHead;
    if HexMeans(s, e, v) && (LengthAt(s, e, n) || (LoneColonAt(s, e) && LengthAt(s, e + 1, n))) {
      HexHead(s, e, v);
    } else {
      DottedHead(s, e, v);
    }
  }

  /** An address that r derives, a slash, and a canonical prefix length up to 128. */
  ghost predicate Prefixed(r: Rule, s: string) {
    exists q: nat, n: nat :: LengthAt(s, q, n) && Matches(r, s[..q])
  }

  ghost predicate LoneColonPrefixed(s: string) {
    exists q: nat, n: nat :: LengthAt(s, q, n) && LoneColon(s[..q])
  }

  ghost predicate OverlongPrefixed(s: string) {
    exists q: nat, n: nat, p: nat :: LengthAt(s, q, n) && Overlong(s[..q], p)
  }

  lemma HeadsIff(s: string)
    ensures (exists q: nat, n: nat :: LengthAt(s, q, n) && PrefixHead(s[..q])) <==>
            Prefixed(Ipv6Address(LS32), s) || LoneColonPrefixed(s) || OverlongPrefixed(s)
  {
    hide Dec, Matches, LoneColon, Overlong;
  }

  /** Every text: it is accepted as a prefix iff it is an IPv6address with a prefix length, or has a lone colon in front
      of the slash, or a dotted tail behind six or more groups; the three kinds exclude each other. */
  lemma PrefixIffRfc(s: string)
    ensures AcceptsPrefix(s) <==> Prefixed(Ipv6Address(LS32), s) || LoneColonPrefixed(s) || OverlongPrefixed(s)
    ensures LoneColonPrefixed(s) ==> !Prefixed(Ipv6Address(LS32), s)
    ensures OverlongPrefixed(s) ==> !Prefixed(Ipv6Address(LS32), s) && !LoneColonPrefixed(s)
  {
    hide Dec, PrefixText, PrefixHead, AcceptsPrefix, Prefixed, LoneColonPrefixed, OverlongPrefixed;
    PrefixLanguage(s);
    HeadsIff(s);
    if e: nat, v: seq<nat>, n: nat :| PrefixText(s, e, v, n) { MeansHead(s, e, v, n); }
    if q: nat, n: nat :| LengthAt(s, q, n) && PrefixHead(s[..q]) { HeadMeans(s, q, n); }
    PrefixesExclude(s);
  }

  lemma PrefixesExclude(s: string)
    ensures LoneColonPrefixed(s) ==> !Prefixed(Ipv6Address(LS32), s)
    ensures OverlongPrefixed(s) ==> !Prefixed(Ipv6Address(LS32), s) && !LoneColonPrefixed(s)
  {
    hide Dec, Matches, LoneColon, Overlong;
    forall q: nat, n: nat | LengthAt(s, q, n)
      ensures forall q': nat, n': nat :: LengthAt(s, q', n') ==> q == q'
    {
      forall q': nat, n': nat | LengthAt(s, q', n') { OneLength(s, q, n, q', n'); }
    }
    forall q: nat, n: nat | LengthAt(s, q, n)
      ensures Matches(Ipv6Address(LS32), s[..q]) ==> !LoneColon(s[..q]) && forall p: nat :: !Overlong(s[..q], p)
      ensures LoneColon(s[..q]) ==> forall p: nat :: !Overlong(s[..q], p)
    {
      HeadsExclude(s[..q]);
    }
  }

  lemma OneLength(s: string, q: nat, n: nat, q': nat, n': nat)
    requires LengthAt(s, q, n) && LengthAt(s, q', n')
    ensures q == q' && n == n'
  {
    LastSlash(s, q, n);
    LastSlash(s, q', n');
    DecInjective(n, n');
  }

  lemma LastSlash(s: string, q: nat, n: nat)
    requires LengthAt(s, q, n)
    ensures forall k :: q < k < |s| ==> s[k] != '/'
  {
    hide Dec;
    assert forall k :: q < k < |s| ==> s[k] == s[q + 1..][k - q - 1];
  }

  lemma HeadsExclude(t: string)
    ensures Matches(Ipv6Address(LS32), t) ==> !LoneColon(t) && forall p: nat :: !Overlong(t, p)
    ensures LoneColon(t) ==> forall p: nat :: !Overlong(t, p)
  {
    hide Matches, LoneColon;
    if Matches(Ipv6Address(LS32), t) { RfcText(t); }
    forall p: nat | Overlong(t, p)
      ensures !Matches(Ipv6Address(LS32), t) && !LoneColon(t)
    {
      OverlongIsNotRfc(t, p);
      NotLone(t, p);
    }
  }

  lemma NotLone(t: string, p: nat)
    requires Overlong(t, p)
    ensures !LoneColon(t)
  {
    DottedTextEnd(t, p);
  }

  /* ---- Texts of each kind ---- */

  lemma OneGroupForm(s: string)
    requires |s| == 3 && DoubleColonAt(s, 0) && IsHexdig(s[2])
    ensures Matches(IPV6_HEX, s)
  {
    assert HexEnd(s, 2) == 3;
    assert Elided(s, 3, 0, 0, 1);
    hide Groups, Elided, Matches;
    HexPrefix(s, 3);
    assert s[..3] == s;
  }

  lemma LoneColonText(t: string)
    requires |t| == 4 && DoubleColonAt(t, 0) && IsHexdig(t[2]) && t[3] == ':'
    ensures LoneColon(t)
  {
    OneGroupForm(t[..3]);
  }

  lemma LoneColonZoneExample()
    ensures Accepts("::1:%a") && !Zoned(Ipv6Address(LS32), "::1:%a")
  {
    var s := "::1:%a";
    hide Accepts, Matches, LoneColon;
    LoneColonText(s[..4]);
    assert ZoneAt(s, 4);
    assert s[4] == '%';
    ZonedIffRfc(s);
  }

  lemma LoneColonPrefixExample()
    ensures IpAddress.IsPrefix6("::1:/8", false) && !Prefixed(Ipv6Address(LS32), "::1:/8")
  {
    var s := "::1:/8";
    assert Dec(8) == "8";
    hide AcceptsPrefix, Matches, LoneColon, Dec, PrefixText;
    LoneColonText(s[..4]);
    assert s[5..] == "8";
    assert LengthAt(s, 4, 8);
    PrefixIffRfc(s);
    PrefixLanguage(s);
  }

  lemma DottedBehindColons(t: string, o: seq<nat>)
    requires Ipv4.Octets(o) && t == "::" + Ipv4.Dotted(o)
    ensures Matches(Ipv6Address(LS32), t) && '.' in t
  {
    hide Ipv4.Dotted, Matches, Derives;
    assert t[2..|t|] == Ipv4.Dotted(o);
    Ipv4.DottedDerives(t, 2, |t|, o);
    DottedTextEnd(t, 2);
    assert ElidedBefore(t, 2, 0, 0, 0);
    hide ElidedBefore;
    assert RfcDottedForm(t, 2);
    Ipv6AddressForms(t);
  }

  lemma DottedZoneExample()
    ensures Zoned(Ipv6Address(LS32), "::1.1.1.1%a") && !Accepts("::1.1.1.1%a")
  {
    var s := "::1.1.1.1%a";
    IpRoundTrip.DottedOnes();
    hide Accepts, Matches, Ipv4.Dotted, Dec;
    assert s[..9] == "::" + "1.1.1.1";
    DottedBehindColons(s[..9], [1, 1, 1, 1]);
    assert ZoneAt(s, 9);
    assert s[9] == '%';
    ZonedIffRfc(s);
  }
}
