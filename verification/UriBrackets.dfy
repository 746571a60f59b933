/** Bracketed hosts: where isURI is narrower than RFC 3986, exactly, and texts that show it. */
module UriBrackets {
  import opened Abnf
  import opened UriGrammar
  import opened UriShapes
  import opened UriHost
  import opened UriScan
  import opened UriTheorems
  import Ipv6Text
  import Utf8

  const RFC_LITERAL: Rule := IpLiteral(LS32, OneOf("vV"))

  /** Every IP-literal of the RFC in the text is one that the parser knows: no IPv4 address inside the brackets, and
      no upper-case V. */
  ghost predicate KnownLiterals(s: string) {
    forall i: nat, j: nat :: Derives(RFC_LITERAL, s, i, j) ==> Derives(IP_LITERAL_GO, s, i, j)
  }

  /* ---- Brackets occur in the host only ---- */

  predicate IsBracket(c: char) { c == '[' || c == ']' }

  predicate Clean(s: string, a: nat, b: nat) {
    a <= b <= |s| && forall k :: a <= k < b ==> !IsBracket(s[k])
  }

  // The brackets in s[a..b] are those of one IP-literal.
  ghost predicate OneLiteral(s: string, a: nat, b: nat) {
    a <= b <= |s| && (Clean(s, a, b) || exists u: nat, p: nat :: LiteralIn(s, a, b, u, p))
  }

  ghost predicate LiteralIn(s: string, a: nat, b: nat, u: nat, p: nat)
    requires a <= b <= |s|
  {
    a <= u && u + 2 <= p <= b && Derives(IP_LITERAL_GO, s, u, p) &&
    forall k :: a <= k < b && IsBracket(s[k]) ==> k == u || k == p - 1
  }

  lemma {:induction false} RunIsClean(cls: Class, s: string, i: nat, j: nat)
    requires i <= j <= |s| && RunAt(cls, s, i, j)
    ensures Clean(s, i, j)
    decreases j - i
  {
    if i < j {
      if In(cls, s[i]) && RunAt(cls, s, i + 1, j) {
        NoBracketIn(cls, s[i]);
        RunIsClean(cls, s, i + 1, j);
      } else {
        RunIsClean(cls, s, i + 3, j);
      }
    }
  }

  lemma NoBracketIn(cls: Class, c: char)
    requires In(cls, c)
    ensures !IsBracket(c)
  {
  }

  lemma LiteralAlone(s: string, u: nat, p: nat)
    requires Derives(IP_LITERAL_GO, s, u, p)
    ensures u + 2 <= p <= |s| && s[u] == '[' && s[p - 1] == ']' && Clean(s, u + 1, p - 1)
  {
    LiteralRule(s, u, p);
    hide Derives, RunAt;
    if Derives(IPV6_HEX, s, u + 1, p - 1) {
      AddressClean(s, u + 1, p - 1);
    } else if Derives(ADDRZ_GO, s, u + 1, p - 1) {
      var m := AddrzShape(s, u + 1, p - 1);
      AddressClean(s, u + 1, m);
      RunIsClean(ZoneC, s, m + 3, p - 1);
    } else {
      var m := FutureShape(s, u + 1, p - 1);
      RunIsClean(HexC, s, u + 2, m);
      RunIsClean(FutureC, s, m + 1, p - 1);
    }
  }

  lemma AddressClean(s: string, i: nat, j: nat)
    requires Derives(IPV6_HEX, s, i, j)
    ensures Clean(s, i, j)
  {
    Ipv6Chars(s, i, j);
    forall k | i <= k < j
      ensures !IsBracket(s[k])
    {
      NoBracketIn(HexColonC, s[k]);
    }
  }

  lemma HostLiteral(s: string, u: nat, p: nat)
    requires Derives(HOST_GO, s, u, p)
    ensures OneLiteral(s, u, p)
  {
    HostCases(s, u, p);
    if Derives(IP_LITERAL_GO, s, u, p) {
      LiteralAlone(s, u, p);
      assert LiteralIn(s, u, p, u, p);
    } else {
      AuthorityRunShapes(s, u, p);
      RunIsClean(RegNameC, s, u, p);
    }
  }

  // Clean text around the literal
  lemma Widen(s: string, a: nat, u: nat, p: nat, b: nat)
    requires Clean(s, a, u) && OneLiteral(s, u, p) && Clean(s, p, b)
    ensures OneLiteral(s, a, b)
  {
    hide Derives;
    if !Clean(s, u, p) {
      var i: nat, j: nat :| LiteralIn(s, u, p, i, j);
      assert LiteralIn(s, a, b, i, j);
    }
  }

  lemma NetPathLiteral(s: string, i: nat, h: nat)
    requires Derives(NET_PATH_GO, s, i, h)
    ensures OneLiteral(s, i, h)
  {
    hide Derives, RunAt;
    var m := NetPathShape(s, i, h);
    AbemptyShape(s, m, h);
    RunIsClean(PathC, s, m, h);
    var u, p := AuthorityShape(HOST_PARSED, s, i + 2, m);
    ParsedIsHost(s, u, p);
    HostLiteral(s, u, p);
    if u > i + 2 { RunIsClean(UserinfoC, s, i + 2, u - 1); }
    if p < m { RunIsClean(DigitC, s, p + 1, m); }
    Widen(s, i, u, p, h);
  }

  lemma PartLiteral(s: string, i: nat, h: nat)
    requires Derives(HIER_PART_GO, s, i, h) || Derives(RELATIVE_PART_GO, s, i, h)
    ensures OneLiteral(s, i, h)
  {
    HierCases(s, i, h);
    hide Derives, RelativePart, HierPart, RunAt;
    if Derives(NET_PATH_GO, s, i, h) {
      NetPathLiteral(s, i, h);
    } else if Derives(PATH_ABSOLUTE, s, i, h) {
      AbsoluteShape(s, i, h);
      RunIsClean(PathC, s, i, h);
    } else if Derives(PATH_ROOTLESS, s, i, h) {
      RootlessShape(s, i, h);
      RunIsClean(PathC, s, i, h);
    } else if Derives(PATH_NOSCHEME, s, i, h) {
      var k := NoschemeShape(s, i, h);
      RunIsClean(PathC, s, i, h);
    } else {
      EmptyPart(s, i, h);
    }
  }

  lemma CutClean(s: string, h: nat, q: nat)
    requires QueryCut(s, h, q)
    ensures Clean(s, h, |s|)
  {
    if q > h { RunIsClean(QueryC, s, h + 1, q); }
    if q < |s| { RunIsClean(QueryC, s, q + 1, |s|); }
  }

  lemma ReferenceLiteral(s: string)
    requires Matches(URI_GO, s) || Matches(URI_REFERENCE_GO, s)
    ensures OneLiteral(s, 0, |s|)
  {
    hide Derives, RunAt, HierPart, RelativePart;
    ReferenceCases(s);
    if Derives(URI_GO, s, 0, |s|) {
      UriRule(s, 0);
      var c: nat, h: nat, q: nat :| HeadCut(s, 0, c, h) && QueryCut(s, h, q);
      SchemeShape(s, 0, c);
      RunIsClean(SchemeC, s, 1, c);
      PartLiteral(s, c + 1, h);
      CutClean(s, h, q);
      Widen(s, 0, c + 1, h, |s|);
    } else {
      RelativeRefRule(s, 0);
      var h: nat, q: nat :| Derives(RELATIVE_PART_GO, s, 0, h) && QueryCut(s, h, q);
      PartLiteral(s, 0, h);
      CutClean(s, h, q);
      Widen(s, 0, 0, h, |s|);
    }
  }

  /* ---- The exact difference ---- */

  lemma RfcLiteralBrackets(s: string, i: nat, j: nat)
    requires Derives(RFC_LITERAL, s, i, j)
    ensures i + 1 < j <= |s| && s[i] == '[' && s[j - 1] == ']'
  {
    hide Ipv6Address, Ipv6Addrz, IpvFuture;
    var body := Alt(Ipv6Address(LS32), Alt(Ipv6Addrz(LS32), IpvFuture(OneOf("vV"))));
    CharCut('[', Cat(body, Ch(']')), s, i, j);
    var k := CatSplit(body, Ch(']'), s, i + 1, j);
    OneChar(']', s, k, j);
  }

  lemma OneIsKnown(s: string)
    requires OneLiteral(s, 0, |s|)
    ensures KnownLiterals(s)
  {
    hide Derives;
    forall i: nat, j: nat | Derives(RFC_LITERAL, s, i, j)
      ensures Derives(IP_LITERAL_GO, s, i, j)
    {
      RfcLiteralBrackets(s, i, j);
      var u: nat, p: nat :| LiteralIn(s, 0, |s|, u, p);
      LiteralAlone(s, u, p);
      assert IsBracket(s[i]) && IsBracket(s[j - 1]);
    }
  }

  lemma KnownIsBelow(s: string)
    requires KnownLiterals(s)
    ensures Below(RFC_HOST, HOST_PARSED, s)
  {
    forall i: nat, j: nat | Derives(HOST_RFC, s, i, j)
      ensures Derives(HOST_GO, s, i, j)
    {
      RfcHostCases(s, i, j);
      HostCases(s, i, j);
      hide Derives, IpLiteral;
      if Derives(IPV4, s, i, j) { Ipv4IsRegName(s, i, j); }
    }
    hide IpLiteral;
    Utf8Below(HOST_RFC, HOST_GO, s);
  }

  /** For all strings: isURI accepts exactly the URIs of RFC 3986 whose IP-literals it knows and whose host is UTF-8. */
  lemma IsUriIffKnown(s: string)
    ensures Matches(URI_GO, s) <==> Matches(RFC_URI, s) && KnownLiterals(s)
    ensures Matches(URI_REFERENCE_GO, s) <==> Matches(RFC_URI_REFERENCE, s) && KnownLiterals(s)
  {
    hide Derives, Uri, RelativeRef, UriReference, KnownLiterals;
    HostGoBelowRfc(s);
    HostBelow(HOST_PARSED, RFC_HOST, s);
    if Matches(URI_GO, s) || Matches(URI_REFERENCE_GO, s) {
      ReferenceLiteral(s);
      OneIsKnown(s);
    }
    if KnownLiterals(s) {
      KnownIsBelow(s);
      HostBelow(RFC_HOST, HOST_PARSED, s);
    }
  }

  /** And isURIRef accepts the references with such literals, and the texts in which relativeRef resumes. */
  lemma IsUriRefIffKnown(s: string)
    ensures IsUriRefText(s) <==>
              (Matches(RFC_URI_REFERENCE, s) && KnownLiterals(s)) || exists k: nat :: Resumes(s, k)
  {
    hide Matches, KnownLiterals, Resumes, UriReference, Uri, RelativeRef;
    IsUriIffKnown(s);
  }

  /* ---- Texts that show it ---- */

  // scheme "://" host, with nothing else
  lemma HostUri(host: Rule, s: string)
    requires |s| >= 4 && IsAlpha(s[0]) && s[1] == ':' && s[2] == '/' && s[3] == '/' && Derives(host, s, 4, |s|)
    ensures Matches(Uri(host), s)
  {
    var n := |s|;
    SchemeShape(s, 0, 1);
    OptQueryRule(s, n, n);
    OptFragmentRule(s, n, n);
    AuthorityJoin(host, s, 4, 4, n, n);
    NetPathOf(host, s, 2, n);
    OneChar(':', s, 1, 2);
    hide Derives, Authority;
    CatJoin(OPT_QUERY, OPT_FRAGMENT, s, n, n, n);
    CatJoin(HierPart(host), QF, s, 2, n, n);
    CatJoin(Ch(':'), Cat(HierPart(host), QF), s, 1, 2, n);
    CatJoin(SCHEME, Cat(Ch(':'), Cat(HierPart(host), QF)), s, 0, 1, n);
  }

  lemma NetPathOf(host: Rule, s: string, i: nat, n: nat)
    requires i + 2 <= n == |s| && s[i] == '/' && s[i + 1] == '/' && Derives(Authority(host), s, i + 2, n)
    ensures Derives(HierPart(host), s, i, n) && Derives(RelativePart(host), s, i, n)
  {
    assert Derives(PATH_ABEMPTY, s, n, n);
    OneChar('/', s, i, i + 1);
    OneChar('/', s, i + 1, i + 2);
    CatJoin(Authority(host), PATH_ABEMPTY, s, i + 2, n, n);
    CatJoin(Ch('/'), Cat(Authority(host), PATH_ABEMPTY), s, i + 1, i + 2, n);
    CatJoin(Ch('/'), Cat(Ch('/'), Cat(Authority(host), PATH_ABEMPTY)), s, i, i + 1, n);
  }

  // A letter, "://", and "[V", a digit, a dot, a letter, "]"
  predicate UpperFuture(s: string) {
    && |s| == 10 && IsAlpha(s[0]) && s[1] == ':' && s[2] == '/' && s[3] == '/' && s[4] == '[' && s[5] == 'V'
    && IsDigit(s[6]) && s[7] == '.' && IsAlpha(s[8]) && s[9] == ']'
  }

  lemma UpperFutureIsLiteral(s: string)
    requires UpperFuture(s)
    ensures Derives(RFC_LITERAL, s, 4, 10) && !Derives(IP_LITERAL_GO, s, 4, 10)
  {
    var v := OneOf("vV");
    var tail := Plus(ItemRule(FutureC));
    PlusOfItems(HexC, s, 6, 7);
    PlusOfItems(FutureC, s, 8, 9);
    assert Derives(v, s, 5, 6) && Derives(Ch('.'), s, 7, 8) && Derives(Ch('['), s, 4, 5) && Derives(Ch(']'), s, 9, 10);
    NotKnown(s);
    hide Derives, Ipv6Address;
    CatJoin(Ch('.'), tail, s, 7, 8, 9);
    CatJoin(Plus(HEXDIG), Cat(Ch('.'), tail), s, 6, 7, 9);
    CatJoin(v, Cat(Plus(HEXDIG), Cat(Ch('.'), tail)), s, 5, 6, 9);
    Alt3(Ipv6Address(LS32), Ipv6Addrz(LS32), IpvFuture(v), s, 5, 9);
    var body := Alt(Ipv6Address(LS32), Alt(Ipv6Addrz(LS32), IpvFuture(v)));
    CatJoin(body, Ch(']'), s, 5, 9, 10);
    CatJoin(Ch('['), Cat(body, Ch(']')), s, 4, 5, 10);
  }

  lemma NotKnown(s: string)
    requires UpperFuture(s)
    ensures !Derives(IP_LITERAL_GO, s, 4, 10)
  {
    LiteralRule(s, 4, 10);
    hide Derives, RunAt;
    if Derives(IPV6_HEX, s, 5, 9) { Ipv6Chars(s, 5, 9); }
    if Derives(ADDRZ_GO, s, 5, 9) { var m := AddrzShape(s, 5, 9); }
    if Derives(FUTURE_GO, s, 5, 9) { var m := FutureShape(s, 5, 9); }
  }

  /** A URI of RFC 3986 that isURI rejects: its grammar has "v" in either case. */
  lemma RejectedUri()
    ensures Matches(RFC_URI, "a://[V1.a]") && !Matches(URI_GO, "a://[V1.a]")
  {
    var s := "a://[V1.a]";
    assert UpperFuture(s);
    UpperFutureRejected(s);
  }

  lemma UpperFutureRejected(s: string)
    requires UpperFuture(s)
    ensures Matches(RFC_URI, s) && !Matches(URI_GO, s)
  {
    UpperFutureIsLiteral(s);
    UpperFutureIsHost(s);
    HostUri(RFC_HOST, s);
    hide Derives, Uri;
    IsUriIffKnown(s);
  }

  lemma UpperFutureIsHost(s: string)
    requires UpperFuture(s) && Derives(RFC_LITERAL, s, 4, 10)
    ensures Derives(RFC_HOST, s, 4, 10)
  {
    UpperFutureDecodes(s);
    hide *;
    LiteralIsHost(s, 4, 10);
    Decoded(HOST_RFC, s, 4, 10);
  }

  lemma LiteralIsHost(s: string, i: nat, j: nat)
    requires Derives(RFC_LITERAL, s, i, j)
    ensures Derives(HOST_RFC, s, i, j)
  {
    hide Derives, IpLiteral;
    RfcHostCases(s, i, j);
  }

  lemma UpperFutureDecodes(s: string)
    requires UpperFuture(s)
    ensures |s| == 10 && Utf8.Valid(Utf8.PctDecode(s[4..10]))
  {
    hide Utf8.Valid, Utf8.PctDecode;
    NoPercent(s, 4, 10);
  }

  lemma NoPercent(s: string, i: nat, j: nat)
    requires i <= j <= |s| && forall k :: i <= k < j ==> s[k] != '%' && s[k] < 128 as char
    ensures Utf8.Valid(Utf8.PctDecode(s[i..j]))
  {
    var t := s[i..j];
    assert t[0..] == t && forall k :: 0 <= k < |t| ==> t[k] == s[i + k];
    Utf8.PlainIsValid(t, 0);
  }

  lemma Decoded(r: Rule, s: string, i: nat, j: nat)
    requires Derives(r, s, i, j) && i <= j <= |s| && Utf8.Valid(Utf8.PctDecode(s[i..j]))
    ensures Derives(Utf8Decoded(r), s, i, j)
  {
  }

  // A letter, ":?//[::", a digit, "]"
  predicate ResumedHost(s: string) {
    && |s| == 10 && IsAlpha(s[0]) && s[1] == ':' && s[2] == '?' && s[3] == '/' && s[4] == '/'
    && s[5] == '[' && s[6] == ':' && s[7] == ':' && IsDigit(s[8]) && s[9] == ']'
  }

  lemma ElidedOne(s: string)
    requires ResumedHost(s)
    ensures Derives(IPV6_HEX, s, 6, 9)
  {
    hide *;
    ResumedSlice(s);
    ElidedForm3(s[6..9]);
    FormInText(s, 6, 9);
  }

  lemma ResumedSlice(s: string)
    requires ResumedHost(s)
    ensures |s| == 10 && s[6..9][0] == ':' && s[6..9][1] == ':' && IsDigit(s[6..9][2])
  {
  }

  lemma FormInText(s: string, i: nat, j: nat)
    requires i <= j <= |s| && Ipv6Text.HexForm(s[i..j], j - i)
    ensures Derives(IPV6_HEX, s, i, j)
  {
    hide *;
    var t := s[i..j];
    FormDerives(t);
    Shift(IPV6_HEX, s, i, t, 0, j - i);
  }

  lemma FormDerives(t: string)
    requires Ipv6Text.HexForm(t, |t|)
    ensures Derives(IPV6_HEX, t, 0, |t|)
  {
    hide Derives, Ipv6Address, Ipv6Text.HexForm;
    Ipv6Text.HexFormIffIpv6Address(t, |t|);
  }

  lemma ElidedForm3(t: string)
    requires |t| == 3 && t[0] == ':' && t[1] == ':' && IsDigit(t[2])
    ensures Ipv6Text.HexForm(t, 3)
  {
    assert Ipv6Text.Groups(t, 2, 3, 1) && Ipv6Text.Groups(t, 0, 0, 0);
    assert Ipv6Text.Elided(t, 3, 0, 0, 1);
  }

  lemma ResumedIsAccepted(s: string)
    requires ResumedHost(s)
    ensures Resumes(s, 3) && OneLiteral(s, 0, |s|)
  {
    hide Derives, RelativeRef;
    ResumedHead(s);
    ResumedAuthority(s);
    ResumedReference(s);
  }

  lemma ResumedHead(s: string)
    requires ResumedHost(s)
    ensures ResumeAt(s, 0, 3)
  {
    assert Derives(PATH_EMPTY, s, 2, 2);
    hide Derives, HierPart;
    SchemeShape(s, 0, 1);
    HierCases(s, 2, 2);
    assert ResumeCut(s, 0, 1, 2, 3);
    ResumeRule(s, 0, 3);
  }

  lemma ResumedAuthority(s: string)
    requires ResumedHost(s)
    ensures Derives(AUTHORITY_GO, s, 5, 10) && OneLiteral(s, 0, |s|)
  {
    hide Derives, Authority;
    ElidedOne(s);
    LiteralFromAddress(s, 5, 10);
    assert LiteralIn(s, 0, 10, 5, 10);
    HostCases(s, 5, 10);
    PlainHost(s, 5, 10);
    AuthorityJoin(HOST_PARSED, s, 5, 5, 10, 10);
  }

  lemma ResumedReference(s: string)
    requires ResumedHost(s) && Derives(AUTHORITY_GO, s, 5, 10)
    ensures Derives(RELATIVE_REF_GO, s, 3, |s|)
  {
    hide Derives, Authority, HierPart, RelativePart, RelativeRef;
    NetPathOf(HOST_PARSED, s, 3, 10);
    assert QueryCut(s, 10, 10);
    RelativeRefRule(s, 3);
  }

  lemma ResumedIsNoReference(s: string)
    requires ResumedHost(s) && Resumes(s, 3)
    ensures !Matches(URI_REFERENCE_GO, s)
  {
    hide Derives, HierPart, RelativePart, RelativeRef, Uri;
    ReferenceCases(s);
    UriRule(s, 0);
    if c: nat, h: nat, q: nat :| HeadCut(s, 0, c, h) && QueryCut(s, h, q) {
      SchemeShape(s, 0, c);
      PartNoDelims(s, c + 1, h);
      CutClean(s, h, q);
    }
  }

  /** A text that isURIRef accepts although it is no URI reference: the failed query leaves the index behind the "?",
      and a relative reference with a bracketed host follows there. */
  lemma ResumedQueryExample()
    ensures IsUriRefText("a:?//[::1]") && !Matches(RFC_URI_REFERENCE, "a:?//[::1]")
  {
    var s := "a:?//[::1]";
    assert ResumedHost(s);
    ResumedQuery(s);
  }

  lemma ResumedQuery(s: string)
    requires ResumedHost(s)
    ensures IsUriRefText(s) && !Matches(RFC_URI_REFERENCE, s)
  {
    hide Derives, Matches, UriReference, Uri, OneLiteral, KnownLiterals;
    ResumedIsAccepted(s);
    ResumedIsNoReference(s);
    OneIsKnown(s);
    IsUriIffKnown(s);
  }
}
