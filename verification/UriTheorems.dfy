/** isURI and isURIRef against the grammar of RFC 3986. */
module UriTheorems {
  import opened Abnf
  import opened UriGrammar
  import opened UriShapes
  import opened UriHost
  import opened UriScan
  import Ipv6Language
  import Ipv6Rfc
  import UriParser
  import Utf8

  method IsUri(val: string) returns (ok: bool)
    ensures ok <==> Matches(URI_GO, val)
  {
    var uri := new UriParser.Parser(val);
    ok := uri.Uri();
  }

  method IsUriRef(val: string) returns (ok: bool)
    ensures ok <==> IsUriRefText(val)
  {
    var uri := new UriParser.Parser(val);
    ok := uri.UriReference();
  }

  // What isURIRef accepts.
  ghost predicate IsUriRefText(s: string) {
    Matches(URI_REFERENCE_GO, s) || exists k: nat :: Resumes(s, k)
  }

  // The host of RFC 3986 and RFC 6874 whose percent-encoding is UTF-8, and the rules over it
  const RFC_HOST: Rule := Utf8Decoded(HOST_RFC)
  const RFC_URI: Rule := Uri(RFC_HOST)
  const RFC_URI_REFERENCE: Rule := UriReference(RFC_HOST)

  /* ---- Rules that derive the same or fewer texts out of s ---- */

  ghost predicate Below(a: Rule, b: Rule, s: string) {
    forall i: nat, j: nat :: Derives(a, s, i, j) ==> Derives(b, s, i, j)
  }

  lemma CatBelow(a: Rule, a': Rule, b: Rule, b': Rule, s: string)
    requires Below(a, a', s) && Below(b, b', s)
    ensures Below(Cat(a, b), Cat(a', b'), s)
  {
    hide Derives;
    forall i: nat, j: nat | Derives(Cat(a, b), s, i, j)
      ensures Derives(Cat(a', b'), s, i, j)
    {
      var k := CatSplit(a, b, s, i, j);
      CatJoin(a', b', s, i, k, j);
    }
  }

  lemma AltBelow(a: Rule, a': Rule, b: Rule, b': Rule, s: string)
    requires Below(a, a', s) && Below(b, b', s)
    ensures Below(Alt(a, b), Alt(a', b'), s)
  {
  }

  lemma Same(a: Rule, s: string)
    ensures Below(a, a, s)
  {
    hide Derives;
  }

  /** Every rule that takes the host as a parameter is monotone in it. */
  lemma HostBelow(h: Rule, h': Rule, s: string)
    requires Below(h, h', s)
    ensures Below(Uri(h), Uri(h'), s) && Below(RelativeRef(h), RelativeRef(h'), s)
    ensures Below(UriReference(h), UriReference(h'), s)
  {
    hide Derives;
    var user, port := Opt(Cat(USERINFO, Ch('@'))), Opt(Cat(Ch(':'), PORT));
    Same(user, s);
    Same(port, s);
    Same(Ch('/'), s);
    Same(PATH_ABEMPTY, s);
    CatBelow(h, h', port, port, s);
    CatBelow(user, user, Cat(h, port), Cat(h', port), s);
    CatBelow(Authority(h), Authority(h'), PATH_ABEMPTY, PATH_ABEMPTY, s);
    var n, n' := Cat(Authority(h), PATH_ABEMPTY), Cat(Authority(h'), PATH_ABEMPTY);
    CatBelow(Ch('/'), Ch('/'), n, n', s);
    CatBelow(Ch('/'), Ch('/'), Cat(Ch('/'), n), Cat(Ch('/'), n'), s);
    PartsBelow(h, h', s);
    Same(QF, s);
    Same(Ch(':'), s);
    Same(SCHEME, s);
    CatBelow(RelativePart(h), RelativePart(h'), QF, QF, s);
    CatBelow(HierPart(h), HierPart(h'), QF, QF, s);
    CatBelow(Ch(':'), Ch(':'), Cat(HierPart(h), QF), Cat(HierPart(h'), QF), s);
    CatBelow(SCHEME, SCHEME, Cat(Ch(':'), Cat(HierPart(h), QF)), Cat(Ch(':'), Cat(HierPart(h'), QF)), s);
    AltBelow(Uri(h), Uri(h'), RelativeRef(h), RelativeRef(h'), s);
  }

  lemma PartsBelow(h: Rule, h': Rule, s: string)
    requires Below(NetPath(h), NetPath(h'), s)
    ensures Below(HierPart(h), HierPart(h'), s) && Below(RelativePart(h), RelativePart(h'), s)
  {
    hide Derives, NetPath;
    var hier := Alt(PATH_ABSOLUTE, Alt(PATH_ROOTLESS, PATH_EMPTY));
    var rel := Alt(PATH_ABSOLUTE, Alt(PATH_NOSCHEME, PATH_EMPTY));
    Same(hier, s);
    Same(rel, s);
    AltBelow(NetPath(h), NetPath(h'), hier, hier, s);
    AltBelow(NetPath(h), NetPath(h'), rel, rel, s);
  }

  /* ---- The host of the parser and the host of the RFC ---- */

  lemma HexIsIpv6(s: string)
    ensures Below(IPV6_HEX, Ipv6Address(LS32), s)
  {
    forall i: nat, j: nat | Derives(IPV6_HEX, s, i, j)
      ensures Derives(Ipv6Address(LS32), s, i, j)
    {
      assert i <= j <= |s|;
      hide Derives, Ipv6Address;
      var t := s[i..j];
      Shift(IPV6_HEX, s, i, t, 0, j - i);
      Ipv6Rfc.Ipv6Either(t, j - i);
      Shift(Ipv6Address(LS32), s, i, t, 0, j - i);
    }
  }

  lemma LiteralBelow(s: string)
    ensures Below(IP_LITERAL_GO, IpLiteral(LS32, OneOf("vV")), s)
  {
    HexIsIpv6(s);
    assert Below(Ch('v'), OneOf("vV"), s);
    hide Derives, Ipv6Address;
    var v6, v6', v, v' := IPV6_HEX, Ipv6Address(LS32), Ch('v'), OneOf("vV");
    var future := Cat(Plus(HEXDIG), FUTURE_TAIL);
    Same(ADDRZ_TAIL, s);
    Same(future, s);
    Same(Ch('['), s);
    Same(Ch(']'), s);
    CatBelow(v6, v6', ADDRZ_TAIL, ADDRZ_TAIL, s);
    CatBelow(v, v', future, future, s);
    AltBelow(Cat(v6, ADDRZ_TAIL), Cat(v6', ADDRZ_TAIL), Cat(v, future), Cat(v', future), s);
    var b, b' := Alt(Cat(v6, ADDRZ_TAIL), Cat(v, future)), Alt(Cat(v6', ADDRZ_TAIL), Cat(v', future));
    AltBelow(v6, v6', b, b', s);
    CatBelow(Alt(v6, b), Alt(v6', b'), Ch(']'), Ch(']'), s);
    CatBelow(Ch('['), Ch('['), Cat(Alt(v6, b), Ch(']')), Cat(Alt(v6', b'), Ch(']')), s);
  }

  lemma RfcHostCases(s: string, i: nat, j: nat)
    ensures Derives(HOST_RFC, s, i, j) <==>
            || Derives(IpLiteral(LS32, OneOf("vV")), s, i, j) || Derives(IPV4, s, i, j) || Derives(REG_NAME, s, i, j)
  {
    hide IpLiteral;
    Alt3(IpLiteral(LS32, OneOf("vV")), IPV4, REG_NAME, s, i, j);
  }

  lemma HostGoBelowRfc(s: string)
    ensures Below(HOST_PARSED, RFC_HOST, s)
  {
    LiteralBelow(s);
    assert Below(HOST_GO, HOST_RFC, s) by {
      hide IpLiteral;
      forall i: nat, j: nat | Derives(HOST_GO, s, i, j)
        ensures Derives(HOST_RFC, s, i, j)
      {
        HostCases(s, i, j);
        RfcHostCases(s, i, j);
      }
    }
    hide IpLiteral;
    Utf8Below(HOST_GO, HOST_RFC, s);
  }

  lemma Utf8Below(a: Rule, b: Rule, s: string)
    requires Below(a, b, s)
    ensures Below(Utf8Decoded(a), Utf8Decoded(b), s)
  {
    forall i: nat, j: nat | Derives(Utf8Decoded(a), s, i, j)
      ensures Derives(Utf8Decoded(b), s, i, j)
    {
    }
  }

  /** IPv4address derives nothing that reg-name does not. */
  lemma Ipv4IsRegName(s: string, i: nat, j: nat)
    requires Derives(IPV4, s, i, j)
    ensures Derives(REG_NAME, s, i, j)
  {
    Ipv6Language.Ipv4Chars(s, i, j);
    DottedRun(s, i, j);
    AuthorityRunShapes(s, i, j);
  }

  lemma {:induction false} DottedRun(s: string, i: nat, j: nat)
    requires i <= j <= |s| && forall k :: i <= k < j ==> IsDigit(s[k]) || s[k] == '.'
    ensures RunAt(RegNameC, s, i, j)
    decreases j - i
  {
    if i < j { DottedRun(s, i + 1, j); }
  }

  lemma LiteralBracket(ls32: Rule, v: Rule, s: string, i: nat, j: nat)
    requires Derives(IpLiteral(ls32, v), s, i, j)
    ensures '[' in s
  {
    var rest := Cat(Alt(Ipv6Address(ls32), Alt(Ipv6Addrz(ls32), IpvFuture(v))), Ch(']'));
    hide Ipv6Address, Ipv6Addrz, IpvFuture;
    var k := CatSplit(Ch('['), rest, s, i, j);
    assert s[i] == '[';
  }

  lemma RfcHostBelowGo(s: string)
    requires '[' !in s
    ensures Below(RFC_HOST, HOST_PARSED, s)
  {
    forall i: nat, j: nat | Derives(HOST_RFC, s, i, j)
      ensures Derives(HOST_GO, s, i, j)
    {
      RfcHostCases(s, i, j);
      HostCases(s, i, j);
      hide Derives, IpLiteral;
      if Derives(IpLiteral(LS32, OneOf("vV")), s, i, j) { LiteralBracket(LS32, OneOf("vV"), s, i, j); }
      if Derives(IPV4, s, i, j) { Ipv4IsRegName(s, i, j); }
    }
    hide IpLiteral;
    Utf8Below(HOST_RFC, HOST_GO, s);
  }

  /* ---- The theorems ---- */

  /** isURI accepts only URIs, whatever the text. */
  lemma IsUriSound(s: string)
    requires Matches(URI_GO, s)
    ensures Matches(RFC_URI, s)
  {
    hide Derives, Uri;
    HostGoBelowRfc(s);
    HostBelow(HOST_PARSED, RFC_HOST, s);
  }

  /** Without an opening bracket it accepts all of them. */
  lemma IsUriIffRfc(s: string)
    requires '[' !in s
    ensures Matches(URI_GO, s) <==> Matches(RFC_URI, s)
    ensures Matches(URI_REFERENCE_GO, s) <==> Matches(RFC_URI_REFERENCE, s)
  {
    hide Derives, Uri, RelativeRef, UriReference;
    HostGoBelowRfc(s);
    RfcHostBelowGo(s);
    HostBelow(HOST_PARSED, RFC_HOST, s);
    HostBelow(RFC_HOST, HOST_PARSED, s);
  }

  /* ---- Where isURIRef goes beyond the grammar ---- */

  // A second number sign: a URI without its fragment up to k - 1, the first "#" there, and a relative
  // reference with a fragment of its own behind it.
  ghost predicate SecondFragmentAt(s: string, k: nat) {
    && 0 < k <= |s| && s[k - 1] == '#' && Derives(URI_HEAD_QUERY, s, 0, k - 1)
    && Derives(RELATIVE_REF_GO, s, k, |s|) && exists m :: k <= m < |s| && s[m] == '#'
  }

  lemma NoBracketPart(s: string, i: nat, h: nat)
    requires '[' !in s && Derives(RELATIVE_PART_GO, s, i, h)
    ensures i <= h <= |s| && RunAt(QueryC, s, i, h)
  {
    HierCases(s, i, h);
    hide Derives, RelativePart;
    if Derives(NET_PATH_GO, s, i, h) {
      NetPathRun(s, i, h);
    } else if Derives(PATH_ABSOLUTE, s, i, h) {
      AbsoluteShape(s, i, h);
      RunWithin(PathC, QueryC, s, i, h);
    } else if Derives(PATH_NOSCHEME, s, i, h) {
      var k := NoschemeShape(s, i, h);
      RunWithin(PathC, QueryC, s, i, h);
    } else {
      EmptyPart(s, i, h);
    }
  }

  lemma NetPathRun(s: string, i: nat, h: nat)
    requires '[' !in s && Derives(NET_PATH_GO, s, i, h)
    ensures i <= h <= |s| && RunAt(QueryC, s, i, h)
  {
    hide Derives, RunAt, HierPart;
    var m := NetPathShape(s, i, h);
    AbemptyShape(s, m, h);
    RunWithin(PathC, QueryC, s, m, h);
    AuthorityRun(s, i + 2, m);
    RunSingle(QueryC, s, i);
    RunSingle(QueryC, s, i + 1);
    RunAppend(QueryC, s, i, i + 1, i + 2);
    RunAppend(QueryC, s, i, i + 2, m);
    RunAppend(QueryC, s, i, m, h);
  }

  lemma AuthorityRun(s: string, i: nat, j: nat)
    requires '[' !in s && Derives(AUTHORITY_GO, s, i, j)
    ensures i <= j <= |s| && RunAt(QueryC, s, i, j)
  {
    hide Derives, RunAt, Authority;
    var u, p := AuthorityShape(HOST_PARSED, s, i, j);
    HostRun(s, u, p);
    if u > i {
      RunWithin(UserinfoC, QueryC, s, i, u - 1);
      RunSingle(QueryC, s, u - 1);
      RunAppend(QueryC, s, i, u - 1, u);
      RunAppend(QueryC, s, i, u, p);
    }
    if p < j {
      RunSingle(QueryC, s, p);
      RunAppend(QueryC, s, i, p, p + 1);
      RunWithin(DigitC, QueryC, s, p + 1, j);
      RunAppend(QueryC, s, i, p + 1, j);
    }
  }

  lemma HostRun(s: string, u: nat, p: nat)
    requires '[' !in s && Derives(HOST_PARSED, s, u, p)
    ensures u <= p <= |s| && RunAt(QueryC, s, u, p)
  {
    ParsedIsHost(s, u, p);
    HostCases(s, u, p);
    if Derives(IP_LITERAL_GO, s, u, p) { LiteralRule(s, u, p); }
    hide Derives, RunAt;
    AuthorityRunShapes(s, u, p);
    RunWithin(RegNameC, QueryC, s, u, p);
  }

  /** Without brackets, resuming matters only behind a second number sign. */
  lemma ResumeNeedsHash(s: string, k: nat)
    requires '[' !in s && Resumes(s, k)
    ensures Matches(URI_GO, s) || SecondFragmentAt(s, k)
  {
    hide Derives, RunAt, HeadCut;
    RelativeRefRule(s, k);
    var h': nat, q: nat :| Derives(RELATIVE_PART_GO, s, k, h') && QueryCut(s, h', q);
    NoBracketPart(s, k, h');
    if q > h' {
      RunSingle(QueryC, s, h');
      RunAppend(QueryC, s, h', h' + 1, q);
      RunAppend(QueryC, s, k, h', q);
    }
    assert RunAt(QueryC, s, k, q);
    ResumeRule(s, 0, k);
    var c: nat, h: nat :| ResumeCut(s, 0, c, h, k);
    UriRule(s, 0);
    if s[k - 1] == '?' {
      assert QueryCut(s, h, q);
    } else if q == |s| {
      assert QueryCut(s, h, k - 1);
    } else {
      assert s[q] == '#';
    }
  }

  /** A URI reference has at most one number sign. */
  lemma ReferenceHash(s: string, a: nat, b: nat)
    requires Matches(URI_REFERENCE_GO, s) && a < b < |s| && s[a] == '#'
    ensures s[b] != '#'
  {
    hide Derives, HierPart, RelativePart, RunAt;
    ReferenceCases(s);
    if Derives(URI_GO, s, 0, |s|) {
      UriRule(s, 0);
      var c: nat, h: nat, q: nat :| HeadCut(s, 0, c, h) && QueryCut(s, h, q);
      SchemeShape(s, 0, c);
      NoHashInScheme(s, c);
      PartNoDelims(s, c + 1, h);
      CutHash(s, h, q, a, b);
    } else {
      RelativeRefRule(s, 0);
      var h: nat, q: nat :| Derives(RELATIVE_PART_GO, s, 0, h) && QueryCut(s, h, q);
      PartNoDelims(s, 0, h);
      CutHash(s, h, q, a, b);
    }
  }

  lemma CutHash(s: string, h: nat, q: nat, a: nat, b: nat)
    requires QueryCut(s, h, q) && h <= a < b < |s| && s[a] == '#'
    ensures s[b] != '#'
  {
    if q > h { QueryNoHash(s, h + 1, q); }
    if q < |s| { QueryNoHash(s, q + 1, |s|); }
  }

  lemma NoHashInScheme(s: string, c: nat)
    requires 0 < c < |s| && IsAlpha(s[0]) && RunAt(SchemeC, s, 1, c)
    ensures forall k :: 0 <= k < c ==> s[k] != '#'
  {
    SchemeNoHash(s, 1, c);
  }

  lemma {:induction false} SchemeNoHash(s: string, i: nat, c: nat)
    requires i <= c <= |s| && RunAt(SchemeC, s, i, c)
    ensures forall k :: i <= k < c ==> s[k] != '#'
    decreases c - i
  {
    if i < c { SchemeNoHash(s, i + 1, c); }
  }

  /** For texts without an opening bracket: isURIRef decides URI-reference exactly when there is no second
      fragment in the sense above. */
  lemma IsUriRefIffRfc(s: string)
    requires '[' !in s
    ensures IsUriRefText(s) <==> Matches(RFC_URI_REFERENCE, s) || exists k: nat :: SecondFragmentAt(s, k)
    ensures (exists k: nat :: SecondFragmentAt(s, k)) ==> !Matches(RFC_URI_REFERENCE, s)
  {
    IsUriIffRfc(s);
    hide Derives, Uri, RelativeRef, UriReference;
    ReferenceCases(s);
    if k: nat :| Resumes(s, k) { ResumeNeedsHash(s, k); }
    if k: nat :| SecondFragmentAt(s, k) {
      assert Resumes(s, k);
      var m :| k <= m < |s| && s[m] == '#';
      if Matches(URI_REFERENCE_GO, s) { ReferenceHash(s, k - 1, m); }
    }
  }

  /** In particular it decides URI-reference on texts with at most one number sign. */
  lemma IsUriRefOneHash(s: string)
    requires '[' !in s && forall a, b :: 0 <= a < |s| && 0 <= b < |s| && s[a] == '#' && s[b] == '#' ==> a == b
    ensures IsUriRefText(s) <==> Matches(RFC_URI_REFERENCE, s)
  {
    hide Derives, Matches, Uri, RelativeRef, UriReference;
    IsUriRefIffRfc(s);
    assert forall k: nat :: !SecondFragmentAt(s, k);
  }

  // A letter, ":#", a letter, "#", a letter
  predicate TwoFragments(s: string) {
    && |s| == 6 && IsAlpha(s[0]) && s[1] == ':' && s[2] == '#'
    && IsAlpha(s[3]) && s[4] == '#' && IsAlpha(s[5])
  }

  lemma TwoHashes(s: string)
    requires TwoFragments(s)
    ensures SecondFragmentAt(s, 3)
  {
    hide Derives, RelativeRef;
    FirstHead(s);
    SecondReference(s);
  }

  lemma FirstHead(s: string)
    requires TwoFragments(s)
    ensures Derives(URI_HEAD_QUERY, s, 0, 2)
  {
    assert Derives(PATH_EMPTY, s, 2, 2);
    hide Derives, HierPart;
    SchemeShape(s, 0, 1);
    HierCases(s, 2, 2);
    assert HeadCut(s, 0, 1, 2);
    OptQueryRule(s, 2, 2);
    HeadQueryRule(s, 0, 2);
  }

  lemma SecondReference(s: string)
    requires TwoFragments(s)
    ensures Derives(RELATIVE_REF_GO, s, 3, |s|)
  {
    assert Derives(PATH_ABEMPTY, s, 4, 4) && RunAt(QueryC, s, 5, 6) && RunAt(SegmentNcC, s, 3, 4);
    hide Derives, RelativePart, RelativeRef, RunAt;
    PlusOfItems(SegmentNcC, s, 3, 4);
    CatJoin(SEGMENT_NZ_NC, PATH_ABEMPTY, s, 3, 4, 4);
    HierCases(s, 3, 4);
    assert QueryCut(s, 4, 4);
    RelativeRefRule(s, 3);
  }

  /** A text that isURIRef accepts although it is no URI reference: the failed fragment leaves the index behind the
      first number sign, and a relative reference with a fragment follows there. */
  lemma SecondFragmentExample()
    ensures IsUriRefText("a:#b#c") && !Matches(RFC_URI_REFERENCE, "a:#b#c")
  {
    var s := "a:#b#c";
    TwoHashes(s);
    IsUriRefIffRfc(s);
    hide Derives, Matches;
  }
}
