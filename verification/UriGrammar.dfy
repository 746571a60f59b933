/** The collected ABNF of Appendix A of RFC 3986, rule by rule. Rules that mention `host` take it as
    a parameter, so that the host of the RFC and the host that the parser accepts share them. */
module UriGrammar {
  import opened Abnf

  const ALPHA: Rule := Alt(Range('A', 'Z'), Range('a', 'z'))
  const DIGIT: Rule := Range('0', '9')
  const HEXDIG: Rule := Alt(DIGIT, Alt(Range('A', 'F'), Range('a', 'f')))

  const UNRESERVED: Rule := Alt(ALPHA, Alt(DIGIT, OneOf("-._~")))
  const SUB_DELIMS: Rule := OneOf("!$&'()*+,;=")
  const PCT_ENCODED: Rule := Cat(Ch('%'), Cat(HEXDIG, HEXDIG))
  const PCHAR: Rule := Alt(UNRESERVED, Alt(PCT_ENCODED, Alt(SUB_DELIMS, OneOf(":@"))))

  const SEGMENT: Rule := Star(PCHAR)
  const SEGMENT_NZ: Rule := Plus(PCHAR)
  const SEGMENT_NZ_NC: Rule := Plus(Alt(UNRESERVED, Alt(PCT_ENCODED, Alt(SUB_DELIMS, Ch('@')))))
  const SLASH_SEGMENT: Rule := Cat(Ch('/'), SEGMENT)
  const PATH_ABEMPTY: Rule := Star(SLASH_SEGMENT)
  const PATH_ABSOLUTE: Rule := Cat(Ch('/'), Opt(Cat(SEGMENT_NZ, Star(SLASH_SEGMENT))))
  const PATH_NOSCHEME: Rule := Cat(SEGMENT_NZ_NC, Star(SLASH_SEGMENT))
  const PATH_ROOTLESS: Rule := Cat(SEGMENT_NZ, Star(SLASH_SEGMENT))
  const PATH_EMPTY: Rule := Empty

  const QUERY: Rule := Star(Alt(PCHAR, OneOf("/?")))
  const FRAGMENT: Rule := Star(Alt(PCHAR, OneOf("/?")))

  const SCHEME_TAIL: Rule := Alt(ALPHA, Alt(DIGIT, OneOf("+-.")))
  const SCHEME: Rule := Cat(ALPHA, Star(SCHEME_TAIL))
  const USERINFO: Rule := Star(Alt(UNRESERVED, Alt(PCT_ENCODED, Alt(SUB_DELIMS, Ch(':')))))
  const PORT: Rule := Star(DIGIT)
  const REG_NAME: Rule := Star(Alt(UNRESERVED, Alt(PCT_ENCODED, SUB_DELIMS)))

  function Authority(host: Rule): Rule {
    Cat(Opt(Cat(USERINFO, Ch('@'))), Cat(host, Opt(Cat(Ch(':'), PORT))))
  }

  function NetPath(host: Rule): Rule {
    Cat(Ch('/'), Cat(Ch('/'), Cat(Authority(host), PATH_ABEMPTY)))
  }

  function HierPart(host: Rule): Rule {
    Alt(NetPath(host), Alt(PATH_ABSOLUTE, Alt(PATH_ROOTLESS, PATH_EMPTY)))
  }

  function RelativePart(host: Rule): Rule {
    Alt(NetPath(host), Alt(PATH_ABSOLUTE, Alt(PATH_NOSCHEME, PATH_EMPTY)))
  }

  const OPT_QUERY: Rule := Opt(Cat(Ch('?'), QUERY))
  const OPT_FRAGMENT: Rule := Opt(Cat(Ch('#'), FRAGMENT))

  function Uri(host: Rule): Rule {
    Cat(SCHEME, Cat(Ch(':'), Cat(HierPart(host), Cat(OPT_QUERY, OPT_FRAGMENT))))
  }

  function RelativeRef(host: Rule): Rule {
    Cat(RelativePart(host), Cat(OPT_QUERY, OPT_FRAGMENT))
  }

  function UriReference(host: Rule): Rule {
    Alt(Uri(host), RelativeRef(host))
  }

  // IPv4address, and IPv6address with its ls32 as a parameter (RFC 3986, section 3.2.2)
  const DEC_OCTET: Rule :=
    Alt(DIGIT,
    Alt(Cat(Range('1', '9'), DIGIT),
    Alt(Cat(Ch('1'), Cat(DIGIT, DIGIT)),
    Alt(Cat(Ch('2'), Cat(Range('0', '4'), DIGIT)),
        Cat(Ch('2'), Cat(Ch('5'), Range('0', '5')))))))
  const IPV4: Rule :=
    Cat(DEC_OCTET, Cat(Ch('.'), Cat(DEC_OCTET, Cat(Ch('.'), Cat(DEC_OCTET, Cat(Ch('.'), DEC_OCTET))))))

  const H16: Rule := Cat(HEXDIG, UpTo(3, HEXDIG))
  const H16_COLON: Rule := Cat(H16, Ch(':'))
  const DOUBLE_COLON: Rule := Cat(Ch(':'), Ch(':'))
  const LS32_HEX: Rule := Cat(H16, Cat(Ch(':'), H16))
  const LS32: Rule := Alt(LS32_HEX, IPV4)

  // [ *n( h16 ":" ) h16 ]
  function UpToGroups(n: nat): Rule { Opt(Cat(UpTo(n, H16_COLON), H16)) }

  // [ *p( h16 ":" ) h16 ] "::" n( h16 ":" ) ls32
  function ElidedForm(p: nat, n: nat, ls32: Rule): Rule {
    Cat(UpToGroups(p), Cat(DOUBLE_COLON, Cat(Times(n, H16_COLON), ls32)))
  }

  function Ipv6Address(ls32: Rule): Rule {
    Alt(Cat(Times(6, H16_COLON), ls32),
    Alt(Cat(DOUBLE_COLON, Cat(Times(5, H16_COLON), ls32)),
    Alt(ElidedForm(0, 4, ls32),
    Alt(ElidedForm(1, 3, ls32),
    Alt(ElidedForm(2, 2, ls32),
    Alt(ElidedForm(3, 1, ls32),
    Alt(ElidedForm(4, 0, ls32),
    Alt(Cat(UpToGroups(5), Cat(DOUBLE_COLON, H16)),
        Cat(UpToGroups(6), DOUBLE_COLON)))))))))
  }

  function IpvFuture(v: Rule): Rule {
    Cat(v, Cat(Plus(HEXDIG), Cat(Ch('.'), Plus(Alt(UNRESERVED, Alt(SUB_DELIMS, Ch(':')))))))
  }

  // Section 2 of RFC 6874
  const ZONE_ID: Rule := Plus(Alt(UNRESERVED, PCT_ENCODED))
  function Ipv6Addrz(ls32: Rule): Rule {
    Cat(Ipv6Address(ls32), Cat(Ch('%'), Cat(Ch('2'), Cat(Ch('5'), ZONE_ID))))
  }

  function IpLiteral(ls32: Rule, v: Rule): Rule {
    Cat(Ch('['), Cat(Alt(Ipv6Address(ls32), Alt(Ipv6Addrz(ls32), IpvFuture(v))), Ch(']')))
  }

  // host of the RFCs: an ABNF literal such as "v" matches either case
  const HOST_RFC: Rule := Alt(IpLiteral(LS32, OneOf("vV")), Alt(IPV4, REG_NAME))
  // host of the parser: no embedded IPv4 address in the brackets, and only a lower-case v
  const IP_LITERAL_GO: Rule := IpLiteral(LS32_HEX, Ch('v'))
  const HOST_GO: Rule := Alt(IP_LITERAL_GO, REG_NAME)
  // section 3.2.2: percent-encoding in a host only represents UTF-8 character sequences
  const HOST_PARSED: Rule := Utf8Decoded(HOST_GO)

  // The rules with the parser's host for their parameter
  const ADDRZ_GO: Rule := Ipv6Addrz(LS32_HEX)
  const FUTURE_GO: Rule := IpvFuture(Ch('v'))
  const AUTHORITY_GO: Rule := Authority(HOST_PARSED)
  const NET_PATH_GO: Rule := NetPath(HOST_PARSED)
  const HIER_PART_GO: Rule := HierPart(HOST_PARSED)
  const RELATIVE_PART_GO: Rule := RelativePart(HOST_PARSED)
  const URI_GO: Rule := Uri(HOST_PARSED)
  const RELATIVE_REF_GO: Rule := RelativeRef(HOST_PARSED)
  const URI_REFERENCE_GO: Rule := UriReference(HOST_PARSED)

  /* ---- Runs of characters and percent-triplets ---- */

  datatype Class =
    | SchemeC | UserinfoC | RegNameC | DigitC | HexC | HexColonC | ZoneC | FutureC
    | PcharC | SegmentNcC | PathC | QueryC

  predicate IsAlpha(c: char) { 'A' <= c <= 'Z' || 'a' <= c <= 'z' }
  predicate IsDigit(c: char) { '0' <= c <= '9' }
  predicate IsHexdig(c: char) { IsDigit(c) || 'A' <= c <= 'F' || 'a' <= c <= 'f' }
  predicate IsUnreserved(c: char) { IsAlpha(c) || IsDigit(c) || c in "-._~" }
  predicate IsSubDelim(c: char) { c in "!$&'()*+,;=" }
  predicate IsPchar(c: char) { IsUnreserved(c) || IsSubDelim(c) || c == ':' || c == '@' }

  predicate In(cls: Class, c: char) {
    match cls
    case SchemeC => IsAlpha(c) || IsDigit(c) || c in "+-."
    case UserinfoC => IsUnreserved(c) || IsSubDelim(c) || c == ':'
    case RegNameC => IsUnreserved(c) || IsSubDelim(c)
    case DigitC => IsDigit(c)
    case HexC => IsHexdig(c)
    case HexColonC => IsHexdig(c) || c == ':'
    case ZoneC => IsUnreserved(c)
    case FutureC => IsUnreserved(c) || IsSubDelim(c) || c == ':'
    case PcharC => IsPchar(c)
    case SegmentNcC => IsUnreserved(c) || IsSubDelim(c) || c == '@'
    case PathC => IsPchar(c) || c == '/'
    case QueryC => IsPchar(c) || c == '/' || c == '?'
  }

  predicate AllowsPct(cls: Class) {
    !cls.SchemeC? && !cls.DigitC? && !cls.HexC? && !cls.HexColonC? && !cls.FutureC?
  }

  function ItemRule(cls: Class): Rule {
    match cls
    case SchemeC => SCHEME_TAIL
    case UserinfoC => Alt(UNRESERVED, Alt(PCT_ENCODED, Alt(SUB_DELIMS, Ch(':'))))
    case RegNameC => Alt(UNRESERVED, Alt(PCT_ENCODED, SUB_DELIMS))
    case DigitC => DIGIT
    case HexC => HEXDIG
    case HexColonC => Alt(HEXDIG, Ch(':'))
    case ZoneC => Alt(UNRESERVED, PCT_ENCODED)
    case FutureC => Alt(UNRESERVED, Alt(SUB_DELIMS, Ch(':')))
    case PcharC => PCHAR
    case SegmentNcC => Alt(UNRESERVED, Alt(PCT_ENCODED, Alt(SUB_DELIMS, Ch('@'))))
    case PathC => Alt(PCHAR, Ch('/'))
    case QueryC => Alt(PCHAR, OneOf("/?"))
  }

  // A complete percent-triplet starts at i.
  predicate PctAt(s: string, i: nat) {
    i + 2 < |s| && s[i] == '%' && IsHexdig(s[i + 1]) && IsHexdig(s[i + 2])
  }

  predicate RunAt(cls: Class, s: string, i: nat, j: nat)
    requires j <= |s|
    decreases j - i
  {
    || i == j
    || (i < j && In(cls, s[i]) && RunAt(cls, s, i + 1, j))
    || (i + 3 <= j && AllowsPct(cls) && PctAt(s, i) && RunAt(cls, s, i + 3, j))
  }

  /** Where the greedy scan of items of the class ends. */
  function Span(cls: Class, s: string, i: nat): (e: nat)
    requires i <= |s|
    ensures i <= e <= |s|
    ensures RunAt(cls, s, i, e)
    ensures e < |s| ==> !In(cls, s[e]) && !(AllowsPct(cls) && PctAt(s, e))
    decreases |s| - i
  {
    if i < |s| && In(cls, s[i]) then Span(cls, s, i + 1)
    else if AllowsPct(cls) && PctAt(s, i) then Span(cls, s, i + 3)
    else i
  }

  /** The greedy scan finds any run that stops at a character it could not go past: a run is never cut
      differently. */
  lemma {:induction false} SpanIsTheRun(cls: Class, s: string, i: nat, j: nat)
    requires i <= j <= |s| && RunAt(cls, s, i, j)
    requires j == |s| || (!In(cls, s[j]) && (s[j] != '%' || !AllowsPct(cls)))
    ensures Span(cls, s, i) == j
    decreases j - i
  {
    if i < j {
      if In(cls, s[i]) && RunAt(cls, s, i + 1, j) {
        SpanIsTheRun(cls, s, i + 1, j);
      } else {
        SpanIsTheRun(cls, s, i + 3, j);
      }
    }
  }

  lemma {:induction false} RunAppend(cls: Class, s: string, i: nat, k: nat, j: nat)
    requires i <= k <= j <= |s| && RunAt(cls, s, i, k) && RunAt(cls, s, k, j)
    ensures RunAt(cls, s, i, j)
    decreases k - i
  {
    if i < k {
      if In(cls, s[i]) && RunAt(cls, s, i + 1, k) {
        RunAppend(cls, s, i + 1, k, j);
      } else {
        RunAppend(cls, s, i + 3, k, j);
      }
    }
  }

  // Class a is contained in class b.
  ghost predicate Within(a: Class, b: Class) {
    (forall c :: In(a, c) ==> In(b, c)) && (AllowsPct(a) ==> AllowsPct(b))
  }

  lemma {:induction false} RunWithin(a: Class, b: Class, s: string, i: nat, j: nat)
    requires i <= j <= |s| && RunAt(a, s, i, j) && Within(a, b)
    ensures RunAt(b, s, i, j)
    decreases j - i
  {
    if i < j {
      if In(a, s[i]) && RunAt(a, s, i + 1, j) {
        RunWithin(a, b, s, i + 1, j);
      } else {
        RunWithin(a, b, s, i + 3, j);
      }
    }
  }

  /* ---- What the terminal rules derive ---- */

  lemma CharRules(s: string, i: nat, j: nat)
    ensures Derives(ALPHA, s, i, j) <==> i < |s| && j == i + 1 && IsAlpha(s[i])
    ensures Derives(DIGIT, s, i, j) <==> i < |s| && j == i + 1 && IsDigit(s[i])
    ensures Derives(HEXDIG, s, i, j) <==> i < |s| && j == i + 1 && IsHexdig(s[i])
    ensures Derives(UNRESERVED, s, i, j) <==> i < |s| && j == i + 1 && IsUnreserved(s[i])
    ensures Derives(SUB_DELIMS, s, i, j) <==> i < |s| && j == i + 1 && IsSubDelim(s[i])
  {
    assert Derives(Alt(Range('A', 'F'), Range('a', 'f')), s, i, j)
      <==> i < |s| && j == i + 1 && ('A' <= s[i] <= 'F' || 'a' <= s[i] <= 'f');
    assert Derives(Alt(DIGIT, OneOf("-._~")), s, i, j)
      <==> i < |s| && j == i + 1 && (IsDigit(s[i]) || s[i] in "-._~");
  }

  lemma PercentRule(s: string, i: nat, j: nat)
    ensures Derives(Ch('%'), s, i, j) <==> i < |s| && j == i + 1 && s[i] == '%'
  {
  }

  lemma PctRule(s: string, i: nat, j: nat)
    ensures Derives(PCT_ENCODED, s, i, j) <==> j == i + 3 && PctAt(s, i)
  {
    var hh := Cat(HEXDIG, HEXDIG);
    forall k: nat { PercentRule(s, i, k); }
    hide Derives;
    if Derives(PCT_ENCODED, s, i, j) {
      var k := CatSplit(Ch('%'), hh, s, i, j);
      var m := CatSplit(HEXDIG, HEXDIG, s, k, j);
      CharRules(s, k, m);
      CharRules(s, m, j);
    }
    if j == i + 3 && PctAt(s, i) {
      CharRules(s, i + 1, i + 2);
      CharRules(s, i + 2, i + 3);
      CatJoin(HEXDIG, HEXDIG, s, i + 1, i + 2, i + 3);
      CatJoin(Ch('%'), hh, s, i, i + 1, i + 3);
    }
  }

  lemma Alt3(a: Rule, b: Rule, c: Rule, s: string, i: nat, j: nat)
    ensures Derives(Alt(a, Alt(b, c)), s, i, j)
            <==> Derives(a, s, i, j) || Derives(b, s, i, j) || Derives(c, s, i, j)
  {
  }

  lemma PcharRule(s: string, i: nat, j: nat)
    ensures Derives(PCHAR, s, i, j)
            <==> (i < |s| && j == i + 1 && IsPchar(s[i])) || (j == i + 3 && PctAt(s, i))
  {
    CharRules(s, i, j);
    PctRule(s, i, j);
    Alt3(UNRESERVED, PCT_ENCODED, Alt(SUB_DELIMS, OneOf(":@")), s, i, j);
  }

  /** One item of a class is one of its characters or, where allowed, one percent-triplet. */
  lemma ItemDerives(cls: Class, s: string, i: nat, j: nat)
    ensures Derives(ItemRule(cls), s, i, j)
            <==> || (i < |s| && j == i + 1 && In(cls, s[i]))
                 || (AllowsPct(cls) && j == i + 3 && PctAt(s, i))
  {
    if AllowsPct(cls) { PctItemDerives(cls, s, i, j); } else { PlainItemDerives(cls, s, i, j); }
  }

  lemma PlainItemDerives(cls: Class, s: string, i: nat, j: nat)
    requires !AllowsPct(cls)
    ensures Derives(ItemRule(cls), s, i, j) <==> i < |s| && j == i + 1 && In(cls, s[i])
  {
    CharRules(s, i, j);
    match cls
    case SchemeC => Alt3(ALPHA, DIGIT, OneOf("+-."), s, i, j);
    case FutureC => Alt3(UNRESERVED, SUB_DELIMS, Ch(':'), s, i, j);
    case DigitC | HexC | HexColonC =>
  }

  lemma SubDelimOr(c: char, s: string, i: nat, j: nat)
    ensures Derives(Alt(SUB_DELIMS, Ch(c)), s, i, j) <==> i < |s| && j == i + 1 && (IsSubDelim(s[i]) || s[i] == c)
  {
    CharRules(s, i, j);
  }

  lemma ZoneItemRule(s: string, i: nat, j: nat)
    ensures Derives(Alt(UNRESERVED, PCT_ENCODED), s, i, j)
            <==> Derives(UNRESERVED, s, i, j) || Derives(PCT_ENCODED, s, i, j)
  {
  }

  lemma PathItemRules(s: string, i: nat, j: nat)
    ensures Derives(Alt(PCHAR, Ch('/')), s, i, j) <==> Derives(PCHAR, s, i, j) || (i < |s| && j == i + 1 && s[i] == '/')
    ensures Derives(Alt(PCHAR, OneOf("/?")), s, i, j)
            <==> Derives(PCHAR, s, i, j) || (i < |s| && j == i + 1 && (s[i] == '/' || s[i] == '?'))
  {
  }

  lemma PctItemDerives(cls: Class, s: string, i: nat, j: nat)
    requires AllowsPct(cls)
    ensures Derives(ItemRule(cls), s, i, j)
            <==> (i < |s| && j == i + 1 && In(cls, s[i])) || (j == i + 3 && PctAt(s, i))
  {
    CharRules(s, i, j);
    PctRule(s, i, j);
    SubDelimOr(':', s, i, j);
    SubDelimOr('@', s, i, j);
    ZoneItemRule(s, i, j);
    PathItemRules(s, i, j);
    hide Derives, PctAt;
    match cls
    case UserinfoC => Alt3(UNRESERVED, PCT_ENCODED, Alt(SUB_DELIMS, Ch(':')), s, i, j);
    case SegmentNcC => Alt3(UNRESERVED, PCT_ENCODED, Alt(SUB_DELIMS, Ch('@')), s, i, j);
    case RegNameC => Alt3(UNRESERVED, PCT_ENCODED, SUB_DELIMS, s, i, j);
    case ZoneC =>
    case PcharC | PathC | QueryC => PcharRule(s, i, j);
  }

  /** *item derives exactly the runs. */
  lemma {:induction false} StarOfItems(cls: Class, s: string, i: nat, j: nat)
    requires i <= j <= |s|
    ensures Derives(Star(ItemRule(cls)), s, i, j) <==> RunAt(cls, s, i, j)
    decreases j - i
  {
    var r := ItemRule(cls);
    if i < j {
      if Derives(Star(r), s, i, j) {
        var k := StarSplit(r, s, i, j);
        ItemDerives(cls, s, i, k);
        StarOfItems(cls, s, k, j);
      }
      if RunAt(cls, s, i, j) {
        var k := if In(cls, s[i]) && RunAt(cls, s, i + 1, j) then i + 1 else i + 3;
        ItemDerives(cls, s, i, k);
        StarOfItems(cls, s, k, j);
      }
    }
  }

  /** 1*item derives exactly the runs that are not empty. */
  lemma PlusOfItems(cls: Class, s: string, i: nat, j: nat)
    requires i <= j <= |s|
    ensures Derives(Plus(ItemRule(cls)), s, i, j) <==> i < j && RunAt(cls, s, i, j)
  {
    var r := ItemRule(cls);
    if Derives(Plus(r), s, i, j) {
      var k := CatSplit(r, Star(r), s, i, j);
      ItemDerives(cls, s, i, k);
      StarOfItems(cls, s, k, j);
    }
    if i < j && RunAt(cls, s, i, j) {
      var k := if In(cls, s[i]) && RunAt(cls, s, i + 1, j) then i + 1 else i + 3;
      ItemDerives(cls, s, i, k);
      StarOfItems(cls, s, k, j);
      CatJoin(r, Star(r), s, i, k, j);
    }
  }
}
