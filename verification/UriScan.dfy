/** Determinism of the URI grammar: between its delimiters a text can be cut into components in only one
    way, so that a greedy scan finds the cut of any derivation. */
module UriScan {
  import opened Abnf
  import opened UriGrammar
  import opened UriShapes
  import opened UriHost
  import Utf8

  // s[i..j] contains neither a question mark nor a number sign.
  predicate NoDelims(s: string, i: nat, j: nat) {
    i <= j <= |s| && forall k :: i <= k < j ==> s[k] !in "?#"
  }

  lemma UniqueEnd(s: string, i: nat, j: nat, k: nat)
    requires NoDelims(s, i, j) && EndsAt("?#", s, j) && NoDelims(s, i, k) && EndsAt("?#", s, k)
    ensures j == k
  {
  }

  lemma {:induction false} PathNoDelims(s: string, i: nat, j: nat)
    requires i <= j <= |s| && RunAt(PathC, s, i, j)
    ensures NoDelims(s, i, j)
    decreases j - i
  {
    if i < j {
      if In(PathC, s[i]) && RunAt(PathC, s, i + 1, j) {
        PathNoDelims(s, i + 1, j);
      } else {
        PathNoDelims(s, i + 3, j);
      }
    }
  }

  lemma {:induction false} QueryNoHash(s: string, i: nat, j: nat)
    requires i <= j <= |s| && RunAt(QueryC, s, i, j)
    ensures forall k :: i <= k < j ==> s[k] != '#' && s[k] != '['
    decreases j - i
  {
    if i < j {
      if In(QueryC, s[i]) && RunAt(QueryC, s, i + 1, j) {
        QueryNoHash(s, i + 1, j);
      } else {
        QueryNoHash(s, i + 3, j);
      }
    }
  }

  /** A scan does not run past a character that is neither of its class nor part of a triplet. */
  lemma {:induction false} SpanStops(cls: Class, s: string, i: nat, k: nat)
    requires i <= k <= |s| && (k < |s| ==> !In(cls, s[k]) && s[k] != '%' && !IsHexdig(s[k]))
    ensures Span(cls, s, i) <= k
    decreases k - i
  {
    if i < k {
      if In(cls, s[i]) {
        SpanStops(cls, s, i + 1, k);
      } else if AllowsPct(cls) && PctAt(s, i) {
        assert k != i + 1 && k != i + 2;
        SpanStops(cls, s, i + 3, k);
      }
    }
  }

  /* ---- Authority ---- */

  lemma ParsedIsHost(s: string, i: nat, j: nat)
    requires Derives(HOST_PARSED, s, i, j)
    ensures Derives(HOST_GO, s, i, j)
  {
  }

  // The characters of an authority, its first "@" apart.
  lemma AuthorityChars(s: string, i: nat, j: nat, u: nat, p: nat)
    requires AuthorityCut(s, i, j, u, p) && Derives(HOST_GO, s, u, p)
    ensures forall k :: u <= k < j ==> s[k] !in "@/?#"
    ensures forall k :: i <= k < j ==> s[k] !in "/?#"
  {
    HostTriplets(s, u, p);
    hide Derives, RunAt;
    if u > i { RunTriplets(UserinfoC, s, i, u - 1); }
    if p < j { RunTriplets(DigitC, s, p + 1, j); }
  }

  /** The scan for userinfo, and then for the host, finds the cut of any authority that ends at a slash,
      a question mark, a number sign or the end. */
  lemma AuthorityIsScanned(s: string, i: nat, j: nat) returns (u: nat, p: nat)
    requires Derives(AUTHORITY_GO, s, i, j) && EndsAt("/?#", s, j)
    ensures AuthorityCut(s, i, j, u, p) && Derives(HOST_PARSED, s, u, p) && EndsAt(":/?#", s, p)
    ensures var e := Span(UserinfoC, s, i); u == if e < |s| && s[e] == '@' then e + 1 else i
    ensures p < j ==> Span(DigitC, s, p + 1) == j
  {
    hide Derives, RunAt, Span;
    u, p := AuthorityShape(HOST_PARSED, s, i, j);
    ParsedIsHost(s, u, p);
    AuthorityChars(s, i, j, u, p);
    ScannedUserinfo(s, i, j, u, p);
    if p < j { SpanIsTheRun(DigitC, s, p + 1, j); }
  }

  lemma ScannedUserinfo(s: string, i: nat, j: nat, u: nat, p: nat)
    requires AuthorityCut(s, i, j, u, p) && j <= |s| && EndsAt("/?#", s, j)
    requires (forall k :: u <= k < j ==> s[k] !in "@/?#") && forall k :: i <= k < j ==> s[k] !in "/?#"
    ensures i <= |s|
    ensures var e := Span(UserinfoC, s, i); u == if e < |s| && s[e] == '@' then e + 1 else i
  {
    hide RunAt, Span;
    if u > i { SpanIsTheRun(UserinfoC, s, i, u - 1); } else { SpanStops(UserinfoC, s, i, j); }
  }

  /* ---- Hierarchical and relative parts ---- */

  lemma NetPathShape(s: string, i: nat, j: nat) returns (m: nat)
    requires Derives(NET_PATH_GO, s, i, j)
    ensures i + 2 <= m <= j <= |s| && s[i] == '/' && s[i + 1] == '/'
    ensures Derives(AUTHORITY_GO, s, i + 2, m) && Derives(PATH_ABEMPTY, s, m, j)
    ensures EndsAt("?#", s, j) ==> EndsAt("/?#", s, m)
    ensures NoDelims(s, i, j)
  {
    hide Derives, Authority, RunAt;
    var rest := Cat(AUTHORITY_GO, PATH_ABEMPTY);
    CharCut('/', Cat(Ch('/'), rest), s, i, j);
    CharCut('/', rest, s, i + 1, j);
    m := CatSplit(AUTHORITY_GO, PATH_ABEMPTY, s, i + 2, j);
    AbemptyShape(s, m, j);
    PathNoDelims(s, m, j);
    var u, p := AuthorityShape(HOST_PARSED, s, i + 2, m);
    ParsedIsHost(s, u, p);
    AuthorityChars(s, i + 2, m, u, p);
  }

  lemma NetPathJoin(s: string, i: nat, m: nat, j: nat)
    requires i + 2 <= |s| && s[i] == '/' && s[i + 1] == '/'
    requires Derives(AUTHORITY_GO, s, i + 2, m) && Derives(PATH_ABEMPTY, s, m, j)
    ensures Derives(NET_PATH_GO, s, i, j)
  {
    hide Derives, Authority;
    var r2 := Cat(AUTHORITY_GO, PATH_ABEMPTY);
    CatJoin(AUTHORITY_GO, PATH_ABEMPTY, s, i + 2, m, j);
    OneChar('/', s, i + 1, i + 2);
    CatJoin(Ch('/'), r2, s, i + 1, i + 2, j);
    OneChar('/', s, i, i + 1);
    CatJoin(Ch('/'), Cat(Ch('/'), r2), s, i, i + 1, j);
  }

  lemma HierCases(s: string, i: nat, j: nat)
    ensures Derives(HIER_PART_GO, s, i, j) <==>
            || Derives(NET_PATH_GO, s, i, j) || Derives(PATH_ABSOLUTE, s, i, j)
            || Derives(PATH_ROOTLESS, s, i, j) || Derives(PATH_EMPTY, s, i, j)
    ensures Derives(RELATIVE_PART_GO, s, i, j) <==>
            || Derives(NET_PATH_GO, s, i, j) || Derives(PATH_ABSOLUTE, s, i, j)
            || Derives(PATH_NOSCHEME, s, i, j) || Derives(PATH_EMPTY, s, i, j)
  {
    hide NetPath;
    Alt3(NET_PATH_GO, PATH_ABSOLUTE, Alt(PATH_ROOTLESS, PATH_EMPTY), s, i, j);
    Alt3(NET_PATH_GO, PATH_ABSOLUTE, Alt(PATH_NOSCHEME, PATH_EMPTY), s, i, j);
  }

  /** Hierarchical and relative parts end at the first question mark or number sign. */
  lemma PartNoDelims(s: string, i: nat, j: nat)
    requires Derives(HIER_PART_GO, s, i, j) || Derives(RELATIVE_PART_GO, s, i, j)
    ensures NoDelims(s, i, j)
  {
    HierCases(s, i, j);
    hide HierPart, RelativePart, NetPath;
    if Derives(NET_PATH_GO, s, i, j) {
      var m := NetPathShape(s, i, j);
    } else if Derives(PATH_ABSOLUTE, s, i, j) {
      AbsoluteShape(s, i, j);
      PathNoDelims(s, i, j);
    } else if Derives(PATH_ROOTLESS, s, i, j) {
      RootlessShape(s, i, j);
      PathNoDelims(s, i, j);
    } else if Derives(PATH_NOSCHEME, s, i, j) {
      var k := NoschemeShape(s, i, j);
      PathNoDelims(s, i, j);
    }
  }

  /* ---- Query and fragment behind a part ---- */

  const QF: Rule := Cat(OPT_QUERY, OPT_FRAGMENT)

  // Where the query stops in [ "?" query ] [ "#" fragment ], and what the two are.
  predicate QueryCut(s: string, i: nat, q: nat) {
    && i <= q <= |s|
    && (q == i || (s[i] == '?' && i < q && RunAt(QueryC, s, i + 1, q)))
    && (q == |s| || (s[q] == '#' && RunAt(QueryC, s, q + 1, |s|)))
  }

  lemma OptQueryRule(s: string, i: nat, q: nat)
    ensures Derives(OPT_QUERY, s, i, q)
            <==> i <= q <= |s| && (q == i || (s[i] == '?' && i < q && RunAt(QueryC, s, i + 1, q)))
  {
    OptCases(Cat(Ch('?'), QUERY), s, i, q);
    hide Derives;
    if Derives(Cat(Ch('?'), QUERY), s, i, q) {
      var k := CatSplit(Ch('?'), QUERY, s, i, q);
      OneChar('?', s, i, k);
      QueryShape(s, k, q);
    }
    if i < q <= |s| && s[i] == '?' && RunAt(QueryC, s, i + 1, q) {
      OneChar('?', s, i, i + 1);
      QueryShape(s, i + 1, q);
      CatJoin(Ch('?'), QUERY, s, i, i + 1, q);
    }
  }

  lemma OptFragmentRule(s: string, i: nat, q: nat)
    ensures Derives(OPT_FRAGMENT, s, i, q)
            <==> i <= q <= |s| && (q == i || (s[i] == '#' && i < q && RunAt(QueryC, s, i + 1, q)))
  {
    OptCases(Cat(Ch('#'), FRAGMENT), s, i, q);
    hide Derives;
    if Derives(Cat(Ch('#'), FRAGMENT), s, i, q) {
      var k := CatSplit(Ch('#'), FRAGMENT, s, i, q);
      OneChar('#', s, i, k);
      QueryShape(s, k, q);
    }
    if i < q <= |s| && s[i] == '#' && RunAt(QueryC, s, i + 1, q) {
      OneChar('#', s, i, i + 1);
      QueryShape(s, i + 1, q);
      CatJoin(Ch('#'), FRAGMENT, s, i, i + 1, q);
    }
  }

  lemma QueryFragmentRule(s: string, i: nat)
    requires i <= |s|
    ensures Derives(QF, s, i, |s|) <==> exists q: nat :: QueryCut(s, i, q)
  {
    hide Derives, RunAt;
    if Derives(QF, s, i, |s|) {
      var q := CatSplit(OPT_QUERY, OPT_FRAGMENT, s, i, |s|);
      OptQueryRule(s, i, q);
      OptFragmentRule(s, q, |s|);
      assert QueryCut(s, i, q);
    }
    if q: nat :| QueryCut(s, i, q) {
      OptQueryRule(s, i, q);
      OptFragmentRule(s, q, |s|);
      CatJoin(OPT_QUERY, OPT_FRAGMENT, s, i, q, |s|);
    }
  }

  /** The greedy scan for a query finds the cut. */
  lemma QueryIsScanned(s: string, i: nat, q: nat)
    requires QueryCut(s, i, q)
    ensures i < |s| && s[i] == '?' ==> q == Span(QueryC, s, i + 1)
    ensures i == |s| || s[i] != '?' ==> q == i
    ensures q < |s| ==> Span(QueryC, s, q + 1) == |s|
  {
    if i < |s| && s[i] == '?' {
      assert q != i;
      SpanIsTheRun(QueryC, s, i + 1, q);
    }
    if q < |s| { SpanIsTheRun(QueryC, s, q + 1, |s|); }
  }

  /* ---- One step of a scan ---- */

  predicate HasPct(s: string, i: nat, j: nat)
    requires j <= |s|
  {
    exists k :: i <= k < j && s[k] == '%'
  }

  function After(s: string, i: nat): nat
    requires i < |s|
  {
    if s[i] == '%' then i + 3 else i + 1
  }

  predicate ItemAt(cls: Class, s: string, i: nat) {
    i < |s| && (In(cls, s[i]) || (AllowsPct(cls) && PctAt(s, i)))
  }

  lemma ScanStep(cls: Class, s: string, start: nat, i: nat)
    requires start <= i <= |s| && Span(cls, s, i) == Span(cls, s, start)
    ensures !ItemAt(cls, s, i) ==> i == Span(cls, s, start)
    ensures ItemAt(cls, s, i) ==> After(s, i) <= |s| && Span(cls, s, After(s, i)) == Span(cls, s, start)
    ensures ItemAt(cls, s, i) ==> (HasPct(s, start, After(s, i)) <==> HasPct(s, start, i) || s[i] == '%')
  {
  }

  /* ---- Scans and path rules ---- */

  lemma SlashSegmentStep(s: string, start: nat, i: nat, j: nat)
    requires start <= i < |s| && s[i] == '/' && j == Span(PcharC, s, i + 1)
    requires Derives(PATH_ABEMPTY, s, start, i) && Span(PathC, s, i) == Span(PathC, s, start)
    ensures Derives(PATH_ABEMPTY, s, start, j) && Span(PathC, s, j) == Span(PathC, s, start)
  {
    SegmentShape(s, i + 1, j);
    CatJoin(Ch('/'), SEGMENT, s, i, i + 1, j);
    StarSnoc(SLASH_SEGMENT, s, start, i, j);
    SpanSkips(PcharC, PathC, s, i + 1, j);
  }

  // Where neither a slash nor a path character follows, the scan of the path has ended.
  lemma PathEnds(s: string, i: nat)
    requires i <= |s| && !ItemAt(PcharC, s, i) && (i < |s| ==> s[i] != '/')
    ensures Span(PathC, s, i) == i
  {
  }

  lemma AbemptyIsScanned(s: string, i: nat, k: nat)
    requires Derives(PATH_ABEMPTY, s, i, k) && EndsAt("?#", s, k)
    ensures i <= |s| && k == if i < |s| && s[i] == '/' then Span(PathC, s, i) else i
  {
    AbemptyShape(s, i, k);
    SpanIsTheRun(PathC, s, i, k);
  }

  lemma RootlessIsScanned(s: string, i: nat, k: nat)
    requires Derives(PATH_ROOTLESS, s, i, k) && EndsAt("?#", s, k)
    ensures i < |s| && k == Span(PathC, s, i) && Span(PcharC, s, i) > i
  {
    RootlessShape(s, i, k);
    SpanIsTheRun(PathC, s, i, k);
  }

  lemma RootlessScan(s: string, i: nat, m: nat, j: nat)
    requires i < m <= |s| && m == Span(PcharC, s, i) && Derives(PATH_ABEMPTY, s, m, j)
    requires j == if m < |s| && s[m] == '/' then Span(PathC, s, m) else m
    ensures Derives(PATH_ROOTLESS, s, i, j) && j == Span(PathC, s, i)
  {
    SegmentShape(s, i, m);
    CatJoin(SEGMENT_NZ, PATH_ABEMPTY, s, i, m, j);
    SpanSkips(PcharC, PathC, s, i, m);
    if m == |s| || s[m] != '/' { PathEnds(s, m); }
  }

  lemma AbsoluteIsScanned(s: string, i: nat, k: nat)
    requires Derives(PATH_ABSOLUTE, s, i, k) && EndsAt("?#", s, k)
    ensures i < |s| && s[i] == '/' && k == if Span(PcharC, s, i + 1) > i + 1 then Span(PathC, s, i + 1) else i + 1
  {
    AbsoluteShape(s, i, k);
    if i + 1 < k {
      var k' := CatSplit(Ch('/'), Opt(PATH_ROOTLESS), s, i, k);
      OptCases(PATH_ROOTLESS, s, i + 1, k);
      RootlessIsScanned(s, i + 1, k);
    }
  }

  lemma AbsoluteScan(s: string, i: nat, m: nat, j: nat)
    requires i < |s| && s[i] == '/' && m == Span(PcharC, s, i + 1)
    requires if m > i + 1
             then Derives(PATH_ABEMPTY, s, m, j) && j == if m < |s| && s[m] == '/' then Span(PathC, s, m) else m
             else j == m
    ensures Derives(PATH_ABSOLUTE, s, i, j)
    ensures j == if m > i + 1 then Span(PathC, s, i + 1) else i + 1
  {
    OptCases(PATH_ROOTLESS, s, i + 1, j);
    if m > i + 1 { RootlessScan(s, i + 1, m, j); }
    CatJoin(Ch('/'), Opt(PATH_ROOTLESS), s, i, i + 1, j);
  }

  lemma NoschemeIsScanned(s: string, i: nat, k: nat)
    requires Derives(PATH_NOSCHEME, s, i, k) && EndsAt("?#", s, k)
    ensures i < |s| && Span(SegmentNcC, s, i) > i
    ensures var m := Span(SegmentNcC, s, i); k == if m < |s| && s[m] == '/' then Span(PathC, s, m) else m
  {
    var m := NoschemeShape(s, i, k);
    AbemptyIsScanned(s, m, k);
    SpanIsTheRun(SegmentNcC, s, i, m);
  }

  /* ---- Bracketed literals ---- */

  // The greedy reading of an IPvFuture: hexadecimal digits up to m, a dot, and the rest up to k.
  predicate FutureScan(s: string, i: nat, m: nat, k: nat) {
    && i + 1 < m <= |s| && s[i] == 'v' && m == Span(HexC, s, i + 1)
    && m < |s| && s[m] == '.' && k == Span(FutureC, s, m + 1) > m + 1
  }

  lemma FutureIsScanned(s: string, i: nat, k: nat)
    requires Derives(FUTURE_GO, s, i, k) && k < |s| && s[k] == ']'
    ensures i < |s| && FutureScan(s, i, Span(HexC, s, i + 1), k)
  {
    hide Derives;
    var m := FutureShape(s, i, k);
    SpanIsTheRun(FutureC, s, m + 1, k);
  }

  // The greedy reading of an IPv6addrz: the address up to m, "%25", and the zone up to k.
  ghost predicate AddrzScan(s: string, i: nat, m: nat, k: nat) {
    && i <= |s| && m == Span(HexColonC, s, i) && Derives(IPV6_HEX, s, i, m)
    && m + 3 < |s| && s[m] == '%' && s[m + 1] == '2' && s[m + 2] == '5' && k == Span(ZoneC, s, m + 3) > m + 3
  }

  lemma AddrzIsScanned(s: string, i: nat, k: nat)
    requires Derives(ADDRZ_GO, s, i, k) && k < |s| && s[k] == ']'
    ensures i <= |s| && AddrzScan(s, i, Span(HexColonC, s, i), k)
  {
    hide Derives;
    var m := AddrzShape(s, i, k);
    SpanIsTheRun(ZoneC, s, m + 3, k);
  }

  /** A bracketed literal is read in one of three ways, told apart by the character that stops the scan. */
  lemma LiteralIsScanned(s: string, i: nat, k: nat)
    requires Derives(IP_LITERAL_GO, s, i, k)
    ensures i + 2 <= k <= |s| && s[i] == '[' && s[k - 1] == ']'
    ensures var m := Span(HexColonC, s, i + 1);
      || (Derives(IPV6_HEX, s, i + 1, m) && k == m + 1)
      || AddrzScan(s, i + 1, m, k - 1)
      || (s[i + 1] == 'v' && FutureScan(s, i + 1, Span(HexC, s, i + 2), k - 1))
  {
    LiteralRule(s, i, k);
    hide Derives;
    if Derives(IPV6_HEX, s, i + 1, k - 1) {
      Ipv6Chars(s, i + 1, k - 1);
      HexColonsIsRun(s, i + 1, k - 1);
      SpanIsTheRun(HexColonC, s, i + 1, k - 1);
    } else if Derives(ADDRZ_GO, s, i + 1, k - 1) {
      AddrzIsScanned(s, i + 1, k - 1);
    } else {
      FutureIsScanned(s, i + 1, k - 1);
    }
  }

  lemma AddrzFromScan(s: string, i: nat, m: nat, k: nat)
    requires AddrzScan(s, i, m, k)
    ensures k <= |s| && Derives(ADDRZ_GO, s, i, k)
  {
    hide Derives;
    AddrzJoin(s, i, m, k);
  }

  lemma FutureFromScan(s: string, i: nat, m: nat, k: nat)
    requires FutureScan(s, i, m, k)
    ensures k <= |s| && Derives(FUTURE_GO, s, i, k)
  {
    hide Derives;
    FutureJoin(s, i, m, k);
  }

  lemma Ipv6NoPct(s: string, i: nat, j: nat)
    requires Derives(IPV6_HEX, s, i, j)
    ensures forall k :: i <= k < j ==> s[k] != '%' && s[k] != ']'
  {
    Ipv6Chars(s, i, j);
  }

  /** The scan for a registered name finds any that the port or the end of the authority follows. */
  lemma RegNameIsScanned(s: string, i: nat, k: nat)
    requires Derives(REG_NAME, s, i, k) && EndsAt(":/?#", s, k)
    ensures i <= |s| && k == Span(RegNameC, s, i)
  {
    assert i <= k <= |s|;
    hide Derives, Span, RunAt, In;
    AuthorityRunShapes(s, i, k);
    if k < |s| { NotRegName(s[k]); }
    SpanIsTheRun(RegNameC, s, i, k);
  }

  lemma NotRegName(c: char)
    requires c in ":/?#"
    ensures !In(RegNameC, c) && c != '%'
  {
  }

  lemma FutureNoPct(s: string, i: nat, k: nat)
    requires Derives(FUTURE_GO, s, i, k)
    ensures forall m :: i <= m < k ==> s[m] != '%'
  {
    var m := FutureShape(s, i, k);
    NoPctInRun(HexC, s, i + 1, m);
    NoPctInRun(FutureC, s, m + 1, k);
  }

  lemma {:induction false} NoPctInRun(cls: Class, s: string, i: nat, j: nat)
    requires i <= j <= |s| && RunAt(cls, s, i, j) && !AllowsPct(cls)
    ensures forall m :: i <= m < j ==> s[m] != '%'
    decreases j - i
  {
    if i < j { NoPctInRun(cls, s, i + 1, j); }
  }

  lemma LiteralFromAddress(s: string, i: nat, k: nat)
    requires i + 1 < k <= |s| && s[i] == '[' && s[k - 1] == ']' && Derives(IPV6_HEX, s, i + 1, k - 1)
    ensures Derives(IP_LITERAL_GO, s, i, k) && PlainPct(s, i, k)
  {
    hide Derives;
    LiteralRule(s, i, k);
    Ipv6NoPct(s, i + 1, k - 1);
  }

  lemma LiteralFromAddrz(s: string, i: nat, k: nat)
    requires i + 1 < k <= |s| && s[i] == '[' && s[k - 1] == ']'
    requires AddrzScan(s, i + 1, Span(HexColonC, s, i + 1), k - 1)
    ensures Derives(IP_LITERAL_GO, s, i, k)
    ensures !HasPct(s, Span(HexColonC, s, i + 1) + 3, k) ==> PlainPct(s, i, k)
  {
    hide Derives;
    var m := Span(HexColonC, s, i + 1);
    AddrzFromScan(s, i + 1, m, k - 1);
    LiteralRule(s, i, k);
    Ipv6NoPct(s, i + 1, m);
  }

  lemma LiteralFromFuture(s: string, i: nat, k: nat)
    requires i + 1 < k <= |s| && s[i] == '[' && s[k - 1] == ']'
    requires FutureScan(s, i + 1, Span(HexC, s, i + 2), k - 1)
    ensures Derives(IP_LITERAL_GO, s, i, k) && PlainPct(s, i, k)
  {
    hide Derives;
    FutureFromScan(s, i + 1, Span(HexC, s, i + 2), k - 1);
    LiteralRule(s, i, k);
    FutureNoPct(s, i + 1, k - 1);
  }

  /** The host that a derivation shows, up to the port or the end of the authority, is the one that is read:
      a bracketed literal, or else the scan for a registered name. */
  lemma HostIsScanned(s: string, i: nat, k: nat)
    requires Derives(HOST_PARSED, s, i, k) && EndsAt(":/?#", s, k)
    ensures Derives(HOST_GO, s, i, k) && i <= k <= |s|
    ensures Utf8.Valid(Utf8.PctDecode(s[i..k]))
    ensures Derives(IP_LITERAL_GO, s, i, k) ==> i < |s| && s[i] == '['
    ensures !Derives(IP_LITERAL_GO, s, i, k) ==> k == Span(RegNameC, s, i) && (i < |s| ==> s[i] != '[')
  {
    assert i <= k <= |s|;
    HostCases(s, i, k);
    hide Derives, Utf8.Valid;
    if Derives(IP_LITERAL_GO, s, i, k) {
      LiteralIsScanned(s, i, k);
    } else {
      RegNameIsScanned(s, i, k);
      if i < |s| && s[i] == '[' { RegNameStart(s, i); }
    }
  }

  lemma RegNameStart(s: string, i: nat)
    requires i < |s| && s[i] == '['
    ensures Span(RegNameC, s, i) == i
  {
  }

  lemma HostFromParts(s: string, i: nat, k: nat)
    requires i <= k <= |s| && (Derives(IP_LITERAL_GO, s, i, k) || k == Span(RegNameC, s, i))
    ensures Derives(HOST_GO, s, i, k)
  {
    HostCases(s, i, k);
    hide Derives;
    if k == Span(RegNameC, s, i) { AuthorityRunShapes(s, i, k); }
  }

  /** The raw host that is handed to the UTF-8 check: every percent sign in it has two characters behind it. */
  lemma HostSlice(s: string, i: nat, k: nat)
    requires Derives(HOST_GO, s, i, k)
    ensures i <= k <= |s| && forall m :: 0 <= m < k - i && s[i..k][m] == '%' ==> m + 2 < k - i
    ensures Derives(HOST_PARSED, s, i, k) <==> Utf8.Valid(Utf8.PctDecode(s[i..k]))
  {
    HostTriplets(s, i, k);
    HostCases(s, i, k);
  }

  /* ---- The whole reference ---- */

  // scheme ":" hier-part, and the same with an optional query behind it
  const URI_HEAD: Rule := Cat(SCHEME, Cat(Ch(':'), HIER_PART_GO))
  const URI_HEAD_QUERY: Rule := Cat(SCHEME, Cat(Ch(':'), Cat(HIER_PART_GO, OPT_QUERY)))

  // s[i..c] is a scheme, a colon follows at c, and the hierarchical part ends at h.
  ghost predicate HeadCut(s: string, i: nat, c: nat, h: nat) {
    && c < |s| && s[c] == ':' && Derives(SCHEME, s, i, c) && Derives(HIER_PART_GO, s, c + 1, h)
  }

  lemma HeadRule(s: string, i: nat, h: nat)
    ensures Derives(URI_HEAD, s, i, h) <==> exists c: nat :: HeadCut(s, i, c, h)
  {
    hide Derives, HierPart;
    if Derives(URI_HEAD, s, i, h) {
      var c := CatSplit(SCHEME, Cat(Ch(':'), HIER_PART_GO), s, i, h);
      var c' := CatSplit(Ch(':'), HIER_PART_GO, s, c, h);
      OneChar(':', s, c, c');
      assert HeadCut(s, i, c, h);
    }
    if c: nat :| HeadCut(s, i, c, h) {
      OneChar(':', s, c, c + 1);
      CatJoin(Ch(':'), HIER_PART_GO, s, c, c + 1, h);
      CatJoin(SCHEME, Cat(Ch(':'), HIER_PART_GO), s, i, c, h);
    }
  }

  lemma HeadQueryRule(s: string, i: nat, q: nat)
    ensures Derives(URI_HEAD_QUERY, s, i, q)
            <==> exists c: nat, h: nat :: HeadCut(s, i, c, h) && Derives(OPT_QUERY, s, h, q)
  {
    hide Derives, HierPart;
    var r := Cat(HIER_PART_GO, OPT_QUERY);
    if Derives(URI_HEAD_QUERY, s, i, q) {
      var c := CatSplit(SCHEME, Cat(Ch(':'), r), s, i, q);
      var c' := CatSplit(Ch(':'), r, s, c, q);
      OneChar(':', s, c, c');
      var h := CatSplit(HIER_PART_GO, OPT_QUERY, s, c', q);
      assert HeadCut(s, i, c, h);
    }
    if c: nat, h: nat :| HeadCut(s, i, c, h) && Derives(OPT_QUERY, s, h, q) {
      CatJoin(HIER_PART_GO, OPT_QUERY, s, c + 1, h, q);
      OneChar(':', s, c, c + 1);
      CatJoin(Ch(':'), r, s, c, c + 1, q);
      CatJoin(SCHEME, Cat(Ch(':'), r), s, i, c, q);
    }
  }

  lemma UriRule(s: string, i: nat)
    requires i <= |s|
    ensures Derives(URI_GO, s, i, |s|)
            <==> exists c: nat, h: nat, q: nat :: HeadCut(s, i, c, h) && QueryCut(s, h, q)
  {
    var j := |s|;
    hide Derives, HierPart, RunAt;
    var r := Cat(HIER_PART_GO, QF);
    if Derives(URI_GO, s, i, j) {
      var c := CatSplit(SCHEME, Cat(Ch(':'), r), s, i, j);
      var c' := CatSplit(Ch(':'), r, s, c, j);
      OneChar(':', s, c, c');
      var h := CatSplit(HIER_PART_GO, QF, s, c', j);
      QueryFragmentRule(s, h);
      var q: nat :| QueryCut(s, h, q);
      assert HeadCut(s, i, c, h);
    }
    if c: nat, h: nat, q: nat :| HeadCut(s, i, c, h) && QueryCut(s, h, q) {
      QueryFragmentRule(s, h);
      CatJoin(HIER_PART_GO, QF, s, c + 1, h, j);
      OneChar(':', s, c, c + 1);
      CatJoin(Ch(':'), r, s, c, c + 1, j);
      CatJoin(SCHEME, Cat(Ch(':'), r), s, i, c, j);
    }
  }

  lemma RelativeRefRule(s: string, i: nat)
    requires i <= |s|
    ensures Derives(RELATIVE_REF_GO, s, i, |s|)
            <==> exists h: nat, q: nat :: Derives(RELATIVE_PART_GO, s, i, h) && QueryCut(s, h, q)
  {
    var j := |s|;
    hide Derives, RelativePart, RunAt;
    if Derives(RELATIVE_REF_GO, s, i, j) {
      var h := CatSplit(RELATIVE_PART_GO, QF, s, i, j);
      QueryFragmentRule(s, h);
      var q: nat :| QueryCut(s, h, q);
    }
    if h: nat, q: nat :| Derives(RELATIVE_PART_GO, s, i, h) && QueryCut(s, h, q) {
      QueryFragmentRule(s, h);
      CatJoin(RELATIVE_PART_GO, QF, s, i, h, j);
    }
  }

  lemma CutEnds(s: string, h: nat, q: nat)
    requires QueryCut(s, h, q)
    ensures EndsAt("?#", s, h)
  {
  }

  /** The place behind the "?" of a query, or behind the "#" of a fragment, where `uri` leaves the index
      when that query or fragment fails. */
  ghost predicate ResumeAt(s: string, i: nat, k: nat) {
    && 0 < k <= |s|
    && (|| (s[k - 1] == '?' && Derives(URI_HEAD, s, i, k - 1))
        || (s[k - 1] == '#' && Derives(URI_HEAD_QUERY, s, i, k - 1)))
  }

  // The same in terms of the cuts: the head ends at h, and the index is k.
  ghost predicate ResumeCut(s: string, i: nat, c: nat, h: nat, k: nat) {
    && HeadCut(s, i, c, h) && h < k <= |s|
    && (|| (s[h] == '?' && k == h + 1)
        || (s[h] == '#' && k == h + 1)
        || (s[h] == '?' && s[k - 1] == '#' && RunAt(QueryC, s, h + 1, k - 1)))
  }

  lemma ResumeRule(s: string, i: nat, k: nat)
    ensures ResumeAt(s, i, k) <==> exists c: nat, h: nat :: ResumeCut(s, i, c, h, k)
  {
    hide Derives, RunAt;
    if ResumeAt(s, i, k) {
      HeadRule(s, i, k - 1);
      HeadQueryRule(s, i, k - 1);
      if s[k - 1] == '?' {
        var c: nat :| HeadCut(s, i, c, k - 1);
        assert ResumeCut(s, i, c, k - 1, k);
      } else {
        var c: nat, h: nat :| HeadCut(s, i, c, h) && Derives(OPT_QUERY, s, h, k - 1);
        OptQueryRule(s, h, k - 1);
        assert ResumeCut(s, i, c, h, k);
      }
    }
    if c: nat, h: nat :| ResumeCut(s, i, c, h, k) {
      HeadRule(s, i, k - 1);
      HeadQueryRule(s, i, k - 1);
      OptQueryRule(s, h, k - 1);
      assert s[h] == '#' && k == h + 1 ==> Derives(OPT_QUERY, s, h, k - 1);
    }
  }

  /** A text that starts with a scheme and a colon is not a relative reference. */
  lemma SchemeIsNotRelative(s: string, i: nat, c: nat)
    requires c < |s| && s[c] == ':' && Derives(SCHEME, s, i, c)
    ensures !Derives(RELATIVE_REF_GO, s, i, |s|)
  {
    SchemeShape(s, i, c);
    hide Derives, RelativePart, HierPart;
    if Derives(RELATIVE_REF_GO, s, i, |s|) {
      RelativeRefRule(s, i);
      var h: nat, q: nat :| Derives(RELATIVE_PART_GO, s, i, h) && QueryCut(s, h, q);
      CutEnds(s, h, q);
      HierCases(s, i, h);
      if Derives(NET_PATH_GO, s, i, h) {
        var m := NetPathShape(s, i, h);
      } else if Derives(PATH_ABSOLUTE, s, i, h) {
        AbsoluteShape(s, i, h);
      } else if Derives(PATH_NOSCHEME, s, i, h) {
        NoschemeColon(s, i, c, h);
      } else {
        EmptyPart(s, i, h);
      }
    }
  }

  lemma EmptyPart(s: string, i: nat, h: nat)
    requires Derives(PATH_EMPTY, s, i, h)
    ensures i == h <= |s|
  {
  }

  lemma SchemeIsSegment(s: string, i: nat, c: nat)
    requires i < c < |s| && IsAlpha(s[i]) && RunAt(SchemeC, s, i + 1, c)
    ensures RunAt(SegmentNcC, s, i, c)
  {
    RunWithin(SchemeC, SegmentNcC, s, i + 1, c);
  }

  lemma NoschemeColon(s: string, i: nat, c: nat, h: nat)
    requires i < c < |s| && s[c] == ':' && IsAlpha(s[i]) && RunAt(SchemeC, s, i + 1, c)
    requires EndsAt("?#", s, h)
    ensures !Derives(PATH_NOSCHEME, s, i, h)
  {
    hide Derives, Span;
    if Derives(PATH_NOSCHEME, s, i, h) {
      var k := NoschemeShape(s, i, h);
      AbemptyShape(s, k, h);
      SchemeIsSegment(s, i, c);
      hide RunAt;
      SpanIsTheRun(SegmentNcC, s, i, c);
      SpanIsTheRun(SegmentNcC, s, i, k);
    }
  }

  /** In a relative reference, whatever follows the first number sign is a fragment. */
  lemma FirstHashIsFragment(s: string, i: nat, f: nat)
    requires Derives(RELATIVE_REF_GO, s, i, |s|) && i <= f < |s| && s[f] == '#' && forall k :: i <= k < f ==>
             s[k] != '#'
    ensures Span(QueryC, s, f + 1) == |s|
  {
    hide Derives, RelativePart, HierPart;
    RelativeRefRule(s, i);
    var h: nat, q: nat :| Derives(RELATIVE_PART_GO, s, i, h) && QueryCut(s, h, q);
    PartNoDelims(s, i, h);
    QueryIsScanned(s, h, q);
    if q > h { QueryNoHash(s, h + 1, q); }
  }

  /* ---- What the scan of a whole text means ---- */

  lemma CutFromScan(s: string, i: nat, u: nat, p: nat, j: nat)
    requires i <= u <= p <= j <= |s|
    requires u == i || (i < u && s[u - 1] == '@' && u - 1 == Span(UserinfoC, s, i))
    requires p == j || (p < j && s[p] == ':' && j == Span(DigitC, s, p + 1))
    ensures AuthorityCut(s, i, j, u, p)
  {
  }

  /** A hierarchical part that stops at a question mark, a number sign or the end is the only one. */
  lemma OnlyHierPart(s: string, i: nat, j: nat)
    ensures Derives(HIER_PART_GO, s, i, j) && EndsAt("?#", s, j)
            ==> forall k: nat :: Derives(HIER_PART_GO, s, i, k) && EndsAt("?#", s, k) ==> k == j
    ensures forall k: nat :: Derives(HIER_PART_GO, s, i, k) <==>
              || Derives(NET_PATH_GO, s, i, k) || Derives(PATH_ABSOLUTE, s, i, k)
              || Derives(PATH_ROOTLESS, s, i, k) || Derives(PATH_EMPTY, s, i, k)
    ensures forall k: nat :: Derives(PATH_EMPTY, s, i, k) ==> k == i
  {
    forall k: nat { HierCases(s, i, k); }
    assert forall k: nat :: Derives(PATH_EMPTY, s, i, k) ==> k == i;
    hide Derives, HierPart, NetPath;
    if Derives(HIER_PART_GO, s, i, j) && EndsAt("?#", s, j) {
      PartNoDelims(s, i, j);
      forall k: nat | Derives(HIER_PART_GO, s, i, k) && EndsAt("?#", s, k)
        ensures k == j
      {
        PartNoDelims(s, i, k);
        UniqueEnd(s, i, j, k);
      }
    }
  }

  lemma OnlyRelativePart(s: string, i: nat, j: nat)
    ensures Derives(RELATIVE_PART_GO, s, i, j) && EndsAt("?#", s, j)
            ==> forall k: nat :: Derives(RELATIVE_PART_GO, s, i, k) && EndsAt("?#", s, k) ==> k == j
    ensures forall k: nat :: Derives(RELATIVE_PART_GO, s, i, k) <==>
              || Derives(NET_PATH_GO, s, i, k) || Derives(PATH_ABSOLUTE, s, i, k)
              || Derives(PATH_NOSCHEME, s, i, k) || Derives(PATH_EMPTY, s, i, k)
    ensures forall k: nat :: Derives(PATH_EMPTY, s, i, k) ==> k == i
  {
    forall k: nat { HierCases(s, i, k); }
    assert forall k: nat :: Derives(PATH_EMPTY, s, i, k) ==> k == i;
    hide Derives, RelativePart, NetPath;
    if Derives(RELATIVE_PART_GO, s, i, j) && EndsAt("?#", s, j) {
      PartNoDelims(s, i, j);
      forall k: nat | Derives(RELATIVE_PART_GO, s, i, k) && EndsAt("?#", s, k)
        ensures k == j
      {
        PartNoDelims(s, i, k);
        UniqueEnd(s, i, j, k);
      }
    }
  }

  // The head that was read is the only one that a query, a fragment or the end follows.
  ghost predicate HeadRead(s: string, i: nat, c: nat, h: nat) {
    && HeadCut(s, i, c, h) && EndsAt("?#", s, h)
    && forall c': nat, h': nat :: HeadCut(s, i, c', h') && EndsAt("?#", s, h') ==> c' == c && h' == h
  }

  lemma OnlyHead(s: string, i: nat, c: nat, h: nat)
    requires HeadCut(s, i, c, h) && EndsAt("?#", s, h)
    requires forall k: nat :: Derives(SCHEME, s, i, k) && k < |s| && s[k] == ':' ==> k == c
    requires forall k: nat :: Derives(HIER_PART_GO, s, c + 1, k) && EndsAt("?#", s, k) ==> k == h
    ensures HeadRead(s, i, c, h)
  {
    hide Derives, HierPart;
  }

  lemma ResumeCutEnds(s: string, i: nat, c: nat, h: nat, k: nat)
    requires ResumeCut(s, i, c, h, k)
    ensures EndsAt("?#", s, h)
  {
  }

  lemma NoHead(s: string, i: nat, c: nat)
    requires i <= |s|
    requires forall c': nat, h: nat :: HeadCut(s, i, c', h) ==> !EndsAt("?#", s, h)
    ensures !Derives(URI_GO, s, i, |s|)
    ensures forall k: nat :: !ResumeAt(s, i, k)
  {
    hide Derives, HeadCut;
    UriRule(s, i);
    if c': nat, h: nat, q: nat :| HeadCut(s, i, c', h) && QueryCut(s, h, q) { CutEnds(s, h, q); }
    forall k: nat
      ensures !ResumeAt(s, i, k)
    {
      ResumeRule(s, i, k);
      if c': nat, h: nat :| ResumeCut(s, i, c', h, k) { ResumeCutEnds(s, i, c', h, k); }
    }
  }

  lemma QueryFails(s: string, i: nat, c: nat, h: nat)
    requires i <= |s| && HeadRead(s, i, c, h) && h < |s| && s[h] == '?' && !EndsAt("#", s, Span(QueryC, s, h + 1))
    ensures !Derives(URI_GO, s, i, |s|)
    ensures ResumeAt(s, i, h + 1)
    ensures forall k: nat :: ResumeAt(s, i, k) ==> k == h + 1
  {
    hide Derives, HeadCut;
    UriRule(s, i);
    if c': nat, h': nat, q: nat :| HeadCut(s, i, c', h') && QueryCut(s, h', q) {
      CutEnds(s, h', q);
      QueryIsScanned(s, h, q);
    }
    ResumeRule(s, i, h + 1);
    assert ResumeCut(s, i, c, h, h + 1);
    forall k: nat | ResumeAt(s, i, k)
      ensures k == h + 1
    {
      ResumeRule(s, i, k);
      var c': nat, h': nat :| ResumeCut(s, i, c', h', k);
      ResumeCutEnds(s, i, c', h', k);
      if k != h + 1 { SpanIsTheRun(QueryC, s, h + 1, k - 1); }
    }
  }

  lemma FragmentFails(s: string, i: nat, c: nat, h: nat, q: nat)
    requires i <= |s| && HeadRead(s, i, c, h) && q < |s| && s[q] == '#' && Span(QueryC, s, q + 1) != |s|
    requires q == if h < |s| && s[h] == '?' then Span(QueryC, s, h + 1) else h
    ensures !Derives(URI_GO, s, i, |s|)
    ensures ResumeAt(s, i, q + 1)
    ensures forall k: nat :: ResumeAt(s, i, k) && Derives(RELATIVE_REF_GO, s, k, |s|) ==> k == q + 1
  {
    hide Derives, HeadCut, Span;
    NotUriAtHash(s, i, c, h, q);
    ResumeRule(s, i, q + 1);
    assert ResumeCut(s, i, c, h, q + 1);
    forall k: nat | ResumeAt(s, i, k) && Derives(RELATIVE_REF_GO, s, k, |s|) { ResumesAtHash(s, i, c, h, q, k); }
  }

  lemma NotUriAtHash(s: string, i: nat, c: nat, h: nat, q: nat)
    requires i <= |s| && HeadRead(s, i, c, h) && q < |s| && s[q] == '#' && Span(QueryC, s, q + 1) != |s|
    requires q == if h < |s| && s[h] == '?' then Span(QueryC, s, h + 1) else h
    ensures !Derives(URI_GO, s, i, |s|)
  {
    hide Derives, HeadCut, Span;
    UriRule(s, i);
    if c': nat, h': nat, q': nat :| HeadCut(s, i, c', h') && QueryCut(s, h', q') {
      CutEnds(s, h', q');
      QueryIsScanned(s, h, q');
    }
  }

  lemma ResumesAtHash(s: string, i: nat, c: nat, h: nat, q: nat, k: nat)
    requires i <= |s| && HeadRead(s, i, c, h) && q < |s| && s[q] == '#' && Span(QueryC, s, q + 1) != |s|
    requires q == if h < |s| && s[h] == '?' then Span(QueryC, s, h + 1) else h
    requires ResumeAt(s, i, k) && Derives(RELATIVE_REF_GO, s, k, |s|)
    ensures k == q + 1
  {
    hide Derives, HeadCut, Span;
    ResumeRule(s, i, k);
    var c': nat, h': nat :| ResumeCut(s, i, c', h', k);
    ResumeCutEnds(s, i, c', h', k);
    if s[h] == '?' && k == h + 1 {
      QueryNoHash(s, h + 1, q);
      FirstHashIsFragment(s, k, q);
    } else if s[h] == '?' {
      SpanIsTheRun(QueryC, s, h + 1, k - 1);
    }
  }

  lemma UriFromScan(s: string, i: nat, c: nat, h: nat, q: nat)
    requires i <= |s| && HeadCut(s, i, c, h) && h <= |s| && EndsAt("?#", s, h)
    requires q == if h < |s| && s[h] == '?' then Span(QueryC, s, h + 1) else h
    requires q == |s| || (s[q] == '#' && Span(QueryC, s, q + 1) == |s|)
    ensures Derives(URI_GO, s, i, |s|)
  {
    hide Derives, HeadCut;
    UriRule(s, i);
    assert QueryCut(s, h, q);
  }

  lemma NoRelative(s: string, i: nat)
    requires i <= |s| && forall h: nat :: Derives(RELATIVE_PART_GO, s, i, h) ==> !EndsAt("?#", s, h)
    ensures !Derives(RELATIVE_REF_GO, s, i, |s|)
  {
    hide Derives, RelativePart;
    RelativeRefRule(s, i);
    if h: nat, q: nat :| Derives(RELATIVE_PART_GO, s, i, h) && QueryCut(s, h, q) { CutEnds(s, h, q); }
  }

  lemma OnlyRelative(s: string, i: nat, h: nat)
    requires i <= |s| && h <= |s| && Derives(RELATIVE_PART_GO, s, i, h) && EndsAt("?#", s, h)
    requires forall k: nat :: Derives(RELATIVE_PART_GO, s, i, k) && EndsAt("?#", s, k) ==> k == h
    ensures Derives(RELATIVE_REF_GO, s, i, |s|) ==>
              var q := if h < |s| && s[h] == '?' then Span(QueryC, s, h + 1) else h;
              q == |s| || (s[q] == '#' && Span(QueryC, s, q + 1) == |s|)
  {
    hide Derives, RelativePart;
    RelativeRefRule(s, i);
    if h': nat, q: nat :| Derives(RELATIVE_PART_GO, s, i, h') && QueryCut(s, h', q) {
      CutEnds(s, h', q);
      QueryIsScanned(s, h, q);
    }
  }

  lemma RelativeFromScan(s: string, i: nat, h: nat, q: nat)
    requires i <= |s| && h <= |s| && Derives(RELATIVE_PART_GO, s, i, h)
    requires q == if h < |s| && s[h] == '?' then Span(QueryC, s, h + 1) else h
    requires q == |s| || (s[q] == '#' && Span(QueryC, s, q + 1) == |s|)
    ensures Derives(RELATIVE_REF_GO, s, i, |s|)
  {
    hide Derives, RelativePart;
    RelativeRefRule(s, i);
    assert QueryCut(s, h, q);
  }

  /** `uri` stops behind the "?" or "#" at k - 1, and a relative reference follows there. */
  ghost predicate Resumes(s: string, k: nat) {
    ResumeAt(s, 0, k) && Derives(RELATIVE_REF_GO, s, k, |s|)
  }

  lemma ReferenceCases(s: string)
    ensures Matches(URI_REFERENCE_GO, s) <==> Derives(URI_GO, s, 0, |s|) || Derives(RELATIVE_REF_GO, s, 0, |s|)
    ensures forall k: nat :: ResumeAt(s, 0, k) ==> !Derives(RELATIVE_REF_GO, s, 0, |s|)
  {
    assert Matches(URI_REFERENCE_GO, s) <==> Derives(URI_GO, s, 0, |s|) || Derives(RELATIVE_REF_GO, s, 0, |s|) by {
      hide Uri, RelativeRef;
    }
    hide Derives, HeadCut;
    forall k: nat | ResumeAt(s, 0, k)
      ensures !Derives(RELATIVE_REF_GO, s, 0, |s|)
    {
      ResumeRule(s, 0, k);
      var c: nat, h: nat :| ResumeCut(s, 0, c, h, k);
      HeadStarts(s, c, h);
      SchemeIsNotRelative(s, 0, c);
    }
  }

  lemma HeadStarts(s: string, c: nat, h: nat)
    requires HeadCut(s, 0, c, h)
    ensures c < |s| && s[c] == ':' && Derives(SCHEME, s, 0, c)
  {
  }
}
