/** What the rules of the URI grammar derive, cut down to the runs of characters that a scanner sees. */
module UriShapes {
  import opened Abnf
  import opened UriGrammar

  /** A run of a narrower class is skipped by the scan of a wider one. */
  lemma {:induction false} SpanSkips(a: Class, b: Class, s: string, i: nat, j: nat)
    requires i <= j <= |s| && RunAt(a, s, i, j) && Within(a, b)
    ensures Span(b, s, i) == Span(b, s, j)
    decreases j - i
  {
    if i < j {
      if In(a, s[i]) && RunAt(a, s, i + 1, j) {
        SpanSkips(a, b, s, i + 1, j);
      } else {
        SpanSkips(a, b, s, i + 3, j);
      }
    }
  }

  lemma RunSingle(cls: Class, s: string, i: nat)
    requires i < |s| && In(cls, s[i])
    ensures RunAt(cls, s, i, i + 1)
  {
  }

  /* ---- Paths ---- */

  lemma SegmentShape(s: string, i: nat, j: nat)
    requires i <= j <= |s|
    ensures Derives(SEGMENT, s, i, j) <==> RunAt(PcharC, s, i, j)
    ensures Derives(SEGMENT_NZ, s, i, j) <==> i < j && RunAt(PcharC, s, i, j)
    ensures Derives(SEGMENT_NZ_NC, s, i, j) <==> i < j && RunAt(SegmentNcC, s, i, j)
  {
    StarOfItems(PcharC, s, i, j);
    PlusOfItems(PcharC, s, i, j);
    PlusOfItems(SegmentNcC, s, i, j);
  }

  lemma SlashSegmentShape(s: string, i: nat, j: nat)
    requires Derives(SLASH_SEGMENT, s, i, j)
    ensures i < j <= |s| && s[i] == '/' && RunAt(PathC, s, i, j)
  {
    var k := CatSplit(Ch('/'), SEGMENT, s, i, j);
    SegmentShape(s, i + 1, j);
    RunWithin(PcharC, PathC, s, i + 1, j);
  }

  lemma {:induction false} AbemptyShape(s: string, i: nat, j: nat)
    requires Derives(PATH_ABEMPTY, s, i, j)
    ensures i <= j <= |s| && RunAt(PathC, s, i, j) && (i < j ==> s[i] == '/')
    decreases j - i
  {
    if i < j {
      var k := StarSplit(SLASH_SEGMENT, s, i, j);
      SlashSegmentShape(s, i, k);
      AbemptyShape(s, k, j);
      RunAppend(PathC, s, i, k, j);
    }
  }

  lemma RunStart(cls: Class, s: string, i: nat, j: nat)
    requires i < j <= |s| && RunAt(cls, s, i, j)
    ensures In(cls, s[i]) || s[i] == '%'
  {
  }

  lemma RootlessShape(s: string, i: nat, j: nat)
    requires Derives(PATH_ROOTLESS, s, i, j)
    ensures i < j <= |s| && RunAt(PathC, s, i, j) && s[i] != '/'
  {
    hide Derives, RunAt;
    var k := CatSplit(SEGMENT_NZ, PATH_ABEMPTY, s, i, j);
    SegmentShape(s, i, k);
    RunStart(PcharC, s, i, k);
    RunWithin(PcharC, PathC, s, i, k);
    AbemptyShape(s, k, j);
    RunAppend(PathC, s, i, k, j);
  }

  lemma AbsoluteShape(s: string, i: nat, j: nat)
    requires Derives(PATH_ABSOLUTE, s, i, j)
    ensures i < j <= |s| && s[i] == '/' && RunAt(PathC, s, i, j) && (i + 1 < j ==> s[i + 1] != '/')
  {
    var rest := Opt(PATH_ROOTLESS);
    var k := CatSplit(Ch('/'), rest, s, i, j);
    OptCases(PATH_ROOTLESS, s, i + 1, j);
    if i + 1 < j { RootlessShape(s, i + 1, j); }
  }

  lemma NoschemeShape(s: string, i: nat, j: nat) returns (k: nat)
    requires Derives(PATH_NOSCHEME, s, i, j)
    ensures i < k <= j <= |s| && RunAt(SegmentNcC, s, i, k)
    ensures Derives(PATH_ABEMPTY, s, k, j)
    ensures RunAt(PathC, s, i, j) && s[i] != '/'
  {
    hide Derives, RunAt;
    k := CatSplit(SEGMENT_NZ_NC, PATH_ABEMPTY, s, i, j);
    SegmentShape(s, i, k);
    RunStart(SegmentNcC, s, i, k);
    RunWithin(SegmentNcC, PathC, s, i, k);
    AbemptyShape(s, k, j);
    RunAppend(PathC, s, i, k, j);
  }

  /* ---- Query, fragment, scheme, authority ---- */

  lemma QueryShape(s: string, i: nat, j: nat)
    requires i <= j <= |s|
    ensures Derives(QUERY, s, i, j) <==> RunAt(QueryC, s, i, j)
    ensures Derives(FRAGMENT, s, i, j) <==> RunAt(QueryC, s, i, j)
  {
    StarOfItems(QueryC, s, i, j);
  }

  lemma SchemeShape(s: string, i: nat, j: nat)
    requires i <= j <= |s|
    ensures Derives(SCHEME, s, i, j) <==> i < j && IsAlpha(s[i]) && RunAt(SchemeC, s, i + 1, j)
  {
    if Derives(SCHEME, s, i, j) {
      var k := CatSplit(ALPHA, Star(SCHEME_TAIL), s, i, j);
      CharRules(s, i, k);
      StarOfItems(SchemeC, s, k, j);
    }
    if i < j && IsAlpha(s[i]) && RunAt(SchemeC, s, i + 1, j) {
      CharRules(s, i, i + 1);
      StarOfItems(SchemeC, s, i + 1, j);
      CatJoin(ALPHA, Star(SCHEME_TAIL), s, i, i + 1, j);
    }
  }

  lemma AuthorityRunShapes(s: string, i: nat, j: nat)
    requires i <= j <= |s|
    ensures Derives(USERINFO, s, i, j) <==> RunAt(UserinfoC, s, i, j)
    ensures Derives(REG_NAME, s, i, j) <==> RunAt(RegNameC, s, i, j)
    ensures Derives(PORT, s, i, j) <==> RunAt(DigitC, s, i, j)
  {
    StarOfItems(UserinfoC, s, i, j);
    StarOfItems(RegNameC, s, i, j);
    StarOfItems(DigitC, s, i, j);
  }

  // Where the host starts and ends in an authority.
  predicate AuthorityCut(s: string, i: nat, j: nat, u: nat, p: nat) {
    && i <= u <= p <= j <= |s|
    && (u == i || (i < u && s[u - 1] == '@' && RunAt(UserinfoC, s, i, u - 1)))
    && (p == j || (p < j && s[p] == ':' && RunAt(DigitC, s, p + 1, j)))
  }

  lemma AuthorityShape(host: Rule, s: string, i: nat, j: nat) returns (u: nat, p: nat)
    requires Derives(Authority(host), s, i, j)
    ensures AuthorityCut(s, i, j, u, p) && Derives(host, s, u, p)
  {
    hide Derives, RunAt;
    var user, port := Cat(USERINFO, Ch('@')), Cat(Ch(':'), PORT);
    u := CatSplit(Opt(user), Cat(host, Opt(port)), s, i, j);
    p := CatSplit(host, Opt(port), s, u, j);
    OptCases(user, s, i, u);
    OptCases(port, s, p, j);
    if u != i {
      var k := CatSplit(USERINFO, Ch('@'), s, i, u);
      OneChar('@', s, k, u);
      AuthorityRunShapes(s, i, k);
    }
    if p != j {
      var k := CatSplit(Ch(':'), PORT, s, p, j);
      OneChar(':', s, p, k);
      AuthorityRunShapes(s, p + 1, j);
    }
  }

  lemma OneChar(c: char, s: string, i: nat, j: nat)
    ensures Derives(Ch(c), s, i, j) <==> i < |s| && j == i + 1 && s[i] == c
  {
  }

  lemma AuthorityJoin(host: Rule, s: string, i: nat, u: nat, p: nat, j: nat)
    requires AuthorityCut(s, i, j, u, p) && Derives(host, s, u, p)
    ensures Derives(Authority(host), s, i, j)
  {
    hide Derives, RunAt;
    var user, port := Cat(USERINFO, Ch('@')), Cat(Ch(':'), PORT);
    OptCases(user, s, i, u);
    OptCases(port, s, p, j);
    if u != i {
      AuthorityRunShapes(s, i, u - 1);
      OneChar('@', s, u - 1, u);
      CatJoin(USERINFO, Ch('@'), s, i, u - 1, u);
    }
    if p != j {
      OneChar(':', s, p, p + 1);
      AuthorityRunShapes(s, p + 1, j);
      CatJoin(Ch(':'), PORT, s, p, p + 1, j);
    }
    CatJoin(host, Opt(port), s, u, p, j);
    CatJoin(Opt(user), Cat(host, Opt(port)), s, i, u, j);
  }
}
