/** Texts of IPv6 addresses: groups of hexadecimal digits between colons, the numbers they stand for,
    and their relation to the nine alternatives of IPv6address in section 3.2.2 of RFC 3986. */
module Ipv6Text {
  import opened Abnf
  import opened UriGrammar
  import opened Numerals

  lemma {:induction false} RunIsHex(s: string, i: nat, j: nat)
    requires i <= j <= |s|
    ensures RunAt(HexC, s, i, j) <==> AllHex(s[i..j])
    decreases j - i
  {
    if i < j {
      RunIsHex(s, i + 1, j);
      AllHexCons(s, i, j);
    }
  }

  function HexEnd(s: string, i: nat): (e: nat)
    requires i <= |s|
    ensures i <= e <= |s|
    ensures AllHex(s[i..e])
    ensures e < |s| ==> !IsHexdig(s[e])
  {
    RunIsHex(s, i, Span(HexC, s, i));
    Span(HexC, s, i)
  }

  function HexAt(s: string, i: nat): nat
    requires i <= |s|
  {
    Value(16, s[i..HexEnd(s, i)])
  }

  // A complete group of one to four hexadecimal digits starts at i.
  predicate GroupAt(s: string, i: nat)
    requires i <= |s|
  {
    i < HexEnd(s, i) <= i + 4
  }

  /** s[i..j] is n groups with single colons between them. */
  predicate Groups(s: string, i: nat, j: nat, n: nat)
    requires i <= |s|
    decreases n
  {
    if n == 0 then i == j
    else
      var e := HexEnd(s, i);
      && GroupAt(s, i)
      && if n == 1 then e == j else e + 1 < j <= |s| && s[e] == ':' && Groups(s, e + 1, j, n - 1)
  }

  /** The numbers of those groups. */
  function Vals(s: string, i: nat, j: nat, n: nat): (v: seq<nat>)
    requires i <= |s| && Groups(s, i, j, n)
    ensures |v| == n
    decreases n
  {
    if n == 0 then []
    else if n == 1 then [HexAt(s, i)]
    else [HexAt(s, i)] + Vals(s, HexEnd(s, i) + 1, j, n - 1)
  }

  lemma {:induction false} GroupsEnd(s: string, i: nat, j: nat, n: nat)
    requires i <= |s| && Groups(s, i, j, n)
    ensures i <= j <= |s| && (n == 0 ==> i == j)
    ensures n > 0 ==> i < j && IsHexdig(s[i]) && IsHexdig(s[j - 1]) && (j < |s| ==> !IsHexdig(s[j]))
    decreases n
  {
    if n > 0 {
      var e := HexEnd(s, i);
      assert s[i] == s[i..e][0] && s[e - 1] == s[i..e][e - 1 - i];
      if n > 1 { GroupsEnd(s, e + 1, j, n - 1); }
    }
  }

  lemma NoGroups(s: string, i: nat)
    requires i <= |s|
    ensures Groups(s, i, i, 0) && Vals(s, i, i, 0) == []
  {
  }

  lemma GroupsFirst(s: string, i: nat, j: nat, n: nat)
    requires i <= |s| && n > 1 && Groups(s, i, j, n)
    ensures GroupAt(s, i) && HexEnd(s, i) + 1 < j <= |s| && s[HexEnd(s, i)] == ':' && s[HexEnd(s, i) + 1] != ':'
    ensures Groups(s, HexEnd(s, i) + 1, j, n - 1)
    ensures Vals(s, i, j, n) == [HexAt(s, i)] + Vals(s, HexEnd(s, i) + 1, j, n - 1)
  {
    GroupsEnd(s, HexEnd(s, i) + 1, j, n - 1);
  }

  lemma OnlyGroup(s: string, i: nat, j: nat)
    requires i <= |s| && Groups(s, i, j, 1)
    ensures GroupAt(s, i) && HexEnd(s, i) == j && Vals(s, i, j, 1) == [HexAt(s, i)]
  {
  }

  lemma OneGroup(s: string, i: nat)
    requires i <= |s| && GroupAt(s, i)
    ensures Groups(s, i, HexEnd(s, i), 1) && Vals(s, i, HexEnd(s, i), 1) == [HexAt(s, i)]
  {
  }

  lemma GroupsCons(s: string, i: nat, j: nat, n: nat)
    requires i <= |s| && GroupAt(s, i) && HexEnd(s, i) + 1 < j <= |s| && s[HexEnd(s, i)] == ':'
    requires n > 0 && Groups(s, HexEnd(s, i) + 1, j, n)
    ensures Groups(s, i, j, n + 1) && Vals(s, i, j, n + 1) == [HexAt(s, i)] + Vals(s, HexEnd(s, i) + 1, j, n)
  {
  }

  /** One more group behind a colon. */
  lemma {:induction false} GroupsSnoc(s: string, i: nat, k: nat, n: nat)
    requires i <= |s| && n > 0 && Groups(s, i, k, n)
    requires k < |s| && s[k] == ':' && GroupAt(s, k + 1)
    ensures Groups(s, i, HexEnd(s, k + 1), n + 1)
    ensures Vals(s, i, HexEnd(s, k + 1), n + 1) == Vals(s, i, k, n) + [HexAt(s, k + 1)]
    decreases n
  {
    hide Groups, Vals, HexAt;
    var e, end := HexEnd(s, i), HexEnd(s, k + 1);
    if n == 1 {
      OnlyGroup(s, i, k);
      OneGroup(s, k + 1);
      GroupsCons(s, i, end, 1);
    } else {
      GroupsFirst(s, i, k, n);
      GroupsSnoc(s, e + 1, k, n - 1);
      GroupsCons(s, i, end, n);
      var head, middle, last := [HexAt(s, i)], Vals(s, e + 1, k, n - 1), [HexAt(s, k + 1)];
      assert head + (middle + last) == (head + middle) + last;
    }
  }

  lemma {:induction false} ValsBound(s: string, i: nat, j: nat, n: nat)
    requires i <= |s| && Groups(s, i, j, n)
    ensures forall k :: 0 <= k < n ==> Vals(s, i, j, n)[k] < 0x1_0000
    decreases n
  {
    if n > 0 {
      var e := HexEnd(s, i);
      HexAtBound(s, i);
      if n > 1 { ValsBound(s, e + 1, j, n - 1); }
    }
  }

  lemma HexAtBound(s: string, i: nat)
    requires i <= |s| && GroupAt(s, i)
    ensures HexAt(s, i) < 0x1_0000
  {
    var t := s[i..HexEnd(s, i)];
    HexBound(t);
    assert Pow2(4) == 16 && Pow2(8) == 256;
    assert Pow2(12) == 16 * Pow2(8) && Pow2(16) == 16 * Pow2(12);
  }

  /* ---- The hexadecimal forms: eight groups, or at most seven around one double colon ---- */

  predicate DoubleColonAt(s: string, d: nat) {
    d + 2 <= |s| && s[d] == ':' && s[d + 1] == ':'
  }

  predicate Elided(s: string, j: nat, d: nat, l: nat, r: nat) {
    l + r <= 7 && Groups(s, 0, d, l) && DoubleColonAt(s, d) && Groups(s, d + 2, j, r)
  }

  ghost predicate HexForm(s: string, j: nat) {
    Groups(s, 0, j, 8) || exists d: nat, l: nat, r: nat :: Elided(s, j, d, l, r)
  }

  /* ---- Derivations of h16 and of sequences of groups ---- */

  lemma AllHexCons(s: string, i: nat, j: nat)
    requires i <= j <= |s|
    ensures if i == j then AllHex(s[i..j]) else AllHex(s[i..j]) <==> IsHexdig(s[i]) && AllHex(s[i + 1..j])
  {
    if i < j {
      assert s[i..j] == [s[i]] + s[i + 1..j];
      if AllHex(s[i..j]) { assert s[i + 1..j] == s[i..j][1..] && s[i] == s[i..j][0]; }
    }
  }

  lemma {:induction false} UpToHex(n: nat, s: string, i: nat, j: nat)
    requires i <= j <= |s|
    ensures Derives(UpTo(n, HEXDIG), s, i, j) <==> j <= i + n && AllHex(s[i..j])
    decreases n, 1
  {
    if n > 0 {
      OptCases(Cat(HEXDIG, UpTo(n - 1, HEXDIG)), s, i, j);
      OneMoreHex(n, s, i, j);
      AllHexCons(s, i, j);
    }
  }

  lemma OneHex(s: string, i: nat, j: nat)
    ensures Derives(HEXDIG, s, i, j) <==> i < |s| && j == i + 1 && IsHexdig(s[i])
  {
    CharRules(s, i, j);
  }

  lemma {:induction false} OneMoreHex(n: nat, s: string, i: nat, j: nat)
    requires i <= j <= |s| && n > 0
    ensures Derives(Cat(HEXDIG, UpTo(n - 1, HEXDIG)), s, i, j) <==> i < j <= i + n && AllHex(s[i..j])
    decreases n, 0
  {
    var rest := UpTo(n - 1, HEXDIG);
    hide Derives, AllHex;
    AllHexCons(s, i, j);
    forall k: nat { OneHex(s, i, k); }
    if Derives(Cat(HEXDIG, rest), s, i, j) {
      var k := CatSplit(HEXDIG, rest, s, i, j);
      UpToHex(n - 1, s, k, j);
    }
    if i < j <= i + n && AllHex(s[i..j]) {
      UpToHex(n - 1, s, i + 1, j);
      CatJoin(HEXDIG, rest, s, i, i + 1, j);
    }
  }

  lemma H16Rule(s: string, i: nat, j: nat)
    requires i <= j <= |s|
    ensures Derives(H16, s, i, j) <==> i < j <= i + 4 && AllHex(s[i..j])
  {
    var rest := UpTo(3, HEXDIG);
    if Derives(H16, s, i, j) {
      var k := CatSplit(HEXDIG, rest, s, i, j);
      CharRules(s, i, k);
      UpToHex(3, s, k, j);
      assert s[i..j] == [s[i]] + s[i + 1..j];
    }
    if i < j <= i + 4 && AllHex(s[i..j]) {
      assert s[i] == s[i..j][0] && s[i + 1..j] == s[i..j][1..];
      CharRules(s, i, i + 1);
      UpToHex(3, s, i + 1, j);
      CatJoin(HEXDIG, rest, s, i, i + 1, j);
    }
  }

  // s does not go on with a hexadecimal digit at j.
  predicate HexStops(s: string, j: nat) {
    j < |s| ==> !IsHexdig(s[j])
  }

  lemma H16IsGroup(s: string, i: nat, j: nat)
    requires i <= j <= |s| && HexStops(s, j)
    ensures Derives(H16, s, i, j) <==> GroupAt(s, i) && HexEnd(s, i) == j
  {
    H16Rule(s, i, j);
    if Derives(H16, s, i, j) {
      RunIsHex(s, i, j);
      SpanIsTheRun(HexC, s, i, j);
    }
  }

  lemma H16ColonRule(s: string, i: nat, j: nat)
    requires i <= j <= |s|
    ensures Derives(H16_COLON, s, i, j) <==> GroupAt(s, i) && HexEnd(s, i) + 1 == j && s[j - 1] == ':'
  {
    if Derives(H16_COLON, s, i, j) {
      var k := CatSplit(H16, Ch(':'), s, i, j);
      H16IsGroup(s, i, k);
    }
    if GroupAt(s, i) && HexEnd(s, i) + 1 == j && s[j - 1] == ':' {
      H16IsGroup(s, i, j - 1);
      CatJoin(H16, Ch(':'), s, i, j - 1, j);
    }
  }

  /** n( h16 ":" ) in front of m > 0 groups makes n + m groups, and conversely. */
  lemma {:induction false} TimesThenGroups(n: nat, m: nat, s: string, i: nat, k: nat, j: nat)
    requires m > 0 && k <= |s| && Derives(Times(n, H16_COLON), s, i, k) && Groups(s, k, j, m)
    ensures Groups(s, i, j, n + m)
    decreases n
  {
    if n > 0 {
      var e := FirstOfTimes(n, s, i, k);
      TimesThenGroups(n - 1, m, s, e, k, j);
      BehindGroup(s, i, j, n - 1 + m);
    }
  }

  lemma FirstOfTimes(n: nat, s: string, i: nat, k: nat) returns (e: nat)
    requires n > 0 && i <= |s| && Derives(Times(n, H16_COLON), s, i, k)
    ensures GroupAt(s, i) && e == HexEnd(s, i) + 1 <= |s| && s[e - 1] == ':'
    ensures Derives(Times(n - 1, H16_COLON), s, e, k)
  {
    hide Derives;
    e := CatSplit(H16_COLON, Times(n - 1, H16_COLON), s, i, k);
    H16ColonRule(s, i, e);
  }

  lemma BehindGroup(s: string, i: nat, j: nat, n: nat)
    requires n > 0 && i <= |s| && GroupAt(s, i) && HexEnd(s, i) < |s| && s[HexEnd(s, i)] == ':'
    requires Groups(s, HexEnd(s, i) + 1, j, n)
    ensures Groups(s, i, j, n + 1)
  {
    hide Groups;
    GroupsEnd(s, HexEnd(s, i) + 1, j, n);
    GroupsCons(s, i, j, n);
  }

  lemma {:induction false} GroupsThenTimes(n: nat, m: nat, s: string, i: nat, j: nat) returns (k: nat)
    requires m > 0 && i <= |s| && Groups(s, i, j, n + m)
    ensures k <= |s| && Derives(Times(n, H16_COLON), s, i, k) && Groups(s, k, j, m)
    decreases n
  {
    if n == 0 {
      k := i;
    } else {
      var e := HexEnd(s, i) + 1;
      H16ColonRule(s, i, e);
      k := GroupsThenTimes(n - 1, m, s, e, j);
      CatJoin(H16_COLON, Times(n - 1, H16_COLON), s, i, e, k);
    }
  }

  lemma {:induction false} UpToIsTimes(n: nat, r: Rule, s: string, i: nat, j: nat) returns (m: nat)
    requires Derives(UpTo(n, r), s, i, j)
    ensures m <= n && Derives(Times(m, r), s, i, j)
    decreases n
  {
    if n == 0 || i == j {
      m := 0;
    } else {
      var k := CatSplit(r, UpTo(n - 1, r), s, i, j);
      m := UpToIsTimes(n - 1, r, s, k, j);
      m := m + 1;
      CatJoin(r, Times(m - 1, r), s, i, k, j);
    }
  }

  lemma {:induction false} TimesIsUpTo(m: nat, n: nat, r: Rule, s: string, i: nat, j: nat)
    requires m <= n && Derives(Times(m, r), s, i, j)
    ensures Derives(UpTo(n, r), s, i, j)
    decreases m
  {
    if m > 0 {
      var k := CatSplit(r, Times(m - 1, r), s, i, j);
      TimesIsUpTo(m - 1, n - 1, r, s, k, j);
      CatJoin(r, UpTo(n - 1, r), s, i, k, j);
    }
  }

  /** [ *n( h16 ":" ) h16 ] derives at most n + 1 groups. */
  lemma LeftRule(n: nat, s: string, i: nat, j: nat) returns (l: nat)
    requires j <= |s| && HexStops(s, j) && Derives(UpToGroups(n), s, i, j)
    ensures l <= n + 1 && Groups(s, i, j, l)
  {
    var body := Cat(UpTo(n, H16_COLON), H16);
    if !Derives(body, s, i, j) {
      l := 0;
    } else {
      var k := CatSplit(UpTo(n, H16_COLON), H16, s, i, j);
      var m := UpToIsTimes(n, H16_COLON, s, i, k);
      H16IsGroup(s, k, j);
      assert Groups(s, k, j, 1);
      TimesThenGroups(m, 1, s, i, k, j);
      l := m + 1;
    }
  }

  lemma LeftRuleConverse(n: nat, l: nat, s: string, i: nat, j: nat)
    requires i <= |s| && l <= n + 1 && Groups(s, i, j, l)
    ensures Derives(UpToGroups(n), s, i, j)
  {
    GroupsEnd(s, i, j, l);
    if l > 0 {
      var k := GroupsThenTimes(l - 1, 1, s, i, j);
      TimesIsUpTo(l - 1, n, H16_COLON, s, i, k);
      GroupsEnd(s, k, j, 1);
      H16IsGroup(s, k, j);
      CatJoin(UpTo(n, H16_COLON), H16, s, i, k, j);
    }
  }

  lemma Ls32IsGroups(s: string, i: nat, j: nat)
    requires i <= j <= |s| && HexStops(s, j) && Derives(LS32_HEX, s, i, j)
    ensures Groups(s, i, j, 2)
  {
    var e := CatSplit(H16, Cat(Ch(':'), H16), s, i, j);
    var e' := CatSplit(Ch(':'), H16, s, e, j);
    H16IsGroup(s, i, e);
    H16IsGroup(s, e + 1, j);
    hide Derives;
    assert Groups(s, e + 1, j, 1);
  }

  lemma GroupsAreLs32(s: string, i: nat, j: nat)
    requires i <= j <= |s| && HexStops(s, j) && Groups(s, i, j, 2)
    ensures Derives(LS32_HEX, s, i, j)
  {
    var e := HexEnd(s, i);
    assert Groups(s, e + 1, j, 1);
    assert Derives(Ch(':'), s, e, e + 1);
    hide Derives;
    GroupsEnd(s, e + 1, j, 1);
    H16IsGroup(s, i, e);
    H16IsGroup(s, e + 1, j);
    CatJoin(Ch(':'), H16, s, e, e + 1, j);
    CatJoin(H16, Cat(Ch(':'), H16), s, i, e, j);
  }

  lemma Ls32Rule(s: string, i: nat, j: nat)
    requires i <= j <= |s| && HexStops(s, j)
    ensures Derives(LS32_HEX, s, i, j) <==> Groups(s, i, j, 2)
  {
    hide Derives, Groups;
    if Derives(LS32_HEX, s, i, j) { Ls32IsGroups(s, i, j); }
    if Groups(s, i, j, 2) { GroupsAreLs32(s, i, j); }
  }

  /** n( h16 ":" ) ls32, with ls32 in hexadecimal, derives n + 2 groups. */
  lemma RightRule(n: nat, s: string, i: nat, j: nat)
    requires i <= j <= |s| && HexStops(s, j)
    ensures Derives(Cat(Times(n, H16_COLON), LS32_HEX), s, i, j) <==> Groups(s, i, j, n + 2)
  {
    if Derives(Cat(Times(n, H16_COLON), LS32_HEX), s, i, j) {
      var k := CatSplit(Times(n, H16_COLON), LS32_HEX, s, i, j);
      Ls32Rule(s, k, j);
      TimesThenGroups(n, 2, s, i, k, j);
    }
    if Groups(s, i, j, n + 2) {
      var k := GroupsThenTimes(n, 2, s, i, j);
      GroupsEnd(s, k, j, 2);
      Ls32Rule(s, k, j);
      CatJoin(Times(n, H16_COLON), LS32_HEX, s, i, k, j);
    }
  }

  /* ---- The nine alternatives ---- */

  lemma DoubleColonRule(s: string, i: nat, j: nat)
    ensures Derives(DOUBLE_COLON, s, i, j) <==> j == i + 2 && DoubleColonAt(s, i)
  {
    if Derives(DOUBLE_COLON, s, i, j) { var k := CatSplit(Ch(':'), Ch(':'), s, i, j); }
    if j == i + 2 && DoubleColonAt(s, i) { CatJoin(Ch(':'), Ch(':'), s, i, i + 1, j); }
  }

  // At most p groups, a double colon at d, and r groups up to j.
  predicate Around(s: string, j: nat, p: nat, r: nat, d: nat, l: nat) {
    l <= p && Groups(s, 0, d, l) && DoubleColonAt(s, d) && Groups(s, d + 2, j, r)
  }

  ghost predicate SomeAround(s: string, j: nat, p: nat, r: nat) {
    exists d: nat, l: nat :: Around(s, j, p, r, d, l)
  }

  /** [ *p( h16 ":" ) h16 ] "::" right, for a rule of r groups. */
  lemma AroundFromRule(p: nat, r: nat, right: Rule, s: string, j: nat) returns (d: nat, l: nat)
    requires j <= |s| && HexStops(s, j)
    requires forall i: nat :: i <= j ==> (Derives(right, s, i, j) <==> Groups(s, i, j, r))
    requires Derives(Cat(UpToGroups(p), Cat(DOUBLE_COLON, right)), s, 0, j)
    ensures Around(s, j, p + 1, r, d, l)
  {
    hide Derives;
    d := CatSplit(UpToGroups(p), Cat(DOUBLE_COLON, right), s, 0, j);
    var e := CatSplit(DOUBLE_COLON, right, s, d, j);
    DoubleColonRule(s, d, e);
    l := LeftRule(p, s, 0, d);
  }

  lemma RuleFromAround(p: nat, r: nat, right: Rule, s: string, j: nat, d: nat, l: nat)
    requires j <= |s| && HexStops(s, j)
    requires forall i: nat :: i <= j ==> (Derives(right, s, i, j) <==> Groups(s, i, j, r))
    requires Around(s, j, p + 1, r, d, l)
    ensures Derives(Cat(UpToGroups(p), Cat(DOUBLE_COLON, right)), s, 0, j)
  {
    hide Derives;
    LeftRuleConverse(p, l, s, 0, d);
    DoubleColonRule(s, d, d + 2);
    GroupsEnd(s, d + 2, j, r);
    CatJoin(DOUBLE_COLON, right, s, d, d + 2, j);
    CatJoin(UpToGroups(p), Cat(DOUBLE_COLON, right), s, 0, d, j);
  }

  lemma ElidedRule(p: nat, n: nat, s: string, j: nat)
    requires j <= |s| && HexStops(s, j)
    ensures Derives(ElidedForm(p, n, LS32_HEX), s, 0, j) <==> SomeAround(s, j, p + 1, n + 2)
  {
    hide Derives;
    var right := Cat(Times(n, H16_COLON), LS32_HEX);
    forall i: nat | i <= j { RightRule(n, s, i, j); }
    if Derives(ElidedForm(p, n, LS32_HEX), s, 0, j) {
      var d, l := AroundFromRule(p, n + 2, right, s, j);
    }
    var p', r := p + 1, n + 2;
    if d: nat, l: nat :| Around(s, j, p', r, d, l) {
      RuleFromAround(p, r, right, s, j, d, l);
    }
  }

  lemma OneGroupLast(s: string, j: nat)
    requires j <= |s| && HexStops(s, j)
    ensures Derives(Cat(UpToGroups(5), Cat(DOUBLE_COLON, H16)), s, 0, j) <==> SomeAround(s, j, 6, 1)
  {
    forall i: nat | i <= j
      ensures Derives(H16, s, i, j) <==> Groups(s, i, j, 1)
    {
      H16IsGroup(s, i, j);
    }
    hide Derives;
    if Derives(Cat(UpToGroups(5), Cat(DOUBLE_COLON, H16)), s, 0, j) {
      var d, l := AroundFromRule(5, 1, H16, s, j);
    }
    if d: nat, l: nat :| Around(s, j, 6, 1, d, l) { RuleFromAround(5, 1, H16, s, j, d, l); }
  }

  lemma DoubleColonLast(s: string, j: nat)
    requires j <= |s| && HexStops(s, j)
    ensures Derives(Cat(UpToGroups(6), DOUBLE_COLON), s, 0, j) <==> SomeAround(s, j, 7, 0)
  {
    hide Derives;
    if Derives(Cat(UpToGroups(6), DOUBLE_COLON), s, 0, j) {
      var d := CatSplit(UpToGroups(6), DOUBLE_COLON, s, 0, j);
      DoubleColonRule(s, d, j);
      var l := LeftRule(6, s, 0, d);
      assert Around(s, j, 7, 0, d, l);
    }
    if d: nat, l: nat :| Around(s, j, 7, 0, d, l) {
      LeftRuleConverse(6, l, s, 0, d);
      DoubleColonRule(s, d, j);
      CatJoin(UpToGroups(6), DOUBLE_COLON, s, 0, d, j);
    }
  }

  lemma FirstTwoRules(s: string, j: nat)
    requires j <= |s| && HexStops(s, j)
    ensures Derives(Cat(Times(6, H16_COLON), LS32_HEX), s, 0, j) <==> Groups(s, 0, j, 8)
    ensures Derives(Cat(DOUBLE_COLON, Cat(Times(5, H16_COLON), LS32_HEX)), s, 0, j)
            <==> DoubleColonAt(s, 0) && Groups(s, 2, j, 7)
  {
    hide Derives;
    RightRule(6, s, 0, j);
    var right := Cat(Times(5, H16_COLON), LS32_HEX);
    if Derives(Cat(DOUBLE_COLON, right), s, 0, j) {
      var e := CatSplit(DOUBLE_COLON, right, s, 0, j);
      DoubleColonRule(s, 0, e);
      RightRule(5, s, 2, j);
    }
    if DoubleColonAt(s, 0) && Groups(s, 2, j, 7) {
      DoubleColonRule(s, 0, 2);
      GroupsEnd(s, 2, j, 7);
      RightRule(5, s, 2, j);
      CatJoin(DOUBLE_COLON, right, s, 0, 2, j);
    }
  }

  lemma Alt9(a: Rule, b: Rule, c: Rule, d: Rule, e: Rule, f: Rule, g: Rule, h: Rule, k: Rule, s: string, i: nat, j: nat)
    ensures Derives(Alt(a, Alt(b, Alt(c, Alt(d, Alt(e, Alt(f, Alt(g, Alt(h, k)))))))), s, i, j)
            <==> || Derives(a, s, i, j) || Derives(b, s, i, j) || Derives(c, s, i, j) || Derives(d, s, i, j)
                 || Derives(e, s, i, j) || Derives(f, s, i, j) || Derives(g, s, i, j) || Derives(h, s, i, j)
                 || Derives(k, s, i, j)
  {
    var tail := Alt(f, Alt(g, Alt(h, k)));
    Alt3(a, b, Alt(c, Alt(d, Alt(e, tail))), s, i, j);
    Alt3(c, d, Alt(e, tail), s, i, j);
    Alt3(e, f, Alt(g, Alt(h, k)), s, i, j);
    Alt3(g, h, k, s, i, j);
  }

  /** The nine alternatives together: the hexadecimal forms of an address are exactly what IPv6address
      of RFC 3986 derives with ls32 in hexadecimal. */
  lemma HexFormIffIpv6Address(s: string, j: nat)
    requires j <= |s| && HexStops(s, j)
    ensures Derives(Ipv6Address(LS32_HEX), s, 0, j) <==> HexForm(s, j)
  {
    hide Derives, Times, UpTo, Groups, HexForm, SomeAround;
    Alt9(Cat(Times(6, H16_COLON), LS32_HEX), Cat(DOUBLE_COLON, Cat(Times(5, H16_COLON), LS32_HEX)),
         ElidedForm(0, 4, LS32_HEX), ElidedForm(1, 3, LS32_HEX), ElidedForm(2, 2, LS32_HEX),
         ElidedForm(3, 1, LS32_HEX), ElidedForm(4, 0, LS32_HEX),
         Cat(UpToGroups(5), Cat(DOUBLE_COLON, H16)), Cat(UpToGroups(6), DOUBLE_COLON), s, 0, j);
    FirstTwoRules(s, j);
    ElidedRule(0, 4, s, j);
    ElidedRule(1, 3, s, j);
    ElidedRule(2, 2, s, j);
    ElidedRule(3, 1, s, j);
    ElidedRule(4, 0, s, j);
    OneGroupLast(s, j);
    DoubleColonLast(s, j);
    FormsFromAround(s, j);
  }

  /** The counts that the alternatives allow are those that leave at least one group to the "::". */
  lemma FormsFromAround(s: string, j: nat)
    ensures HexForm(s, j) <==>
            || Groups(s, 0, j, 8)
            || (DoubleColonAt(s, 0) && Groups(s, 2, j, 7))
            || SomeAround(s, j, 1, 6)
            || SomeAround(s, j, 2, 5)
            || SomeAround(s, j, 3, 4)
            || SomeAround(s, j, 4, 3)
            || SomeAround(s, j, 5, 2)
            || SomeAround(s, j, 6, 1)
            || SomeAround(s, j, 7, 0)
  {
    hide Groups, Around, Elided;
    if d: nat, l: nat, r: nat :| Elided(s, j, d, l, r) {
      AroundFromElided(s, j, d, l, r);
      assert SomeAround(s, j, 7 - r, r);
      assert r == 0 || r == 1 || r == 2 || r == 3 || r == 4 || r == 5 || r == 6 || r == 7;
    }
    if DoubleColonAt(s, 0) && Groups(s, 2, j, 7) { ElidedAtStart(s, j); }
    forall p: nat, r: nat, d: nat, l: nat | p + r <= 7 && Around(s, j, p, r, d, l)
      ensures HexForm(s, j)
    {
      ElidedFromAround(s, j, p, r, d, l);
    }
  }

  lemma AroundFromElided(s: string, j: nat, d: nat, l: nat, r: nat)
    requires Elided(s, j, d, l, r)
    ensures r <= 7 && Around(s, j, 7 - r, r, d, l) && (r == 7 ==> DoubleColonAt(s, 0) && Groups(s, 2, j, 7))
  {
    if r == 7 { assert l == 0 && d == 0; }
  }

  lemma ElidedAtStart(s: string, j: nat)
    requires DoubleColonAt(s, 0) && Groups(s, 2, j, 7)
    ensures Elided(s, j, 0, 0, 7)
  {
  }

  lemma ElidedFromAround(s: string, j: nat, p: nat, r: nat, d: nat, l: nat)
    requires p + r <= 7 && Around(s, j, p, r, d, l)
    ensures Elided(s, j, d, l, r)
  {
  }
}
