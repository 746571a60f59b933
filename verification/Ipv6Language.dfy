/** Exactly which texts the IPv6 parser accepts, and how they relate to IPv6address of RFC 3986. */
module Ipv6Language {
  import opened Options
  import opened Abnf
  import opened UriGrammar
  import opened Numerals
  import opened Ipv6Text
  import opened Ipv6Scan
  import Ipv4

  /* ---- The accepted forms ---- */

  // A zone: a percent sign and at least one more character.
  predicate ZoneAt(s: string, j: nat) {
    j + 1 < |s| && s[j] == '%'
  }

  // A single colon behind the last group, which the loop lets pass before `%` and `/`.
  predicate LoneColonAt(s: string, j: nat) {
    0 < j < |s| && s[j - 1] != ':' && s[j] == ':'
  }

  // Six groups and the colon before a dotted tail at p.
  predicate SixBefore(s: string, p: nat) {
    0 < p <= |s| && s[p - 1] == ':' && Groups(s, 0, p - 1, 6)
  }

  // l groups, "::", and r groups each with its colon, before a dotted tail at p.
  predicate ElidedBefore(s: string, p: nat, d: nat, l: nat, r: nat) {
    && Groups(s, 0, d, l) && DoubleColonAt(s, d)
    && if r == 0 then p == d + 2 else d + 2 < p <= |s| && s[p - 1] == ':' && Groups(s, d + 2, p - 1, r)
  }

  ghost predicate DottedForm(s: string, p: nat) {
    Derives(IPV4, s, p, |s|) && (SixBefore(s, p) || exists d: nat, l: nat, r: nat :: ElidedBefore(s, p, d, l, r))
  }

  ghost predicate ZoneForm(s: string, j: nat) {
    j < |s| && HexForm(s, j) && (ZoneAt(s, j) || (LoneColonAt(s, j) && ZoneAt(s, j + 1)))
  }

  /* ---- Forms and states ---- */

  lemma ReadEnds(s: string, st: State)
    requires Read(s, st) && Finish(st).Accept?
    ensures || HexForm(s, st.index)
            || (0 < st.index < |s| && HexForm(s, st.index - 1) && LoneColonAt(s, st.index - 1) && s[st.index] != ':')
  {
    hide Groups, Vals;
    var p, n := st.index, |st.pieces|;
    if st.seen {
      var d: nat :| ReadFrom(s, st, d);
      var r := n - st.at;
      if Groups(s, d + 2, p, r) {
        assert Elided(s, p, d, st.at, r);
      } else {
        assert Elided(s, p - 1, d, st.at, r);
        GroupsEnd(s, d + 2, p - 1, r);
      }
    } else if !Groups(s, 0, p, 8) {
      GroupsEnd(s, 0, p - 1, 8);
    }
  }

  lemma FullReads(s: string, p: nat) returns (st: State)
    requires p <= |s| && Groups(s, 0, p, 8)
    ensures Read(s, st) && Finish(st).Accept?
    ensures st == State(p, Vals(s, 0, p, 8), false, -1, None, false)
  {
    hide Groups, Vals;
    st := State(p, Vals(s, 0, p, 8), false, -1, None, false);
    assert Tail(s, 0, p, 8);
  }

  lemma ElidedFormReads(s: string, p: nat, d: nat, l: nat, r: nat) returns (st: State)
    requires p <= |s| && Elided(s, p, d, l, r) && (p < |s| && s[p] == ':' ==> p > 0 && s[p - 1] != ':')
    ensures Read(s, st) && Finish(st).Accept?
    ensures st == State(p, Vals(s, 0, d, l) + Vals(s, d + 2, p, r), true, l, None, false)
  {
    hide Groups, Vals;
    st := State(p, Vals(s, 0, d, l) + Vals(s, d + 2, p, r), true, l, None, false);
    GroupsEnd(s, d + 2, p, r);
    assert Tail(s, d + 2, p, r) && TailVals(s, d + 2, p, r) == Vals(s, d + 2, p, r);
    assert |st.pieces| - st.at == r;
    assert ReadFrom(s, st, d);
  }

  lemma FormReads(s: string, p: nat) returns (st: State)
    requires p <= |s| && HexForm(s, p) && (p < |s| && s[p] == ':' ==> p > 0 && s[p - 1] != ':')
    ensures Read(s, st) && st.index == p && Finish(st).Accept?
  {
    if Groups(s, 0, p, 8) {
      st := FullReads(s, p);
    } else {
      var d: nat, l: nat, r: nat :| Elided(s, p, d, l, r);
      st := ElidedFormReads(s, p, d, l, r);
    }
  }

  // The numbers of the r groups between the "::" at d and a dotted tail at p.
  function RightVals(s: string, p: nat, d: nat, l: nat, r: nat): seq<nat>
    requires p < |s| && ElidedBefore(s, p, d, l, r)
  {
    if r == 0 then [] else Vals(s, d + 2, p - 1, r)
  }

  lemma ElidedReads(s: string, p: nat, d: nat, l: nat, r: nat) returns (st: State)
    requires p < |s| && ElidedBefore(s, p, d, l, r) && s[p] != ':'
    ensures Read(s, st)
    ensures st == State(p, Vals(s, 0, d, l) + RightVals(s, p, d, l, r), true, l, None, false)
  {
    hide Groups, Vals;
    st := State(p, Vals(s, 0, d, l) + RightVals(s, p, d, l, r), true, l, None, false);
    if r == 0 {
      NoGroups(s, p);
    } else {
      GroupsEnd(s, d + 2, p - 1, r);
      assert AfterColon(s, d + 2, p, r);
      assert !Groups(s, d + 2, p, r) by { if Groups(s, d + 2, p, r) { GroupsEnd(s, d + 2, p, r); } }
    }
    assert Tail(s, d + 2, p, r) && TailVals(s, d + 2, p, r) == RightVals(s, p, d, l, r);
    assert |st.pieces| - st.at == r;
    assert ReadFrom(s, st, d);
  }

  lemma SixReads(s: string, p: nat) returns (st: State)
    requires p < |s| && SixBefore(s, p) && s[p] != ':'
    ensures Read(s, st) && st == State(p, Vals(s, 0, p - 1, 6), false, -1, None, false)
  {
    st := State(p, Vals(s, 0, p - 1, 6), false, -1, None, false);
    GroupsEnd(s, 0, p - 1, 6);
    assert AfterColon(s, 0, p, 6);
    assert !Groups(s, 0, p, 6) by { if Groups(s, 0, p, 6) { GroupsEnd(s, 0, p, 6); } }
  }

  lemma {:induction false} DottedEndIs(s: string, i: nat, j: nat)
    requires i <= j <= |s| && (forall k :: i <= k < j ==> IsDottedChar(s[k])) && (j < |s| ==> !IsDottedChar(s[j]))
    ensures DottedEnd(s, i) == j
    decreases j - i
  {
    if i < j { DottedEndIs(s, i + 1, j); }
  }

  /** A text of IPv4address is at least seven digits and dots and starts with a digit. */
  lemma Ipv4Chars(s: string, p: nat, j: nat)
    requires Derives(IPV4, s, p, j)
    ensures p + 7 <= j <= |s| && IsDigit(s[p]) && forall k :: p <= k < j ==> IsDottedChar(s[k])
  {
    var a, b, c := Ipv4.Ipv4Shape(s, p, j);
    OctetChars(s, p, a);
    OctetChars(s, a + 1, b);
    OctetChars(s, b + 1, c);
    OctetChars(s, c + 1, j);
  }

  lemma OctetChars(s: string, i: nat, j: nat)
    requires Derives(DEC_OCTET, s, i, j)
    ensures i < j <= |s| && forall k :: i <= k < j ==> IsDigit(s[k])
  {
    Ipv4.DecOctetRule(s, i, j);
    var t := s[i..j];
    assert forall k :: i <= k < j ==> s[k] == t[k - i];
  }

  /** When a dotted tail follows, the groups before it end with a colon. */
  lemma ReadBeforeDotted(s: string, st: State)
    requires Read(s, st) && st.index < |s| && IsDigit(s[st.index])
    ensures !st.seen && |st.pieces| == 6 ==> SixBefore(s, st.index)
    ensures st.seen ==> exists d: nat, l: nat, r: nat :: ElidedBefore(s, st.index, d, l, r)
  {
    hide Groups, Vals, TailVals;
    var p, n := st.index, |st.pieces|;
    if st.seen {
      var d: nat :| ReadFrom(s, st, d);
      TailStart(s, d + 2, p, n - st.at);
      assert ElidedBefore(s, p, d, st.at, n - st.at);
    } else if n == 6 {
      TailStart(s, 0, p, 6);
    }
  }

  lemma SuffixMatches(s: string, p: nat, j: nat)
    requires p <= j <= |s|
    ensures Matches(IPV4, s[p..j]) <==> Derives(IPV4, s, p, j)
  {
    Shift(IPV4, s, p, s[p..j], 0, j - p);
  }

  /* ---- The language ---- */

  lemma AcceptedForms(s: string)
    requires Accepts(s)
    ensures || HexForm(s, |s|)
            || (exists j: nat :: ZoneForm(s, j))
            || (exists p: nat :: DottedForm(s, p))
  {
    assert Read(s, INITIAL) by { assert Groups(s, 0, 0, 0); }
    var p := ScanSound(s, INITIAL);
    var f := Scan(s, INITIAL).state;
    var st := Before(f, p);
    if f.dotted.Some? {
      SuffixMatches(s, p, |s|);
      Ipv4Chars(s, p, |s|);
      ReadBeforeDotted(s, st);
      assert DottedForm(s, p);
    } else {
      ReadEnds(s, st);
      if f.zone {
        assert ZoneAt(s, p);
        if HexForm(s, p) { assert ZoneForm(s, p); } else { assert ZoneForm(s, p - 1); }
      }
    }
  }

  lemma StopsAtEnd(s: string, st: State)
    requires Read(s, st) && st.index == |s| && Finish(st).Accept?
    ensures Scan(s, INITIAL) == Accept(st)
  {
    ScanReaches(s, st);
  }

  lemma StopsAtZone(s: string, st: State)
    requires Read(s, st) && ZoneAt(s, st.index) && Finish(st).Accept?
    ensures Scan(s, INITIAL) == Accept(st.(index := |s|, zone := true))
  {
    ScanReaches(s, st);
    NoHexAt(s, st.index);
    assert DottedEnd(s, st.index) == st.index;
  }

  lemma StopsAtSlash(s: string, st: State)
    requires Read(s, st) && st.index < |s| && s[st.index] == '/' && Finish(st).Accept?
    ensures Scan(s, INITIAL) == Accept(st)
  {
    ScanReaches(s, st);
    NoHexAt(s, st.index);
    assert DottedEnd(s, st.index) == st.index;
  }

  lemma StopsAtDotted(s: string, st: State, j: nat)
    requires Read(s, st) && Derives(IPV4, s, st.index, j) && (j < |s| ==> !IsDottedChar(s[j]))
    requires st.seen || |st.pieces| == 6
    ensures Matches(IPV4, s[st.index..j])
    ensures Scan(s, INITIAL) == Accept(st.(index := j, dotted := Some(OctetsOf(s[st.index..j]))))
  {
    var p := st.index;
    Ipv4Chars(s, p, j);
    SuffixMatches(s, p, j);
    DottedEndIs(s, p, j);
    ScanReaches(s, st);
    hide Derives, Matches, OctetsOf;
  }

  lemma FormAccepted(s: string)
    requires HexForm(s, |s|)
    ensures Accepts(s)
  {
    var st := FormReads(s, |s|);
    StopsAtEnd(s, st);
  }

  lemma ZoneAccepted(s: string, j: nat)
    requires ZoneForm(s, j)
    ensures Accepts(s)
  {
    hide Scan, Read, HexForm;
    var st := FormReads(s, j);
    if ZoneAt(s, j) {
      StopsAtZone(s, st);
    } else {
      ReadColon(s, st);
      StopsAtZone(s, st.(index := j + 1));
    }
  }

  lemma DottedAccepted(s: string, p: nat) returns (st: State)
    requires DottedForm(s, p)
    ensures Accepts(s) && Read(s, st) && st.index == p
    ensures Matches(IPV4, s[p..]) && Scan(s, INITIAL).state == st.(index := |s|, dotted := Some(OctetsOf(s[p..])))
  {
    hide Scan, Read, Groups, Derives, Matches;
    Ipv4Chars(s, p, |s|);
    if SixBefore(s, p) {
      st := SixReads(s, p);
    } else {
      var d: nat, l: nat, r: nat :| ElidedBefore(s, p, d, l, r);
      st := ElidedReads(s, p, d, l, r);
    }
    StopsAtDotted(s, st, |s|);
    assert s[p..|s|] == s[p..];
  }

  /** The texts that the parser accepts as addresses, all of them: the hexadecimal forms of RFC 3986,
      those followed by a zone (a single colon may stand before its percent sign), and a dotted tail
      behind six groups or behind any number of groups around a "::". */
  lemma AddressLanguage(s: string)
    ensures Accepts(s) <==>
            || HexForm(s, |s|)
            || (exists j: nat :: ZoneForm(s, j))
            || (exists p: nat :: DottedForm(s, p))
  {
    hide Accepts, HexForm, DottedForm, ZoneForm;
    if Accepts(s) { AcceptedForms(s); }
    if HexForm(s, |s|) { FormAccepted(s); }
    if j: nat :| ZoneForm(s, j) {
      ZoneAccepted(s, j);
    }
    if p: nat :| DottedForm(s, p) { var st := DottedAccepted(s, p); }
  }
}
