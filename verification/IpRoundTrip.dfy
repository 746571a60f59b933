/** From eight groups through any of their texts, parsed, and back to the same groups. */
module IpRoundTrip {
  import opened Options
  import opened Abnf
  import opened UriGrammar
  import opened Numerals
  import opened Bits
  import opened Ipv6Text
  import opened Ipv6Scan
  import opened Ipv6Value
  import opened Ipv6Language
  import opened Ipv6Meaning
  import opened Ipv6Rfc
  import opened IpAddress
  import Ipv4
  import Utf8
  import Utf8Text

  /** A way to write an address (RFC 4291, section 2.2): groups in hexadecimal, in any case and with or
      without leading zeros; a gap of zero groups written "::"; the last two groups dotted or not. */
  datatype Address = Address(left: seq<string>, gap: nat, right: seq<string>, dotted: Option<seq<nat>>) {
    predicate Wf() {
      && AllH16(left) && AllH16(right)
      && (dotted.Some? ==> Ipv4.Octets(dotted.value))
      && (gap == 0 ==> right == [])
      && |left| + gap + |right| + (if dotted.Some? then 2 else 0) == 8
    }

    // What is written on the right of the "::".
    function Tail(groups: seq<string>): seq<string>
      requires dotted.Some? ==> |dotted.value| == 4
    {
      groups + if dotted.Some? then [Ipv4.Dotted(dotted.value)] else []
    }

    function Text(): string
      requires Wf()
    {
      if gap == 0 then Join(Tail(left)) else Join(left) + "::" + Join(Tail(right))
    }

    // The eight groups it stands for.
    function Meaning(): (v: seq<nat>)
      requires Wf()
      ensures |v| == 8
    {
      HexVals(left) + Zeros(gap) + HexVals(right) + if dotted.Some? then DottedGroups(dotted.value) else []
    }
  }

  predicate IsH16(t: string) { 1 <= |t| <= 4 && AllHex(t) }

  predicate AllH16(ts: seq<string>) { forall k :: 0 <= k < |ts| ==> IsH16(ts[k]) }

  function HexVals(ts: seq<string>): (v: seq<nat>)
    requires AllH16(ts)
    ensures |v| == |ts|
  {
    if ts == [] then [] else [Value(16, ts[0])] + HexVals(ts[1..])
  }

  function Join(ts: seq<string>): string {
    if ts == [] then "" else if |ts| == 1 then ts[0] else ts[0] + ":" + Join(ts[1..])
  }

  /* ---- Joined groups are groups ---- */

  lemma FirstGroup(s: string, i: nat, t: string)
    requires IsH16(t) && i + |t| <= |s| && s[i..i + |t|] == t && HexStops(s, i + |t|)
    ensures GroupAt(s, i) && HexEnd(s, i) == i + |t| && HexAt(s, i) == Value(16, t)
  {
    RunIsHex(s, i, i + |t|);
    SpanIsTheRun(HexC, s, i, i + |t|);
  }

  lemma Slices(s: string, i: nat, j: nat, x: string, y: string)
    requires i <= j <= |s| && s[i..j] == x + y
    ensures i + |x| <= j && s[i..i + |x|] == x && s[i + |x|..j] == y
  {
    var t := s[i..j];
    assert t[..|x|] == x && t[|x|..] == y;
  }

  lemma {:induction false} JoinedGroups(s: string, i: nat, j: nat, ts: seq<string>)
    requires AllH16(ts) && i <= j <= |s| && s[i..j] == Join(ts) && HexStops(s, j)
    ensures Groups(s, i, j, |ts|) && Vals(s, i, j, |ts|) == HexVals(ts)
    decreases |ts|
  {
    if |ts| == 1 {
      FirstGroup(s, i, ts[0]);
    } else if |ts| > 1 {
      var e := i + |ts[0]|;
      Slices(s, i, j, ts[0] + ":", Join(ts[1..]));
      assert s[e] == s[i..e + 1][e - i] == ':';
      assert s[i..e] == s[i..e + 1][..e - i] == ts[0];
      FirstGroup(s, i, ts[0]);
      JoinedGroups(s, e + 1, j, ts[1..]);
      JoinNonEmpty(ts[1..]);
    }
  }

  lemma JoinNonEmpty(ts: seq<string>)
    requires ts != [] && AllH16(ts)
    ensures Join(ts) != ""
  {
    assert IsH16(ts[0]);
  }

  /** Groups, a colon, and one more item, as Join writes them. */
  lemma {:induction false} JoinSnoc(ts: seq<string>, last: string)
    ensures ts != [] ==> Join(ts + [last]) == Join(ts) + ":" + last
    ensures ts == [] ==> Join(ts + [last]) == last
    decreases |ts|
  {
    if |ts| > 0 {
      JoinSnoc(ts[1..], last);
      assert (ts + [last])[1..] == ts[1..] + [last];
      assert (ts + [last])[0] == ts[0];
    }
  }

  /* ---- The scan of a written address ---- */

  // s is the text of the address, possibly with a slash and more behind it.
  predicate Written(s: string, a: Address, e: nat)
    requires a.Wf()
  {
    e <= |s| && s[..e] == a.Text() && (e < |s| ==> s[e] == '/')
  }

  // The scan of it stops at e and means the address.
  ghost predicate Reports(s: string, a: Address, e: nat)
    requires a.Wf()
  {
    ScansTo(s, e, a.Meaning())
  }

  lemma ReportFrom(s: string, a: Address, e: nat, st: State)
    requires a.Wf() && e <= |s| && Read(s, st) && Finish(st).Accept? && st.index == e
    requires e < |s| ==> s[e] == '/'
    requires WellRead(st) && Denoted(st) == a.Meaning()
    ensures Reports(s, a, e)
  {
    assert st.dotted.None? && !st.zone;
    hide Read;
    if e == |s| { StopsAtEnd(s, st); } else { StopsAtSlash(s, st); }
    ScanWellRead(s);
  }

  lemma FullReport(s: string, a: Address, e: nat)
    requires a.Wf() && Written(s, a, e) && a.gap == 0 && a.dotted.None?
    ensures Reports(s, a, e)
  {
    assert s[0..e] == s[..e] == Join(a.left) by { assert a.Tail(a.left) == a.left; }
    JoinedGroups(s, 0, e, a.left);
    hide Groups, Vals, Join, HexVals;
    var st := FullReads(s, e);
    assert Denoted(st) == a.Meaning();
    ReportFrom(s, a, e, st);
  }

  lemma DoubleColonCut(s: string, e: nat, x: string, w: string)
    requires e <= |s| && s[..e] == x + "::" + w
    ensures |x| + 2 <= e && DoubleColonAt(s, |x|) && s[0..|x|] == x && s[|x| + 2..e] == w
  {
    var t, d := s[..e], |x|;
    assert t == x + "::" + w;
    assert t[..d] == x && t[d] == ':' && t[d + 1] == ':' && t[d + 2..] == w;
  }

  lemma ColonCut(s: string, i: nat, e: nat, x: string, w: string)
    requires i <= e <= |s| && s[i..e] == x + ":" + w
    ensures i + |x| + 1 <= e && s[i + |x|] == ':' && s[i..i + |x|] == x && s[i + |x| + 1..e] == w
  {
    var t := s[i..e];
    assert t[..|x|] == x && t[|x|] == ':' && t[|x| + 1..] == w;
  }

  lemma DenotedElidedHex(a: Address, st: State)
    requires a.Wf() && a.gap > 0 && a.dotted.None? && st.seen && st.dotted.None?
    requires st.pieces == HexVals(a.left) + HexVals(a.right) && st.at == |a.left|
    ensures Denoted(st) == a.Meaning()
  {
    assert st.pieces[..st.at] == HexVals(a.left) && st.pieces[st.at..] == HexVals(a.right);
  }

  lemma ElidedReport(s: string, a: Address, e: nat)
    requires a.Wf() && Written(s, a, e) && a.gap > 0 && a.dotted.None?
    ensures Reports(s, a, e)
  {
    hide Join, Read, HexVals, Vals;
    var d, l, r := |Join(a.left)|, |a.left|, |a.right|;
    assert a.Tail(a.right) == a.right;
    DoubleColonCut(s, e, Join(a.left), Join(a.right));
    JoinedGroups(s, 0, d, a.left);
    JoinedGroups(s, d + 2, e, a.right);
    assert Elided(s, e, d, l, r);
    hide Groups, Elided;
    var st := ElidedFormReads(s, e, d, l, r);
    DenotedElidedHex(a, st);
    ReportFrom(s, a, e, st);
  }

  lemma DottedReport(s: string, a: Address, e: nat, p: nat, st: State)
    requires a.Wf() && a.dotted.Some? && p <= e <= |s| && s[p..e] == Ipv4.Dotted(a.dotted.value)
    requires e < |s| ==> s[e] == '/'
    requires Read(s, st) && st.index == p && (st.seen || |st.pieces| == 6) && (st.seen ==> 0 <= st.at <= |st.pieces|)
    requires Denoted(st.(dotted := a.dotted)) == a.Meaning()
    ensures Reports(s, a, e)
  {
    var o := a.dotted.value;
    Ipv4.DottedDerives(s, p, e, o);
    hide Read, Ipv4.Dotted;
    StopsAtDotted(s, st, e);
    Ipv4.DottedInjective(o, OctetsOf(s[p..e]));
    ScanWellRead(s);
  }

  lemma SixReport(s: string, a: Address, e: nat)
    requires a.Wf() && Written(s, a, e) && a.gap == 0 && a.dotted.Some?
    ensures Reports(s, a, e)
  {
    var p := |Join(a.left)| + 1;
    SixCut(s, a, e);
    DottedFirst(s, p, e, a.dotted.value);
    hide Ipv4.Dotted, Groups, Vals, Join, HexVals, Read;
    var st := SixReads(s, p);
    DenotedSix(a, st);
    DottedReport(s, a, e, p, st);
  }

  lemma SixCut(s: string, a: Address, e: nat)
    requires a.Wf() && Written(s, a, e) && a.gap == 0 && a.dotted.Some?
    ensures var p := |Join(a.left)| + 1;
      p <= e && s[p..e] == Ipv4.Dotted(a.dotted.value) && SixBefore(s, p) && Vals(s, 0, p - 1, 6) == HexVals(a.left)
  {
    hide Ipv4.Dotted, Groups, Vals, Join, HexVals, Written, Address.Wf, AllH16;
    WrittenSix(s, a, e);
    SixGroupsCut(s, a.left, Ipv4.Dotted(a.dotted.value), e);
  }

  lemma SixGroupsCut(s: string, left: seq<string>, y: string, e: nat)
    requires AllH16(left) && |left| == 6 && e <= |s| && s[0..e] == Join(left) + ":" + y
    ensures var p := |Join(left)| + 1;
      p <= e && s[p..e] == y && SixBefore(s, p) && Vals(s, 0, p - 1, 6) == HexVals(left)
  {
    hide Groups, Vals, Join, HexVals, AllH16;
    ColonCut(s, 0, e, Join(left), y);
    JoinedGroups(s, 0, |Join(left)|, left);
  }

  lemma WrittenSix(s: string, a: Address, e: nat)
    requires a.Wf() && Written(s, a, e) && a.gap == 0 && a.dotted.Some?
    ensures |a.left| == 6 && AllH16(a.left) && Ipv4.Octets(a.dotted.value)
    ensures e <= |s| && s[0..e] == Join(a.left) + ":" + Ipv4.Dotted(a.dotted.value)
  {
    JoinSnoc(a.left, Ipv4.Dotted(a.dotted.value));
    assert s[0..e] == s[..e];
  }

  lemma DenotedSix(a: Address, st: State)
    requires a.Wf() && a.gap == 0 && a.dotted.Some? && !st.seen && st.pieces == HexVals(a.left) && |st.pieces| == 6
    ensures Denoted(st.(dotted := a.dotted)) == a.Meaning()
  {
  }

  lemma DottedFirst(s: string, p: nat, e: nat, o: seq<nat>)
    requires Ipv4.Octets(o) && p <= e <= |s| && s[p..e] == Ipv4.Dotted(o)
    ensures p < e && IsDigit(s[p])
  {
    Ipv4.DottedDerives(s, p, e, o);
    Ipv4Chars(s, p, e);
  }

  // Where the dotted tail starts.
  lemma ElidedDottedCut(s: string, a: Address, e: nat) returns (p: nat)
    requires a.Wf() && Written(s, a, e) && a.gap > 0 && a.dotted.Some?
    ensures p <= e <= |s| && s[p..e] == Ipv4.Dotted(a.dotted.value)
    ensures var d := |Join(a.left)|;
      && DoubleColonAt(s, d) && s[0..d] == Join(a.left)
      && if |a.right| == 0 then p == d + 2
         else d + 2 < p && s[p - 1] == ':' && s[d + 2..p - 1] == Join(a.right)
  {
    hide Ipv4.Dotted;
    var y, d := Ipv4.Dotted(a.dotted.value), |Join(a.left)|;
    JoinSnoc(a.right, y);
    DoubleColonCut(s, e, Join(a.left), Join(a.Tail(a.right)));
    if a.right == [] {
      p := d + 2;
    } else {
      ColonCut(s, d + 2, e, Join(a.right), y);
      p := d + 2 + |Join(a.right)| + 1;
    }
  }

  // Groups on both sides of the "::", as they are written.
  ghost predicate AroundColons(s: string, left: seq<string>, right: seq<string>, d: nat, p: nat)
    requires AllH16(left) && AllH16(right)
  {
    && ElidedBefore(s, p, d, |left|, |right|) && Vals(s, 0, d, |left|) == HexVals(left)
    && (|right| > 0 ==> Vals(s, d + 2, p - 1, |right|) == HexVals(right))
  }

  lemma WrittenAround(s: string, left: seq<string>, right: seq<string>, d: nat, p: nat)
    requires AllH16(left) && AllH16(right) && p < |s| && DoubleColonAt(s, d) && s[0..d] == Join(left) && s[p] != '.'
    requires if |right| == 0 then p == d + 2 else d + 2 < p && s[p - 1] == ':' && s[d + 2..p - 1] == Join(right)
    ensures AroundColons(s, left, right, d, p)
  {
    hide Join, HexVals, Vals, Groups;
    JoinedGroups(s, 0, d, left);
    if |right| > 0 { JoinedGroups(s, d + 2, p - 1, right); }
  }

  lemma ElidedDottedReport(s: string, a: Address, e: nat)
    requires a.Wf() && Written(s, a, e) && a.gap > 0 && a.dotted.Some?
    ensures Reports(s, a, e)
  {
    hide Ipv4.Dotted, Join, Read, HexVals, Vals, Groups;
    var d, l, r := |Join(a.left)|, |a.left|, |a.right|;
    var p := ElidedDottedCut(s, a, e);
    DottedFirst(s, p, e, a.dotted.value);
    WrittenAround(s, a.left, a.right, d, p);
    RightAreVals(a, s, p, d, l, r);
    hide ElidedBefore, RightVals;
    var st := ElidedReads(s, p, d, l, r);
    DenotedElided(a, st);
    DottedReport(s, a, e, p, st);
  }

  lemma RightAreVals(a: Address, s: string, p: nat, d: nat, l: nat, r: nat)
    requires a.Wf() && r == |a.right| && p < |s| && ElidedBefore(s, p, d, l, r)
    requires r > 0 ==> Vals(s, d + 2, p - 1, r) == HexVals(a.right)
    ensures RightVals(s, p, d, l, r) == HexVals(a.right)
  {
  }

  lemma DenotedElided(a: Address, st: State)
    requires a.Wf() && a.gap > 0 && a.dotted.Some? && st.seen && st.dotted.None?
    requires st.pieces == HexVals(a.left) + HexVals(a.right) && st.at == |a.left|
    ensures Denoted(st.(dotted := a.dotted)) == a.Meaning()
  {
    var l, r, t := HexVals(a.left), HexVals(a.right), DottedGroups(a.dotted.value);
    InThree(l, r, t);
    hide HexVals, DottedGroups;
    assert st.pieces + t == l + r + t;
  }

  lemma InThree(l: seq<nat>, r: seq<nat>, t: seq<nat>)
    ensures (l + r + t)[..|l|] == l && (l + r + t)[|l|..] == r + t
  {
  }

  lemma WrittenReports(s: string, a: Address, e: nat)
    requires a.Wf() && Written(s, a, e)
    ensures Reports(s, a, e)
  {
    if a.dotted.None? {
      if a.gap == 0 { FullReport(s, a, e); } else { ElidedReport(s, a, e); }
    } else {
      if a.gap == 0 { SixReport(s, a, e); } else { ElidedDottedReport(s, a, e); }
    }
  }

  /* ---- The round trips ---- */

  /** Every text of an address is accepted, and getBits returns the number of its eight groups. */
  lemma RoundTrip(a: Address)
    requires a.Wf()
    ensures Accepts(a.Text())
    ensures WellRead(Scan(a.Text(), INITIAL).state)
    ensures Number128(Scan(a.Text(), INITIAL).state) == BigEndian(a.Meaning())
  {
    var s := a.Text();
    assert s[..|s|] == s;
    WrittenReports(s, a, |s|);
    BitsAreDenoted(Scan(s, INITIAL).state);
  }

  /** With a slash and a prefix length behind it, it is a prefix; a strict one iff the number is a multiple
      of 2^(128-n). */
  lemma PrefixRoundTrip(a: Address, n: nat)
    requires a.Wf() && n <= 128
    ensures IsPrefix6(a.Text() + "/" + Dec(n), false)
    ensures IsPrefix6(a.Text() + "/" + Dec(n), true) <==> MultipleOf2To(BigEndian(a.Meaning()), 128 - n)
  {
    var t := a.Text();
    var s, e := t + "/" + Dec(n), |t|;
    hide Scan, Dec, MultipleOf2To, Number128, BigEndian, PrefixText, NumberOf, Denoted;
    assert s[..e] == t && s[e] == '/' && s[e + 1..] == Dec(n);
    WrittenReports(s, a, e);
    LengthIsNumeral(s, e);
    assert LengthAt(s, e, n);
    ReportedPrefix(s, e, a.Meaning());
    OnlyPrefix(s, a.Meaning(), n);
  }

  lemma OnlyPrefix(s: string, v: seq<nat>, n: nat)
    requires AcceptsPrefix(s) && WellRead(Scan(s, INITIAL).state) && Denoted(Scan(s, INITIAL).state) == v && |v| == 8
    requires LengthAt(s, Scan(s, INITIAL).state.index, n)
    ensures IsPrefix6(s, false) && (IsPrefix6(s, true) <==> MultipleOf2To(BigEndian(v), 128 - n))
  {
    hide Scan, Dec, MultipleOf2To, Number128, BigEndian, PrefixText, Denoted, NumberOf;
    PrefixLanguage(s);
    forall e: nat, w: seq<nat>, m: nat | PrefixText(s, e, w, m)
      ensures m == n && w == v
    {
      DecInjective(m, n);
    }
  }

  lemma ReportedPrefix(s: string, e: nat, v: seq<nat>)
    requires ScansTo(s, e, v) && e < |s| && s[e] == '/' && Ipv4.NumeralEnd(s, e + 1, 128) == Some(|s|)
    ensures AcceptsPrefix(s) && Scan(s, INITIAL).Accept? && WellRead(Scan(s, INITIAL).state)
    ensures Denoted(Scan(s, INITIAL).state) == v && Scan(s, INITIAL).state.index == e
  {
    hide Scan, Denoted, Words, Ipv4.NumeralEnd;
    ScannedPrefix(s, e, v);
  }

  /** The same for IPv4. */
  lemma PrefixRoundTrip4(o: seq<nat>, n: nat)
    requires Ipv4.Octets(o) && n <= 32
    ensures IsPrefix4(Ipv4.Dotted(o) + "/" + Dec(n), false)
    ensures IsPrefix4(Ipv4.Dotted(o) + "/" + Dec(n), true) <==> MultipleOf2To(Ipv4.Number(o), 32 - n)
  {
    hide Dec, Ipv4.Dotted, MultipleOf2To, Ipv4.Number;
    var s := Ipv4.Dotted(o) + "/" + Dec(n);
    assert Ipv4.IsPrefixText(s, o, n);
    forall o': seq<nat>, n': nat | Ipv4.IsPrefixText(s, o', n')
      ensures o' == o && n' == n
    {
      PrefixTextUnique(s, o, n, o', n');
    }
  }

  /* ---- Every address can be written with any run of zeros elided ---- */

  // How many numbers k digits can write.
  function Room(k: nat): nat { if k == 0 then 1 else 16 * Room(k - 1) }

  /** A number in as many hexadecimal digits as there are flags, which say what digits are in upper case. */
  function HexText(n: nat, upper: seq<bool>): (t: string)
    requires n < Room(|upper|)
    ensures |t| == |upper| && AllHex(t) && Value(16, t) == n
    decreases |upper|
  {
    if upper == [] then "" else
      var last := |upper| - 1;
      Utf8Text.DigitRead(n % 16, upper[last]);
      var t := HexText(n / 16, upper[..last]) + [Utf8Text.HexDigit(n % 16, upper[last])];
      assert t[..last] == HexText(n / 16, upper[..last]);
      t
  }

  function CaseOf(t: string): (upper: seq<bool>)
    ensures |upper| == |t|
  {
    seq(|t|, k requires 0 <= k < |t| => 'A' <= t[k] <= 'F')
  }

  /** A text of hexadecimal digits is one of the written forms of its value. */
  lemma {:induction false} OneValue(t: string)
    requires AllHex(t)
    ensures Value(16, t) < Room(|t|) && HexText(Value(16, t), CaseOf(t)) == t
    decreases |t|
  {
    hide HexText, Value;
    if t == "" {
      NoDigits();
    } else {
      var last := |t| - 1;
      OneValue(t[..last]);
      Utf8Text.DigitWritten(t[last]);
      assert CaseOf(t)[..last] == CaseOf(t[..last]);
      var v, d := Value(16, t[..last]), Utf8.Unhex(t[last]);
      LastHexDigit(t);
      DivisionBy16(v, d);
      HexTextStep(16 * v + d, CaseOf(t));
      assert t == t[..last] + [t[last]];
    }
  }

  lemma NoDigits()
    ensures Value(16, "") == 0 && HexText(0, []) == ""
  {
  }

  lemma LastHexDigit(t: string)
    requires AllHex(t) && t != ""
    ensures Value(16, t) == 16 * Value(16, t[..|t| - 1]) + Utf8.Unhex(t[|t| - 1])
  {
  }

  lemma DivisionBy16(v: nat, d: nat)
    requires d < 16
    ensures (16 * v + d) / 16 == v && (16 * v + d) % 16 == d
  {
  }

  lemma HexTextStep(n: nat, upper: seq<bool>)
    requires upper != [] && n < Room(|upper|)
    ensures var last := |upper| - 1;
      n / 16 < Room(last) &&
      HexText(n, upper) == HexText(n / 16, upper[..last]) + [Utf8Text.HexDigit(n % 16, upper[last])]
  {
  }

  // One to four digits for every group, enough for its value
  predicate Widths(v: seq<nat>, upper: seq<seq<bool>>) {
    |upper| == |v| && forall k :: 0 <= k < |v| ==> 1 <= |upper[k]| <= 4 && v[k] < Room(|upper[k]|)
  }

  function HexTexts(v: seq<nat>, upper: seq<seq<bool>>): (ts: seq<string>)
    requires Widths(v, upper)
  {
    seq(|v|, k requires 0 <= k < |v| => HexText(v[k], upper[k]))
  }

  lemma {:induction false} HexValsAt(ts: seq<string>, k: nat)
    requires AllH16(ts) && k < |ts|
    ensures HexVals(ts)[k] == Value(16, ts[k])
    decreases |ts|
  {
    if k > 0 { HexValsAt(ts[1..], k - 1); }
  }

  lemma ValsOfTexts(v: seq<nat>, upper: seq<seq<bool>>)
    requires Widths(v, upper)
    ensures AllH16(HexTexts(v, upper)) && HexVals(HexTexts(v, upper)) == v
  {
    var ts := HexTexts(v, upper);
    assert AllH16(ts);
    forall k | 0 <= k < |v|
      ensures HexVals(ts)[k] == v[k]
    {
      HexValsAt(ts, k);
    }
  }

  // The texts are the groups from number i on, in that many digits and in these cases.
  ghost predicate Shows(ts: seq<string>, v: seq<nat>, upper: seq<seq<bool>>, i: nat) {
    && Widths(v, upper) && i + |ts| <= |v|
    && forall k :: 0 <= k < |ts| ==> ts[k] == HexText(v[i + k], upper[i + k])
  }

  // The last two groups as the octets of a dotted tail
  function TailOf(v: seq<nat>, dotted: bool): (o: Option<seq<nat>>)
    requires |v| == 8 && Words(v)
    ensures o == if dotted then Some([v[6] / 0x100, v[6] % 0x100, v[7] / 0x100, v[7] % 0x100]) else None
    ensures dotted ==> Ipv4.Octets(o.value) && DottedGroups(o.value) == v[6..]
  {
    if dotted then Some([v[6] / 0x100, v[6] % 0x100, v[7] / 0x100, v[7] % 0x100]) else None
  }

  /** Any eight groups, any run of zeros among them (or none, with len == 0), either notation for the last two, leading
      zeros or not, and any mix of cases: there is a text for it, which by RoundTrip is read back as these groups. */
  lemma EveryAddressIsWritten(v: seq<nat>, start: nat, len: nat, dotted: bool, upper: seq<seq<bool>>)
    returns (a: Address)
    requires |v| == 8 && Words(v) && Widths(v, upper)
    requires start + len <= (if dotted then 6 else 8) && v[start..start + len] == Zeros(len)
    ensures a.Wf() && a.Meaning() == v && a.gap == len
    ensures len > 0 ==> |a.left| == start
    ensures Shows(a.left, v, upper, 0) && Shows(a.right, v, upper, |a.left| + len)
    ensures a.dotted == if dotted then Some([v[6] / 0x100, v[6] % 0x100, v[7] / 0x100, v[7] % 0x100]) else None
  {
    var m := if dotted then 6 else 8;
    hide *;
    if len == 0 {
      a := WriteAround(v, m, 0, m, dotted, upper);
    } else {
      a := WriteAround(v, start, len, m, dotted, upper);
    }
  }

  lemma WriteAround(v: seq<nat>, cut: nat, len: nat, m: nat, dotted: bool, upper: seq<seq<bool>>)
    returns (a: Address)
    requires |v| == 8 && Words(v) && Widths(v, upper) && cut + len <= m && m == if dotted then 6 else 8
    requires v[cut..cut + len] == Zeros(len) && (len == 0 ==> cut == m)
    ensures a.Wf() && a.Meaning() == v && a.gap == len && |a.left| == cut && a.dotted == TailOf(v, dotted)
    ensures Shows(a.left, v, upper, 0) && Shows(a.right, v, upper, cut + len)
  {
    hide *;
    var left := GroupTexts(v, upper, 0, cut);
    var right := GroupTexts(v, upper, cut + len, m);
    a := Address(left, len, right, TailOf(v, dotted));
    WrittenMeans(a, v, cut, m, dotted);
  }

  lemma WrittenMeans(a: Address, v: seq<nat>, cut: nat, m: nat, dotted: bool)
    requires |v| == 8 && Words(v) && cut + a.gap <= m && m == if dotted then 6 else 8
    requires v[cut..cut + a.gap] == Zeros(a.gap) && (a.gap == 0 ==> cut == m)
    requires AllH16(a.left) && AllH16(a.right) && HexVals(a.left) == v[..cut] && HexVals(a.right) == v[cut + a.gap..m]
    requires a.dotted == TailOf(v, dotted)
    ensures a.Wf() && a.Meaning() == v
  {
    hide HexVals, DottedGroups, Words;
    InFour(v, cut, a.gap, m);
  }

  lemma GroupTexts(v: seq<nat>, upper: seq<seq<bool>>, i: nat, j: nat) returns (ts: seq<string>)
    requires Widths(v, upper) && i <= j <= |v|
    ensures |ts| == j - i && AllH16(ts) && HexVals(ts) == v[i..j]
    ensures Shows(ts, v, upper, i)
  {
    hide HexText, HexVals, Room;
    ts := HexTexts(v[i..j], upper[i..j]);
    ValsOfTexts(v[i..j], upper[i..j]);
  }

  lemma InFour(v: seq<nat>, cut: nat, len: nat, m: nat)
    requires cut + len <= m <= |v| && v[cut..cut + len] == Zeros(len)
    ensures v == v[..cut] + Zeros(len) + v[cut + len..m] + v[m..]
  {
    assert v[..cut] + v[cut..cut + len] == v[..cut + len];
    assert v[..cut + len] + v[cut + len..m] == v[..m];
  }

  /** Where the parser goes beyond the RFC: a dotted tail right behind "::" is accepted after any number of groups,
      and six or more leave the "::" nothing to stand for. */
  lemma DottedBehindManyGroups(left: seq<string>, o: seq<nat>)
    requires AllH16(left) && |left| >= 6 && Ipv4.Octets(o)
    ensures var s := Join(left) + "::" + Ipv4.Dotted(o); Accepts(s) && !Matches(Ipv6Address(LS32), s)
  {
    var s, p := Join(left) + "::" + Ipv4.Dotted(o), |Join(left)| + 2;
    ManyGroups(s, left, o);
    hide *;
    OverlongIsNotRfc(s, p);
    DottedCases(s, p);
    AddressLanguage(s);
  }

  lemma ManyGroups(s: string, left: seq<string>, o: seq<nat>)
    requires AllH16(left) && |left| >= 6 && Ipv4.Octets(o) && s == Join(left) + "::" + Ipv4.Dotted(o)
    ensures Overlong(s, |Join(left)| + 2)
  {
    var d := |Join(left)|;
    hide Ipv4.Dotted, Join, HexVals, Derives;
    assert s[..|s|] == s;
    DoubleColonCut(s, |s|, Join(left), Ipv4.Dotted(o));
    JoinedGroups(s, 0, d, left);
    Ipv4.DottedDerives(s, d + 2, |s|, o);
    hide Groups, DoubleColonAt;
    assert ElidedBefore(s, d + 2, d, |left|, 0);
  }

  function OnesText(n: nat): string { if n == 0 then "" else if n == 1 then "1" else "1:" + OnesText(n - 1) }

  lemma {:induction false} Ones(n: nat)
    ensures var ts := seq(n, _ => "1"); AllH16(ts) && |ts| == n && Join(ts) == OnesText(n)
  {
    if n > 1 {
      Ones(n - 1);
      assert seq(n, _ => "1")[1..] == seq(n - 1, _ => "1");
    }
  }

  lemma DottedOnes()
    ensures Ipv4.Dotted([1, 1, 1, 1]) == "1.1.1.1" && Dec(1) == "1"
  {
    assert Dec(1) == "1";
  }

  lemma OverlongExample()
    ensures Accepts("1:1:1:1:1:1::1.1.1.1") && !Matches(Ipv6Address(LS32), "1:1:1:1:1:1::1.1.1.1")
  {
    hide Accepts, Matches, Ipv6Address, Join, Ipv4.Dotted, Dec;
    Ones(6);
    DottedOnes();
    DottedBehindManyGroups(seq(6, _ => "1"), [1, 1, 1, 1]);
    assert OnesText(6) == "1:1:1:1:1:1";
    assert "1:1:1:1:1:1" + "::" + "1.1.1.1" == "1:1:1:1:1:1::1.1.1.1";
  }

  /** Behind seven or more groups the dotted tail makes more than eight: getBits returns 0, and the text is a strict
      prefix of every length, whatever its groups. */
  lemma OverlongPrefix(left: seq<string>, o: seq<nat>, n: nat)
    requires AllH16(left) && |left| >= 7 && Ipv4.Octets(o) && n <= 128
    ensures IsPrefix6(Join(left) + "::" + Ipv4.Dotted(o) + "/" + Dec(n), true)
  {
    var t := Join(left) + "::" + Ipv4.Dotted(o);
    var s, d, e := t + "/" + Dec(n), |Join(left)|, |t|;
    hide Ipv4.Dotted, Join, Dec, PrefixText, HexVals;
    assert s[..e] == t && s[e] == '/' && s[e + 1..] == Dec(n);
    DoubleColonCut(s, e, Join(left), Ipv4.Dotted(o));
    JoinedGroups(s, 0, d, left);
    DottedFirst(s, d + 2, e, o);
    OverlongMeans(s, d, e, |left|, o);
    var v :| SomeDotted(s, e, v) && |v| > 8;
    assert PrefixText(s, e, v, n) by { DottedPrefix(s, e, v, n); }
  }

  lemma OverlongMeans(s: string, d: nat, e: nat, l: nat, o: seq<nat>)
    requires d + 2 < e <= |s| && Ipv4.Octets(o) && s[d + 2..e] == Ipv4.Dotted(o)
    requires Groups(s, 0, d, l) && DoubleColonAt(s, d) && l >= 7
    ensures exists v :: SomeDotted(s, e, v) && |v| > 8
  {
    hide Ipv4.Dotted, Groups, Vals;
    var v := Vals(s, 0, d, l) + Zeros(0) + [] + DottedGroups(o);
    assert ElidedDottedMeans(s, d + 2, v, o, d, l, 0);
    assert DottedMeans(s, d + 2, e, v, o);
    assert SomeDotted(s, e, v);
  }

  lemma DottedPrefix(s: string, e: nat, v: seq<nat>, n: nat)
    requires SomeDotted(s, e, v) && LengthAt(s, e, n)
    ensures PrefixText(s, e, v, n)
  {
    hide SomeDotted;
  }

  lemma OverlongPrefixExample()
    ensures IsPrefix6("1:1:1:1:1:1:1::1.1.1.1/1", true)
  {
    Ones(7);
    DottedOnes();
    OverlongPrefix(seq(7, _ => "1"), [1, 1, 1, 1], 1);
    SevenOnes();
    hide IsPrefix6, Join, Ipv4.Dotted, OnesText;
    assert "1:1:1:1:1:1:1::1.1.1.1" + "/" + "1" == "1:1:1:1:1:1:1::1.1.1.1/1";
  }

  lemma SevenOnes()
    ensures OnesText(7) + "::" + "1.1.1.1" == "1:1:1:1:1:1:1::1.1.1.1"
  {
    assert OnesText(7) == "1:1:1:1:1:1:1";
  }
}
