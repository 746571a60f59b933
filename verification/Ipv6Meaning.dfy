/** What an IPv6 text means, read off the text itself: the groups that it writes out, with zeros for a "::".
    The parser accepts exactly the texts that mean something, and getBits returns the number of their groups. */
module Ipv6Meaning {
  import opened Options
  import opened Abnf
  import opened UriGrammar
  import opened Numerals
  import opened Bits
  import opened Ipv6Text
  import opened Ipv6Scan
  import opened Ipv6Value
  import opened Ipv6Language
  import Ipv4

  /* ---- Texts and their groups ---- */

  // s[..e] is eight groups, or at most seven around a "::" that stands for the missing ones.
  ghost predicate HexMeans(s: string, e: nat, v: seq<nat>) {
    && e <= |s|
    && (|| (Groups(s, 0, e, 8) && v == Vals(s, 0, e, 8))
        || exists d: nat, l: nat, r: nat :: ElidedMeans(s, e, v, d, l, r))
  }

  ghost predicate ElidedMeans(s: string, e: nat, v: seq<nat>, d: nat, l: nat, r: nat)
    requires e <= |s|
  {
    Elided(s, e, d, l, r) && v == Vals(s, 0, d, l) + Zeros(8 - l - r) + Vals(s, d + 2, e, r)
  }

  // s[..e] is six groups, or groups around a "::", and then an IPv4address from p on, which is two groups. Behind
  // more than six groups the "::" stands for nothing, and there are more than eight groups in all.
  ghost predicate DottedMeans(s: string, p: nat, e: nat, v: seq<nat>, o: seq<nat>) {
    && p < e <= |s| && Ipv4.Octets(o) && s[p..e] == Ipv4.Dotted(o)
    && (|| (SixBefore(s, p) && v == Vals(s, 0, p - 1, 6) + DottedGroups(o))
        || exists d: nat, l: nat, r: nat :: ElidedDottedMeans(s, p, v, o, d, l, r))
  }

  ghost predicate ElidedDottedMeans(s: string, p: nat, v: seq<nat>, o: seq<nat>, d: nat, l: nat, r: nat)
    requires p < |s| && |o| == 4
  {
    ElidedBefore(s, p, d, l, r) &&
    v == Vals(s, 0, d, l) + Zeros(if l + r <= 6 then 6 - l - r else 0) + RightVals(s, p, d, l, r) + DottedGroups(o)
  }

  ghost predicate SomeDotted(s: string, e: nat, v: seq<nat>) {
    exists p: nat, o: seq<nat> :: DottedMeans(s, p, e, v, o)
  }

  /** s is an address that means v; its hexadecimal form ends at e, where a zone may follow. */
  ghost predicate AddressText(s: string, e: nat, v: seq<nat>) {
    || (HexMeans(s, e, v) && (e == |s| || ZoneAt(s, e) || (LoneColonAt(s, e) && ZoneAt(s, e + 1))))
    || (e == |s| && SomeDotted(s, e, v))
  }

  // A slash at q and a prefix length behind it
  predicate LengthAt(s: string, q: nat, n: nat) {
    q < |s| && s[q] == '/' && s[q + 1..] == Dec(n) && n <= 128
  }

  /** s is an address up to e that means v, and the prefix length n; a colon may stand before the slash. */
  ghost predicate PrefixText(s: string, e: nat, v: seq<nat>, n: nat) {
    || (HexMeans(s, e, v) && (LengthAt(s, e, n) || (LoneColonAt(s, e) && LengthAt(s, e + 1, n))))
    || (SomeDotted(s, e, v) && LengthAt(s, e, n))
  }

  /* ---- The states that read them ---- */

  /** Whatever the scan reports is in range. */
  lemma ScanWellRead(s: string)
    requires Scan(s, INITIAL).Accept?
    ensures WellRead(Scan(s, INITIAL).state) && Words(Scan(s, INITIAL).state.pieces)
  {
    assert Read(s, INITIAL) by { NoGroups(s, 0); }
    var p := ScanSound(s, INITIAL);
    hide Scan, Matches, Groups, Vals;
    ReadBound(s, Before(Scan(s, INITIAL).state, p));
  }

  lemma ReadBound(s: string, st: State)
    requires Read(s, st)
    ensures Words(st.pieces) && (st.seen ==> 0 <= st.at <= |st.pieces|)
  {
    hide Groups, Vals;
    if st.seen {
      var d: nat :| ReadFrom(s, st, d);
      ValsBound(s, 0, d, st.at);
      TailBound(s, d + 2, st.index, |st.pieces| - st.at);
    } else {
      TailBound(s, 0, st.index, |st.pieces|);
    }
  }

  lemma TailBound(s: string, a: nat, i: nat, n: nat)
    requires a <= |s| && Tail(s, a, i, n)
    ensures Words(TailVals(s, a, i, n))
  {
    if Groups(s, a, i, n) { ValsBound(s, a, i, n); } else { ValsBound(s, a, i - 1, n); }
  }

  // The state has read s[..e] and means v.
  ghost predicate ReadsAs(s: string, e: nat, v: seq<nat>, st: State) {
    Read(s, st) && st.index == e && Finish(st).Accept? && WellRead(st) && Denoted(st) == v && |v| == 8
  }

  lemma HexReads(s: string, e: nat, v: seq<nat>) returns (st: State)
    requires HexMeans(s, e, v) && (e < |s| && s[e] == ':' ==> e > 0 && s[e - 1] != ':')
    ensures ReadsAs(s, e, v, st)
  {
    hide Groups, Vals, Read;
    if Groups(s, 0, e, 8) && v == Vals(s, 0, e, 8) {
      st := FullReads(s, e);
    } else {
      var d: nat, l: nat, r: nat :| ElidedMeans(s, e, v, d, l, r);
      st := ElidedFormReads(s, e, d, l, r);
      InHalves(Vals(s, 0, d, l), Vals(s, d + 2, e, r));
    }
  }

  lemma InHalves(x: seq<nat>, y: seq<nat>)
    ensures (x + y)[..|x|] == x && (x + y)[|x|..] == y
  {
  }

  lemma PastColon(s: string, e: nat, v: seq<nat>, st: State)
    requires ReadsAs(s, e, v, st) && LoneColonAt(s, e) && e + 1 < |s| && s[e + 1] != ':'
    ensures ReadsAs(s, e + 1, v, st.(index := e + 1))
  {
    hide Read;
    ReadColon(s, st);
  }

  lemma SixScanned(s: string, p: nat, e: nat, v: seq<nat>, o: seq<nat>)
    requires p < e <= |s| && Ipv4.Octets(o) && s[p..e] == Ipv4.Dotted(o) && (e < |s| ==> !IsDottedChar(s[e]))
    requires SixBefore(s, p) && v == Vals(s, 0, p - 1, 6) + DottedGroups(o)
    ensures ScansTo(s, e, v)
  {
    hide Ipv4.Dotted, Read, Groups, Vals, Derives, Scan;
    DottedStarts(s, p, e, o);
    var st := SixReads(s, p);
    DottedScanned(s, p, e, o, st);
    Concluded(s, e, v, st.(index := e, dotted := Some(o)));
  }

  lemma DottedStarts(s: string, p: nat, e: nat, o: seq<nat>)
    requires p < e <= |s| && Ipv4.Octets(o) && s[p..e] == Ipv4.Dotted(o)
    ensures Derives(IPV4, s, p, e) && IsDigit(s[p])
  {
    Ipv4.DottedDerives(s, p, e, o);
    Ipv4Chars(s, p, e);
  }

  lemma ElidedScanned(s: string, p: nat, e: nat, v: seq<nat>, o: seq<nat>, d: nat, l: nat, r: nat)
    requires p < e <= |s| && Ipv4.Octets(o) && s[p..e] == Ipv4.Dotted(o) && (e < |s| ==> !IsDottedChar(s[e]))
    requires ElidedDottedMeans(s, p, v, o, d, l, r)
    ensures ScansTo(s, e, v)
  {
    hide Ipv4.Dotted, Read, Groups, Vals, RightVals, Derives, Scan, DottedGroups;
    DottedStarts(s, p, e, o);
    var st := ElidedReads(s, p, d, l, r);
    DottedScanned(s, p, e, o, st);
    ElidedCounts(s, p, d, l, r);
    ElidedDenoted(st, Vals(s, 0, d, l), RightVals(s, p, d, l, r), o);
    Concluded(s, e, v, st.(index := e, dotted := Some(o)));
  }

  lemma ElidedCounts(s: string, p: nat, d: nat, l: nat, r: nat)
    requires p < |s| && ElidedBefore(s, p, d, l, r)
    ensures |Vals(s, 0, d, l)| == l && |RightVals(s, p, d, l, r)| == r
  {
  }

  lemma Concluded(s: string, e: nat, v: seq<nat>, f: State)
    requires Scan(s, INITIAL) == Accept(f) && f.index == e && !f.zone && WellRead(f) && Denoted(f) == v
    ensures ScansTo(s, e, v)
  {
    ScanWellRead(s);
  }

  lemma ElidedDenoted(st: State, x: seq<nat>, y: seq<nat>, o: seq<nat>)
    requires Ipv4.Octets(o) && st.seen && st.pieces == x + y && st.at == |x|
    ensures WellRead(st.(dotted := Some(o)))
    ensures Denoted(st.(dotted := Some(o))) ==
            x + Zeros(if |x| + |y| <= 6 then 6 - |x| - |y| else 0) + y + DottedGroups(o)
  {
    var t := DottedGroups(o);
    hide DottedGroups;
    var groups := x + y + t;
    assert groups[..|x|] == x && groups[|x|..] == y + t;
    assert x + Zeros(0) + y + t == groups;
  }

  lemma DottedScanned(s: string, p: nat, e: nat, o: seq<nat>, st: State)
    requires p < e <= |s| && Ipv4.Octets(o) && s[p..e] == Ipv4.Dotted(o) && Derives(IPV4, s, p, e)
    requires e < |s| ==> !IsDottedChar(s[e])
    requires Read(s, st) && st.index == p && (st.seen || |st.pieces| == 6)
    ensures Scan(s, INITIAL) == Accept(st.(index := e, dotted := Some(o)))
  {
    hide Read, Ipv4.Dotted, Derives;
    StopsAtDotted(s, st, e);
    Ipv4.DottedInjective(o, OctetsOf(s[p..e]));
  }

  // The scan stops at e and reports a state that means v.
  ghost predicate ScansTo(s: string, e: nat, v: seq<nat>) {
    && Scan(s, INITIAL).Accept?
    && var st := Scan(s, INITIAL).state;
       st.index == e && !st.zone && WellRead(st) && Words(st.pieces) && Denoted(st) == v
  }

  lemma SomeDottedScanned(s: string, e: nat, v: seq<nat>)
    requires SomeDotted(s, e, v) && (e < |s| ==> !IsDottedChar(s[e]))
    ensures ScansTo(s, e, v)
  {
    hide Ipv4.Dotted, Groups, Vals, ScansTo, DottedGroups;
    var p: nat, o: seq<nat> :| DottedMeans(s, p, e, v, o);
    if SixBefore(s, p) && v == Vals(s, 0, p - 1, 6) + DottedGroups(o) {
      SixScanned(s, p, e, v, o);
    } else {
      var d: nat, l: nat, r: nat :| ElidedDottedMeans(s, p, v, o, d, l, r);
      ElidedScanned(s, p, e, v, o, d, l, r);
    }
  }

  lemma SlashScanned(s: string, e: nat, v: seq<nat>, st: State)
    requires ReadsAs(s, e, v, st) && e < |s| && s[e] == '/'
    ensures ScansTo(s, e, v)
  {
    StopsAtSlash(s, st);
    Concluded(s, e, v, st);
  }

  /* ---- Every accepted text means something ---- */

  lemma FormMeans(s: string, e: nat)
    requires e <= |s| && HexForm(s, e)
    ensures exists v :: HexMeans(s, e, v)
  {
    hide Groups, Vals;
    if Groups(s, 0, e, 8) {
      assert HexMeans(s, e, Vals(s, 0, e, 8));
    } else {
      var d: nat, l: nat, r: nat :| Elided(s, e, d, l, r);
      var v := Vals(s, 0, d, l) + Zeros(8 - l - r) + Vals(s, d + 2, e, r);
      assert ElidedMeans(s, e, v, d, l, r);
      assert HexMeans(s, e, v);
    }
  }

  lemma DottedTextMeans(s: string, p: nat, e: nat)
    requires p < e <= |s| && Derives(IPV4, s, p, e)
    requires SixBefore(s, p) || exists d: nat, l: nat, r: nat :: ElidedBefore(s, p, d, l, r)
    ensures exists v :: SomeDotted(s, e, v)
  {
    var o := Ipv4.DerivesDotted(s, p, e);
    hide Ipv4.Dotted, DottedMeans, Derives, ElidedBefore, SixBefore;
    if SixBefore(s, p) {
      SixMeans(s, p, e, o);
    } else {
      var d: nat, l: nat, r: nat :| ElidedBefore(s, p, d, l, r);
      ElidedTextMeans(s, p, e, o, d, l, r);
    }
    var v :| DottedMeans(s, p, e, v, o);
    assert SomeDotted(s, e, v);
  }

  lemma SixMeans(s: string, p: nat, e: nat, o: seq<nat>)
    requires p < e <= |s| && Ipv4.Octets(o) && s[p..e] == Ipv4.Dotted(o) && SixBefore(s, p)
    ensures exists v :: DottedMeans(s, p, e, v, o)
  {
    hide Ipv4.Dotted, Groups, Vals, DottedGroups;
    assert DottedMeans(s, p, e, Vals(s, 0, p - 1, 6) + DottedGroups(o), o);
  }

  lemma ElidedTextMeans(s: string, p: nat, e: nat, o: seq<nat>, d: nat, l: nat, r: nat)
    requires p < e <= |s| && Ipv4.Octets(o) && s[p..e] == Ipv4.Dotted(o) && ElidedBefore(s, p, d, l, r)
    ensures exists v :: DottedMeans(s, p, e, v, o)
  {
    hide Ipv4.Dotted, Groups, Vals, DottedGroups, RightVals;
    var zeros := Zeros(if l + r <= 6 then 6 - l - r else 0);
    var v := Vals(s, 0, d, l) + zeros + RightVals(s, p, d, l, r) + DottedGroups(o);
    assert ElidedDottedMeans(s, p, v, o, d, l, r);
    assert DottedMeans(s, p, e, v, o);
  }

  lemma AcceptedMeans(s: string)
    requires Accepts(s)
    ensures exists e: nat, v: seq<nat> :: AddressText(s, e, v)
  {
    hide Accepts, HexForm, HexMeans, SomeDotted;
    AddressLanguage(s);
    if HexForm(s, |s|) {
      FormMeans(s, |s|);
      var v :| HexMeans(s, |s|, v);
      assert AddressText(s, |s|, v);
    } else if j: nat :| ZoneForm(s, j) {
      FormMeans(s, j);
      var v :| HexMeans(s, j, v);
      assert AddressText(s, j, v);
    } else {
      var p: nat :| DottedForm(s, p);
      Ipv4Chars(s, p, |s|);
      DottedTextMeans(s, p, |s|);
      var v :| SomeDotted(s, |s|, v);
      assert AddressText(s, |s|, v);
    }
  }

  // getBits, as a number: 0 when there are more than eight groups.
  function NumberOf(v: seq<nat>): nat { if |v| == 8 then BigEndian(v) else 0 }

  // The parser reads s as v, and getBits returns its number.
  ghost predicate ReadAs(s: string, v: seq<nat>) {
    && |v| >= 8 && Scan(s, INITIAL).Accept? && WellRead(Scan(s, INITIAL).state)
    && Denoted(Scan(s, INITIAL).state) == v && Number128(Scan(s, INITIAL).state) == NumberOf(v)
  }

  lemma MeaningIsNumber(st: State)
    requires WellRead(st) && Words(st.pieces) && Denoted(st) != [] && |Denoted(st)| >= 8
    ensures Number128(st) == NumberOf(Denoted(st))
  {
    if |Denoted(st)| == 8 { BitsAreDenoted(st); } else { TooMany(st); }
  }

  lemma TooMany(st: State)
    requires WellRead(st) && |Denoted(st)| > 8
    ensures Number128(st) == 0
  {
    assert |Pieces(st)| > 8;
  }

  lemma MeansEnough(s: string, e: nat, v: seq<nat>)
    requires HexMeans(s, e, v) || SomeDotted(s, e, v)
    ensures |v| >= 8
  {
    hide Groups, Vals;
    if HexMeans(s, e, v) && !(Groups(s, 0, e, 8) && v == Vals(s, 0, e, 8)) {
      var d: nat, l: nat, r: nat :| ElidedMeans(s, e, v, d, l, r);
    } else if !HexMeans(s, e, v) {
      var p: nat, o: seq<nat> :| DottedMeans(s, p, e, v, o);
      if !(SixBefore(s, p) && v == Vals(s, 0, p - 1, 6) + DottedGroups(o)) {
        var d: nat, l: nat, r: nat :| ElidedDottedMeans(s, p, v, o, d, l, r);
        ElidedCounts(s, p, d, l, r);
      }
    }
  }

  lemma AddressScanned(s: string, e: nat, v: seq<nat>)
    requires AddressText(s, e, v)
    ensures Accepts(s) && Scan(s, INITIAL).Accept?
    ensures WellRead(Scan(s, INITIAL).state) && Denoted(Scan(s, INITIAL).state) == v
  {
    hide Scan, HexMeans, Read, Groups, Denoted, Words, SomeDotted;
    if HexMeans(s, e, v) && (e == |s| || ZoneAt(s, e) || (LoneColonAt(s, e) && ZoneAt(s, e + 1))) {
      var st := HexReads(s, e, v);
      HexScanned(s, e, v, st);
    } else {
      SomeDottedScanned(s, e, v);
    }
  }

  lemma HexScanned(s: string, e: nat, v: seq<nat>, st: State)
    requires ReadsAs(s, e, v, st) && (e == |s| || ZoneAt(s, e) || (LoneColonAt(s, e) && ZoneAt(s, e + 1)))
    ensures Accepts(s) && WellRead(Scan(s, INITIAL).state) && Denoted(Scan(s, INITIAL).state) == v
  {
    hide Scan, Read;
    if e == |s| {
      StopsAtEnd(s, st);
    } else if ZoneAt(s, e) {
      StopsAtZone(s, st);
    } else {
      PastColon(s, e, v, st);
      StopsAtZone(s, st.(index := e + 1));
    }
  }

  /** A text is accepted iff it means something; what it means is unique, and getBits returns the big-endian number
      of its eight groups, or 0 when a dotted tail makes them more than eight. */
  lemma AddressMeaning(s: string)
    ensures Accepts(s) <==> exists e: nat, v: seq<nat> :: AddressText(s, e, v)
    ensures forall e: nat, v: seq<nat> :: AddressText(s, e, v) ==> ReadAs(s, v)
    ensures forall e: nat, v: seq<nat>, e': nat, v': seq<nat> ::
              AddressText(s, e, v) && AddressText(s, e', v') ==> v == v'
  {
    hide AddressText, Scan, Accepts, Number128, NumberOf, Denoted, WellRead;
    if Accepts(s) { AcceptedMeans(s); }
    forall e: nat, v: seq<nat> | AddressText(s, e, v)
      ensures Accepts(s) && ReadAs(s, v)
    {
      AddressScanned(s, e, v);
      AddressEnough(s, e, v);
      ReadsNumber(s, v);
    }
  }

  lemma ReadsNumber(s: string, v: seq<nat>)
    requires |v| >= 8 && Scan(s, INITIAL).Accept? && WellRead(Scan(s, INITIAL).state)
    requires Denoted(Scan(s, INITIAL).state) == v
    ensures ReadAs(s, v)
  {
    hide Scan, Number128, NumberOf, Denoted;
    ScanWellRead(s);
    MeaningIsNumber(Scan(s, INITIAL).state);
  }

  lemma AddressEnough(s: string, e: nat, v: seq<nat>)
    requires AddressText(s, e, v)
    ensures |v| >= 8
  {
    MeansEnough(s, e, v);
  }

  /* ---- Prefixes ---- */

  // Where the slash is.
  function SlashOf(s: string, e: nat): nat { if e < |s| && s[e] == '/' then e else e + 1 }

  lemma PrefixScanned(s: string, e: nat, v: seq<nat>, n: nat)
    requires PrefixText(s, e, v, n)
    ensures ScansTo(s, SlashOf(s, e), v) && LengthAt(s, SlashOf(s, e), n) && |v| >= 8
  {
    hide Scan, HexMeans, Read, Groups, Denoted, Words, SomeDotted, Dec;
    MeansEnough(s, e, v);
    if HexMeans(s, e, v) && LengthAt(s, e, n) {
      var st := HexReads(s, e, v);
      SlashScanned(s, e, v, st);
    } else if HexMeans(s, e, v) && LoneColonAt(s, e) && LengthAt(s, e + 1, n) {
      var st := HexReads(s, e, v);
      PastColon(s, e, v, st);
      SlashScanned(s, e + 1, v, st.(index := e + 1));
    } else {
      SomeDottedScanned(s, e, v);
    }
  }

  lemma LengthIsNumeral(s: string, q: nat)
    requires q < |s| && s[q] == '/'
    ensures Ipv4.NumeralEnd(s, q + 1, 128) == Some(|s|) <==> exists n: nat :: LengthAt(s, q, n)
  {
    assert s[q + 1..|s|] == s[q + 1..];
    if Ipv4.NumeralEnd(s, q + 1, 128) == Some(|s|) {
      DecOfValue(s[q + 1..]);
      assert LengthAt(s, q, Value(10, s[q + 1..]));
    }
    if n: nat :| LengthAt(s, q, n) { Ipv4.NumeralEndComplete(s, q + 1, |s|, n, 128); }
  }

  lemma AcceptedPrefixMeans(s: string)
    requires AcceptsPrefix(s)
    ensures exists e: nat, v: seq<nat>, n: nat :: PrefixText(s, e, v, n)
  {
    assert Read(s, INITIAL) by { NoGroups(s, 0); }
    hide Scan, Read, HexMeans, SomeDotted, Dec;
    var f := Scan(s, INITIAL).state;
    LengthIsNumeral(s, f.index);
    var n: nat :| LengthAt(s, f.index, n);
    var p := ScanSound(s, INITIAL);
    if f.dotted.Some? {
      StoppedDotted(s, p, f);
      var v :| SomeDotted(s, f.index, v);
      assert PrefixText(s, f.index, v, n);
    } else {
      StoppedHex(s, p, f);
      var e: nat, v: seq<nat> :| HexMeans(s, e, v) && (e == f.index || (e + 1 == f.index && LoneColonAt(s, e)));
      assert PrefixText(s, e, v, n);
    }
  }

  lemma StoppedDotted(s: string, p: nat, f: State)
    requires Read(s, Before(f, p)) && StoppedAt(s, p, f) && f.dotted.Some?
    ensures exists v :: SomeDotted(s, f.index, v)
  {
    SuffixMatches(s, p, f.index);
    Ipv4Chars(s, p, f.index);
    hide Read, Derives, SomeDotted, Matches, SixBefore, ElidedBefore;
    ReadBeforeDotted(s, Before(f, p));
    DottedTextMeans(s, p, f.index);
  }

  lemma StoppedHex(s: string, p: nat, f: State)
    requires Read(s, Before(f, p)) && StoppedAt(s, p, f) && f.dotted.None? && !f.zone
    ensures exists e: nat, v: seq<nat> :: HexMeans(s, e, v) && (e == f.index || (e + 1 == f.index && LoneColonAt(s, e)))
  {
    hide Read, HexMeans, HexForm;
    assert p == f.index && Before(f, p) == f;
    ReadEnds(s, f);
    var e := if HexForm(s, p) then p else p - 1;
    FormMeans(s, e);
    var v :| HexMeans(s, e, v);
  }

  /** A prefix is accepted iff it is an address without a zone, a slash and a canonical prefix length up to 128;
      it has one reading, and getBits returns the number of the address. */
  lemma PrefixLanguage(s: string)
    ensures AcceptsPrefix(s) <==> exists e: nat, v: seq<nat>, n: nat :: PrefixText(s, e, v, n)
    ensures forall e: nat, v: seq<nat>, n: nat :: PrefixText(s, e, v, n) ==>
              ReadAs(s, v) && LengthAt(s, Scan(s, INITIAL).state.index, n)
  {
    hide PrefixText, Scan, Number128, NumberOf, Denoted, AcceptsPrefix, Dec;
    if AcceptsPrefix(s) { AcceptedPrefixMeans(s); }
    forall e: nat, v: seq<nat>, n: nat | PrefixText(s, e, v, n)
      ensures AcceptsPrefix(s) && ReadAs(s, v) && LengthAt(s, Scan(s, INITIAL).state.index, n)
    {
      PrefixScanned(s, e, v, n);
      ReadsNumber(s, v);
      LengthIsNumeral(s, SlashOf(s, e));
      ScannedPrefix(s, SlashOf(s, e), v);
    }
  }

  lemma ScannedPrefix(s: string, q: nat, v: seq<nat>)
    requires ScansTo(s, q, v) && q < |s| && s[q] == '/' && Ipv4.NumeralEnd(s, q + 1, 128) == Some(|s|)
    ensures AcceptsPrefix(s)
  {
    hide Scan, Denoted;
  }
}
