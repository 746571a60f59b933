/** What the loop of ipv6.addressPart computes, as a function of the text and the parser's state, and
    the texts that take it from the initial state to any other one. */
module Ipv6Scan {
  import opened Options
  import opened Abnf
  import opened UriGrammar
  import opened Numerals
  import opened Ipv6Text
  import Ipv4

  datatype State = State(index: nat, pieces: seq<nat>, seen: bool, at: int, dotted: Option<seq<nat>>, zone: bool)

  const INITIAL: State := State(0, [], false, -1, None, false)

  datatype Outcome = Reject | Accept(state: State)

  predicate IsDottedChar(c: char) { IsDigit(c) || c == '.' }

  // Where the run of digits and dots that starts at i ends.
  function DottedEnd(s: string, i: nat): (e: nat)
    requires i <= |s|
    ensures i <= e <= |s|
    ensures forall k :: i <= k < e ==> IsDottedChar(s[k])
    ensures e < |s| ==> !IsDottedChar(s[e])
    decreases |s| - i
  {
    if i < |s| && IsDottedChar(s[i]) then DottedEnd(s, i + 1) else i
  }

  // The octets that a text of IPv4address denotes.
  ghost function OctetsOf(t: string): (o: seq<nat>)
    requires Matches(IPV4, t)
    ensures Ipv4.Octets(o) && t == Ipv4.Dotted(o)
  {
    Ipv4.MatchesIffDotted(t);
    var o :| Ipv4.Octets(o) && t == Ipv4.Dotted(o);
    o
  }

  // The piece count that the loop demands when it stops.
  function Finish(st: State): Outcome {
    if (if st.seen then |st.pieces| < 8 else |st.pieces| == 8) then Accept(st) else Reject
  }

  predicate TriesDotted(s: string, st: State)
    requires st.index <= |s|
  {
    (st.seen || |st.pieces| == 6) && DottedEnd(s, st.index) >= st.index + 7
  }

  ghost function Scan(s: string, st: State): Outcome
    requires st.index <= |s|
    decreases |s| - st.index
  {
    var i := st.index;
    if i == |s| then Finish(st)
    else if TriesDotted(s, st) then
      var t := s[i..DottedEnd(s, i)];
      if Matches(IPV4, t) then Accept(st.(index := DottedEnd(s, i), dotted := Some(OctetsOf(t)))) else Reject
    else if HexEnd(s, i) > i + 4 then Reject
    else if HexEnd(s, i) > i then Scan(s, st.(index := HexEnd(s, i), pieces := st.pieces + [HexAt(s, i)]))
    else if s[i] == ':' then
      if i + 1 < |s| && s[i + 1] == ':' then
        if st.seen || (i + 2 < |s| && s[i + 2] == ':') then Reject
        else Scan(s, st.(index := i + 2, seen := true, at := |st.pieces|))
      else if i == 0 || i + 1 == |s| then Reject
      else Scan(s, st.(index := i + 1))
    else if s[i] == '%' then
      if i + 1 < |s| then Finish(st.(index := |s|, zone := true)) else Reject
    else Finish(st)
  }

  /* ---- The states that a text leads to ---- */

  // Behind a single colon that something other than a colon follows.
  predicate AfterColon(s: string, a: nat, i: nat, n: nat)
    requires a <= |s|
  {
    n > 0 && a < i < |s| && s[i - 1] == ':' && s[i] != ':' && Groups(s, a, i - 1, n)
  }

  // s[a..i] is n groups, possibly with a colon behind them.
  predicate Tail(s: string, a: nat, i: nat, n: nat)
    requires a <= |s|
  {
    Groups(s, a, i, n) || AfterColon(s, a, i, n)
  }

  function TailVals(s: string, a: nat, i: nat, n: nat): (v: seq<nat>)
    requires a <= |s| && Tail(s, a, i, n)
    ensures |v| == n
  {
    if Groups(s, a, i, n) then Vals(s, a, i, n) else Vals(s, a, i - 1, n)
  }

  predicate ReadFrom(s: string, st: State, d: nat) {
    && 0 <= st.at <= |st.pieces| && Groups(s, 0, d, st.at) && DoubleColonAt(s, d)
    && (d + 2 < |s| ==> s[d + 2] != ':')
    && Tail(s, d + 2, st.index, |st.pieces| - st.at)
    && st.pieces == Vals(s, 0, d, st.at) + TailVals(s, d + 2, st.index, |st.pieces| - st.at)
  }

  /** The state describes the text before its index: groups, or groups on both sides of a "::". */
  ghost predicate Read(s: string, st: State) {
    && st.index <= |s| && st.dotted.None? && !st.zone
    && if st.seen then exists d: nat :: ReadFrom(s, st, d)
       else st.at == -1 && Tail(s, 0, st.index, |st.pieces|) && st.pieces == TailVals(s, 0, st.index, |st.pieces|)
  }

  lemma TailStart(s: string, a: nat, i: nat, n: nat)
    requires a <= |s| && Tail(s, a, i, n)
    ensures a <= i <= |s| && (n == 0 ==> i == a)
    ensures i < |s| && IsHexdig(s[i]) ==> n == 0 || AfterColon(s, a, i, n)
    ensures i < |s| && s[i] == ':' ==> Groups(s, a, i, n)
  {
    if Groups(s, a, i, n) { GroupsEnd(s, a, i, n); } else { GroupsEnd(s, a, i - 1, n); }
  }

  /** A group extends a tail that ends at its start. */
  lemma TailGroup(s: string, a: nat, i: nat, n: nat)
    requires a <= |s| && i <= |s| && Tail(s, a, i, n) && GroupAt(s, i)
    ensures Tail(s, a, HexEnd(s, i), n + 1) && Groups(s, a, HexEnd(s, i), n + 1)
    ensures TailVals(s, a, HexEnd(s, i), n + 1) == TailVals(s, a, i, n) + [HexAt(s, i)]
  {
    assert s[i] == s[i..HexEnd(s, i)][0];
    TailStart(s, a, i, n);
    if n == 0 {
      assert Groups(s, a, HexEnd(s, i), 1);
    } else {
      assert !Groups(s, a, i, n) by { if Groups(s, a, i, n) { GroupsEnd(s, a, i, n); } }
      GroupsSnoc(s, a, i - 1, n);
    }
  }

  lemma TailColon(s: string, a: nat, i: nat, n: nat)
    requires a <= |s| && i + 1 < |s| && Tail(s, a, i, n) && s[i] == ':' && s[i + 1] != ':' && n > 0
    ensures Tail(s, a, i + 1, n) && TailVals(s, a, i + 1, n) == TailVals(s, a, i, n)
  {
    TailStart(s, a, i, n);
    if Groups(s, a, i + 1, n) { GroupsEnd(s, a, i + 1, n); }
  }

  lemma ReadGroup(s: string, st: State)
    requires Read(s, st) && GroupAt(s, st.index)
    ensures Read(s, st.(index := HexEnd(s, st.index), pieces := st.pieces + [HexAt(s, st.index)]))
  {
    hide Tail, TailVals, Groups, Vals, HexAt;
    var i, e, n := st.index, HexEnd(s, st.index), |st.pieces|;
    var st' := st.(index := e, pieces := st.pieces + [HexAt(s, i)]);
    if st.seen {
      var d: nat :| ReadFrom(s, st, d);
      TailGroup(s, d + 2, i, n - st.at);
      var l, r, x := Vals(s, 0, d, st.at), TailVals(s, d + 2, i, n - st.at), HexAt(s, i);
      assert (l + r) + [x] == l + (r + [x]);
      assert |st'.pieces| - st'.at == (n - st.at) + 1;
      assert ReadFrom(s, st', d);
    } else {
      TailGroup(s, 0, i, n);
    }
  }

  lemma ReadColon(s: string, st: State)
    requires Read(s, st) && st.index > 0 && st.index + 1 < |s| && s[st.index] == ':' && s[st.index + 1] != ':'
    ensures Read(s, st.(index := st.index + 1))
  {
    hide Tail, TailVals, Groups, Vals;
    var i, n := st.index, |st.pieces|;
    if st.seen {
      var d: nat :| ReadFrom(s, st, d);
      TailStart(s, d + 2, i, n - st.at);
      TailColon(s, d + 2, i, n - st.at);
      assert ReadFrom(s, st.(index := i + 1), d);
    } else {
      TailStart(s, 0, i, n);
      TailColon(s, 0, i, n);
    }
  }

  lemma ReadDoubleColon(s: string, st: State)
    requires Read(s, st) && !st.seen && DoubleColonAt(s, st.index)
    requires st.index + 2 < |s| ==> s[st.index + 2] != ':'
    ensures Read(s, st.(index := st.index + 2, seen := true, at := |st.pieces|))
  {
    TailStart(s, 0, st.index, |st.pieces|);
    assert ReadFrom(s, st.(index := st.index + 2, seen := true, at := |st.pieces|), st.index);
  }

  // How the scan stopped at p and reported f.
  ghost predicate StoppedAt(s: string, p: nat, f: State) {
    p <= |s| &&
    if f.dotted.Some? then
      && !f.zone && (f.seen || |f.pieces| == 6) && f.index == DottedEnd(s, p)
      && Matches(IPV4, s[p..f.index]) && f.dotted.value == OctetsOf(s[p..f.index])
    else if f.zone then
      f.index == |s| && p + 1 < |s| && s[p] == '%' && Finish(f).Accept?
    else
      f.index == p && (p == |s| || (!IsHexdig(s[p]) && s[p] != ':' && s[p] != '%')) && Finish(f).Accept?
  }

  // The state at p that the report f came from.
  function Before(f: State, p: nat): State {
    f.(index := p, dotted := None, zone := false)
  }

  /** Soundness: whatever the scan reports, it has read the text that the report describes. */
  lemma {:induction false} ScanSound(s: string, st: State) returns (p: nat)
    requires Read(s, st) && Scan(s, st).Accept?
    ensures Read(s, Before(Scan(s, st).state, p)) && StoppedAt(s, p, Scan(s, st).state)
    decreases |s| - st.index
  {
    hide HexAt, DottedEnd;
    var i := st.index;
    var f := Scan(s, st).state;
    p := i;
    assert i <= |s| && st.dotted.None? && !st.zone;
    hide Read, Matches, OctetsOf;
    if i == |s| {
      assert Before(f, p) == st;
    } else if TriesDotted(s, st) {
      assert Before(f, p) == st;
    } else if HexEnd(s, i) > i {
      ReadGroup(s, st);
      p := ScanSound(s, st.(index := HexEnd(s, i), pieces := st.pieces + [HexAt(s, i)]));
    } else if s[i] == ':' {
      if i + 1 < |s| && s[i + 1] == ':' {
        ReadDoubleColon(s, st);
        p := ScanSound(s, st.(index := i + 2, seen := true, at := |st.pieces|));
      } else {
        ReadColon(s, st);
        p := ScanSound(s, st.(index := i + 1));
      }
    } else {
      assert Before(f, p) == st;
    }
  }

  lemma GroupStep(s: string, st: State)
    requires st.index <= |s| && GroupAt(s, st.index)
    requires HexEnd(s, st.index) < |s| ==> s[HexEnd(s, st.index)] != '.'
    ensures Scan(s, st) == Scan(s, st.(index := HexEnd(s, st.index), pieces := st.pieces + [HexAt(s, st.index)]))
  {
    var e := HexEnd(s, st.index);
    assert e < |s| ==> !IsDottedChar(s[e]);
    assert DottedEnd(s, st.index) <= e;
  }

  lemma ColonStep(s: string, st: State)
    requires 0 < st.index && st.index + 1 < |s| && s[st.index] == ':' && s[st.index + 1] != ':'
    ensures Scan(s, st) == Scan(s, st.(index := st.index + 1))
  {
    assert DottedEnd(s, st.index) == st.index;
    NoHexAt(s, st.index);
  }

  lemma DoubleColonStep(s: string, st: State)
    requires DoubleColonAt(s, st.index) && !st.seen && (st.index + 2 < |s| ==> s[st.index + 2] != ':')
    ensures Scan(s, st) == Scan(s, st.(index := st.index + 2, seen := true, at := |st.pieces|))
  {
    hide HexAt, Matches, OctetsOf, Finish;
    assert DottedEnd(s, st.index) == st.index;
    NoHexAt(s, st.index);
  }

  lemma NoHexAt(s: string, i: nat)
    requires i < |s| && !IsHexdig(s[i])
    ensures HexEnd(s, i) == i
  {
  }

  /** The scan runs through groups without stopping. */
  lemma {:induction false} ScanGroups(s: string, st: State, j: nat, n: nat)
    requires st.index <= |s| && n > 0 && Groups(s, st.index, j, n) && j <= |s| && (j < |s| ==> s[j] != '.')
    ensures Scan(s, st) == Scan(s, st.(index := j, pieces := st.pieces + Vals(s, st.index, j, n)))
    decreases n
  {
    hide Scan, Groups, Vals, HexAt, DottedEnd;
    var i, e := st.index, HexEnd(s, st.index);
    if n > 1 {
      GroupsFirst(s, i, j, n);
      var st1 := st.(index := e, pieces := st.pieces + [HexAt(s, i)]);
      GroupStep(s, st);
      ColonStep(s, st1);
      ScanGroups(s, st1.(index := e + 1), j, n - 1);
      assert (st.pieces + [HexAt(s, i)]) + Vals(s, e + 1, j, n - 1) == st.pieces + Vals(s, i, j, n);
    } else {
      OnlyGroup(s, i, j);
      GroupStep(s, st);
    }
  }

  lemma ScanTail(s: string, st: State, i: nat, n: nat)
    requires st.index <= |s| && Tail(s, st.index, i, n) && i <= |s| && (i < |s| ==> s[i] != '.')
    ensures Scan(s, st) == Scan(s, st.(index := i, pieces := st.pieces + TailVals(s, st.index, i, n)))
  {
    hide Scan;
    var a := st.index;
    if n == 0 {
      assert st.(index := i, pieces := st.pieces + TailVals(s, a, i, n)) == st;
    } else if Groups(s, a, i, n) {
      ScanGroups(s, st, i, n);
    } else {
      ScanGroups(s, st, i - 1, n);
      GroupsEnd(s, a, i - 1, n);
      ColonStep(s, st.(index := i - 1, pieces := st.pieces + Vals(s, a, i - 1, n)));
    }
  }

  /** Completeness: the scan of the whole text passes through every state that describes the text, so
      there is only one way to read it. */
  lemma ScanReaches(s: string, st: State)
    requires Read(s, st) && (st.index < |s| ==> s[st.index] != '.')
    ensures Scan(s, INITIAL) == Scan(s, st)
  {
    hide Scan, Tail, TailVals, Groups, Vals;
    if st.seen {
      var d: nat :| ReadFrom(s, st, d);
      ScanReachesSeen(s, st, d);
    } else {
      ScanTail(s, INITIAL, st.index, |st.pieces|);
      assert [] + st.pieces == st.pieces;
    }
  }

  lemma ScanReachesSeen(s: string, st: State, d: nat)
    requires Read(s, st) && st.seen && ReadFrom(s, st, d) && (st.index < |s| ==> s[st.index] != '.')
    ensures Scan(s, INITIAL) == Scan(s, st)
  {
    hide Scan, Tail, TailVals, Groups, Vals;
    var v := Vals(s, 0, d, st.at);
    var colons := State(d, v, false, -1, None, false);
    ScanLeft(s, d, st.at);
    DoubleColonStep(s, colons);
    var behind := State(d + 2, v, true, st.at, None, false);
    assert behind == colons.(index := d + 2, seen := true, at := |v|);
    ScanTail(s, behind, st.index, |st.pieces| - st.at);
    assert st == behind.(index := st.index, pieces := v + TailVals(s, d + 2, st.index, |st.pieces| - st.at));
  }

  lemma ScanLeft(s: string, d: nat, n: nat)
    requires Groups(s, 0, d, n) && d <= |s| && (d < |s| ==> s[d] != '.')
    ensures Scan(s, INITIAL) == Scan(s, State(d, Vals(s, 0, d, n), false, -1, None, false))
  {
    TailOfGroups(s, 0, d, n);
    hide Scan, Tail, TailVals, Groups, Vals;
    assert [] + Vals(s, 0, d, n) == Vals(s, 0, d, n);
    ScanTail(s, INITIAL, d, n);
  }

  lemma TailOfGroups(s: string, a: nat, i: nat, n: nat)
    requires a <= |s| && Groups(s, a, i, n)
    ensures Tail(s, a, i, n) && TailVals(s, a, i, n) == Vals(s, a, i, n)
  {
  }

  /* ---- What address() and addressPrefix() accept ---- */

  ghost predicate Accepts(s: string) {
    Scan(s, INITIAL).Accept? && Scan(s, INITIAL).state.index == |s|
  }

  ghost predicate AcceptsPrefix(s: string) {
    var r := Scan(s, INITIAL);
    && r.Accept? && !r.state.zone
    && r.state.index < |s| && s[r.state.index] == '/'
    && Ipv4.NumeralEnd(s, r.state.index + 1, 128) == Some(|s|)
  }
}
