/** Host names, ports, and host/port pairs of cel/library.go. */
module HostPort {
  import opened Options
  import opened Abnf
  import opened UriGrammar
  import opened Numerals
  import opened Ipv6Scan
  import opened IpAddress
  import Ipv4
  import Ipv6Language

  /* ---- Labels ---- */

  // strings.SplitSeq(s, ".")
  function Split(s: string): (parts: seq<string>)
    ensures parts != []
    decreases |s|
  {
    var d := Find(s, '.', 0);
    if d == |s| then [s] else [s[..d]] + Split(s[d + 1..])
  }

  // The first c at or behind i, or the length.
  function Find(s: string, c: char, i: nat): (d: nat)
    requires i <= |s|
    ensures i <= d <= |s|
    ensures forall k :: i <= k < d ==> s[k] != c
    ensures d < |s| ==> s[d] == c
    decreases |s| - i
  {
    if i == |s| || s[i] == c then i else Find(s, c, i + 1)
  }

  function JoinDots(parts: seq<string>): string
    requires parts != []
  {
    if |parts| == 1 then parts[0] else parts[0] + "." + JoinDots(parts[1..])
  }

  predicate NoDot(t: string) { forall k :: 0 <= k < |t| ==> t[k] != '.' }

  lemma {:induction false} JoinOfSplit(s: string)
    ensures JoinDots(Split(s)) == s
    ensures forall k :: 0 <= k < |Split(s)| ==> NoDot(Split(s)[k])
    decreases |s|
  {
    var d := Find(s, '.', 0);
    if d < |s| {
      JoinOfSplit(s[d + 1..]);
      assert Split(s)[1..] == Split(s[d + 1..]);
      assert s == s[..d] + "." + s[d + 1..];
    }
  }

  lemma {:induction false} FindIs(s: string, c: char, i: nat, d: nat)
    requires i <= d <= |s| && (forall k :: i <= k < d ==> s[k] != c) && (d < |s| ==> s[d] == c)
    ensures Find(s, c, i) == d
    decreases d - i
  {
    if i < d { FindIs(s, c, i + 1, d); }
  }

  lemma {:induction false} SplitOfJoin(parts: seq<string>)
    requires parts != [] && forall k :: 0 <= k < |parts| ==> NoDot(parts[k])
    ensures Split(JoinDots(parts)) == parts
    decreases |parts|
  {
    hide Split;
    if |parts| == 1 {
      SplitLast(parts[0]);
    } else {
      SplitOfJoin(parts[1..]);
      SplitFirst(parts[0], JoinDots(parts[1..]));
    }
  }

  lemma SplitLast(p: string)
    requires NoDot(p)
    ensures Split(p) == [p]
  {
    FindIs(p, '.', 0, |p|);
  }

  lemma SplitFirst(p: string, rest: string)
    requires NoDot(p)
    ensures Split(p + "." + rest) == [p] + Split(rest)
  {
    var s := p + "." + rest;
    FindIs(s, '.', 0, |p|);
    assert s[..|p|] == p && s[|p| + 1..] == rest;
  }

  /* ---- Host names ---- */

  predicate IsLabelChar(c: char) { IsAlpha(c) || IsDigit(c) || c == '-' }

  predicate Label(t: string) {
    && 1 <= |t| <= 63 && t[0] != '-' && t[|t| - 1] != '-'
    && forall k :: 0 <= k < |t| ==> IsLabelChar(t[k])
  }

  // One or more labels, the last one not of digits only.
  predicate Labels(parts: seq<string>) {
    && parts != [] && (forall k :: 0 <= k < |parts| ==> Label(parts[k]))
    && !AllDigits(parts[|parts| - 1])
  }

  /** Labels separated by dots, possibly with a dot behind them, 253 characters in all. */
  ghost predicate Hostname(v: string) {
    |v| <= 253 && exists parts :: Labels(parts) && (v == JoinDots(parts) || v == JoinDots(parts) + ".")
  }

  method IsLabel(part: string) returns (ok: bool, allDigits: bool)
    ensures ok <==> Label(part)
    ensures ok ==> (allDigits <==> AllDigits(part))
  {
    allDigits := true;
    var l := |part|;
    if l == 0 || l > 63 || part[0] == '-' || part[l - 1] == '-' { return false, allDigits; }
    for i := 0 to |part|
      invariant forall k :: 0 <= k < i ==> IsLabelChar(part[k])
      invariant allDigits <==> forall k :: 0 <= k < i ==> IsDigit(part[k])
    {
      var c := part[i];
      if (c < 'a' || c > 'z') && (c < 'A' || c > 'Z') && (c < '0' || c > '9') && c != '-' {
        return false, allDigits;
      }
      allDigits := allDigits && '0' <= c <= '9';
    }
    return true, allDigits;
  }

  method IsHostname(val: string) returns (ok: bool)
    ensures ok <==> Hostname(val)
  {
    if |val| > 253 { return false; }
    var str := if |val| > 0 && val[|val| - 1] == '.' then val[..|val| - 1] else val;
    var allDigits := false;
    var parts := Split(str);
    for n := 0 to |parts|
      invariant forall k :: 0 <= k < n ==> Label(parts[k])
      invariant n > 0 ==> (allDigits <==> AllDigits(parts[n - 1]))
    {
      var fine;
      fine, allDigits := IsLabel(parts[n]);
      if !fine {
        NotLabels(val, str, n);
        return false;
      }
    }
    HostnameIffSplit(val, str);
    return !allDigits;
  }

  lemma LabelNoDot(parts: seq<string>)
    requires Labels(parts)
    ensures forall k :: 0 <= k < |parts| ==> NoDot(parts[k])
  {
  }

  /** A host name has only one reading: its labels are what lies between its dots. */
  lemma HostnameIffSplit(val: string, str: string)
    requires |val| <= 253
    requires str == if |val| > 0 && val[|val| - 1] == '.' then val[..|val| - 1] else val
    ensures Hostname(val) <==> Labels(Split(str))
  {
    hide Split, JoinDots;
    if Labels(Split(str)) {
      JoinOfSplit(str);
      assert val == str || val == str + ".";
    }
    if parts :| Labels(parts) && (val == JoinDots(parts) || val == JoinDots(parts) + ".") {
      WithoutLastDot(val, str, parts);
      LabelNoDot(parts);
      SplitOfJoin(parts);
    }
  }

  lemma WithoutLastDot(val: string, str: string, parts: seq<string>)
    requires Labels(parts) && (val == JoinDots(parts) || val == JoinDots(parts) + ".")
    requires str == if |val| > 0 && val[|val| - 1] == '.' then val[..|val| - 1] else val
    ensures str == JoinDots(parts)
  {
    JoinEnd(parts);
    if val == JoinDots(parts) + "." { assert val[..|val| - 1] == JoinDots(parts); }
  }

  lemma NotLabels(val: string, str: string, n: nat)
    requires |val| <= 253
    requires str == if |val| > 0 && val[|val| - 1] == '.' then val[..|val| - 1] else val
    requires n < |Split(str)| && !Label(Split(str)[n])
    ensures !Hostname(val)
  {
    HostnameIffSplit(val, str);
  }

  lemma {:induction false} JoinEnd(parts: seq<string>)
    requires parts != [] && forall k :: 0 <= k < |parts| ==> Label(parts[k])
    ensures var s := JoinDots(parts); s != "" && IsLabelChar(s[0]) && IsLabelChar(s[|s| - 1])
    ensures forall k :: 0 <= k < |JoinDots(parts)| ==> IsLabelChar(JoinDots(parts)[k]) || JoinDots(parts)[k] == '.'
    decreases |parts|
  {
    assert Label(parts[0]);
    if |parts| > 1 { JoinEnd(parts[1..]); }
  }

  /** The documented rule, which does not count the dot behind the last label. */
  ghost predicate DocumentedHostname(v: string) {
    exists parts :: Labels(parts) && |JoinDots(parts)| <= 253 && (v == JoinDots(parts) || v == JoinDots(parts) + ".")
  }

  /** The code keeps to the documented rule exactly up to 253 characters, and the names that it leaves out have one
      more, which is the dot at their end. */
  lemma HostnameIffDocumented(v: string)
    ensures Hostname(v) <==> DocumentedHostname(v) && |v| <= 253
    ensures DocumentedHostname(v) && !Hostname(v) ==> |v| == 254 && v[253] == '.'
  {
    hide JoinDots, Labels;
  }

  /** Labels of 63, 63, 63 and 61 characters, and a dot. */
  lemma DocumentedOnly()
    ensures var a := seq(63, _ => 'a');
      var v := a + "." + a + "." + a + "." + a[..61] + ".";
      |v| == 254 && DocumentedHostname(v) && !Hostname(v)
  {
    var a := seq(63, _ => 'a');
    var b := a[..61];
    LettersOnly(a, b);
    JoinFour(a, a, a, b);
    hide JoinDots, Labels;
    var parts := [a, a, a, b];
    var v := a + "." + a + "." + a + "." + b + ".";
    assert |JoinDots(parts)| == 253 && v == JoinDots(parts) + ".";
  }

  lemma LettersOnly(a: string, b: string)
    requires |a| == 63 && |b| == 61
    requires (forall k :: 0 <= k < 63 ==> a[k] == 'a') && (forall k :: 0 <= k < 61 ==> b[k] == 'a')
    ensures Labels([a, a, a, b])
  {
    assert Label(a) && Label(b);
    assert !IsDigit(b[0]);
  }

  lemma JoinFour(a: string, b: string, c: string, d: string)
    ensures JoinDots([a, b, c, d]) == a + "." + b + "." + c + "." + d
  {
    assert [a, b, c, d][1..] == [b, c, d] && [b, c, d][1..] == [c, d] && [c, d][1..] == [d];
    assert JoinDots([c, d]) == c + "." + d;
    assert JoinDots([b, c, d]) == b + "." + (c + "." + d);
  }

  /** A text without a dot is a host name iff it is 1 to 63 letters, digits and hyphens, no hyphen at either end, and
      something other than digits among them. */
  lemma OneLabel(v: string)
    requires forall k :: 0 <= k < |v| ==> v[k] != '.'
    ensures Hostname(v) <==>
            && 1 <= |v| <= 63 && v[0] != '-' && v[|v| - 1] != '-'
            && (forall k :: 0 <= k < |v| ==>
                  'a' <= v[k] <= 'z' || 'A' <= v[k] <= 'Z' || '0' <= v[k] <= '9' || v[k] == '-')
            && (exists k :: 0 <= k < |v| && !('0' <= v[k] <= '9'))
  {
    if |v| <= 253 {
      FindIs(v, '.', 0, |v|);
      assert Split(v) == [v];
      HostnameIffSplit(v, v);
      hide Split, Find, Hostname;
    }
  }

  lemma HostnameChars(v: string)
    requires Hostname(v)
    ensures v != "" && IsLabelChar(v[0]) && forall k :: 0 <= k < |v| ==> IsLabelChar(v[k]) || v[k] == '.'
  {
    var parts :| Labels(parts) && (v == JoinDots(parts) || v == JoinDots(parts) + ".");
    JoinEnd(parts);
  }

  lemma Ipv4TextChars(v: string)
    requires Matches(IPV4, v)
    ensures v != "" && IsDigit(v[0]) && IsDigit(v[|v| - 1])
    ensures forall k :: 0 <= k < |v| ==> IsDigit(v[k]) || v[k] == '.'
  {
    Ipv6Language.Ipv4Chars(v, 0, |v|);
    var a, b, c := Ipv4.Ipv4Shape(v, 0, |v|);
    Ipv6Language.OctetChars(v, c + 1, |v|);
  }

  /** No text is both a host name and an IPv4 address. */
  lemma HostnameIsNotIpv4(v: string)
    requires Hostname(v)
    ensures !Matches(IPV4, v)
  {
    var parts :| Labels(parts) && (v == JoinDots(parts) || v == JoinDots(parts) + ".");
    if Matches(IPV4, v) {
      hide Dec, Split, JoinDots, Derives, Ipv4.Dotted;
      Ipv4TextChars(v);
      var o := Ipv4.DerivesDotted(v, 0, |v|);
      assert v[0..|v|] == v;
      var decs := [Dec(o[0]), Dec(o[1]), Dec(o[2]), Dec(o[3])];
      DottedIsJoin(o);
      assert forall k :: 0 <= k < 4 ==> NoDot(decs[k]);
      SplitOfJoin(decs);
      LabelNoDot(parts);
      SplitOfJoin(parts);
    }
  }

  lemma DottedIsJoin(o: seq<nat>)
    requires |o| == 4
    ensures Ipv4.Dotted(o) == JoinDots([Dec(o[0]), Dec(o[1]), Dec(o[2]), Dec(o[3])])
  {
    Ipv4.DottedNested(o);
    var d := [Dec(o[0]), Dec(o[1]), Dec(o[2]), Dec(o[3])];
    hide Dec, Ipv4.Dotted;
    assert d[1..] == [Dec(o[1]), Dec(o[2]), Dec(o[3])];
    assert d[1..][1..] == [Dec(o[2]), Dec(o[3])];
    assert d[1..][1..][1..] == [Dec(o[3])];
    assert JoinDots([Dec(o[2]), Dec(o[3])]) == Dec(o[2]) + "." + Dec(o[3]);
    assert JoinDots(d[1..]) == Dec(o[1]) + "." + (Dec(o[2]) + "." + Dec(o[3]));
  }

  /* ---- Ports ---- */

  predicate PortNumber(t: string, n: nat) { n <= 65535 && t == Dec(n) }

  method IsPort(str: string) returns (ok: bool)
    ensures ok <==> exists n: nat :: PortNumber(str, n)
  {
    forall n: nat | PortNumber(str, n)
      ensures Canonical(str) && Value(10, str) == n
    {
      ValueOfDec(n);
    }
    if |str| == 0 { return false; }
    for i := 0 to |str|
      invariant forall k :: 0 <= k < i ==> IsDigit(str[k])
    {
      var c := str[i];
      if '0' <= c <= '9' { continue; }
      return false;
    }
    if |str| > 1 && str[0] == '0' { return false; }
    DecOfValue(str);
    var val := Parse(10, str, 32);
    Ipv4.Pow2Facts();
    if val.None? { return false; }
    if val.value <= 65535 { assert PortNumber(str, val.value); }
    return val.value <= 65535;
  }

  lemma PortLimit(n: nat)
    ensures (exists k: nat :: PortNumber(Dec(n), k)) <==> n < 0x1_0000
  {
    hide Dec;
    if k: nat :| PortNumber(Dec(n), k) { DecInjective(n, k); }
    if n < 0x1_0000 { assert PortNumber(Dec(n), n); }
  }

  /* ---- Hosts and pairs ---- */

  // strings.LastIndex for one character
  function LastIndex(s: string, c: char): (k: int)
    ensures -1 <= k < |s|
    ensures k >= 0 ==> s[k] == c
    ensures forall m :: k < m < |s| ==> s[m] != c
    decreases |s|
  {
    if s == "" then -1
    else if s[|s| - 1] == c then |s| - 1
    else LastIndex(s[..|s| - 1], c)
  }

  ghost predicate Bracketed(h: string) {
    |h| >= 2 && h[0] == '[' && h[|h| - 1] == ']' && Accepts(h[1..|h| - 1])
  }

  ghost predicate Host(h: string) {
    Hostname(h) || Matches(IPV4, h) || Bracketed(h)
  }

  ghost predicate Pair(s: string, h: string, n: nat) {
    Host(h) && n <= 65535 && s == h + ":" + Dec(n)
  }

  lemma HostStart(h: string)
    requires Host(h)
    ensures h != "" && (Bracketed(h) <==> h[0] == '[')
    ensures h[0] != '[' ==> forall k :: 0 <= k < |h| ==> h[k] != ':'
  {
    if Hostname(h) { HostnameChars(h); }
    if Matches(IPV4, h) { Ipv4TextChars(h); }
  }

  // In a pair the last colon is the separator, and the last bracket, if any, is the one before it.
  lemma PairCut(s: string, h: string, n: nat)
    requires Pair(s, h, n)
    ensures |h| < |s| && LastIndex(s, ':') == |h| && s[..|h|] == h && s[|h| + 1..] == Dec(n) && h != ""
    ensures h[0] == '[' ==> LastIndex(s, ']') == |h| - 1
  {
    HostStart(h);
    hide Host, Dec;
    var d := Dec(n);
    assert s[|h|] == ':';
    assert forall m :: |h| < m < |s| ==> s[m] == d[m - |h| - 1];
    assert s[|h| - 1] == h[|h| - 1];
    var c, b := LastIndex(s, ':'), LastIndex(s, ']');
    assert c == |h|;
  }

  /** The split of a text into host and port is unique, and no host contains such a split. */
  lemma PairUnique(s: string, h: string, n: nat)
    requires Pair(s, h, n)
    ensures !Host(s)
    ensures forall h': string, n': nat :: Pair(s, h', n') ==> h' == h && n' == n
  {
    PairCut(s, h, n);
    assert s[0] == h[0] && IsDigit(s[|s| - 1]);
    if Host(s) { HostStart(s); }
    forall h': string, n': nat | Pair(s, h', n')
      ensures h' == h && n' == n
    {
      PairCut(s, h', n');
      DecInjective(n, n');
    }
  }

  ghost predicate HostAndPort(s: string, portRequired: bool) {
    (!portRequired && Host(s)) || exists h: string, n: nat :: Pair(s, h, n)
  }

  method IsHostAndPort(str: string, portRequired: bool) returns (ok: bool)
    ensures ok <==> HostAndPort(str, portRequired)
  {
    hide Hostname, Matches, Accepts, Dec, LastIndex;
    if Host(str) { HostStart(str); }
    forall h: string, n: nat | Pair(str, h, n)
      ensures LastIndex(str, ':') == |h| < |str| && str[..|h|] == h && PortNumber(str[|h| + 1..], n) && h != ""
      ensures h[0] == '[' ==> Bracketed(h) && LastIndex(str, ']') == |h| - 1
      ensures h[0] != '[' ==> Hostname(h) || Matches(IPV4, h)
    {
      PairCut(str, h, n);
      HostStart(h);
    }
    if |str| == 0 { return false; }
    var splitIdx := LastIndex(str, ':');
    if str[0] == '[' {
      var end := LastIndex(str, ']');
      if end + 1 == |str| {
        if portRequired { return false; }
        ok := IsIp(str[1..end], 6);
        return;
      }
      if end + 1 == splitIdx {
        ok := IsIp(str[1..end], 6);
        if ok { ok := IsPort(str[splitIdx + 1..]); }
        BracketPair(str, end, str[..end + 1], str[splitIdx + 1..]);
        return;
      }
      return false;
    }
    if splitIdx < 0 {
      if portRequired { return false; }
      ok := IsHostname(str);
      if !ok { ok := IsIp(str, 4); }
      return;
    }
    var host, port := str[0..splitIdx], str[splitIdx + 1..];
    ok := IsHostname(host);
    if !ok { ok := IsIp(host, 4); }
    if ok { ok := IsPort(port); }
    assert host == str[..splitIdx];
    PlainPair(str, splitIdx, host, port);
  }

  lemma BracketPair(s: string, end: nat, h: string, port: string)
    requires 1 <= end && end + 1 < |s| && s[0] == '[' && s[end] == ']' && s[end + 1] == ':'
    requires h == s[..end + 1] && port == s[end + 2..]
    ensures h[1..|h| - 1] == s[1..end]
    ensures forall n: nat :: Accepts(s[1..end]) && PortNumber(port, n) ==> Pair(s, h, n)
  {
    assert h[1..|h| - 1] == s[1..end];
    assert s == h + ":" + port;
  }

  lemma PlainPair(s: string, k: nat, h: string, port: string)
    requires k < |s| && s[k] == ':' && h == s[..k] && port == s[k + 1..]
    ensures forall n: nat :: (Hostname(h) || Matches(IPV4, h)) && PortNumber(port, n) ==> Pair(s, h, n)
  {
    assert s == h + ":" + port;
  }
}
