/** The recursive-descent parser `uri` of cel/library.go. Each method states what it consumes and where it
    leaves the index; the methods of grammar rules are recognisers in the sense of Abnf.Recognised. */
module UriParser {
  import opened Abnf
  import opened UriGrammar
  import opened UriShapes
  import opened UriHost
  import opened UriScan
  import IpAddress
  import Utf8
  import Bits
  import Numerals

  // unhex(a) << 4 | unhex(b) on bytes
  function ByteOf(a: char, b: char): nat {
    Bits.Or(Bits.Shl(8, Utf8.Unhex(a), 4), Utf8.Unhex(b))
  }

  lemma ByteOfIs(a: char, b: char)
    ensures ByteOf(a, b) == 16 * Utf8.Unhex(a) + Utf8.Unhex(b)
  {
    var x := Utf8.Unhex(a);
    ShlNibble(x);
    Bits.OrIsSum(x, Utf8.Unhex(b), 4);
  }

  lemma ShlNibble(x: nat)
    requires x < 16
    ensures Numerals.Pow2(4) == 16 && Bits.Shl(8, x, 4) == x * 16
  {
    assert Numerals.Pow2(4) == 16;
    assert Numerals.Pow2(8) == 256 by { Bits.Pow2Add(4, 4); }
  }

  class Parser {
    const str: string
    var index: nat
    var pctEncodedFound: bool

    ghost predicate Valid()
      reads this
    {
      index <= |str|
    }

    constructor (s: string)
      ensures Valid() && str == s && index == 0 && !pctEncodedFound
    {
      str := s;
      index, pctEncodedFound := 0, false;
    }

    /* ---- Characters ---- */

    method Alpha() returns (ok: bool)
      requires Valid()
      modifies this`index
      ensures Valid()
      ensures ok <==> old(index) < |str| && IsAlpha(str[old(index)])
      ensures index == if ok then old(index) + 1 else old(index)
    {
      if index >= |str| { return false; }
      var c := str[index];
      if 'A' <= c <= 'Z' || 'a' <= c <= 'z' {
        index := index + 1;
        return true;
      }
      return false;
    }

    method Digit() returns (ok: bool)
      requires Valid()
      modifies this`index
      ensures Valid()
      ensures ok <==> old(index) < |str| && IsDigit(str[old(index)])
      ensures index == if ok then old(index) + 1 else old(index)
    {
      if index >= |str| { return false; }
      var c := str[index];
      if '0' <= c <= '9' {
        index := index + 1;
        return true;
      }
      return false;
    }

    method Hexdig() returns (ok: bool)
      requires Valid()
      modifies this`index
      ensures Valid()
      ensures ok <==> old(index) < |str| && IsHexdig(str[old(index)])
      ensures index == if ok then old(index) + 1 else old(index)
    {
      if index >= |str| { return false; }
      var c := str[index];
      if '0' <= c <= '9' || 'a' <= c <= 'f' || 'A' <= c <= 'F' {
        index := index + 1;
        return true;
      }
      return false;
    }

    method Take(c: char) returns (ok: bool)
      requires Valid()
      modifies this`index
      ensures Valid()
      ensures ok <==> old(index) < |str| && str[old(index)] == c
      ensures index == if ok then old(index) + 1 else old(index)
    {
      if index >= |str| { return false; }
      if str[index] == c {
        index := index + 1;
        return true;
      }
      return false;
    }

    // The index may have moved past one slash when the second is missing.
    method TakeDoubleSlash() returns (ok: bool)
      requires Valid()
      modifies this`index
      ensures Valid()
      ensures ok <==> old(index) + 1 < |str| && str[old(index)] == '/' && str[old(index) + 1] == '/'
      ensures ok ==> index == old(index) + 2
    {
      ok := Take('/');
      if ok { ok := Take('/'); }
    }

    predicate Peek(c: char)
      reads this
    {
      index < |str| && str[index] == c
    }

    method Unreserved() returns (ok: bool)
      requires Valid()
      modifies this`index
      ensures Valid()
      ensures ok <==> old(index) < |str| && IsUnreserved(str[old(index)])
      ensures index == if ok then old(index) + 1 else old(index)
    {
      ok := Alpha();
      if !ok { ok := Digit(); }
      if !ok { ok := Take('-'); }
      if !ok { ok := Take('_'); }
      if !ok { ok := Take('.'); }
      if !ok { ok := Take('~'); }
    }

    method SubDelims() returns (ok: bool)
      requires Valid()
      modifies this`index
      ensures Valid()
      ensures ok <==> old(index) < |str| && IsSubDelim(str[old(index)])
      ensures index == if ok then old(index) + 1 else old(index)
    {
      ok := Take('!');
      if !ok { ok := Take('$'); }
      if !ok { ok := Take('&'); }
      if !ok { ok := Take('\''); }
      if !ok { ok := Take('('); }
      if !ok { ok := Take(')'); }
      if !ok { ok := Take('*'); }
      if !ok { ok := Take('+'); }
      if !ok { ok := Take(','); }
      if !ok { ok := Take(';'); }
      if !ok { ok := Take('='); }
    }

    method PctEncoded() returns (ok: bool)
      requires Valid()
      modifies this
      ensures Valid()
      ensures ok <==> PctAt(str, old(index))
      ensures index == if ok then old(index) + 3 else old(index)
      ensures pctEncodedFound == (old(pctEncodedFound) || ok)
    {
      var start := index;
      ok := Take('%');
      if ok { ok := Hexdig(); }
      if ok { ok := Hexdig(); }
      if ok {
        pctEncodedFound := true;
        return true;
      }
      index := start;
      return false;
    }

    // One item of the class was consumed, or the scan of the class ends here.
    twostate predicate Item(cls: Class, ok: bool)
      reads this
    {
      && Valid() && old(index) <= |str|
      && (ok <==> ItemAt(cls, str, old(index)))
      && index == (if ok then After(str, old(index)) else old(index))
      && pctEncodedFound == (old(pctEncodedFound) || (ok && str[old(index)] == '%'))
    }

    // The scan of the class was consumed.
    twostate predicate Scanned(cls: Class)
      reads this
    {
      && Valid() && old(index) <= |str| && index == Span(cls, str, old(index))
      && pctEncodedFound == (old(pctEncodedFound) || HasPct(str, old(index), index))
    }

    // What the loops over items keep.
    ghost predicate Scanning(cls: Class, start: nat, found: bool)
      reads this
    {
      && Valid() && start <= index && Span(cls, str, index) == Span(cls, str, start)
      && pctEncodedFound == (found || HasPct(str, start, index))
    }

    method Pchar() returns (ok: bool)
      requires Valid()
      modifies this
      ensures Item(PcharC, ok)
    {
      ok := Unreserved();
      if !ok { ok := PctEncoded(); }
      if !ok { ok := SubDelims(); }
      if !ok { ok := Take(':'); }
      if !ok { ok := Take('@'); }
    }

    /* ---- The alternatives that the loops of the source try in turn ---- */

    method SchemeItem() returns (ok: bool)
      requires Valid()
      modifies this`index
      ensures Item(SchemeC, ok)
    {
      ok := Alpha();
      if !ok { ok := Digit(); }
      if !ok { ok := Take('+'); }
      if !ok { ok := Take('-'); }
      if !ok { ok := Take('.'); }
    }

    method UserinfoItem() returns (ok: bool)
      requires Valid()
      modifies this
      ensures Item(UserinfoC, ok)
    {
      ok := Unreserved();
      if !ok { ok := PctEncoded(); }
      if !ok { ok := SubDelims(); }
      if !ok { ok := Take(':'); }
    }

    method RegNameItem() returns (ok: bool)
      requires Valid()
      modifies this
      ensures Item(RegNameC, ok)
    {
      ok := Unreserved();
      if !ok { ok := PctEncoded(); }
      if !ok { ok := SubDelims(); }
    }

    method ZoneItem() returns (ok: bool)
      requires Valid()
      modifies this
      ensures Item(ZoneC, ok)
    {
      ok := Unreserved();
      if !ok { ok := PctEncoded(); }
    }

    method FutureItem() returns (ok: bool)
      requires Valid()
      modifies this`index
      ensures Item(FutureC, ok)
    {
      ok := Unreserved();
      if !ok { ok := SubDelims(); }
      if !ok { ok := Take(':'); }
    }

    method SegmentNcItem() returns (ok: bool)
      requires Valid()
      modifies this
      ensures Item(SegmentNcC, ok)
    {
      ok := Unreserved();
      if !ok { ok := PctEncoded(); }
      if !ok { ok := SubDelims(); }
      if !ok { ok := Take('@'); }
    }

    method QueryItem() returns (ok: bool)
      requires Valid()
      modifies this
      ensures Item(QueryC, ok)
    {
      ok := Pchar();
      if !ok { ok := Take('/'); }
      if !ok { ok := Take('?'); }
    }

    method HexColonItem() returns (ok: bool)
      requires Valid()
      modifies this`index
      ensures Item(HexColonC, ok)
    {
      ok := Hexdig();
      if !ok { ok := Take(':'); }
    }

    /* ---- Paths ---- */

    // isPathEnd and isAuthorityEnd
    predicate IsPathEnd(): (r: bool)
      reads this
      requires Valid()
      ensures r <==> EndsAt("?#", str, index)
    {
      index >= |str| || str[index] == '?' || str[index] == '#'
    }

    predicate IsAuthorityEnd(): (r: bool)
      reads this
      requires Valid()
      ensures r <==> EndsAt("/?#", str, index)
    {
      index >= |str| || str[index] == '?' || str[index] == '#' || str[index] == '/'
    }

    method Segment() returns (ok: bool)
      requires Valid()
      modifies this
      ensures ok && Scanned(PcharC)
    {
      ghost var start, found := index, pctEncodedFound;
      while true
        invariant Scanning(PcharC, start, found)
        decreases |str| - index
      {
        ScanStep(PcharC, str, start, index);
        var more := Pchar();
        if !more { return true; }
      }
    }

    method SegmentNz() returns (ok: bool)
      requires Valid()
      modifies this
      ensures Scanned(PcharC)
      ensures ok <==> index > old(index)
    {
      ScanStep(PcharC, str, index, index);
      ok := Pchar();
      if ok { ok := Segment(); }
    }

    method SegmentNzNc() returns (ok: bool)
      requires Valid()
      modifies this
      ensures Scanned(SegmentNcC)
      ensures ok <==> index > old(index)
    {
      ghost var found := pctEncodedFound;
      var start := index;
      while true
        invariant Scanning(SegmentNcC, start, found)
        decreases |str| - index
      {
        ScanStep(SegmentNcC, str, start, index);
        var more := SegmentNcItem();
        if !more { break; }
      }
      if index - start > 0 { return true; }
      index := start;
      return false;
    }

    /** *( "/" segment ), the loop that the four path rules share. */
    method SlashSegments()
      requires Valid()
      modifies this
      ensures Valid() && old(index) <= index
      ensures Derives(PATH_ABEMPTY, str, old(index), index)
      ensures index == if old(Peek('/')) then Span(PathC, str, old(index)) else old(index)
    {
      ghost var start := index;
      while true
        invariant Valid() && start <= index && Derives(PATH_ABEMPTY, str, start, index)
        invariant Span(PathC, str, index) == Span(PathC, str, start)
        invariant index > start ==> !ItemAt(PcharC, str, index)
        invariant index > start ==> old(Peek('/'))
        decreases |str| - index
      {
        ghost var i := index;
        var slash := Take('/');
        if !slash { break; }
        var segment := Segment();
        SlashSegmentStep(str, start, i, index);
      }
      if index > start { PathEnds(str, index); }
    }

    method PathAbempty() returns (ok: bool)
      requires Valid()
      modifies this
      ensures Valid() && (!ok ==> index == old(index))
      ensures ok ==> EndsAt("?#", str, index)
      ensures Recognised(PATH_ABEMPTY, "?#", str, old(index), ok, index)
    {
      var start := index;
      SlashSegments();
      forall k: nat | Derives(PATH_ABEMPTY, str, start, k) && EndsAt("?#", str, k) { AbemptyIsScanned(str, start, k); }
      if IsPathEnd() { return true; }
      index := start;
      return false;
    }

    method PathAbsolute() returns (ok: bool)
      requires Valid()
      modifies this
      ensures Valid() && (!ok ==> index == old(index))
      ensures ok ==> EndsAt("?#", str, index)
      ensures Recognised(PATH_ABSOLUTE, "?#", str, old(index), ok, index)
    {
      var start := index;
      forall k: nat | Derives(PATH_ABSOLUTE, str, start, k) && EndsAt("?#", str, k) {
        AbsoluteIsScanned(str, start, k);
      }
      ok := Take('/');
      if ok {
        var segment := SegmentNz();
        ghost var m := index;
        if segment { SlashSegments(); }
        AbsoluteScan(str, start, m, index);
        if IsPathEnd() { return true; }
      }
      index := start;
      return false;
    }

    method PathRootless() returns (ok: bool)
      requires Valid()
      modifies this
      ensures Valid() && (!ok ==> index == old(index))
      ensures ok ==> EndsAt("?#", str, index)
      ensures Recognised(PATH_ROOTLESS, "?#", str, old(index), ok, index)
    {
      var start := index;
      forall k: nat | Derives(PATH_ROOTLESS, str, start, k) && EndsAt("?#", str, k) {
        RootlessIsScanned(str, start, k);
      }
      ok := SegmentNz();
      if ok {
        ghost var m := index;
        SlashSegments();
        RootlessScan(str, start, m, index);
        if IsPathEnd() { return true; }
      }
      index := start;
      return false;
    }

    method PathNoscheme() returns (ok: bool)
      requires Valid()
      modifies this
      ensures Valid() && (!ok ==> index == old(index))
      ensures ok ==> EndsAt("?#", str, index)
      ensures Recognised(PATH_NOSCHEME, "?#", str, old(index), ok, index)
    {
      var start := index;
      forall k: nat | Derives(PATH_NOSCHEME, str, start, k) && EndsAt("?#", str, k) {
        NoschemeIsScanned(str, start, k);
      }
      ok := SegmentNzNc();
      if ok {
        ghost var m := index;
        SlashSegments();
        SegmentShape(str, start, m);
        CatJoin(SEGMENT_NZ_NC, PATH_ABEMPTY, str, start, m, index);
        if IsPathEnd() { return true; }
      }
      index := start;
      return false;
    }

    predicate PathEmpty(): (r: bool)
      reads this
      requires Valid()
      ensures r <==> Derives(PATH_EMPTY, str, index, index) && EndsAt("?#", str, index)
    {
      IsPathEnd()
    }

    /* ---- Scheme, query, fragment ---- */

    /** A scheme that a colon follows. */
    method Scheme() returns (ok: bool)
      requires Valid()
      modifies this
      ensures Valid() && (!ok ==> index == old(index))
      ensures ok ==> Derives(SCHEME, str, old(index), index) && index < |str| && str[index] == ':'
      ensures forall k: nat :: Derives(SCHEME, str, old(index), k) && k < |str| && str[k] == ':' ==> ok && k == index
    {
      var start := index;
      forall k: nat | Derives(SCHEME, str, start, k) && k < |str| && str[k] == ':'
        ensures start < |str| && IsAlpha(str[start]) && k == Span(SchemeC, str, start + 1)
      {
        SchemeShape(str, start, k);
        SpanIsTheRun(SchemeC, str, start + 1, k);
      }
      ok := Alpha();
      if ok {
        while true
          invariant Valid() && start + 1 <= index && Span(SchemeC, str, index) == Span(SchemeC, str, start + 1)
          decreases |str| - index
        {
          ScanStep(SchemeC, str, start + 1, index);
          var more := SchemeItem();
          if !more { break; }
        }
        if Peek(':') {
          SchemeShape(str, start, index);
          return true;
        }
      }
      index := start;
      return false;
    }

    method Query() returns (ok: bool)
      requires Valid()
      modifies this
      ensures Valid() && (!ok ==> index == old(index))
      ensures ok <==> EndsAt("#", str, Span(QueryC, str, old(index)))
      ensures ok ==> index == Span(QueryC, str, old(index))
    {
      ghost var found := pctEncodedFound;
      var start := index;
      while true
        invariant Scanning(QueryC, start, found)
        decreases |str| - index
      {
        ScanStep(QueryC, str, start, index);
        var more := QueryItem();
        if more { continue; }
        if index == |str| || str[index] == '#' { return true; }
        index := start;
        return false;
      }
    }

    method Fragment() returns (ok: bool)
      requires Valid()
      modifies this
      ensures Valid() && (!ok ==> index == old(index))
      ensures ok <==> Span(QueryC, str, old(index)) == |str|
      ensures ok ==> index == |str|
    {
      ghost var found := pctEncodedFound;
      var start := index;
      while true
        invariant Scanning(QueryC, start, found)
        decreases |str| - index
      {
        ScanStep(QueryC, str, start, index);
        var more := QueryItem();
        if more { continue; }
        if index == |str| { return true; }
        index := start;
        return false;
      }
    }

    /* ---- Authority ---- */

    /** Userinfo, if an at sign follows it. */
    method Userinfo() returns (ok: bool)
      requires Valid()
      modifies this
      ensures Valid()
      ensures ok <==> var e := Span(UserinfoC, str, old(index)); e < |str| && str[e] == '@'
      ensures index == if ok then Span(UserinfoC, str, old(index)) else old(index)
    {
      ghost var found := pctEncodedFound;
      var start := index;
      while true
        invariant Scanning(UserinfoC, start, found)
        decreases |str| - index
      {
        ScanStep(UserinfoC, str, start, index);
        var more := UserinfoItem();
        if more { continue; }
        if index < |str| {
          if str[index] == '@' { return true; }
        }
        index := start;
        return false;
      }
    }

    method Port() returns (ok: bool)
      requires Valid()
      modifies this`index
      ensures Valid()
      ensures ok <==> EndsAt("/?#", str, Span(DigitC, str, old(index)))
      ensures index == if ok then Span(DigitC, str, old(index)) else old(index)
    {
      var start := index;
      var more := Digit();
      while more
        invariant Valid() && start <= index && Span(DigitC, str, index) == Span(DigitC, str, start)
        invariant !more ==> index == Span(DigitC, str, start)
        decreases |str| - index, more
      {
        more := Digit();
      }
      if IsAuthorityEnd() { return true; }
      index := start;
      return false;
    }

    /** reg-name, if the port or the end of the authority follows. */
    method RegName() returns (ok: bool)
      requires Valid()
      modifies this
      ensures Valid()
      ensures ok <==> EndsAt(":/?#", str, Span(RegNameC, str, old(index)))
      ensures index == if ok then Span(RegNameC, str, old(index)) else old(index)
      ensures pctEncodedFound == (old(pctEncodedFound) || HasPct(str, old(index), Span(RegNameC, str, old(index))))
    {
      ghost var found := pctEncodedFound;
      var start := index;
      while true
        invariant Scanning(RegNameC, start, found)
        decreases |str| - index
      {
        ScanStep(RegNameC, str, start, index);
        var more := RegNameItem();
        if more { continue; }
        if IsAuthorityEnd() { return true; }
        if str[index] == ':' { return true; }
        index := start;
        return false;
      }
    }

    method ZoneID() returns (ok: bool)
      requires Valid()
      modifies this
      ensures Scanned(ZoneC)
      ensures ok <==> index > old(index)
    {
      ghost var found := pctEncodedFound;
      var start := index;
      while true
        invariant Scanning(ZoneC, start, found)
        decreases |str| - index
      {
        ScanStep(ZoneC, str, start, index);
        var more := ZoneItem();
        if !more { break; }
      }
      if index - start > 0 { return true; }
      index := start;
      return false;
    }

    method IpvFuture() returns (ok: bool)
      requires Valid()
      modifies this`index
      ensures Valid() && (!ok ==> index == old(index))
      ensures ok ==> old(index) < |str| && FutureScan(str, old(index), Span(HexC, str, old(index) + 1), index)
      ensures forall m: nat, k: nat :: FutureScan(str, old(index), m, k) ==> ok && k == index
    {
      var start := index;
      ok := Take('v');
      if ok { ok := Hexdig(); }
      if ok {
        var more := true;
        while more
          invariant Valid() && start + 1 < index && Span(HexC, str, index) == Span(HexC, str, start + 1)
          invariant !more ==> index == Span(HexC, str, start + 1)
          decreases |str| - index, more
        {
          more := Hexdig();
        }
        ok := FutureItems();
        if ok { return true; }
      }
      index := start;
      return false;
    }

    // A dot and one or more further characters
    method FutureItems() returns (ok: bool)
      requires Valid()
      modifies this`index
      ensures Valid()
      ensures ok <==>
              old(index) < |str| && str[old(index)] == '.' && Span(FutureC, str, old(index) + 1) > old(index) + 1
      ensures ok ==> index == Span(FutureC, str, old(index) + 1)
    {
      hide Span;
      ghost var m := index;
      ok := Take('.');
      if ok {
        var counter := 0;
        var more := true;
        while more
          invariant Valid() && index == m + 1 + counter && Span(FutureC, str, index) == Span(FutureC, str, m + 1)
          invariant !more ==> index == Span(FutureC, str, m + 1)
          decreases |str| - index, more
        {
          ScanStep(FutureC, str, m + 1, index);
          more := FutureItem();
          if more { counter := counter + 1; }
        }
        ok := counter >= 1;
      }
    }

    /** IPv6address over the greedy run of hexadecimal digits and colons, decided by isIP. */
    method Ipv6Address() returns (ok: bool)
      requires Valid()
      modifies this`index
      ensures Valid() && (!ok ==> index == old(index))
      ensures ok ==> index == Span(HexColonC, str, old(index))
      ensures ok <==> Derives(IPV6_HEX, str, old(index), Span(HexColonC, str, old(index)))
    {
      hide Derives;
      var start := index;
      while true
        invariant Valid() && start <= index && Span(HexColonC, str, index) == Span(HexColonC, str, start)
        decreases |str| - index
      {
        ScanStep(HexColonC, str, start, index);
        var more := HexColonItem();
        if !more { break; }
      }
      HexColonsIsRun(str, start, index);
      Ipv6Slice(str, start, index);
      ok := IpAddress.IsIp(str[start..index], 6);
      if ok { return true; }
      index := start;
      return false;
    }

    method Ipv6addrz() returns (ok: bool)
      requires Valid()
      modifies this
      ensures Valid() && (!ok ==> index == old(index))
      ensures ok ==> AddrzScan(str, old(index), Span(HexColonC, str, old(index)), index)
      ensures forall m: nat, k: nat :: AddrzScan(str, old(index), m, k) ==> ok && k == index
      ensures ok ==>
              pctEncodedFound == (old(pctEncodedFound) || HasPct(str, Span(HexColonC, str, old(index)) + 3, index))
      ensures old(pctEncodedFound) ==> pctEncodedFound
    {
      hide Derives;
      var start := index;
      ok := Ipv6Address();
      if ok { ok := Take('%'); }
      if ok { ok := Take('2'); }
      if ok { ok := Take('5'); }
      if ok { ok := ZoneID(); }
      if ok { return true; }
      index := start;
      return false;
    }

    /* The three alternatives of ipLiteral, each with its closing bracket. */

    method Ipv6AddressClosed() returns (ok: bool)
      requires Valid()
      modifies this`index
      ensures Valid()
      ensures ok <==> var m := Span(HexColonC, str, old(index));
                      m < |str| && str[m] == ']' && Derives(IPV6_HEX, str, old(index), m)
      ensures index == if ok then Span(HexColonC, str, old(index)) + 1 else old(index)
    {
      hide Derives;
      var currIdx := index;
      ok := Ipv6Address();
      if ok { ok := Take(']'); }
      if !ok { index := currIdx; }
    }

    method Ipv6addrzClosed() returns (ok: bool)
      requires Valid()
      modifies this
      ensures Valid() && (!ok ==> index == old(index))
      ensures ok ==> 0 < index && str[index - 1] == ']'
                     && AddrzScan(str, old(index), Span(HexColonC, str, old(index)), index - 1)
      ensures forall m: nat, k: nat :: AddrzScan(str, old(index), m, k) && k < |str| && str[k] == ']' ==>
              ok && k + 1 == index
      ensures ok && !pctEncodedFound ==> !HasPct(str, Span(HexColonC, str, old(index)) + 3, index)
      ensures old(pctEncodedFound) ==> pctEncodedFound
    {
      hide Derives, AddrzScan;
      var currIdx := index;
      ok := Ipv6addrz();
      if ok { ok := Take(']'); }
      if !ok { index := currIdx; }
    }

    method IpvFutureClosed() returns (ok: bool)
      requires Valid()
      modifies this`index
      ensures Valid() && (!ok ==> index == old(index))
      ensures ok ==> old(index) < |str| && 0 < index && str[index - 1] == ']'
                     && FutureScan(str, old(index), Span(HexC, str, old(index) + 1), index - 1)
      ensures forall m: nat, k: nat :: FutureScan(str, old(index), m, k) && k < |str| && str[k] == ']' ==>
              ok && k + 1 == index
    {
      hide FutureScan;
      var currIdx := index;
      ok := IpvFuture();
      if ok { ok := Take(']'); }
      if !ok { index := currIdx; }
    }

    method IpLiteral() returns (ok: bool)
      requires Valid()
      modifies this
      ensures Valid() && (!ok ==> index == old(index))
      ensures ok ==> old(index) <= index && Derives(IP_LITERAL_GO, str, old(index), index)
      ensures forall k: nat :: Derives(IP_LITERAL_GO, str, old(index), k) ==> ok && k == index
      ensures ok && !pctEncodedFound ==> PlainPct(str, old(index), index)
    {
      hide Derives, Span;
      var start := index;
      forall k: nat | Derives(IP_LITERAL_GO, str, start, k) { LiteralIsScanned(str, start, k); }
      ok := Take('[');
      if ok {
        ok := Ipv6AddressClosed();
        if ok {
          LiteralFromAddress(str, start, index);
          return true;
        }
        ok := Ipv6addrzClosed();
        if ok {
          LiteralFromAddrz(str, start, index);
          return true;
        }
        ok := IpvFutureClosed();
        if ok {
          LiteralFromFuture(str, start, index);
          return true;
        }
      }
      index := start;
      return false;
    }

    /** Percent-decode and check for UTF-8. The two reads behind a percent sign stay inside the text. */
    method CheckHostPctEncoded(raw: string) returns (ok: bool)
      requires forall k :: 0 <= k < |raw| && raw[k] == '%' ==> k + 2 < |raw|
      ensures ok <==> Utf8.Valid(Utf8.PctDecode(raw))
    {
      hide Utf8.Valid, ByteOf, Utf8.PctDecode;
      var escaped: seq<nat> := [];
      var i := 0;
      assert raw[0..] == raw;
      while i < |raw|
        invariant 0 <= i <= |raw|
        invariant escaped + Utf8.PctDecode(raw[i..]) == Utf8.PctDecode(raw)
      {
        Utf8.PctDecodeStep(raw, i);
        if raw[i] == '%' {
          ByteOfIs(raw[i + 1], raw[i + 2]);
          escaped := escaped + [ByteOf(raw[i + 1], raw[i + 2])];
          i := i + 3;
        } else {
          escaped := escaped + [raw[i] as nat];
          i := i + 1;
        }
      }
      NothingLeft(raw, escaped);
      return Utf8.Valid(escaped);
    }

    method Host() returns (ok: bool)
      requires Valid()
      modifies this
      ensures Valid() && (ok ==> old(index) <= index)
      ensures Recognised(HOST_PARSED, ":/?#", str, old(index), ok, index)
    {
      hide Derives, Utf8.Valid, Utf8.PctDecode;
      var start := index;
      forall k: nat | Derives(HOST_PARSED, str, start, k) && EndsAt(":/?#", str, k) { HostIsScanned(str, start, k); }
      pctEncodedFound := false;
      ok := false;
      if Peek('[') { ok := IpLiteral(); }
      if !ok { ok := RegName(); }
      if ok {
        HostFromParts(str, start, index);
        if pctEncodedFound {
          var rawHost := str[start..index];
          HostSlice(str, start, index);
          var utf8 := CheckHostPctEncoded(rawHost);
          if !utf8 { return false; }
        } else {
          PlainHost(str, start, index);
        }
        return true;
      }
      return false;
    }

    /** authority, up to a slash, a question mark, a number sign or the end. */
    method Authority() returns (ok: bool)
      requires Valid()
      modifies this
      ensures Valid() && (!ok ==> index == old(index))
      ensures ok ==> EndsAt("/?#", str, index)
      ensures Recognised(AUTHORITY_GO, "/?#", str, old(index), ok, index)
    {
      hide Derives, Span, RunAt;
      var start := index;
      ghost var e := Span(UserinfoC, str, start);
      ok := Userinfo();
      if ok {
        ok := Take('@');
        if !ok {
          assert false; // userinfo succeeds only in front of an at sign
        }
      }
      ghost var u := index;
      forall k: nat | Derives(AUTHORITY_GO, str, start, k) && EndsAt("/?#", str, k)
        ensures exists p: nat ::
                  && AuthorityCut(str, start, k, u, p) && Derives(HOST_PARSED, str, u, p)
                  && EndsAt(":/?#", str, p) && (p < k ==> Span(DigitC, str, p + 1) == k)
      {
        var u', p := AuthorityIsScanned(str, start, k);
      }
      ok := Host();
      if !ok {
        index := start;
        return false;
      }
      ghost var p := index;
      var colon := Take(':');
      if colon {
        ok := Port();
        if !ok {
          index := start;
          return false;
        }
      }
      if !IsAuthorityEnd() {
        index := start;
        return false;
      }
      CutFromScan(str, start, u, p, index);
      AuthorityJoin(HOST_PARSED, str, start, u, p, index);
      return true;
    }

    /** "//" authority path-abempty, the first alternative of hier-part and of relative-part. */
    method NetPath() returns (ok: bool)
      requires Valid()
      modifies this
      ensures Valid() && (!ok ==> index == old(index))
      ensures ok ==> EndsAt("?#", str, index)
      ensures Recognised(NET_PATH_GO, "?#", str, old(index), ok, index)
    {
      hide Derives;
      var start := index;
      forall k: nat | Derives(NET_PATH_GO, str, start, k) && EndsAt("?#", str, k)
        ensures start + 1 < |str| && str[start] == '/' && str[start + 1] == '/'
        ensures exists m: nat ::
                  Derives(AUTHORITY_GO, str, start + 2, m) && EndsAt("/?#", str, m) && Derives(PATH_ABEMPTY, str, m, k)
      {
        var m := NetPathShape(str, start, k);
      }
      ok := TakeDoubleSlash();
      if ok { ok := Authority(); }
      ghost var m := index;
      if ok { ok := PathAbempty(); }
      if ok {
        NetPathJoin(str, start, m, index);
        return true;
      }
      index := start;
      return false;
    }

    method HierPart() returns (ok: bool)
      requires Valid()
      modifies this
      ensures Valid() && (!ok ==> index == old(index))
      ensures ok ==> EndsAt("?#", str, index)
      ensures Recognised(HIER_PART_GO, "?#", str, old(index), ok, index)
    {
      hide Derives;
      ghost var start := index;
      ok := NetPath();
      if !ok { ok := PathAbsolute(); }
      if !ok { ok := PathRootless(); }
      if !ok { ok := PathEmpty(); }
      OnlyHierPart(str, start, index);
    }

    method RelativePart() returns (ok: bool)
      requires Valid()
      modifies this
      ensures Valid() && (!ok ==> index == old(index))
      ensures ok ==> EndsAt("?#", str, index)
      ensures Recognised(RELATIVE_PART_GO, "?#", str, old(index), ok, index)
    {
      hide Derives;
      ghost var start := index;
      ok := NetPath();
      if !ok { ok := PathAbsolute(); }
      if !ok { ok := PathNoscheme(); }
      if !ok { ok := PathEmpty(); }
      OnlyRelativePart(str, start, index);
    }

    /** URI, which must reach the end of the text. When it fails, the index is back at the start or behind
        the "?" or "#" of the query or fragment that failed. */
    method Uri() returns (ok: bool)
      requires Valid()
      modifies this
      ensures Valid()
      ensures ok <==> Derives(URI_GO, str, old(index), |str|)
      ensures !ok ==> index == old(index) || ResumeAt(str, old(index), index)
      ensures !ok ==> forall k: nat :: ResumeAt(str, old(index), k) && Derives(RELATIVE_REF_GO, str, k, |str|) ==>
              index == k
    {
      hide Derives, ResumeAt, RunAt, Span;
      var start := index;
      ok := Scheme();
      ghost var c := index;
      if ok { ok := Take(':'); }
      if ok { ok := HierPart(); }
      if !ok {
        NoHead(str, start, c);
        index := start;
        return false;
      }
      ghost var h := index;
      OnlyHead(str, start, c, h);
      var question := Take('?');
      if question {
        var query := Query();
        if !query {
          QueryFails(str, start, c, h);
          return false;
        }
      }
      ghost var q := index;
      var hash := Take('#');
      if hash {
        var fragment := Fragment();
        if !fragment {
          FragmentFails(str, start, c, h, q);
          return false;
        }
      }
      if index != |str| {
        assert false; // a path or query that no "#" follows ends at the end, and so does a fragment
      }
      UriFromScan(str, start, c, h, q);
      return true;
    }

    method RelativeRef() returns (ok: bool)
      requires Valid()
      modifies this
      ensures Valid()
      ensures ok <==> Derives(RELATIVE_REF_GO, str, old(index), |str|)
    {
      hide Derives;
      var start := index;
      ok := RelativePart();
      ghost var h := index;
      if !ok {
        NoRelative(str, start);
        return false;
      }
      OnlyRelative(str, start, h);
      var question := Take('?');
      if question {
        var query := Query();
        if !query {
          index := start;
          return false;
        }
      }
      ghost var q := index;
      var hash := Take('#');
      if hash {
        var fragment := Fragment();
        if !fragment {
          index := start;
          return false;
        }
      }
      if index != |str| {
        assert false; // a path or query that no "#" follows ends at the end, and so does a fragment
      }
      RelativeFromScan(str, start, h, q);
      return true;
    }

    /** The texts that isURIRef accepts: URI references, and texts whose tail behind the "?" or "#" where
        `uri` gave up is a relative reference. */
    method UriReference() returns (ok: bool)
      requires Valid() && index == 0
      modifies this
      ensures Valid()
      ensures ok <==> Matches(URI_REFERENCE_GO, str) || exists k: nat :: Resumes(str, k)
    {
      hide Derives, ResumeAt;
      ok := Uri();
      ghost var uri, k := ok, index;
      ReferenceCases(str);
      if !ok { ok := RelativeRef(); }
      if !uri && k != 0 { assert ok <==> Resumes(str, k); }
      forall k': nat | Resumes(str, k')
        ensures ok
      {
      }
    }
  }

  lemma NothingLeft(raw: string, escaped: seq<nat>)
    requires escaped + Utf8.PctDecode(raw[|raw|..]) == Utf8.PctDecode(raw)
    ensures escaped == Utf8.PctDecode(raw)
  {
    assert raw[|raw|..] == "" && Utf8.PctDecode("") == [];
    assert escaped + [] == escaped;
  }
}
