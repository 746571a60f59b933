/** URIs with a percent-encoded host, end to end: isURI accepts them iff the encoded bytes are UTF-8. */
module UriEncoded {
  import opened Abnf
  import opened UriGrammar
  import opened UriShapes
  import opened UriHost
  import opened UriScan
  import opened UriBrackets
  import opened Utf8Text
  import Utf8

  // A letter, "://", and text without delimiters
  predicate OnlyHost(s: string) {
    && |s| >= 4 && IsAlpha(s[0]) && s[1] == ':' && s[2] == '/' && s[3] == '/'
    && forall k :: 4 <= k < |s| ==> s[k] !in "/?#@:["
  }

  lemma SchemeIsLetter(s: string, c: nat)
    requires OnlyHost(s) && c < |s| && s[c] == ':' && Derives(SCHEME, s, 0, c)
    ensures c == 1
  {
    SchemeShape(s, 0, c);
  }

  lemma HeadOfHost(s: string, h: nat)
    requires OnlyHost(s) && Derives(HIER_PART_GO, s, 2, h) && h == |s|
    ensures Derives(NET_PATH_GO, s, 2, |s|)
  {
    HierCases(s, 2, h);
    hide Derives, Span, HierPart, NetPath;
    if Derives(PATH_ABSOLUTE, s, 2, h) {
      AbsoluteIsScanned(s, 2, h);
      NoPchar(s);
    }
    if Derives(PATH_ROOTLESS, s, 2, h) { RootlessShape(s, 2, h); }
    if Derives(PATH_EMPTY, s, 2, h) { EmptyPart(s, 2, h); }
  }

  lemma NoPchar(s: string)
    requires |s| > 3 && s[3] == '/'
    ensures Span(PcharC, s, 3) == 3
  {
  }

  lemma NetPathIsHost(s: string)
    requires OnlyHost(s) && Derives(NET_PATH_GO, s, 2, |s|)
    ensures Derives(HOST_PARSED, s, 4, |s|)
  {
    hide Derives, RunAt, NetPath, Authority;
    var m := NetPathShape(s, 2, |s|);
    AbemptyIsScanned(s, m, |s|);
    var u, p := AuthorityShape(HOST_PARSED, s, 4, m);
  }

  lemma UriIsHost(s: string)
    requires OnlyHost(s) && Matches(URI_GO, s)
    ensures Derives(HOST_PARSED, s, 4, |s|)
  {
    hide Derives, HierPart, RunAt;
    UriRule(s, 0);
    var c: nat, h: nat, q: nat :| HeadCut(s, 0, c, h) && QueryCut(s, h, q);
    SchemeIsLetter(s, c);
    HeadOfHost(s, h);
    NetPathIsHost(s);
  }

  /** A URI of nothing but a scheme and a host without delimiters is accepted iff the host is made of the characters
      of reg-name and decodes to UTF-8. */
  lemma OnlyHostIff(s: string)
    requires OnlyHost(s)
    ensures Matches(URI_GO, s) <==> RunAt(RegNameC, s, 4, |s|) && Utf8.Valid(Utf8.PctDecode(s[4..]))
  {
    HostCases(s, 4, |s|);
    AuthorityRunShapes(s, 4, |s|);
    assert s[4..|s|] == s[4..];
    hide Derives, RunAt, Utf8.Valid, Utf8.PctDecode, Uri, IpLiteral;
    if Derives(IP_LITERAL_GO, s, 4, |s|) { LiteralIsScanned(s, 4, |s|); }
    if Matches(URI_GO, s) { UriIsHost(s); }
    if Derives(HOST_PARSED, s, 4, |s|) { HostUri(HOST_PARSED, s); }
  }

  /* ---- Encoded hosts ---- */

  // Bytes as triplets, or as characters that a reg-name may have
  predicate HostPieces(ps: seq<Piece>) {
    forall k :: 0 <= k < |ps| ==> if ps[k].Literal? then In(RegNameC, ps[k].c) else ps[k].b < 256
  }

  lemma PiecesEncode(ps: seq<Piece>)
    requires HostPieces(ps)
    ensures Encodable(ps)
  {
  }

  lemma {:induction false} EncodedRun(s: string, i: nat, ps: seq<Piece>)
    requires i <= |s| && HostPieces(ps) && Encodable(ps) && s[i..] == Encoded(ps)
    ensures RunAt(RegNameC, s, i, |s|)
    ensures forall k :: i <= k < |s| ==> s[k] !in "/?#@:["
    decreases |ps|
  {
    hide PieceText, RunAt;
    if ps == [] {
      EmptyRun(s);
    } else {
      assert [ps[0]][0] == ps[0];
      var n := i + |PieceText(ps[0])|;
      EncodedCut(s, i, ps);
      EncodedRun(s, n, ps[1..]);
      PieceRun(s, i, ps[0]);
    }
  }

  lemma EmptyRun(s: string)
    ensures RunAt(RegNameC, s, |s|, |s|)
  {
  }

  lemma EncodedCut(s: string, i: nat, ps: seq<Piece>)
    requires i <= |s| && ps != [] && Encodable(ps) && s[i..] == Encoded(ps)
    ensures Encodable([ps[0]])
    ensures var t := PieceText(ps[0]);
      i + |t| <= |s| && s[i..i + |t|] == t && s[i + |t|..] == Encoded(ps[1..])
  {
    hide PieceText;
    assert [ps[0]][0] == ps[0];
    var t, rest := PieceText(ps[0]), Encoded(ps[1..]);
    assert s[i..] == t + rest;
    assert s[i..i + |t|] == s[i..][..|t|] && s[i + |t|..] == s[i..][|t|..];
  }

  lemma PieceRun(s: string, i: nat, p: Piece)
    requires Encodable([p]) && if p.Literal? then In(RegNameC, p.c) else p.b < 256
    requires i + |PieceText(p)| <= |s| && s[i..i + |PieceText(p)|] == PieceText(p)
    requires RunAt(RegNameC, s, i + |PieceText(p)|, |s|)
    ensures RunAt(RegNameC, s, i, |s|)
    ensures forall k :: i <= k < i + |PieceText(p)| ==> s[k] !in "/?#@:["
  {
    hide RunAt;
    var t := PieceText(p);
    assert s[i..i + |t|][0] == s[i];
    if p.Triplet? {
      TripletDigits(p);
      assert s[i..i + 3][1] == s[i + 1] && s[i..i + 3][2] == s[i + 2];
      StepTriplet(s, i);
    } else {
      StepCharacter(s, i);
    }
  }

  lemma TripletDigits(p: Piece)
    requires Encodable([p]) && p.Triplet?
    ensures var t := PieceText(p); |t| == 3 && t[0] == '%' && IsHexdig(t[1]) && IsHexdig(t[2])
  {
    assert [p][0] == p;
    DigitRead(p.b / 16, p.upper);
    DigitRead(p.b % 16, p.lastUpper);
  }

  lemma StepTriplet(s: string, i: nat)
    requires i + 3 <= |s| && PctAt(s, i) && RunAt(RegNameC, s, i + 3, |s|)
    ensures RunAt(RegNameC, s, i, |s|)
  {
  }

  lemma StepCharacter(s: string, i: nat)
    requires i < |s| && In(RegNameC, s[i]) && RunAt(RegNameC, s, i + 1, |s|)
    ensures RunAt(RegNameC, s, i, |s|) && s[i] !in "/?#@:["
  {
  }

  /** For all bytes, whichever of them stand for themselves, and in any mix of upper and lower case: the URI is accepted
      iff the bytes are the UTF-8 encoding of some scalar values. */
  lemma EncodedHost(ps: seq<Piece>)
    requires HostPieces(ps)
    ensures Encodable(ps)
    ensures Matches(URI_GO, "a://" + Encoded(ps)) <==> exists us :: Scalars(us) && Bytes(ps) == EncodeScalars(us)
  {
    PiecesEncode(ps);
    var s := "a://" + Encoded(ps);
    assert s[4..] == Encoded(ps);
    EncodedRun(s, 4, ps);
    hide Derives, RunAt, Utf8.Valid, Utf8.PctDecode, Uri, EncodeScalars;
    OnlyHostIff(s);
    DecodeEncoded(ps);
    ValidIffEncoded(Bytes(ps));
  }
}
