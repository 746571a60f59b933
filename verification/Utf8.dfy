/** The two byte-level notions that the host check of a URI needs: percent-decoding, and
    well-formed UTF-8 as tabulated in section 4 of RFC 3629 (what Go's utf8.Valid decides). */
module Utf8 {
  // The value of a hexadecimal digit; 0 for any other character.
  function Unhex(c: char): (v: nat)
    ensures v < 16
  {
    if '0' <= c <= '9' then (c - '0') as nat
    else if 'a' <= c <= 'f' then (c - 'a') as nat + 10
    else if 'A' <= c <= 'F' then (c - 'A') as nat + 10
    else 0
  }

  function PctDecode(s: string): seq<nat> {
    if s == "" then []
    else if s[0] == '%' && |s| >= 3 then [16 * Unhex(s[1]) + Unhex(s[2])] + PctDecode(s[3..])
    else [s[0] as nat] + PctDecode(s[1..])
  }

  predicate Tail(b: seq<nat>, i: nat) {
    i < |b| && 0x80 <= b[i] <= 0xBF
  }

  // The length of the well-formed sequence that starts b, or 0 if there is none.
  function Width(b: seq<nat>): (w: nat)
    ensures w <= |b|
  {
    if b == [] then 0
    else if b[0] < 0x80 then 1
    else if 0xC2 <= b[0] <= 0xDF && Tail(b, 1) then 2
    else if b[0] == 0xE0 && Tail(b, 1) && b[1] >= 0xA0 && Tail(b, 2) then 3
    else if 0xE1 <= b[0] <= 0xEF && b[0] != 0xED && Tail(b, 1) && Tail(b, 2) then 3
    else if b[0] == 0xED && Tail(b, 1) && b[1] <= 0x9F && Tail(b, 2) then 3
    else if b[0] == 0xF0 && Tail(b, 1) && b[1] >= 0x90 && Tail(b, 2) && Tail(b, 3) then 4
    else if 0xF1 <= b[0] <= 0xF3 && Tail(b, 1) && Tail(b, 2) && Tail(b, 3) then 4
    else if b[0] == 0xF4 && Tail(b, 1) && b[1] <= 0x8F && Tail(b, 2) && Tail(b, 3) then 4
    else 0
  }

  predicate Valid(b: seq<nat>)
    decreases |b|
  {
    b == [] || (Width(b) > 0 && Valid(b[Width(b)..]))
  }

  /** The decoding of what is left after i characters. */
  lemma PctDecodeStep(s: string, i: nat)
    requires i < |s|
    ensures s[i] == '%' && i + 2 < |s|
            ==> PctDecode(s[i..]) == [16 * Unhex(s[i + 1]) + Unhex(s[i + 2])] + PctDecode(s[i + 3..])
    ensures s[i] != '%' ==> PctDecode(s[i..]) == [s[i] as nat] + PctDecode(s[i + 1..])
  {
    var r := s[i..];
    if s[i] == '%' && i + 2 < |s| {
      assert r[1] == s[i + 1] && r[2] == s[i + 2] && r[3..] == s[i + 3..];
    }
    assert r[1..] == s[i + 1..];
  }

  // ASCII text whose only percent-triplets are "%25".
  predicate Plain(s: string) {
    && (forall k :: 0 <= k < |s| ==> s[k] < '\U{80}')
    && (forall k :: 0 <= k < |s| && s[k] == '%' ==> k + 2 < |s| && s[k + 1] == '2' && s[k + 2] == '5')
  }

  /** Such text decodes to ASCII, which is UTF-8. */
  lemma {:induction false} PlainIsValid(s: string, i: nat)
    requires Plain(s) && i <= |s|
    ensures Valid(PctDecode(s[i..]))
    decreases |s| - i
  {
    if i < |s| {
      PctDecodeStep(s, i);
      var n := if s[i] == '%' then 3 else 1;
      PlainIsValid(s, i + n);
      assert PctDecode(s[i..])[1..] == PctDecode(s[i + n..]);
    }
  }
}
