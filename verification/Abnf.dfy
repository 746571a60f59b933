/** Augmented BNF (RFC 5234) as data, cut down to the operators that the regular grammars of
    RFC 3986, RFC 4291 and RFC 6874 use, and what it means for a rule to derive a piece of text.
    A Go string is a sequence of bytes; it is modelled as a sequence of characters, one per byte. */
module Abnf {
  import Utf8

  datatype Rule =
    | Empty
    | Range(lo: char, hi: char)
    | OneOf(cs: string)
    | Cat(first: Rule, second: Rule)
    | Alt(left: Rule, right: Rule)
    | Star(body: Rule)
    | Utf8Decoded(body: Rule) // texts of `body` whose percent-decoding is UTF-8

  function Ch(c: char): Rule { Range(c, c) }

  function Opt(r: Rule): Rule { Alt(r, Empty) }

  function Plus(r: Rule): Rule { Cat(r, Star(r)) }

  // nR: exactly n copies
  function Times(n: nat, r: Rule): Rule {
    if n == 0 then Empty else Cat(r, Times(n - 1, r))
  }

  // *nR: at most n copies
  function UpTo(n: nat, r: Rule): Rule {
    if n == 0 then Empty else Opt(Cat(r, UpTo(n - 1, r)))
  }

  /** Rule r derives the text s[i..j]. */
  ghost predicate Derives(r: Rule, s: string, i: nat, j: nat)
    decreases r, j - i
  {
    i <= j <= |s| &&
    match r
    case Empty => i == j
    case Range(lo, hi) => j == i + 1 && lo <= s[i] <= hi
    case OneOf(cs) => j == i + 1 && s[i] in cs
    case Cat(a, b) => exists k: nat :: i <= k <= j && Derives(a, s, i, k) && Derives(b, s, k, j)
    case Alt(a, b) => Derives(a, s, i, j) || Derives(b, s, i, j)
    case Star(a) => i == j || exists k: nat :: i < k <= j && Derives(a, s, i, k) && Derives(r, s, k, j)
    case Utf8Decoded(a) => Derives(a, s, i, j) && Utf8.Valid(Utf8.PctDecode(s[i..j]))
  }

  ghost predicate Matches(r: Rule, s: string) {
    Derives(r, s, 0, |s|)
  }

  /** The text stops at j: the input is exhausted or goes on with one of the delimiters. */
  predicate EndsAt(ends: string, s: string, j: nat) {
    j == |s| || (j < |s| && s[j] in ends)
  }

  /** What a recogniser for r, started at i on s and reporting (ok, j), has to guarantee:
      whatever it consumes is derived by r, and the only text of r that starts at i and stops at one
      of the delimiters is the one it consumes. */
  ghost predicate Recognised(r: Rule, ends: string, s: string, i: nat, ok: bool, j: nat) {
    && (ok ==> Derives(r, s, i, j))
    && (forall k: nat :: Derives(r, s, i, k) && EndsAt(ends, s, k) ==> ok && k == j)
  }

  lemma CatSplit(a: Rule, b: Rule, s: string, i: nat, j: nat) returns (k: nat)
    requires Derives(Cat(a, b), s, i, j)
    ensures i <= k <= j <= |s| && Derives(a, s, i, k) && Derives(b, s, k, j)
  {
    k :| i <= k <= j && Derives(a, s, i, k) && Derives(b, s, k, j);
  }

  lemma CatJoin(a: Rule, b: Rule, s: string, i: nat, k: nat, j: nat)
    requires Derives(a, s, i, k) && Derives(b, s, k, j)
    ensures Derives(Cat(a, b), s, i, j)
  {
  }

  lemma CharCut(c: char, r: Rule, s: string, i: nat, j: nat)
    requires Derives(Cat(Ch(c), r), s, i, j)
    ensures i < |s| && s[i] == c && i + 1 <= j <= |s| && Derives(r, s, i + 1, j)
  {
    var k := CatSplit(Ch(c), r, s, i, j);
  }

  lemma OptCases(r: Rule, s: string, i: nat, j: nat)
    ensures Derives(Opt(r), s, i, j) <==> Derives(r, s, i, j) || i == j <= |s|
  {
  }

  lemma StarSplit(a: Rule, s: string, i: nat, j: nat) returns (k: nat)
    requires i < j && Derives(Star(a), s, i, j)
    ensures i < k <= j <= |s| && Derives(a, s, i, k) && Derives(Star(a), s, k, j)
  {
    k :| i < k <= j && Derives(a, s, i, k) && Derives(Star(a), s, k, j);
  }

  lemma {:induction false} StarSnoc(r: Rule, s: string, i: nat, k: nat, j: nat)
    requires Derives(Star(r), s, i, k) && Derives(r, s, k, j)
    ensures Derives(Star(r), s, i, j)
    decreases k - i
  {
    if i == k {
      assert Derives(Star(r), s, j, j);
    } else {
      var m := StarSplit(r, s, i, k);
      StarSnoc(r, s, m, k, j);
    }
  }

  lemma {:induction false} StarAppend(r: Rule, s: string, i: nat, k: nat, j: nat)
    requires Derives(Star(r), s, i, k) && Derives(Star(r), s, k, j)
    ensures Derives(Star(r), s, i, j)
    decreases k - i
  {
    if i != k {
      var m := StarSplit(r, s, i, k);
      StarAppend(r, s, m, k, j);
    }
  }

  /** Derivation depends on the derived text alone, not on what surrounds it. */
  lemma {:induction false} Shift(r: Rule, s: string, off: nat, t: string, i: nat, j: nat)
    requires off + |t| <= |s| && forall k :: 0 <= k < |t| ==> t[k] == s[off + k]
    requires i <= j <= |t|
    ensures Derives(r, t, i, j) <==> Derives(r, s, off + i, off + j)
    decreases r, j - i, 1
  {
    match r
    case Empty =>
    case Range(_, _) =>
    case OneOf(_) =>
    case Cat(a, b) => ShiftCat(a, b, s, off, t, i, j);
    case Alt(a, b) =>
      Shift(a, s, off, t, i, j);
      Shift(b, s, off, t, i, j);
    case Star(a) => ShiftStar(a, s, off, t, i, j);
    case Utf8Decoded(a) =>
      Shift(a, s, off, t, i, j);
      assert t[i..j] == s[off + i..off + j];
  }

  lemma {:induction false} ShiftCat(a: Rule, b: Rule, s: string, off: nat, t: string, i: nat, j: nat)
    requires off + |t| <= |s| && forall k :: 0 <= k < |t| ==> t[k] == s[off + k]
    requires i <= j <= |t|
    ensures Derives(Cat(a, b), t, i, j) <==> Derives(Cat(a, b), s, off + i, off + j)
    decreases Cat(a, b), j - i, 0
  {
    hide Derives;
    if Derives(Cat(a, b), t, i, j) {
      var k := CatSplit(a, b, t, i, j);
      Shift(a, s, off, t, i, k);
      Shift(b, s, off, t, k, j);
      CatJoin(a, b, s, off + i, off + k, off + j);
    }
    if Derives(Cat(a, b), s, off + i, off + j) {
      var k := CatSplit(a, b, s, off + i, off + j);
      Shift(a, s, off, t, i, k - off);
      Shift(b, s, off, t, k - off, j);
      CatJoin(a, b, t, i, k - off, j);
    }
  }

  lemma {:induction false} ShiftStar(a: Rule, s: string, off: nat, t: string, i: nat, j: nat)
    requires off + |t| <= |s| && forall k :: 0 <= k < |t| ==> t[k] == s[off + k]
    requires i <= j <= |t|
    ensures Derives(Star(a), t, i, j) <==> Derives(Star(a), s, off + i, off + j)
    decreases Star(a), j - i, 0
  {
    if i < j && Derives(Star(a), t, i, j) {
      var k := StarSplit(a, t, i, j);
      Shift(a, s, off, t, i, k);
      Shift(Star(a), s, off, t, k, j);
    }
    if i < j && Derives(Star(a), s, off + i, off + j) {
      var k := StarSplit(a, s, off + i, off + j);
      Shift(a, s, off, t, i, k - off);
      Shift(Star(a), s, off, t, k - off, j);
    }
  }
}
