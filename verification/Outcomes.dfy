/** Results of validation: flat lists of atomic check outcomes, and what a list amounts to when it is
    evaluated with and without fail-fast. */
module Outcomes {
  datatype Subscript =
    | NoSubscript
    | Index(index: nat)
    | BoolKey(flag: bool)
    | IntKey(int_: int)
    | UintKey(uint: nat)
    | StringKey(text: string)

  // An element of a field or rule path: the field's own name, and the index or key it is subscripted with.
  datatype PathElement = PathElement(name: string, subscript: Subscript)

  function Plain(name: string): PathElement { PathElement(name, NoSubscript) }

  // A violation: its field path and rule path (empty for an absent one), the for_key mark, the rule's id.
  datatype Violation = Violation(field: seq<PathElement>, rule: seq<PathElement>, forKey: bool, ruleId: string)

  // The outcome of one atomic check. An error is a runtime or compilation error.
  datatype Atom = Pass | Violated(v: Violation) | Failed(cause: string)

  // The error value that evaluation returns: nil, a ValidationError, or another error.
  datatype Outcome = Success | Invalid(violations: seq<Violation>) | Fatal(cause: string)

  /** What a list of atomic outcomes amounts to. With fail-fast the first outcome that is not a pass decides;
      otherwise the first error does, and without an error all violations are reported. */
  function Run(atoms: seq<Atom>, failFast: bool): Outcome {
    if atoms == [] then Success
    else match atoms[0]
      case Pass => Run(atoms[1..], failFast)
      case Failed(cause) => Fatal(cause)
      case Violated(v) =>
        if failFast then Invalid([v])
        else match Run(atoms[1..], failFast)
          case Success => Invalid([v])
          case Invalid(vs) => Invalid([v] + vs)
          case Fatal(cause) => Fatal(cause)
  }

  // mergeViolations: the merged error, and whether evaluation goes on.
  function Merge(dst: Outcome, src: Outcome): Outcome {
    match src
    case Success => dst
    case Fatal(_) => src
    case Invalid(vs) =>
      match dst
      case Success => src
      case Fatal(_) => dst
      case Invalid(ws) => Invalid(ws + vs)
  }

  predicate GoesOn(dst: Outcome, src: Outcome, failFast: bool) {
    src.Success? || (src.Invalid? && !dst.Fatal? && !failFast)
  }

  // Evaluation stops after this outcome.
  predicate Stops(o: Outcome, failFast: bool) {
    o.Fatal? || (o.Invalid? && failFast)
  }

  /** Evaluating one list after another is merging their results, unless the first one stops. */
  lemma {:induction false} RunAppend(a: seq<Atom>, b: seq<Atom>, failFast: bool)
    ensures Run(a + b, failFast) ==
            if Stops(Run(a, failFast), failFast) then Run(a, failFast)
            else Merge(Run(a, failFast), Run(b, failFast))
    decreases |a|
  {
    if a == [] {
      assert a + b == b;
    } else {
      assert (a + b)[1..] == a[1..] + b;
      RunAppend(a[1..], b, failFast);
      MergeAssoc(a[0], Run(a[1..], failFast), Run(b, failFast));
    }
  }

  /** One step of an evaluation loop: merging the next result into what was accumulated, and going on with
      the rest or not, agrees with merging everything that is left. */
  lemma MergeStep(acc: Outcome, x: Outcome, rest: Outcome, failFast: bool)
    requires !Stops(acc, failFast)
    ensures Merge(acc, if Stops(x, failFast) then x else Merge(x, rest)) ==
            if GoesOn(acc, x, failFast) then Merge(Merge(acc, x), rest) else Merge(acc, x)
    ensures GoesOn(acc, x, failFast) ==> !Stops(Merge(acc, x), failFast)
  {
    if acc.Invalid? && x.Invalid? && rest.Invalid? {
      assert acc.violations + (x.violations + rest.violations) == (acc.violations + x.violations) + rest.violations;
    }
  }

  lemma MergeAssoc(atom: Atom, x: Outcome, y: Outcome)
    ensures atom.Violated? && x.Invalid? && y.Invalid? ==>
            [atom.v] + (x.violations + y.violations) == ([atom.v] + x.violations) + y.violations
  {
    if atom.Violated? && x.Invalid? && y.Invalid? {
      assert [atom.v] + (x.violations + y.violations) == ([atom.v] + x.violations) + y.violations;
    }
  }

  /* ---- Changing every violation ---- */

  // What updateViolationPaths, markViolationForKey and celPrograms.Evaluate do to a violation.
  datatype Change =
    // append to the field path, prepend to the rule path
    | Place(suffix: seq<PathElement>, rulePrefix: seq<PathElement>)
    | MarkKey
    | Reversed // finalizeViolationPaths
    | Anchored(at: seq<PathElement>, inKey: bool) // what all of these amount to, seen from the root

  function Apply(c: Change, v: Violation): Violation {
    match c
    case Place(suffix, rulePrefix) => v.(field := v.field + suffix, rule := rulePrefix + v.rule)
    case MarkKey => v.(forKey := true)
    case Reversed => v.(field := Reverse(v.field))
    case Anchored(at, inKey) => v.(field := at + Reverse(v.field), forKey := inKey || v.forKey)
  }

  function Reverse<T>(s: seq<T>): seq<T> {
    if s == [] then [] else Reverse(s[1..]) + [s[0]]
  }

  function ApplyAll(c: Change, vs: seq<Violation>): (r: seq<Violation>)
    ensures |r| == |vs| && forall k :: 0 <= k < |vs| ==> r[k] == Apply(c, vs[k])
  {
    seq(|vs|, k requires 0 <= k < |vs| => Apply(c, vs[k]))
  }

  function ChangeAtom(c: Change, a: Atom): Atom {
    if a.Violated? then Violated(Apply(c, a.v)) else a
  }

  function ChangeAtoms(c: Change, atoms: seq<Atom>): (r: seq<Atom>)
    ensures |r| == |atoms|
  {
    if atoms == [] then [] else [ChangeAtom(c, atoms[0])] + ChangeAtoms(c, atoms[1..])
  }

  function ChangeOutcome(c: Change, o: Outcome): Outcome {
    if o.Invalid? then Invalid(ApplyAll(c, o.violations)) else o
  }

  /** Changing the violations of a result is changing those of the list. */
  lemma {:induction false} RunChange(c: Change, atoms: seq<Atom>, failFast: bool)
    ensures Run(ChangeAtoms(c, atoms), failFast) == ChangeOutcome(c, Run(atoms, failFast))
    decreases |atoms|
  {
    if atoms != [] {
      var changed := ChangeAtoms(c, atoms);
      assert changed[0] == ChangeAtom(c, atoms[0]) && changed[1..] == ChangeAtoms(c, atoms[1..]);
      RunChange(c, atoms[1..], failFast);
      if atoms[0].Violated? {
        var v := atoms[0].v;
        var rest := Run(atoms[1..], failFast);
        assert ApplyAll(c, [v]) == [Apply(c, v)];
        if rest.Invalid? { assert ApplyAll(c, [v] + rest.violations) == [Apply(c, v)] + ApplyAll(c, rest.violations); }
      }
    }
  }

  lemma {:induction false} ChangeAppend(c: Change, a: seq<Atom>, b: seq<Atom>)
    ensures ChangeAtoms(c, a + b) == ChangeAtoms(c, a) + ChangeAtoms(c, b)
    decreases |a|
  {
    if a == [] {
      assert a + b == b;
    } else {
      assert (a + b)[1..] == a[1..] + b;
      ChangeAppend(c, a[1..], b);
    }
  }

  lemma {:induction false} ReverseAppend<T>(s: seq<T>, t: seq<T>)
    ensures Reverse(s + t) == Reverse(t) + Reverse(s)
    decreases |s|
  {
    if s == [] {
      assert s + t == t;
      assert Reverse(t) + [] == Reverse(t);
    } else {
      assert (s + t)[1..] == s[1..] + t;
      ReverseAppend(s[1..], t);
      assert Reverse(t) + Reverse(s) == (Reverse(t) + Reverse(s[1..])) + [s[0]];
    }
  }

  lemma {:induction false} ChangeTwice(c: Change, d: Change, both: Change, atoms: seq<Atom>)
    requires forall v :: Apply(c, Apply(d, v)) == Apply(both, v)
    ensures ChangeAtoms(c, ChangeAtoms(d, atoms)) == ChangeAtoms(both, atoms)
    decreases |atoms|
  {
    if atoms != [] {
      var changed := ChangeAtoms(d, atoms);
      assert changed[0] == ChangeAtom(d, atoms[0]) && changed[1..] == ChangeAtoms(d, atoms[1..]);
      ChangeTwice(c, d, both, atoms[1..]);
    }
  }

  /** Appending an element leaf first and anchoring at a path is anchoring at the longer path. */
  lemma AnchorPlaced(at: seq<PathElement>, inKey: bool, suffix: seq<PathElement>, atoms: seq<Atom>)
    requires |suffix| <= 1
    ensures ChangeAtoms(Anchored(at, inKey), ChangeAtoms(Place(suffix, []), atoms)) ==
            ChangeAtoms(Anchored(at + suffix, inKey), atoms)
  {
    var c, d, both := Anchored(at, inKey), Place(suffix, []), Anchored(at + suffix, inKey);
    forall v
      ensures Apply(c, Apply(d, v)) == Apply(both, v)
    {
      ReverseAppend(v.field, suffix);
      assert Reverse(suffix) == suffix by {
        if suffix != [] { assert suffix[1..] == [] && suffix == [suffix[0]]; }
      }
      assert at + (suffix + Reverse(v.field)) == (at + suffix) + Reverse(v.field);
      assert [] + v.rule == v.rule;
    }
    ChangeTwice(c, d, both, atoms);
  }

  lemma AnchorKey(at: seq<PathElement>, inKey: bool, atoms: seq<Atom>)
    ensures ChangeAtoms(Anchored(at, inKey), ChangeAtoms(MarkKey, atoms)) == ChangeAtoms(Anchored(at, true), atoms)
  {
    forall v
      ensures Apply(Anchored(at, inKey), Apply(MarkKey, v)) == Apply(Anchored(at, true), v)
    {
    }
    ChangeTwice(Anchored(at, inKey), MarkKey, Anchored(at, true), atoms);
  }

  /** Turning a path round is anchoring it at the root. */
  lemma {:induction false} AnchorAtRoot(atoms: seq<Atom>)
    ensures ChangeAtoms(Reversed, atoms) == ChangeAtoms(Anchored([], false), atoms)
    decreases |atoms|
  {
    if atoms != [] {
      AnchorAtRoot(atoms[1..]);
      if atoms[0].Violated? {
        var v := atoms[0].v;
        assert [] + Reverse(v.field) == Reverse(v.field);
      }
    }
  }

  /* ---- What Run means ---- */

  function ViolationsOf(atoms: seq<Atom>): seq<Violation> {
    if atoms == [] then [] else (if atoms[0].Violated? then [atoms[0].v] else []) + ViolationsOf(atoms[1..])
  }

  lemma {:induction false} RunFails(atoms: seq<Atom>, k: nat)
    requires k < |atoms| && atoms[k].Failed? && forall m :: 0 <= m < k ==> !atoms[m].Failed?
    ensures Run(atoms, false) == Fatal(atoms[k].cause)
    decreases k
  {
    if k > 0 { RunFails(atoms[1..], k - 1); }
  }

  /** Without fail-fast: the first error if there is one, otherwise exactly the violations of the list, in
      order, none lost or repeated. */
  lemma {:induction false} RunCollects(atoms: seq<Atom>)
    ensures (forall k :: 0 <= k < |atoms| ==> !atoms[k].Failed?) ==>
            Run(atoms, false) == if ViolationsOf(atoms) == [] then Success else Invalid(ViolationsOf(atoms))
    ensures forall k :: 0 <= k < |atoms| && atoms[k].Failed? && (forall m :: 0 <= m < k ==> !atoms[m].Failed?)
              ==> Run(atoms, false) == Fatal(atoms[k].cause)
    decreases |atoms|
  {
    if atoms != [] {
      RunCollects(atoms[1..]);
      if (forall k :: 0 <= k < |atoms| ==> !atoms[k].Failed?) {
        assert forall k :: 0 <= k < |atoms| - 1 ==> atoms[1..][k] == atoms[k + 1];
      }
      forall k | 0 <= k < |atoms| && atoms[k].Failed? && (forall m :: 0 <= m < k ==> !atoms[m].Failed?)
        ensures Run(atoms, false) == Fatal(atoms[k].cause)
      {
        RunFails(atoms, k);
      }
    }
  }

  /** With fail-fast: the first outcome that is not a pass. */
  lemma {:induction false} RunStopsFirst(atoms: seq<Atom>, k: nat)
    requires k <= |atoms| && forall m :: 0 <= m < k ==> atoms[m].Pass?
    requires k < |atoms| ==> !atoms[k].Pass?
    ensures Run(atoms, true) ==
            if k == |atoms| then Success
            else if atoms[k].Failed? then Fatal(atoms[k].cause) else Invalid([atoms[k].v])
    decreases |atoms|
  {
    if k > 0 { RunStopsFirst(atoms[1..], k - 1); }
  }

  /** Either mode reports success iff every check passed; so one does iff the other does. */
  lemma {:induction false} RunSuccess(atoms: seq<Atom>, failFast: bool)
    ensures Run(atoms, failFast).Success? <==> forall k :: 0 <= k < |atoms| ==> atoms[k].Pass?
    decreases |atoms|
  {
    if atoms != [] {
      RunSuccess(atoms[1..], failFast);
      assert forall k :: 1 <= k < |atoms| ==> atoms[k] == atoms[1..][k - 1];
      if forall k :: 0 <= k < |atoms| ==> atoms[k].Pass? {
        assert forall k :: 0 <= k < |atoms| - 1 ==> atoms[1..][k] == atoms[k + 1];
      }
    }
  }

  /** The two modes side by side: fail-fast reports the first violation of those that collecting reports,
      or an error where collecting reports the same one; collecting may find an error behind a violation. */
  lemma {:induction false} RunModes(atoms: seq<Atom>)
    ensures var fast, slow := Run(atoms, true), Run(atoms, false);
            && (fast.Success? <==> slow.Success?)
            && (fast.Fatal? ==> slow == fast)
            && (fast.Invalid? ==> |fast.violations| == 1)
            && (fast.Invalid? && slow.Invalid? ==> fast.violations <= slow.violations)
    decreases |atoms|
  {
    if atoms != [] { RunModes(atoms[1..]); }
  }
}
