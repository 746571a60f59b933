/** What the leaves of a tree find, said of the message, the rules and the path elements themselves. */
module EvalLeaves {
  import opened Options
  import opened Outcomes
  import opened EvalTree

  predicate IsSet(m: Message, field: nat) { field < |m.slots| && m.slots[field].has }

  // Two entries of the list are set; they are different fields when the list names none twice.
  ghost predicate TwoSet(m: Message, fields: seq<nat>) {
    exists i, j :: 0 <= i < j < |fields| && IsSet(m, fields[i]) && IsSet(m, fields[j])
  }

  ghost predicate OneSet(m: Message, fields: seq<nat>) {
    exists i :: 0 <= i < |fields| && IsSet(m, fields[i])
  }

  lemma {:induction false} CountIsSet(m: Message, fields: seq<nat>)
    ensures CountHas(m, fields) > 0 <==> OneSet(m, fields)
    ensures CountHas(m, fields) > 1 <==> TwoSet(m, fields)
    decreases |fields|
  {
    if fields != [] {
      var rest := fields[1..];
      CountIsSet(m, rest);
      assert forall i :: 0 <= i < |rest| ==> rest[i] == fields[i + 1];
      if OneSet(m, rest) {
        var i :| 0 <= i < |rest| && IsSet(m, rest[i]);
        assert IsSet(m, fields[i + 1]);
        if IsSet(m, fields[0]) { assert TwoSet(m, fields); }
      }
      if TwoSet(m, rest) {
        var i, j :| 0 <= i < j < |rest| && IsSet(m, rest[i]) && IsSet(m, rest[j]);
        assert IsSet(m, fields[i + 1]) && IsSet(m, fields[j + 1]);
      }
      if TwoSet(m, fields) {
        var i, j :| 0 <= i < j < |fields| && IsSet(m, fields[i]) && IsSet(m, fields[j]);
        assert IsSet(m, rest[j - 1]);
        if i > 0 { assert IsSet(m, rest[i - 1]); }
      }
      if OneSet(m, fields) && !IsSet(m, fields[0]) {
        var i :| 0 <= i < |fields| && IsSet(m, fields[i]);
        assert IsSet(m, rest[i - 1]);
      }
    }
  }

  // The filter admits the message, and two listed fields are set, or one is required and none is.
  ghost predicate BreaksOneof(checks: Checks, m: Message, fields: seq<nat>, required: bool) {
    && checks.filter(m, MessageDescriptor(m.typeName))
    && (TwoSet(m, fields) || (required && fields != [] && !OneSet(m, fields)))
  }

  lemma MessageOneofFinds(checks: Checks, m: Message, fields: seq<nat>, required: bool)
    ensures MessageOneofAtoms(checks, m, fields, required) ==
            if BreaksOneof(checks, m, fields, required)
            then [Violated(Violation([], [], false, "message.oneof"))] else []
  {
    CountIsSet(m, fields);
  }

  // The filter admits the oneof, one of its fields is required, and none is set.
  ghost predicate LacksMember(checks: Checks, m: Message, oneof: string, members: seq<nat>, required: bool) {
    checks.filter(m, OneofDescriptor(oneof)) && required && !OneSet(m, members)
  }

  lemma OneofFinds(checks: Checks, m: Message, oneof: string, members: seq<nat>, required: bool)
    ensures OneofAtoms(checks, m, oneof, members, required) ==
            if LacksMember(checks, m, oneof, members, required)
            then [Violated(Violation([PathElement(oneof, NoSubscript)], [], false, "required"))] else []
  {
    CountIsSet(m, members);
  }

  // A violation of a rule with the field's own element, if any, and the rule's path behind the prefix.
  function At(base: Base, rule: seq<PathElement>, id: string): Violation {
    Violation(match base.element { case Some(e) => [e] case None => [] }, base.rulePrefix + rule, false, id)
  }

  function RuleField(kind: string, name: string): seq<PathElement> {
    [PathElement(kind, NoSubscript), PathElement(name, NoSubscript)]
  }

  lemma EnumFinds(base: Base, numbers: set<int>, v: Value)
    ensures EnumAtoms(base, numbers, v) ==
            if exists n :: n in numbers && v == EnumNumber(n) then []
            else [Violated(At(base, RuleField("enum", "defined_only"), "enum.defined_only"))]
  {
    if v.EnumNumber? && v.number in numbers { assert v == EnumNumber(v.number); }
  }

  lemma AnyFinds(base: Base, url: string, allowed: seq<string>, blocked: seq<string>)
    ensures var notIn, isIn := At(base, RuleField("any", "in"), "any.in"),
            At(base, RuleField("any", "not_in"), "any.not_in");
            forall a :: a in AnyAtoms(base, url, allowed, blocked) <==>
              || (a == Violated(notIn) && allowed != [] && forall k :: 0 <= k < |allowed| ==> allowed[k] != url)
              || (a == Violated(isIn) && exists k :: 0 <= k < |blocked| && blocked[k] == url)
  {
  }

  // What one program finds: nothing, a violation with the program's own path and id, or an error
  ghost predicate ProgramFinds(checks: Checks, p: Program, v: Value, a: Atom) {
    match checks.cel(p, v)
    case CelPass => a == Pass
    case CelViolation => a == Violated(Violation([], p.path, false, p.id))
    case CelError(cause) => a == Failed(cause)
  }

  lemma {:induction false} ProgramsFind(checks: Checks, ps: seq<Program>, v: Value)
    ensures |ProgramAtoms(checks, ps, v)| == |ps|
    ensures forall k :: 0 <= k < |ps| ==> ProgramFinds(checks, ps[k], v, ProgramAtoms(checks, ps, v)[k])
  {
    if ps != [] {
      ProgramsFind(checks, ps[1..], v);
      var rest := ProgramAtoms(checks, ps[1..], v);
      forall k | 1 <= k < |ps|
        ensures ProgramFinds(checks, ps[k], v, ProgramAtoms(checks, ps, v)[k])
      {
        assert ProgramFinds(checks, ps[1..][k - 1], v, rest[k - 1]);
      }
    }
  }
}
