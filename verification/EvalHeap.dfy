/** Evaluation as the code does it: error objects that are merged in place, violation objects whose paths
    are extended in place while the call stack unwinds. Every method is proved to return what the flat list
    of its tree amounts to. */
module EvalHeap {
  import opened Options
  import opened Outcomes
  import opened EvalTree
  import opened EvalLeaves

  class ViolationProto {
    var field: seq<PathElement>
    var rule: seq<PathElement>
    var forKey: bool
    const ruleId: string

    constructor (v: Violation)
      ensures Val() == v
    {
      field, rule, forKey, ruleId := v.field, v.rule, v.forKey, v.ruleId;
    }

    ghost function Val(): Violation
      reads this
    {
      Violation(field, rule, forKey, ruleId)
    }

    method Extend(fieldSuffix: Option<PathElement>, rulePrefix: seq<PathElement>)
      modifies this
      ensures Val() == Apply(Place(if fieldSuffix.Some? then [fieldSuffix.value] else [], rulePrefix), old(Val()))
    {
      if fieldSuffix.Some? { field := field + [fieldSuffix.value]; }
      if |rulePrefix| != 0 { rule := rulePrefix + rule; }
      assert old(field) + [] == old(field) && [] + old(rule) == old(rule);
    }

    method Set(base: Base)
      requires field == []
      modifies this
      ensures Val() == Apply(Place(ElementOf(base), base.rulePrefix), old(Val()))
    {
      field := if base.element.Some? then [base.element.value] else [];
      rule := if |base.rulePrefix| > 0 then base.rulePrefix + rule else rule;
      assert [] + ElementOf(base) == ElementOf(base) && [] + old(rule) == old(rule);
    }
  }

  class ValidationError {
    var violations: seq<ViolationProto>

    constructor (vs: seq<ViolationProto>)
      ensures violations == vs
    {
      violations := vs;
    }
  }

  datatype Err = Nil | Validation(e: ValidationError) | Other(cause: string)

  ghost predicate Distinct(vs: seq<ViolationProto>) {
    forall i, j :: 0 <= i < j < |vs| ==> vs[i] != vs[j]
  }

  lemma NoneDistinct()
    ensures Distinct([])
  {
  }

  ghost function Vals(vs: seq<ViolationProto>): (r: seq<Violation>)
    reads vs
    ensures |r| == |vs| && forall k :: 0 <= k < |vs| ==> r[k] == vs[k].Val()
  {
    if vs == [] then [] else [vs[0].Val()] + Vals(vs[1..])
  }

  // The error consists of new objects.
  twostate predicate New(new err: Err)
    reads if err.Validation? then {err.e} else {}
  {
    err.Validation? ==> fresh(err.e) && fresh(err.e.violations)
  }

  // The error consists of new objects and of those of another one, as they were.
  twostate predicate Grew(acc: Err, new err: Err)
    reads if acc.Validation? then {acc.e} else {}, if err.Validation? then {err.e} else {}
  {
    err.Validation? ==>
      (fresh(err.e) || (acc.Validation? && err.e == acc.e)) &&
      forall k :: 0 <= k < |err.e.violations| ==>
        fresh(err.e.violations[k]) || (acc.Validation? && err.e.violations[k] in old(acc.e.violations))
  }

  // No violation object is part of both lists.
  ghost predicate Apart(a: seq<ViolationProto>, b: seq<ViolationProto>) {
    forall i, j :: 0 <= i < |a| && 0 <= j < |b| ==> a[i] != b[j]
  }

  // The violations of an error are distinct objects, and there is at least one.
  ghost predicate Sound(err: Err)
    reads if err.Validation? then {err.e} else {}
  {
    err.Validation? ==> err.e.violations != [] && Distinct(err.e.violations)
  }

  ghost function Abs(err: Err): Outcome
    reads if err.Validation? then {err.e} else {}, if err.Validation? then err.e.violations else []
  {
    match err
    case Nil => Success
    case Validation(e) => Invalid(Vals(e.violations))
    case Other(cause) => Fatal(cause)
  }

  lemma ValsAppend(a: seq<ViolationProto>, b: seq<ViolationProto>)
    ensures Vals(a + b) == Vals(a) + Vals(b)
  {
  }

  /* ---- error_utils.go ---- */

  lemma DistinctAppend(a: seq<ViolationProto>, b: seq<ViolationProto>)
    requires Distinct(a) && Distinct(b) && Apart(a, b)
    ensures Distinct(a + b)
  {
  }

  ghost function ProtosOf(err: Err): seq<ViolationProto>
    reads if err.Validation? then {err.e} else {}
  {
    if err.Validation? then err.e.violations else []
  }

  /** Merge src into dst: the violations of src are appended to the object of dst. */
  method MergeViolations(dst: Err, src: Err, failFast: bool) returns (ok: bool, err: Err)
    requires Sound(dst) && Sound(src) && (dst.Validation? ==> dst != src) && Apart(ProtosOf(dst), ProtosOf(src))
    modifies if dst.Validation? then {dst.e} else {}
    ensures err == src || (err == dst && (dst.Validation? ==> ProtosOf(err) == old(ProtosOf(dst)) + old(ProtosOf(src))))
    ensures err == src && src.Validation? ==> ProtosOf(err) == old(ProtosOf(src))
    ensures Sound(err) && Abs(err) == Merge(old(Abs(dst)), old(Abs(src)))
    ensures ok == GoesOn(old(Abs(dst)), old(Abs(src)), failFast)
  {
    match src
    case Nil => return true, dst;
    case Other(_) => return false, src;
    case Validation(srcErr) =>
      match dst
      case Nil => return !(failFast && |srcErr.violations| > 0), src;
      case Other(_) => return false, dst;
      case Validation(dstErr) =>
        ValsAppend(dstErr.violations, srcErr.violations);
        DistinctAppend(dstErr.violations, srcErr.violations);
        dstErr.violations := dstErr.violations + srcErr.violations;
        return !(failFast && |dstErr.violations| > 0), dst;
  }

  /** Append an element to the field path of every violation and prepend the rule prefix. */
  method UpdateViolationPaths(err: Err, fieldSuffix: Option<PathElement>, rulePrefix: seq<PathElement>)
    requires Sound(err)
    modifies if err.Validation? then err.e.violations else []
    ensures Sound(err) && ProtosOf(err) == old(ProtosOf(err))
    ensures Abs(err) == ChangeOutcome(Place(if fieldSuffix.Some? then [fieldSuffix.value] else [], rulePrefix),
            old(Abs(err)))
  {
    ghost var c := Place(if fieldSuffix.Some? then [fieldSuffix.value] else [], rulePrefix);
    if err.Validation? {
      var vs := err.e.violations;
      for i := 0 to |vs|
        invariant err.e.violations == vs
        invariant forall k :: 0 <= k < i ==> vs[k].Val() == Apply(c, old(vs[k].Val()))
        invariant forall k :: i <= k < |vs| ==> vs[k].Val() == old(vs[k].Val())
      {
        vs[i].Extend(fieldSuffix, rulePrefix);
      }
      assert Vals(vs) == ApplyAll(c, old(Vals(vs)));
    }
  }

  method MarkViolationForKey(err: Err)
    requires Sound(err)
    modifies if err.Validation? then err.e.violations else []
    ensures Sound(err) && ProtosOf(err) == old(ProtosOf(err))
    ensures Abs(err) == ChangeOutcome(MarkKey, old(Abs(err)))
  {
    if err.Validation? {
      var vs := err.e.violations;
      for i := 0 to |vs|
        invariant err.e.violations == vs
        invariant forall k :: 0 <= k < i ==> vs[k].Val() == Apply(MarkKey, old(vs[k].Val()))
        invariant forall k :: i <= k < |vs| ==> vs[k].Val() == old(vs[k].Val())
      {
        vs[i].forKey := true;
      }
      assert Vals(vs) == ApplyAll(MarkKey, old(Vals(vs)));
    }
  }

  /** Reverse every field path, once, at the end. */
  method FinalizeViolationPaths(err: Err)
    requires Sound(err)
    modifies if err.Validation? then err.e.violations else []
    ensures Sound(err) && ProtosOf(err) == old(ProtosOf(err))
    ensures Abs(err) == ChangeOutcome(Reversed, old(Abs(err)))
  {
    if err.Validation? {
      var vs := err.e.violations;
      for i := 0 to |vs|
        invariant err.e.violations == vs
        invariant forall k :: 0 <= k < i ==> vs[k].Val() == Apply(Reversed, old(vs[k].Val()))
        invariant forall k :: i <= k < |vs| ==> vs[k].Val() == old(vs[k].Val())
      {
        var reversed := ReverseElements(vs[i].field);
        vs[i].field := reversed;
      }
      assert Vals(vs) == ApplyAll(Reversed, old(Vals(vs)));
    }
  }

  // slices.Reverse: swap from both ends towards the middle.
  method ReverseElements(s: seq<PathElement>) returns (r: seq<PathElement>)
    ensures r == Reverse(s)
  {
    r := s;
    var i, j := 0, |s| - 1;
    while i < j
      invariant 0 <= i && j == |s| - 1 - i && i <= j + 1 && |r| == |s|
      invariant forall k :: 0 <= k < i ==> r[k] == s[|s| - 1 - k] && r[|s| - 1 - k] == s[k]
      invariant forall k :: i <= k <= j ==> r[k] == s[k]
    {
      r := r[i := r[j]][j := r[i]];
      i, j := i + 1, j - 1;
    }
    IsReverse(s, r);
  }

  lemma IsReverse<T>(s: seq<T>, r: seq<T>)
    requires |r| == |s| && forall k :: 0 <= k < |s| ==> r[k] == s[|s| - 1 - k]
    ensures r == Reverse(s)
  {
    if s == [] {
      assert r == [];
    } else {
      ReverseAt(s, 0);
      forall k | 0 <= k < |s|
        ensures r[k] == Reverse(s)[k]
      {
        ReverseAt(s, k);
      }
    }
  }

  lemma {:induction false} ReverseAt<T>(s: seq<T>, k: nat)
    requires k < |s|
    ensures |Reverse(s)| == |s| && Reverse(s)[k] == s[|s| - 1 - k]
    decreases |s|
  {
    if |s| > 1 {
      ReverseAt(s[1..], if k < |s| - 1 then k else 0);
    } else {
      assert Reverse(s[1..]) == [];
    }
  }

  /* ---- Single violations ---- */

  // The error is what the list of outcomes amounts to.
  ghost predicate Yields(err: Err, atoms: seq<Atom>, failFast: bool)
    reads if err.Validation? then {err.e} else {}, if err.Validation? then err.e.violations else []
  {
    Sound(err) && Abs(err) == Run(atoms, failFast)
  }

  method OneViolation(v: Violation) returns (err: Err)
    ensures err.Validation? && fresh(err.e) && fresh(err.e.violations) && Sound(err) && Abs(err) == Invalid([v])
  {
    var proto := new ViolationProto(v);
    var e := new ValidationError([proto]);
    err := Validation(e);
    assert Vals([proto]) == [v];
  }

  /* ---- program.go, cel.go ---- */

  ghost function OfVals(vs: seq<Violation>): Outcome {
    if vs == [] then Success else Invalid(vs)
  }

  lemma NoProgram(cfg: Config, v: Value)
    ensures Run(ProgramAtoms(cfg.checks, [], v), cfg.failFast) == Success
  {
  }

  lemma NextProgram(cfg: Config, ps: seq<Program>, v: Value, i: nat)
    requires i < |ps|
    ensures ProgramAtoms(cfg.checks, ps[i..], v) == [ProgramAtom(cfg.checks, ps[i], v)] +
            ProgramAtoms(cfg.checks, ps[i + 1..], v)
    ensures var rest := Run(ProgramAtoms(cfg.checks, ps[i + 1..], v), cfg.failFast);
            Run(ProgramAtoms(cfg.checks, ps[i..], v), cfg.failFast) ==
            match ProgramAtom(cfg.checks, ps[i], v)
            case Pass => rest
            case Failed(cause) => Fatal(cause)
            case Violated(w) => if cfg.failFast then Invalid([w]) else Merge(Invalid([w]), rest)
  {
    var all := ProgramAtoms(cfg.checks, ps[i..], v);
    assert ps[i..][0] == ps[i] && ps[i..][1..] == ps[i + 1..];
    assert all[0] == ProgramAtom(cfg.checks, ps[i], v) && all[1..] == ProgramAtoms(cfg.checks, ps[i + 1..], v);
  }

  lemma ProgramStep(cfg: Config, ps: seq<Program>, v: Value, i: nat, acc: seq<Violation>, total: Outcome)
    requires i < |ps| && (cfg.failFast ==> acc == [])
    requires total == Merge(OfVals(acc), Run(ProgramAtoms(cfg.checks, ps[i..], v), cfg.failFast))
    ensures var rest := Run(ProgramAtoms(cfg.checks, ps[i + 1..], v), cfg.failFast);
            match cfg.checks.cel(ps[i], v)
            case CelPass => total == Merge(OfVals(acc), rest)
            case CelError(cause) => total == Fatal(cause)
            case CelViolation =>
              var grown := acc + [Violation([], ps[i].path, false, ps[i].id)];
              total == if cfg.failFast then OfVals(grown) else Merge(OfVals(grown), rest)
  {
    NextProgram(cfg, ps, v, i);
    var rest := Run(ProgramAtoms(cfg.checks, ps[i + 1..], v), cfg.failFast);
    if rest.Invalid? {
      var w := Violation([], ps[i].path, false, ps[i].id);
      assert (acc + [w]) + rest.violations == acc + ([w] + rest.violations);
    }
  }

  method Extended(violations: seq<ViolationProto>, v: Violation) returns (r: seq<ViolationProto>)
    requires Distinct(violations)
    ensures |r| == |violations| + 1 && r[..|violations|] == violations && fresh(r[|violations|])
    ensures Distinct(r) && Vals(r) == Vals(violations) + [v]
  {
    var proto := new ViolationProto(v);
    ValsAppend(violations, [proto]);
    DistinctAppend(violations, [proto]);
    assert Vals([proto]) == [v];
    r := violations + [proto];
  }

  method EvalPrograms(cfg: Config, programs: seq<Program>, v: Value) returns (err: Err)
    ensures err.Validation? ==> fresh(err.e) && fresh(err.e.violations)
    ensures Yields(err, ProgramAtoms(cfg.checks, programs, v), cfg.failFast)
  {
    hide ProgramAtoms, Run, Distinct, ProgramAtom, Vals;
    NoProgram(cfg, v);
    if |programs| == 0 { return Nil; }
    ghost var total := Run(ProgramAtoms(cfg.checks, programs, v), cfg.failFast);
    var violations: seq<ViolationProto> := [];
    assert Distinct([]) by { NoneDistinct(); }
    var i := 0;
    assert programs[0..] == programs;
    while i < |programs|
      invariant i <= |programs| && fresh(violations) && Distinct(violations)
      invariant cfg.failFast ==> violations == []
      invariant total == Merge(OfVals(Vals(violations)), Run(ProgramAtoms(cfg.checks, programs[i..], v), cfg.failFast))
    {
      ProgramStep(cfg, programs, v, i, Vals(violations), total);
      match cfg.checks.cel(programs[i], v) {
        case CelPass =>
        case CelError(cause) => return Other(cause);
        case CelViolation =>
          violations := Extended(violations, Violation([], programs[i].path, false, programs[i].id));
          if cfg.failFast { break; }
      }
      i := i + 1;
    }
    assert i == |programs| ==> programs[i..] == [];
    assert Distinct(violations) && total == OfVals(Vals(violations));
    if |violations| > 0 {
      var e := new ValidationError(violations);
      return Validation(e);
    }
    return Nil;
  }

  // Set the field path of every violation, which has none yet, and prefix its rule path.
  method SetViolationPaths(err: Err, base: Base)
    requires Sound(err)
    requires err.Validation? ==> forall v :: v in err.e.violations ==> v.field == []
    modifies if err.Validation? then err.e.violations else []
    ensures Sound(err) && ProtosOf(err) == old(ProtosOf(err))
    ensures Abs(err) == ChangeOutcome(Place(ElementOf(base), base.rulePrefix), old(Abs(err)))
  {
    ghost var c := Place(ElementOf(base), base.rulePrefix);
    if err.Validation? {
      var vs := err.e.violations;
      for i := 0 to |vs|
        invariant err.e.violations == vs
        invariant forall k :: 0 <= k < i ==> vs[k].Val() == Apply(c, old(vs[k].Val()))
        invariant forall k :: i <= k < |vs| ==> vs[k].Val() == old(vs[k].Val())
      {
        assert vs[i].Val() == old(vs[i].Val());
        vs[i].Set(base);
      }
      assert Vals(vs) == ApplyAll(c, old(Vals(vs)));
    }
  }

  method CelEvaluate(cfg: Config, base: Base, programs: seq<Program>, v: Value) returns (err: Err)
    ensures err.Validation? ==> fresh(err.e) && fresh(err.e.violations)
    ensures Yields(err, ChangeAtoms(Place(ElementOf(base), base.rulePrefix), ProgramAtoms(cfg.checks, programs, v)),
            cfg.failFast)
  {
    err := EvalPrograms(cfg, programs, v);
    ghost var c := Place(ElementOf(base), base.rulePrefix);
    RunChange(c, ProgramAtoms(cfg.checks, programs, v), cfg.failFast);
    ProgramFields(cfg, programs, v);
    SetViolationPaths(err, base);
  }

  // The violations of programs come without a field path, so that setting it is appending to it.
  lemma {:induction false} ProgramFields(cfg: Config, ps: seq<Program>, v: Value)
    ensures var o := Run(ProgramAtoms(cfg.checks, ps, v), cfg.failFast);
            o.Invalid? ==> forall k :: 0 <= k < |o.violations| ==> o.violations[k].field == []
  {
    if ps != [] {
      ProgramFields(cfg, ps[1..], v);
      NextProgram(cfg, ps, v, 0);
      assert ps[0..] == ps;
    }
  }

  /* ---- any.go, enum.go, oneof.go, message_oneof.go ---- */

  lemma RunOne(v: Violation, failFast: bool)
    ensures Run([Violated(v)], failFast) == Invalid([v])
  {
  }

  lemma RunAny(
      base: Base, url: string, allowed: seq<string>, blocked: seq<string>, failFast: bool, a: Violation, b: Violation)
    requires a == Violation(ElementOf(base), base.rulePrefix + ANY_IN, false, "any.in")
    requires b == Violation(ElementOf(base), base.rulePrefix + ANY_NOT_IN, false, "any.not_in")
    ensures Run(AnyAtoms(base, url, allowed, blocked), failFast) ==
            OfVals(if allowed == [] || url in allowed then (if url in blocked then [b] else [])
                   else if failFast || url !in blocked then [a] else [a, b])
  {
    var first := if allowed != [] && url !in allowed then [Violated(a)] else [];
    var second := if url in blocked then [Violated(b)] else [];
    RunAppend(first, second, failFast);
    assert [a] + [b] == [a, b];
  }

  method AnyEvaluate(cfg: Config, base: Base, url: string, allowed: seq<string>, blocked: seq<string>)
    returns (err: Err)
    ensures err.Validation? ==> fresh(err.e) && fresh(err.e.violations)
    ensures Yields(err, AnyAtoms(base, url, allowed, blocked), cfg.failFast)
  {
    hide Run, AnyAtoms, Vals, Distinct, ElementOf;
    var violations: seq<ViolationProto> := [];
    NoneDistinct();
    var a := Violation(ElementOf(base), base.rulePrefix + ANY_IN, false, "any.in");
    var b := Violation(ElementOf(base), base.rulePrefix + ANY_NOT_IN, false, "any.not_in");
    RunAny(base, url, allowed, blocked, cfg.failFast, a, b);
    if |allowed| > 0 && url !in allowed {
      violations := Extended(violations, a);
      if cfg.failFast {
        var e := new ValidationError(violations);
        return Validation(e);
      }
    }
    if |blocked| > 0 && url in blocked {
      violations := Extended(violations, b);
    }
    if |violations| > 0 {
      var e := new ValidationError(violations);
      return Validation(e);
    }
    return Nil;
  }

  method EnumEvaluate(cfg: Config, base: Base, numbers: set<int>, v: Value) returns (err: Err)
    ensures err.Validation? ==> fresh(err.e) && fresh(err.e.violations)
    ensures Yields(err, EnumAtoms(base, numbers, v), cfg.failFast)
    ensures Abs(err) == if exists n :: n in numbers && v == EnumNumber(n) then Success
            else Invalid([At(base, RuleField("enum", "defined_only"), "enum.defined_only")])
  {
    EnumFinds(base, numbers, v);
    if !(v.EnumNumber? && v.number in numbers) {
      var w := Violation(ElementOf(base), base.rulePrefix + ENUM_DEFINED_ONLY, false, "enum.defined_only");
      RunOne(w, cfg.failFast);
      err := OneViolation(w);
      return;
    }
    return Nil;
  }

  method OneofEvaluate(cfg: Config, m: Message, oneof: string, members: seq<nat>, required: bool) returns (err: Err)
    ensures err.Validation? ==> fresh(err.e) && fresh(err.e.violations)
    ensures Yields(err, OneofAtoms(cfg.checks, m, oneof, members, required), cfg.failFast)
    ensures Abs(err) == if LacksMember(cfg.checks, m, oneof, members, required)
            then Invalid([Violation([PathElement(oneof, NoSubscript)], [], false, "required")]) else Success
  {
    OneofFinds(cfg.checks, m, oneof, members, required);
    if !cfg.checks.filter(m, OneofDescriptor(oneof)) || !required || CountHas(m, members) > 0 { return Nil; }
    var w := Violation([Plain(oneof)], [], false, "required");
    RunOne(w, cfg.failFast);
    err := OneViolation(w);
  }

  method MessageOneofEvaluate(cfg: Config, m: Message, fields: seq<nat>, required: bool) returns (err: Err)
    ensures err.Validation? ==> fresh(err.e) && fresh(err.e.violations)
    ensures Yields(err, MessageOneofAtoms(cfg.checks, m, fields, required), cfg.failFast)
    ensures Abs(err) == if BreaksOneof(cfg.checks, m, fields, required)
            then Invalid([Violation([], [], false, "message.oneof")]) else Success
  {
    MessageOneofFinds(cfg.checks, m, fields, required);
    if !cfg.checks.filter(m, MessageDescriptor(m.typeName)) { return Nil; }
    if |fields| > 0 {
      var count := 0;
      assert fields[0..] == fields;
      for i := 0 to |fields|
        invariant count + CountHas(m, fields[i..]) == CountHas(m, fields)
      {
        assert fields[i..][0] == fields[i] && fields[i..][1..] == fields[i + 1..];
        if Has(m, fields[i]) { count := count + 1; }
      }
      RunOne(Violation([], [], false, "message.oneof"), cfg.failFast);
      if count > 1 {
        err := OneViolation(Violation([], [], false, "message.oneof"));
        return;
      }
      if required && count != 1 {
        err := OneViolation(Violation([], [], false, "message.oneof"));
        return;
      }
    }
    return Nil;
  }

  /* ---- Merging in a loop ---- */

  // What merging a further result into what was accumulated does.
  twostate predicate Merges(acc: Err, ok: bool, new err: Err, x: seq<Atom>, failFast: bool)
    reads if acc.Validation? then {acc.e} else {}, if acc.Validation? then acc.e.violations else [],
          if err.Validation? then {err.e} else {}, if err.Validation? then err.e.violations else []
  {
    Sound(err) && Grew(acc, err) &&
    Abs(err) == Merge(old(Abs(acc)), Run(x, failFast)) &&
    ok == GoesOn(old(Abs(acc)), Run(x, failFast), failFast)
  }

  // x: what the next part yields; rest: what is left after it.
  lemma LoopStep(total: Outcome, acc: Outcome, x: seq<Atom>, rest: seq<Atom>, failFast: bool)
    requires !Stops(acc, failFast) && total == Merge(acc, Run(x + rest, failFast))
    ensures var o := Run(x, failFast);
            if GoesOn(acc, o, failFast)
            then total == Merge(Merge(acc, o), Run(rest, failFast)) && !Stops(Merge(acc, o), failFast)
            else total == Merge(acc, o)
  {
    RunAppend(x, rest, failFast);
    MergeStep(acc, Run(x, failFast), Run(rest, failFast), failFast);
  }

  lemma Nothing(o: Outcome, failFast: bool)
    ensures Merge(Success, o) == o && Merge(o, Run([], failFast)) == o && Run([], failFast) == Success
  {
  }

  /** evaluators.Evaluate */
  method RulesEvaluate<R>(env: Env<R>, cfg: Config, es: seq<Evaluator<R>>, v: Value) returns (err: Err)
    ensures err.Validation? ==> fresh(err.e) && fresh(err.e.violations)
    ensures Yields(err, RulesAtoms(env, cfg.checks, es, v), cfg.failFast)
    decreases v, es, 1
  {
    hide RulesAtoms, Run, Distinct, Vals, Merge;
    ghost var total := Run(RulesAtoms(env, cfg.checks, es, v), cfg.failFast);
    err := Nil;
    var i := 0;
    NoRules(env, cfg, es, v);
    while i < |es|
      invariant i <= |es| && New(err) && Sound(err) && !Stops(Abs(err), cfg.failFast)
      invariant total == Merge(Abs(err), Run(RulesAtoms(env, cfg.checks, es[i..], v), cfg.failFast))
    {
      NextRule(env, cfg, es, v, i);
      LoopStep(total, Abs(err), RuleAtoms(env, cfg.checks, es[i], v), RulesAtoms(env, cfg.checks, es[i + 1..], v),
        cfg.failFast);
      var ok: bool;
      ok, err := MergeRule(env, cfg, es[i], v, err);
      if !ok { return; }
      i := i + 1;
    }
    NothingLeft(env, cfg, es, v, Abs(err));
  }

  method MergeRule<R>(env: Env<R>, cfg: Config, e: Evaluator<R>, v: Value, acc: Err) returns (ok: bool, err: Err)
    requires Sound(acc)
    modifies if acc.Validation? then {acc.e} else {}
    ensures Merges(acc, ok, err, RuleAtoms(env, cfg.checks, e, v), cfg.failFast)
    decreases v, e, 2
  {
    hide Run, RuleAtoms, Distinct, Vals, Merge, GoesOn, Sound, Abs;
    var evalErr := RuleEvaluate(env, cfg, e, v);
    ok, err := MergeViolations(acc, evalErr, cfg.failFast);
  }

  lemma NoRules<R>(env: Env<R>, cfg: Config, es: seq<Evaluator<R>>, v: Value)
    ensures Run(RulesAtoms(env, cfg.checks, es, v), cfg.failFast) ==
            Merge(Success, Run(RulesAtoms(env, cfg.checks, es[0..], v), cfg.failFast))
  {
    assert es[0..] == es;
  }

  lemma NothingLeft<R>(env: Env<R>, cfg: Config, es: seq<Evaluator<R>>, v: Value, acc: Outcome)
    ensures Merge(acc, Run(RulesAtoms(env, cfg.checks, es[|es|..], v), cfg.failFast)) == acc
  {
  }

  lemma NextRule<R>(env: Env<R>, cfg: Config, es: seq<Evaluator<R>>, v: Value, i: nat)
    requires i < |es|
    ensures RulesAtoms(env, cfg.checks, es[i..], v) == RuleAtoms(env, cfg.checks, es[i], v) +
            RulesAtoms(env, cfg.checks, es[i + 1..], v)
  {
    assert es[i..][0] == es[i] && es[i..][1..] == es[i + 1..];
  }

  method RuleEvaluate<R>(env: Env<R>, cfg: Config, e: Evaluator<R>, v: Value) returns (err: Err)
    ensures err.Validation? ==> fresh(err.e) && fresh(err.e.violations)
    ensures Yields(err, RuleAtoms(env, cfg.checks, e, v), cfg.failFast)
    decreases v, e, 1
  {
    match e
    case CelPrograms(base, programs) => err := CelEvaluate(cfg, base, programs, v);
    case AnyPb(base, typeUrl, allowed, blocked) => err := AnyEvaluate(cfg, base, UrlOf(v, typeUrl), allowed, blocked);
    case DefinedEnum(base, numbers) => err := EnumEvaluate(cfg, base, numbers, v);
    case EmbeddedMessage(base, r) =>
      if v.Embed? { err := EmbeddedEvaluate(env, cfg, e, v); } else { err := Nil; }
    case ListItems(base, itemRules) => err := ListEvaluate(env, cfg, base, itemRules, v);
    case KvPairs(base, keyRules, valueRules) => err := MapEvaluate(env, cfg, base, keyRules, valueRules, v);
    case Evaluators(rules) => err := RulesEvaluate(env, cfg, rules, v);
  }

  /** embeddedMessage.Evaluate */
  method EmbeddedEvaluate<R>(env: Env<R>, cfg: Config, e: Evaluator<R>, v: Value) returns (err: Err)
    requires e.EmbeddedMessage? && v.Embed?
    ensures err.Validation? ==> fresh(err.e) && fresh(err.e.violations)
    ensures Yields(err, RuleAtoms(env, cfg.checks, e, v), cfg.failFast)
    decreases v, e, 0
  {
    RunChange(Place(ElementOf(e.base), []), MessageAtoms(env, cfg.checks, env(e.message), v.m), cfg.failFast);
    err := MessageEvaluate(env, cfg, env(e.message), v.m);
    UpdateViolationPaths(err, e.base.element, []);
  }

  /** listItems.Evaluate */
  method ListEvaluate<R>(env: Env<R>, cfg: Config, base: Base, e: ValueEval<R>, v: Value) returns (err: Err)
    ensures err.Validation? ==> fresh(err.e) && fresh(err.e.violations)
    ensures Yields(err, ItemsAtoms(env, cfg.checks, base, e, v, 0), cfg.failFast)
    decreases v, e, 2
  {
    hide Run, Distinct, Vals, Merge;
    Nothing(Run(ItemsAtoms(env, cfg.checks, base, e, v, 0), cfg.failFast), cfg.failFast);
    ghost var total := Run(ItemsAtoms(env, cfg.checks, base, e, v, 0), cfg.failFast);
    err := Nil;
    for i := 0 to |Items(v)|
      invariant New(err) && Sound(err) && !Stops(Abs(err), cfg.failFast)
      invariant total == Merge(Abs(err), Run(ItemsAtoms(env, cfg.checks, base, e, v, i), cfg.failFast))
    {
      LoopStep(total, Abs(err), ItemAtoms(env, cfg.checks, base, e, v, i),
        ItemsAtoms(env, cfg.checks, base, e, v, i + 1), cfg.failFast);
      var ok: bool;
      ok, err := MergeItem(env, cfg, base, e, v, i, err);
      if !ok { return; }
    }
    Nothing(Abs(err), cfg.failFast);
  }

  method ItemEvaluate<R>(env: Env<R>, cfg: Config, base: Base, e: ValueEval<R>, v: Value, i: nat)
    returns (itemErr: Err)
    requires i < |Items(v)|
    ensures itemErr.Validation? ==> fresh(itemErr.e) && fresh(itemErr.e.violations)
    ensures Yields(itemErr, ItemAtoms(env, cfg.checks, base, e, v, i), cfg.failFast)
    decreases v, e, 0
  {
    RunChange(Place([Subscripted(base, Index(i))], base.rulePrefix), ValueAtoms(env, cfg.checks, e, v.items[i], true),
      cfg.failFast);
    itemErr := ValueEvaluate(env, cfg, e, v.items[i], true);
    if itemErr != Nil {
      UpdateViolationPaths(itemErr, Some(Subscripted(base, Index(i))), base.rulePrefix);
    }
  }

  method MergeItem<R>(env: Env<R>, cfg: Config, base: Base, e: ValueEval<R>, v: Value, i: nat, acc: Err)
    returns (ok: bool, err: Err)
    requires Sound(acc) && i < |Items(v)|
    modifies if acc.Validation? then {acc.e} else {}
    ensures Merges(acc, ok, err, ItemAtoms(env, cfg.checks, base, e, v, i), cfg.failFast)
    decreases v, e, 1
  {
    hide Run, Distinct, Vals, Merge, GoesOn, Sound, Abs;
    var evalErr := ItemEvaluate(env, cfg, base, e, v, i);
    ok, err := MergeViolations(acc, evalErr, cfg.failFast);
  }

  /** kvPairs.Evaluate */
  method MapEvaluate<R>(env: Env<R>, cfg: Config, base: Base, keys: ValueEval<R>, values: ValueEval<R>, v: Value)
    returns (err: Err)
    ensures err.Validation? ==> fresh(err.e) && fresh(err.e.violations)
    ensures Yields(err, EntriesAtoms(env, cfg.checks, base, keys, values, v, 0), cfg.failFast)
    decreases v, keys, 3
  {
    hide Run, Distinct, Vals, Merge;
    Nothing(Run(EntriesAtoms(env, cfg.checks, base, keys, values, v, 0), cfg.failFast), cfg.failFast);
    ghost var total := Run(EntriesAtoms(env, cfg.checks, base, keys, values, v, 0), cfg.failFast);
    err := Nil;
    for i := 0 to |Entries(v)|
      invariant New(err) && Sound(err) && !Stops(Abs(err), cfg.failFast)
      invariant total == Merge(Abs(err), Run(EntriesAtoms(env, cfg.checks, base, keys, values, v, i), cfg.failFast))
    {
      LoopStep(total, Abs(err), EntryAtoms(env, cfg.checks, base, keys, values, v, i),
               EntriesAtoms(env, cfg.checks, base, keys, values, v, i + 1), cfg.failFast);
      var ok: bool;
      ok, err := MergeEntry(env, cfg, base, keys, values, v, i, err);
      if !ok { return; }
    }
    Nothing(Abs(err), cfg.failFast);
  }

  method EntryEvaluate<R>(
      env: Env<R>, cfg: Config, base: Base, keys: ValueEval<R>, values: ValueEval<R>, v: Value, i: nat)
    returns (evalErr: Err)
    requires i < |Entries(v)|
    ensures evalErr.Validation? ==> fresh(evalErr.e) && fresh(evalErr.e.violations)
    ensures Yields(evalErr, EntryAtoms(env, cfg.checks, base, keys, values, v, i), cfg.failFast)
    decreases v, keys, 0
  {
    var entry := v.entries[i];
    RunChange(Place([Subscripted(base, KeySubscript(entry.key))], base.rulePrefix),
      PairAtoms(env, cfg.checks, keys, values, entry), cfg.failFast);
    evalErr := PairEvaluate(env, cfg, keys, values, entry);
    if evalErr != Nil {
      UpdateViolationPaths(evalErr, Some(Subscripted(base, KeySubscript(entry.key))), base.rulePrefix);
    }
  }

  method MergeEntry<R>(
      env: Env<R>, cfg: Config, base: Base, keys: ValueEval<R>, values: ValueEval<R>, v: Value, i: nat, acc: Err)
    returns (ok: bool, err: Err)
    requires Sound(acc) && i < |Entries(v)|
    modifies if acc.Validation? then {acc.e} else {}
    ensures Merges(acc, ok, err, EntryAtoms(env, cfg.checks, base, keys, values, v, i), cfg.failFast)
    decreases v, keys, 1
  {
    hide Run, Distinct, Vals, Merge, GoesOn, Sound, Abs;
    var evalErr := EntryEvaluate(env, cfg, base, keys, values, v, i);
    ok, err := MergeViolations(acc, evalErr, cfg.failFast);
  }

  /** kvPairs.evalPairs */
  method PairEvaluate<R>(env: Env<R>, cfg: Config, keys: ValueEval<R>, values: ValueEval<R>, entry: Entry)
    returns (err: Err)
    ensures err.Validation? ==> fresh(err.e) && fresh(err.e.violations)
    ensures Yields(err, PairAtoms(env, cfg.checks, keys, values, entry), cfg.failFast)
    decreases entry, keys, 2
  {
    hide Run, Distinct, Vals, Merge;
    ghost var a, b := ChangeAtoms(MarkKey, ValueAtoms(env, cfg.checks, keys, entry.key, true)),
      ValueAtoms(env, cfg.checks, values, entry.value, true);
    Nothing(Run(a + b, cfg.failFast), cfg.failFast);
    LoopStep(Run(a + b, cfg.failFast), Success, a, b, cfg.failFast);
    var ok: bool;
    ok, err := MergeKey(env, cfg, keys, entry.key, Nil);
    if !ok { return; }
    ok, err := MergeValue(env, cfg, values, entry.value, err);
  }

  method KeyEvaluate<R>(env: Env<R>, cfg: Config, keys: ValueEval<R>, key: Value) returns (evalErr: Err)
    ensures evalErr.Validation? ==> fresh(evalErr.e) && fresh(evalErr.e.violations)
    ensures Yields(evalErr, ChangeAtoms(MarkKey, ValueAtoms(env, cfg.checks, keys, key, true)), cfg.failFast)
    decreases key, keys, 2
  {
    RunChange(MarkKey, ValueAtoms(env, cfg.checks, keys, key, true), cfg.failFast);
    evalErr := ValueEvaluate(env, cfg, keys, key, true);
    MarkViolationForKey(evalErr);
  }

  method MergeKey<R>(env: Env<R>, cfg: Config, keys: ValueEval<R>, key: Value, acc: Err)
    returns (ok: bool, err: Err)
    requires Sound(acc)
    modifies if acc.Validation? then {acc.e} else {}
    ensures Merges(acc, ok, err, ChangeAtoms(MarkKey, ValueAtoms(env, cfg.checks, keys, key, true)), cfg.failFast)
    decreases key, keys, 3
  {
    hide Run, Distinct, Vals, Merge, GoesOn, Sound, Abs;
    var evalErr := KeyEvaluate(env, cfg, keys, key);
    ok, err := MergeViolations(acc, evalErr, cfg.failFast);
  }

  method MergeValue<R>(env: Env<R>, cfg: Config, e: ValueEval<R>, v: Value, acc: Err) returns (ok: bool, err: Err)
    requires Sound(acc)
    modifies if acc.Validation? then {acc.e} else {}
    ensures Merges(acc, ok, err, ValueAtoms(env, cfg.checks, e, v, true), cfg.failFast)
    decreases v, e, 3
  {
    hide Run, Distinct, Vals, Merge, GoesOn, Sound, Abs;
    var evalErr := ValueEvaluate(env, cfg, e, v, true);
    ok, err := MergeViolations(acc, evalErr, cfg.failFast);
  }

  /** value.EvaluateField */
  method ValueEvaluate<R>(env: Env<R>, cfg: Config, e: ValueEval<R>, v: Value, shouldValidate: bool)
    returns (err: Err)
    ensures err.Validation? ==> fresh(err.e) && fresh(err.e.violations)
    ensures Yields(err, ValueAtoms(env, cfg.checks, e, v, shouldValidate), cfg.failFast)
    decreases v, e, 1
  {
    hide Run, Distinct, Vals, RulesAtoms, Merge;
    err := Nil;
    ghost var total := Run(ValueAtoms(env, cfg.checks, e, v, shouldValidate), cfg.failFast);
    ghost var a, b := RulesAtoms(env, cfg.checks, e.rules, v), RulesAtoms(env, cfg.checks, e.nestedRules, v);
    Nothing(total, cfg.failFast);
    Nothing(Success, cfg.failFast);
    if total == Run(a + b, cfg.failFast) { LoopStep(total, Success, a, b, cfg.failFast); }
    var ok: bool;
    if shouldValidate {
      if e.ignoreEmpty && v == e.zero { return; }
      ok, err := MergeRules(env, cfg, e.rules, v, err);
      if !ok { return; }
    }
    ok, err := MergeRules(env, cfg, e.nestedRules, v, err);
  }

  method MergeRules<R>(env: Env<R>, cfg: Config, es: seq<Evaluator<R>>, v: Value, acc: Err)
    returns (ok: bool, err: Err)
    requires Sound(acc)
    modifies if acc.Validation? then {acc.e} else {}
    ensures Merges(acc, ok, err, RulesAtoms(env, cfg.checks, es, v), cfg.failFast)
    decreases v, es, 2
  {
    hide Run, Distinct, Vals, Merge, GoesOn, Sound, Abs;
    var evalErr := RulesEvaluate(env, cfg, es, v);
    ok, err := MergeViolations(acc, evalErr, cfg.failFast);
  }

  /* ---- field.go, message.go ---- */

  /** field.EvaluateMessage */
  method FieldEvaluate<R>(env: Env<R>, cfg: Config, f: FieldEval<R>, m: Message) returns (err: Err)
    ensures err.Validation? ==> fresh(err.e) && fresh(err.e.violations)
    ensures Yields(err, FieldAtoms(env, cfg.checks, f, m), cfg.failFast)
    decreases m, f, 1
  {
    if f.ignore.Always? { return Nil; }
    if !cfg.checks.filter(m, FieldDescriptor(f.field)) { return Nil; }
    if f.err.Some? { return Other(f.err.value); }
    if f.required && !Has(m, f.field) {
      var w := Violation([Plain(f.name)], [Plain("required")], false, "required");
      RunOne(w, cfg.failFast);
      err := OneViolation(w);
      return;
    }
    if (f.hasPresence || f.ignore.IfZeroValue?) && !Has(m, f.field) { return Nil; }
    if f.field < |m.slots| {
      err := ValueEvaluate(env, cfg, f.value, m.slots[f.field].value, true);
    } else {
      err := Nil;
    }
  }

  method PartEvaluate<R>(env: Env<R>, cfg: Config, e: MessageEvaluator<R>, m: Message) returns (err: Err)
    ensures err.Validation? ==> fresh(err.e) && fresh(err.e.violations)
    ensures Yields(err, PartAtoms(env, cfg.checks, e, m), cfg.failFast)
    decreases m, e, 1
  {
    match e
    case CelMessage(programs) => err := EvalPrograms(cfg, programs, Embed(m));
    case MessageOneof(fields, required) => err := MessageOneofEvaluate(cfg, m, fields, required);
    case Oneof(oneof, members, required) => err := OneofEvaluate(cfg, m, oneof, members, required);
    case FieldRules(f) => err := FieldEvaluate(env, cfg, f, m);
  }

  /** messageEvaluators.EvaluateMessage */
  method PartsEvaluate<R>(env: Env<R>, cfg: Config, es: seq<MessageEvaluator<R>>, m: Message) returns (err: Err)
    ensures err.Validation? ==> fresh(err.e) && fresh(err.e.violations)
    ensures Yields(err, PartsAtoms(env, cfg.checks, es, m), cfg.failFast)
    decreases m, es, 1
  {
    hide PartsAtoms, Run, Distinct, Vals, Merge;
    ghost var total := Run(PartsAtoms(env, cfg.checks, es, m), cfg.failFast);
    err := Nil;
    var i := 0;
    NoParts(env, cfg, es, m);
    while i < |es|
      invariant i <= |es| && New(err) && Sound(err) && !Stops(Abs(err), cfg.failFast)
      invariant total == Merge(Abs(err), Run(PartsAtoms(env, cfg.checks, es[i..], m), cfg.failFast))
    {
      NextPart(env, cfg, es, m, i);
      LoopStep(total, Abs(err), PartAtoms(env, cfg.checks, es[i], m), PartsAtoms(env, cfg.checks, es[i + 1..], m),
        cfg.failFast);
      var ok: bool;
      ok, err := MergePart(env, cfg, es[i], m, err);
      if !ok { return; }
      i := i + 1;
    }
    NoPartLeft(env, cfg, es, m, Abs(err));
  }

  method MergePart<R>(env: Env<R>, cfg: Config, e: MessageEvaluator<R>, m: Message, acc: Err)
    returns (ok: bool, err: Err)
    requires Sound(acc)
    modifies if acc.Validation? then {acc.e} else {}
    ensures Merges(acc, ok, err, PartAtoms(env, cfg.checks, e, m), cfg.failFast)
    decreases m, e, 2
  {
    hide Run, Distinct, Vals, Merge, GoesOn, Sound, Abs;
    var evalErr := PartEvaluate(env, cfg, e, m);
    ok, err := MergeViolations(acc, evalErr, cfg.failFast);
  }

  lemma NoParts<R>(env: Env<R>, cfg: Config, es: seq<MessageEvaluator<R>>, m: Message)
    ensures Run(PartsAtoms(env, cfg.checks, es, m), cfg.failFast) ==
            Merge(Success, Run(PartsAtoms(env, cfg.checks, es[0..], m), cfg.failFast))
  {
    assert es[0..] == es;
  }

  lemma NoPartLeft<R>(env: Env<R>, cfg: Config, es: seq<MessageEvaluator<R>>, m: Message, acc: Outcome)
    ensures Merge(acc, Run(PartsAtoms(env, cfg.checks, es[|es|..], m), cfg.failFast)) == acc
  {
  }

  lemma NextPart<R>(env: Env<R>, cfg: Config, es: seq<MessageEvaluator<R>>, m: Message, i: nat)
    requires i < |es|
    ensures PartsAtoms(env, cfg.checks, es[i..], m) == PartAtoms(env, cfg.checks, es[i], m) +
            PartsAtoms(env, cfg.checks, es[i + 1..], m)
  {
    assert es[i..][0] == es[i] && es[i..][1..] == es[i + 1..];
  }

  /** message.EvaluateMessage */
  method MessageEvaluate<R>(env: Env<R>, cfg: Config, e: MessageEval<R>, m: Message) returns (err: Err)
    ensures err.Validation? ==> fresh(err.e) && fresh(err.e.violations)
    ensures Yields(err, MessageAtoms(env, cfg.checks, e, m), cfg.failFast)
    decreases m, e, 1
  {
    hide Run, Distinct, Vals, PartsAtoms, Merge;
    err := Nil;
    ghost var total := Run(MessageAtoms(env, cfg.checks, e, m), cfg.failFast);
    ghost var a, b := PartsAtoms(env, cfg.checks, e.evaluators, m), PartsAtoms(env, cfg.checks, e.nested, m);
    Nothing(total, cfg.failFast);
    if total == Run(a + b, cfg.failFast) { LoopStep(total, Success, a, b, cfg.failFast); }
    RunFailed(cfg.failFast);
    var ok: bool;
    if cfg.checks.filter(m, MessageDescriptor(m.typeName)) {
      if e.err.Some? { return Other(e.err.value); }
      ok, err := MergeParts(env, cfg, e.evaluators, m, err);
      if !ok { return; }
    }
    ok, err := MergeParts(env, cfg, e.nested, m, err);
  }

  method MergeParts<R>(env: Env<R>, cfg: Config, es: seq<MessageEvaluator<R>>, m: Message, acc: Err)
    returns (ok: bool, err: Err)
    requires Sound(acc)
    modifies if acc.Validation? then {acc.e} else {}
    ensures Merges(acc, ok, err, PartsAtoms(env, cfg.checks, es, m), cfg.failFast)
    decreases m, es, 2
  {
    hide Run, Distinct, Vals, Merge, GoesOn, Sound, Abs;
    var evalErr := PartsEvaluate(env, cfg, es, m);
    ok, err := MergeViolations(acc, evalErr, cfg.failFast);
  }

  lemma RunFailed(failFast: bool)
    ensures forall cause :: Run([Failed(cause)], failFast) == Fatal(cause)
  {
  }

  /* ---- validator.go ---- */

  /** validator.Validate on the evaluator that the builder has loaded for the message's type, if it has one:
      the result is what the flat list amounts to, with every path turned round. */
  method Validate<R>(env: Env<R>, cfg: Config, loaded: Option<R>, m: Message) returns (err: Err)
    ensures err.Validation? ==> fresh(err.e) && fresh(err.e.violations)
    ensures Sound(err)
    ensures Abs(err) == ChangeOutcome(Reversed, Run(LoadedAtoms(env, cfg.checks, loaded, m), cfg.failFast))
  {
    match loaded {
      case None =>
        RunFailed(cfg.failFast);
        err := Other("no evaluator available for " + m.typeName);
      case Some(r) => err := MessageEvaluate(env, cfg, env(r), m);
    }
    FinalizeViolationPaths(err);
  }
}
