/** The evaluators that the builder makes find nothing in a message exactly when the message conforms to its type. */
module ConformanceTheorems {
  import opened Options
  import opened Outcomes
  import opened EvalTree
  import opened EvalLeaves
  import opened EvalPaths
  import opened EvalElide
  import opened BuilderSpec
  import opened BuilderTheorems
  import opened Conformance

  /* ---- Lists of outcomes without a violation or error ---- */

  ghost predicate Clean(atoms: seq<Atom>) {
    forall k :: 0 <= k < |atoms| ==> atoms[k].Pass?
  }

  lemma CleanAppend(a: seq<Atom>, b: seq<Atom>)
    ensures Clean(a + b) <==> Clean(a) && Clean(b)
  {
    assert forall k :: 0 <= k < |a| ==> (a + b)[k] == a[k];
    assert forall k :: 0 <= k < |b| ==> (a + b)[|a| + k] == b[k];
  }

  lemma {:induction false} CleanChange(c: Change, atoms: seq<Atom>)
    ensures Clean(ChangeAtoms(c, atoms)) <==> Clean(atoms)
    decreases |atoms|
  {
    if atoms != [] {
      CleanChange(c, atoms[1..]);
      CleanAppend([ChangeAtom(c, atoms[0])], ChangeAtoms(c, atoms[1..]));
      CleanAppend([atoms[0]], atoms[1..]);
      assert atoms == [atoms[0]] + atoms[1..];
      CleanOne(atoms[0]);
      CleanOne(ChangeAtom(c, atoms[0]));
    }
  }

  lemma CleanOne(a: Atom)
    ensures Clean([a]) <==> a.Pass?
  {
    assert [a][0] == a;
  }

  lemma CleanPrograms(checks: Checks, ps: seq<Program>, v: Value)
    ensures Clean(ProgramAtoms(checks, ps, v)) <==> AllPass(checks, ps, v)
  {
    ProgramsFind(checks, ps, v);
    forall k | 0 <= k < |ps|
      ensures ProgramAtoms(checks, ps, v)[k].Pass? <==> checks.cel(ps[k], v).CelPass?
    {
      assert ProgramFinds(checks, ps[k], v, ProgramAtoms(checks, ps, v)[k]);
    }
  }

  // What a value's own and nested rules find.
  ghost predicate CleanRules<R(!new)>(env: Env<R>, checks: Checks, e: ValueEval<R>, v: Value) {
    Clean(RulesAtoms(env, checks, e.rules, v)) && Clean(RulesAtoms(env, checks, e.nestedRules, v))
  }

  lemma CleanRulesSnoc<R(!new)>(env: Env<R>, checks: Checks, es: seq<Evaluator<R>>, e: Evaluator<R>, v: Value)
    ensures Clean(RulesAtoms(env, checks, es + [e], v)) <==>
            Clean(RulesAtoms(env, checks, es, v)) && Clean(RuleAtoms(env, checks, e, v))
  {
    RulesSnoc(env, checks, es, e, v);
    CleanAppend(RulesAtoms(env, checks, es, v), RuleAtoms(env, checks, e, v));
  }

  /* ---- Compiling ---- */

  lemma {:induction false} NamesAreGood(t: MessageType, names: seq<string>, i: nat)
    requires i <= |names|
    ensures NamesErr(t, names, i).None? <==>
            && (forall j, k :: 0 <= j < k < |names| && i <= k ==> names[j] != names[k])
            && (forall k :: i <= k < |names| ==> IsFieldName(t, names[k]))
    decreases |names| - i
  {
    if i < |names| {
      NamesAreGood(t, names, i + 1);
      if names[i] in names[..i] {
        var j :| 0 <= j < i && names[..i][j] == names[i];
        assert names[j] == names[i];
      }
      forall j | 0 <= j < i && names[j] == names[i]
        ensures names[i] in names[..i]
      {
        assert names[..i][j] == names[i];
      }
      assert FieldIndex(t.fields, names[i]).None? <==> !IsFieldName(t, names[i]);
    }
  }

  lemma OneofRuleIsGood(t: MessageType, r: OneofRule)
    ensures OneofRuleErr(t, r).None? <==> GoodOneofRule(t, r)
  {
    NamesAreGood(t, r.fields, 0);
  }

  lemma {:induction false} AllRulesGood(t: MessageType, i: nat)
    requires i <= |t.oneofRules|
    ensures GoodRules(t, i) == |t.oneofRules| <==>
            forall k :: i <= k < |t.oneofRules| ==> GoodOneofRule(t, t.oneofRules[k])
    ensures GoodRules(t, i) < |t.oneofRules| ==> OneofRuleErr(t, t.oneofRules[GoodRules(t, i)]).Some?
    decreases |t.oneofRules| - i
  {
    if i < |t.oneofRules| {
      OneofRuleIsGood(t, t.oneofRules[i]);
      AllRulesGood(t, i + 1);
    }
  }

  /** The error of a message type is there iff its own rules do not compile. */
  lemma MessageErrIff(s: Setup, name: string)
    ensures MessageErr(s, name).None? <==> TypeCompiles(s, name)
    ensures name in s.schema && TypeCompiles(s, name) ==>
            GoodRules(s.schema[name], 0) == |s.schema[name].oneofRules|
  {
    if name in s.schema { AllRulesGood(s.schema[name], 0); }
  }

  // What step i of building a value needs.
  ghost predicate StepCompiles(s: Setup, fd: Field, rules: Option<Rules>, nested: bool, i: nat) {
    match i
    case 1 =>
      s.compilers.celExpressions(fd, rules, nested).Compiled? && s.compilers.celRules(fd, rules, nested).Compiled?
    case 2 => (forall u :: SingleKind(fd, nested) == Some(MessageOf(u)) ==> TypeCompiles(s, u))
    case 3 =>
      (match SingleKind(fd, nested)
       case Some(MessageOf(u)) =>
         HasWrapperRules(s, rules, u) ==>
           rules.value.typeRules == s.compilers.wrapper(u) && RulesCompile(s, SCALAR_VALUE, rules, nested)
       case _ => true)
    case 4 => OfWrappers(s, fd) || s.compilers.standard(fd, rules, nested).Compiled?
    case 7 =>
      fd.shape.MapOf? ==>
        && RulesCompile(s, MapKeyField(fd), KeysOf(rules), true)
        && RulesCompile(s, MapValueField(fd), ValuesOf(rules), true)
    case 8 => fd.shape.ListOf? && !nested ==> RulesCompile(s, fd, ItemsOf(rules), true)
    case _ => true
  }

  lemma AllStepsCompile(s: Setup, fd: Field, rules: Option<Rules>, nested: bool)
    requires !AlwaysIgnored(rules)
    ensures RulesCompile(s, fd, rules, nested) <==>
            forall i :: 0 <= i < STEPS ==> StepCompiles(s, fd, rules, nested, i)
  {
    if forall i :: 0 <= i < STEPS ==> StepCompiles(s, fd, rules, nested, i) {
      assert StepCompiles(s, fd, rules, nested, 1) && StepCompiles(s, fd, rules, nested, 2);
      assert StepCompiles(s, fd, rules, nested, 3) && StepCompiles(s, fd, rules, nested, 4);
      assert StepCompiles(s, fd, rules, nested, 7) && StepCompiles(s, fd, rules, nested, 8);
    }
  }

  lemma SameKinds(fd: Field, base: Base)
    ensures EmbeddedType(fd, base) ==
            match SingleKind(fd, Nested(base)) { case Some(MessageOf(u)) => Some(u) case _ => None }
    ensures Levels(fd, Nested(base)) == Depth(fd, base)
  {
  }

  lemma {:induction false} ValueErrIff<R>(s: Setup, link: string -> R, fd: Field, rules: Option<Rules>, base: Base)
    ensures ValueSpec(s, link, fd, rules, base).err.None? <==> RulesCompile(s, fd, rules, Nested(base))
    decreases Depth(fd, base), STEPS + 1
  {
    if IgnoreOf(rules) != Always {
      StepsErrIff(s, link, fd, rules, base, STEPS);
      AllStepsCompile(s, fd, rules, Nested(base));
    }
  }

  lemma {:induction false} StepsErrIff<R>(
      s: Setup, link: string -> R, fd: Field, rules: Option<Rules>, base: Base, n: nat)
    requires n <= STEPS
    ensures StepsSpec(s, link, fd, rules, base, n).err.None? <==>
            forall i :: 0 <= i < n ==> StepCompiles(s, fd, rules, Nested(base), i)
    decreases Depth(fd, base), n
  {
    hide StepCompiles, StepSpec;
    if n > 0 {
      StepsErrIff(s, link, fd, rules, base, n - 1);
      StepErrIff(s, link, fd, rules, base, n - 1, StepsSpec(s, link, fd, rules, base, n - 1).value);
    }
  }

  lemma {:induction false} StepErrIff<R>(
      s: Setup, link: string -> R, fd: Field, rules: Option<Rules>, base: Base, i: nat, v: ValueEval<R>)
    requires i < STEPS
    ensures StepSpec(s, link, fd, rules, base, i, v).err.None? <==> StepCompiles(s, fd, rules, Nested(base), i)
    decreases Depth(fd, base), 0
  {
    SameKinds(fd, base);
    hide Add, WithPaths, RulesCompile, TypeCompiles, MessageErr, ValueSpec;
    match i
    case 2 => if EmbeddedType(fd, base).Some? { MessageErrIff(s, EmbeddedType(fd, base).value); }
    case 3 => if EmbeddedType(fd, base).Some? { ValueErrIff(s, link, WrappedField(), rules, base); }
    case 7 =>
      if fd.shape.MapOf? {
        ValueErrIff(s, link, KeyField(fd), KeyRules(rules), KEY_BASE);
        ValueErrIff(s, link, ValueField(fd), ValueRules(rules), VALUE_BASE);
      }
    case 8 => if fd.shape.ListOf? && !Nested(base) { ValueErrIff(s, link, fd, ItemRules(rules), ITEM_BASE); }
    case _ =>
  }

  // The names of a message's fields are different, as protobuf demands.
  ghost predicate UniqueNames(s: Setup) {
    forall name, i, j :: name in s.schema && 0 <= i < j < |s.schema[name].fields| ==>
      s.schema[name].fields[i].name != s.schema[name].fields[j].name
  }

  /* ---- Values ---- */

  // What the evaluators that step i adds say of the value.
  ghost predicate StepKept(
      s: Setup, checks: Checks, fd: Field, rules: Option<Rules>, nested: bool, i: nat, v: Value)
  {
    match i
    case 1 => ExpressionsPass(s, checks, fd, rules, nested, v)
    case 2 =>
      (match SingleKind(fd, nested)
       case Some(MessageOf(u)) => v.Embed? ==> Conforms(s, checks, u, v.m)
       case _ => true)
    case 3 =>
      (match SingleKind(fd, nested)
       case Some(MessageOf(u)) => HasWrapperRules(s, rules, u) ==> RulesKept(s, checks, SCALAR_VALUE, rules, nested, v)
       case _ => true)
    case 4 => !OfWrappers(s, fd) ==> CompiledPass(checks, s.compilers.standard(fd, rules, nested), v)
    case 5 => SingleKind(fd, nested) == Some(MessageOf("google.protobuf.Any")) ==> AnyKept(rules, v)
    case 6 => EnumKept(fd, rules, v)
    case 7 => fd.shape.MapOf? ==> EntriesKept(s, checks, fd, rules, v)
    case 8 => fd.shape.ListOf? && !nested ==> ItemsKept(s, checks, fd, ItemsOf(rules), v)
    case _ => true
  }

  lemma AllStepsKept(s: Setup, checks: Checks, fd: Field, rules: Option<Rules>, nested: bool, v: Value)
    ensures RulesKept(s, checks, fd, rules, nested, v) <==>
            forall i :: 0 <= i < STEPS ==> StepKept(s, checks, fd, rules, nested, i, v)
  {
    hide ExpressionsPass, CompiledPass, AnyKept, EnumKept, ItemsKept, EntriesKept, Conforms;
    if forall i :: 0 <= i < STEPS ==> StepKept(s, checks, fd, rules, nested, i, v) {
      assert StepKept(s, checks, fd, rules, nested, 1, v) && StepKept(s, checks, fd, rules, nested, 2, v);
      assert StepKept(s, checks, fd, rules, nested, 3, v) && StepKept(s, checks, fd, rules, nested, 4, v);
      assert StepKept(s, checks, fd, rules, nested, 5, v) && StepKept(s, checks, fd, rules, nested, 6, v);
      assert StepKept(s, checks, fd, rules, nested, 7, v) && StepKept(s, checks, fd, rules, nested, 8, v);
    }
  }

  lemma SameNumbered(name: string, ps: seq<Program>)
    ensures WithPaths(name, ps) == Numbered(name, ps)
  {
  }

  // The exemption of a zero, which the first step fixes and no other step changes.
  ghost predicate ZeroAs<R>(s: Setup, fd: Field, rules: Option<Rules>, nested: bool, w: ValueEval<R>) {
    && w.ignoreEmpty == (nested && IgnoredIfZero(rules))
    && (w.ignoreEmpty ==> w.zero == s.compilers.zero(fd, true))
  }

  lemma StepZero<R>(
      s: Setup, link: string -> R, fd: Field, rules: Option<Rules>, base: Base, i: nat, w: ValueEval<R>)
    requires i < STEPS && (i > 0 ==> ZeroAs(s, fd, rules, Nested(base), w))
    ensures ZeroAs(s, fd, rules, Nested(base), StepSpec(s, link, fd, rules, base, i, w).value)
  {
    hide Add, WithPaths, ValueSpec;
  }

  lemma {:induction false} StepsZero<R>(
      s: Setup, link: string -> R, fd: Field, rules: Option<Rules>, base: Base, n: nat)
    requires 0 < n <= STEPS
    ensures ZeroAs(s, fd, rules, Nested(base), StepsSpec(s, link, fd, rules, base, n).value)
  {
    if n > 1 { StepsZero(s, link, fd, rules, base, n - 1); }
    hide StepSpec, ZeroAs;
    StepZero(s, link, fd, rules, base, n - 1, StepsSpec(s, link, fd, rules, base, n - 1).value);
  }

  lemma {:induction false} ValueMeans(
      s: Setup, checks: Checks, fd: Field, rules: Option<Rules>, base: Base, v: Value)
    requires s.keepAll && UniqueNames(s) && ValueSpec(s, Name, fd, rules, base).err.None?
    ensures Clean(ValueAtoms(Stands(s), checks, ValueSpec(s, Name, fd, rules, base).value, v, true)) <==>
            ValueConforms(s, checks, fd, rules, Nested(base), v)
    decreases v, Depth(fd, base), STEPS + 2
  {
    if IgnoreOf(rules) != Always {
      var w := ValueSpec(s, Name, fd, rules, base).value;
      StepsMean(s, checks, fd, rules, base, STEPS, v);
      AllStepsKept(s, checks, fd, rules, Nested(base), v);
      StepsZero(s, Name, fd, rules, base, STEPS);
      CleanAppend(RulesAtoms(Stands(s), checks, w.rules, v), RulesAtoms(Stands(s), checks, w.nestedRules, v));
    }
  }

  lemma {:induction false} StepsMean(
      s: Setup, checks: Checks, fd: Field, rules: Option<Rules>, base: Base, n: nat, v: Value)
    requires s.keepAll && UniqueNames(s) && !AlwaysIgnored(rules)
    requires n <= STEPS && StepsSpec(s, Name, fd, rules, base, n).err.None?
    ensures CleanRules(Stands(s), checks, StepsSpec(s, Name, fd, rules, base, n).value, v) <==>
            forall i :: 0 <= i < n ==> StepKept(s, checks, fd, rules, Nested(base), i, v)
    decreases v, Depth(fd, base), n
  {
    if n > 0 {
      hide CleanRules, StepKept, StepSpec;
      StepsMean(s, checks, fd, rules, base, n - 1, v);
      StepMeans(s, checks, fd, rules, base, n - 1, StepsSpec(s, Name, fd, rules, base, n - 1).value, v);
    }
  }

  lemma {:induction false} StepMeans(
      s: Setup, checks: Checks, fd: Field, rules: Option<Rules>, base: Base, i: nat, w: ValueEval<string>, v: Value)
    requires s.keepAll && UniqueNames(s) && !AlwaysIgnored(rules) && i < STEPS
    requires StepSpec(s, Name, fd, rules, base, i, w).err.None?
    ensures CleanRules(Stands(s), checks, StepSpec(s, Name, fd, rules, base, i, w).value, v) <==>
            CleanRules(Stands(s), checks, w, v) && StepKept(s, checks, fd, rules, Nested(base), i, v)
    decreases v, Depth(fd, base), 0, 1
  {
    hide ExpressionsSpec, EmbeddedSpec, WrapperSpec, StandardSpec, AnySpec, EnumSpec, MapSpec, RepeatedSpec;
    hide RulesKept, EntriesKept, ItemsKept, ExpressionsPass, CompiledPass, AnyKept, EnumKept, Conforms;
    SameKinds(fd, base);
    match i
    case 0 =>
    case 1 => ExpressionsMean(s, checks, fd, rules, base, w, v);
    case 2 => EmbeddedMeans(s, checks, fd, rules, base, w, v);
    case 3 => WrapperMeans(s, checks, fd, rules, base, w, v);
    case 4 => StandardMeans(s, checks, fd, rules, base, w, v);
    case 5 => AnyMeans(s, checks, fd, rules, base, w, v);
    case 6 => EnumMeans(s, checks, fd, rules, base, w, v);
    case 7 => MapMeans(s, checks, fd, rules, base, w, v);
    case 8 => RepeatedMeans(s, checks, fd, rules, base, w, v);
  }

  lemma ProgramsMean(env: Env<string>, checks: Checks, base: Base, ps: seq<Program>, v: Value)
    ensures Clean(RuleAtoms(env, checks, CelPrograms(base, ps), v)) <==> AllPass(checks, ps, v)
  {
    CleanChange(Place(ElementOf(base), base.rulePrefix), ProgramAtoms(checks, ps, v));
    CleanPrograms(checks, ps, v);
  }

  lemma ExpressionsMean(
      s: Setup, checks: Checks, fd: Field, rules: Option<Rules>, base: Base, w: ValueEval<string>, v: Value)
    requires s.keepAll && ExpressionsSpec(s, fd, rules, base, w).err.None?
    ensures CleanRules(Stands(s), checks, ExpressionsSpec(s, fd, rules, base, w).value, v) <==>
            CleanRules(Stands(s), checks, w, v) && ExpressionsPass(s, checks, fd, rules, Nested(base), v)
  {
    var a, b := s.compilers.celExpressions(fd, rules, Nested(base)), s.compilers.celRules(fd, rules, Nested(base));
    var ps, qs := WithPaths("cel_expression", a.programs), WithPaths("cel", b.programs);
    SameNumbered("cel_expression", a.programs);
    SameNumbered("cel", b.programs);
    ProgramsMean(Stands(s), checks, base, ps + qs, v);
    BothPass(checks, ps, qs, v);
    CleanRulesSnoc(Stands(s), checks, w.rules, CelPrograms(base, ps + qs), v);
  }

  lemma BothPass(checks: Checks, ps: seq<Program>, qs: seq<Program>, v: Value)
    ensures AllPass(checks, ps + qs, v) <==> AllPass(checks, ps, v) && AllPass(checks, qs, v)
  {
    assert forall k :: 0 <= k < |ps| ==> (ps + qs)[k] == ps[k];
    assert forall k :: 0 <= k < |qs| ==> (ps + qs)[|ps| + k] == qs[k];
  }

  lemma {:induction false} EmbeddedMeans(
      s: Setup, checks: Checks, fd: Field, rules: Option<Rules>, base: Base, w: ValueEval<string>, v: Value)
    requires s.keepAll && UniqueNames(s) && EmbeddedSpec(s, Name, fd, base, w).err.None?
    ensures CleanRules(Stands(s), checks, EmbeddedSpec(s, Name, fd, base, w).value, v) <==>
            CleanRules(Stands(s), checks, w, v) && StepKept(s, checks, fd, rules, Nested(base), 2, v)
    decreases v, Depth(fd, base), 0, 0
  {
    hide MessageSpec, Conforms;
    SameKinds(fd, base);
    if EmbeddedType(fd, base).Some? {
      var u := EmbeddedType(fd, base).value;
      CleanRulesSnoc(Stands(s), checks, w.nestedRules, EmbeddedMessage(base, Name(u)), v);
      if v.Embed? {
        MessageMeans(s, checks, u, v.m);
        CleanChange(Place(ElementOf(base), []), MessageAtoms(Stands(s), checks, Stands(s)(u), v.m));
      }
    }
  }

  // What is built for a wrapped scalar has no nested rules.
  lemma {:induction false} ScalarNestsNothing(s: Setup, rules: Option<Rules>, base: Base, n: nat)
    requires n <= STEPS
    ensures StepsSpec(s, Name, WrappedField(), rules, base, n).value.nestedRules == []
  {
    if n > 0 {
      ScalarNestsNothing(s, rules, base, n - 1);
      ScalarStep(s, rules, base, n - 1, StepsSpec(s, Name, WrappedField(), rules, base, n - 1).value);
    }
  }

  lemma ScalarStep(s: Setup, rules: Option<Rules>, base: Base, i: nat, w: ValueEval<string>)
    requires i < STEPS
    ensures StepSpec(s, Name, WrappedField(), rules, base, i, w).value.nestedRules == w.nestedRules
  {
    hide Add, WithPaths, ValueSpec;
  }

  lemma {:induction false} WrapperMeans(
      s: Setup, checks: Checks, fd: Field, rules: Option<Rules>, base: Base, w: ValueEval<string>, v: Value)
    requires s.keepAll && UniqueNames(s) && !AlwaysIgnored(rules)
    requires WrapperSpec(s, Name, fd, rules, base, w).err.None?
    ensures CleanRules(Stands(s), checks, WrapperSpec(s, Name, fd, rules, base, w).value, v) <==>
            CleanRules(Stands(s), checks, w, v) && StepKept(s, checks, fd, rules, Nested(base), 3, v)
    decreases v, Depth(fd, base), 0, 0
  {
    hide RulesKept, StepsSpec;
    SameKinds(fd, base);
    if EmbeddedType(fd, base).Some? && HasWrapperRules(s, rules, EmbeddedType(fd, base).value) {
      var inner := StepsSpec(s, Name, WrappedField(), rules, base, STEPS);
      StepsMean(s, checks, WrappedField(), rules, base, STEPS, v);
      AllStepsKept(s, checks, WrappedField(), rules, Nested(base), v);
      ScalarNestsNothing(s, rules, base, STEPS);
      CleanRulesSnoc(Stands(s), checks, w.rules, Evaluators(inner.value.rules), v);
    }
  }

  lemma StandardMeans(
      s: Setup, checks: Checks, fd: Field, rules: Option<Rules>, base: Base, w: ValueEval<string>, v: Value)
    requires s.keepAll && StandardSpec(s, fd, rules, base, w).err.None?
    ensures CleanRules(Stands(s), checks, StandardSpec(s, fd, rules, base, w).value, v) <==>
            CleanRules(Stands(s), checks, w, v) && StepKept(s, checks, fd, rules, Nested(base), 4, v)
  {
    if !OfWrappers(s, fd) {
      var ps := s.compilers.standard(fd, rules, Nested(base)).programs;
      ProgramsMean(Stands(s), checks, base, ps, v);
      CleanRulesSnoc(Stands(s), checks, w.rules, CelPrograms(base, ps), v);
    }
  }

  lemma CleanAny(base: Base, url: string, allowed: seq<string>, blocked: seq<string>)
    ensures Clean(AnyAtoms(base, url, allowed, blocked)) <==> (allowed != [] ==> url in allowed) && url !in blocked
  {
    var a := AnyAtoms(base, url, allowed, blocked);
    if allowed != [] && url !in allowed { assert a[0].Violated?; }
    if url in blocked { assert a[|a| - 1].Violated?; }
  }

  lemma AnyRuleMeans(
      env: Env<string>, checks: Checks, base: Base, rules: Option<Rules>, allowed: seq<string>, blocked: seq<string>,
      v: Value)
    requires allowed == (if rules.Some? then rules.value.anyIn else [])
    requires blocked == (if rules.Some? then rules.value.anyNotIn else [])
    ensures Clean(RuleAtoms(env, checks, AnyPb(base, TYPE_URL, allowed, blocked), v)) <==> AnyKept(rules, v)
  {
    hide AnyAtoms, Clean;
    assert UrlOf(v, TYPE_URL) == TypeUrl(v);
    CleanAny(base, UrlOf(v, TYPE_URL), allowed, blocked);
  }

  lemma AnyMeans(
      s: Setup, checks: Checks, fd: Field, rules: Option<Rules>, base: Base, w: ValueEval<string>, v: Value)
    requires s.keepAll
    ensures CleanRules(Stands(s), checks, AnySpec(s, fd, rules, base, w).value, v) <==>
            CleanRules(Stands(s), checks, w, v) && StepKept(s, checks, fd, rules, Nested(base), 5, v)
  {
    hide Clean, AnyKept, RuleAtoms, RulesAtoms;
    SameKinds(fd, base);
    if EmbeddedType(fd, base) == Some(ANY_TYPE) {
      var allowed := if rules.Some? then rules.value.anyIn else [];
      var blocked := if rules.Some? then rules.value.anyNotIn else [];
      AnyRuleMeans(Stands(s), checks, base, rules, allowed, blocked, v);
      CleanRulesSnoc(Stands(s), checks, w.rules, AnyPb(base, TYPE_URL, allowed, blocked), v);
    }
  }

  lemma EnumMeans(
      s: Setup, checks: Checks, fd: Field, rules: Option<Rules>, base: Base, w: ValueEval<string>, v: Value)
    requires s.keepAll
    ensures CleanRules(Stands(s), checks, EnumSpec(s, fd, rules, base, w).value, v) <==>
            CleanRules(Stands(s), checks, w, v) && EnumKept(fd, rules, v)
  {
    if EnumNumbers(fd).Some? && rules.Some? && rules.value.definedOnly {
      var e: Evaluator<string> := DefinedEnum(base, EnumNumbers(fd).value);
      CleanRulesSnoc(Stands(s), checks, w.rules, e, v);
      var a := EnumAtoms(base, EnumNumbers(fd).value, v);
      if a != [] { assert a[0].Violated?; }
    }
  }

  lemma {:induction false} MapMeans(
      s: Setup, checks: Checks, fd: Field, rules: Option<Rules>, base: Base, w: ValueEval<string>, v: Value)
    requires s.keepAll && UniqueNames(s) && MapSpec(s, Name, fd, rules, base, w).err.None?
    ensures CleanRules(Stands(s), checks, MapSpec(s, Name, fd, rules, base, w).value, v) <==>
            CleanRules(Stands(s), checks, w, v) && (fd.shape.MapOf? ==> EntriesKept(s, checks, fd, rules, v))
    decreases v, Depth(fd, base), 0, 0
  {
    hide ValueSpec, ValueConforms, Clean, RulesAtoms;
    if fd.shape.MapOf? {
      var keys := ValueSpec(s, Name, KeyField(fd), KeyRules(rules), KEY_BASE);
      var values := ValueSpec(s, Name, ValueField(fd), ValueRules(rules), VALUE_BASE);
      EntriesMean(s, checks, fd, rules, base, v, 0);
      CleanRulesSnoc(Stands(s), checks, w.rules, KvPairs(base, keys.value, values.value), v);
    }
  }

  lemma {:induction false} EntriesMean(
      s: Setup, checks: Checks, fd: Field, rules: Option<Rules>, base: Base, v: Value, i: nat)
    requires s.keepAll && UniqueNames(s) && fd.shape.MapOf? && i <= |Entries(v)|
    requires ValueSpec(s, Name, KeyField(fd), KeyRules(rules), KEY_BASE).err.None?
    requires ValueSpec(s, Name, ValueField(fd), ValueRules(rules), VALUE_BASE).err.None?
    ensures Clean(EntriesAtoms(Stands(s), checks, base,
                               ValueSpec(s, Name, KeyField(fd), KeyRules(rules), KEY_BASE).value,
                               ValueSpec(s, Name, ValueField(fd), ValueRules(rules), VALUE_BASE).value, v, i)) <==>
            forall k :: i <= k < |Entries(v)| ==>
              && ValueConforms(s, checks, MapKeyField(fd), KeysOf(rules), true, v.entries[k].key)
              && ValueConforms(s, checks, MapValueField(fd), ValuesOf(rules), true, v.entries[k].value)
    decreases v, 0, |Entries(v)| - i
  {
    hide ValueSpec, ValueConforms, ValueAtoms;
    if i < |Entries(v)| {
      var keys := ValueSpec(s, Name, KeyField(fd), KeyRules(rules), KEY_BASE).value;
      var values := ValueSpec(s, Name, ValueField(fd), ValueRules(rules), VALUE_BASE).value;
      var env, e := Stands(s), v.entries[i];
      ValueMeans(s, checks, KeyField(fd), KeyRules(rules), KEY_BASE, e.key);
      ValueMeans(s, checks, ValueField(fd), ValueRules(rules), VALUE_BASE, e.value);
      EntriesMean(s, checks, fd, rules, base, v, i + 1);
      CleanEntry(env, checks, base, keys, values, v, i);
    }
  }

  lemma CleanEntry<R(!new)>(
      env: Env<R>, checks: Checks, base: Base, keys: ValueEval<R>, values: ValueEval<R>, v: Value, i: nat)
    requires i < |Entries(v)|
    ensures Clean(EntriesAtoms(env, checks, base, keys, values, v, i)) <==>
            && Clean(ValueAtoms(env, checks, keys, v.entries[i].key, true))
            && Clean(ValueAtoms(env, checks, values, v.entries[i].value, true))
            && Clean(EntriesAtoms(env, checks, base, keys, values, v, i + 1))
  {
    hide ValueAtoms;
    var e := v.entries[i];
    var a, b := ValueAtoms(env, checks, keys, e.key, true), ValueAtoms(env, checks, values, e.value, true);
    CleanChange(MarkKey, a);
    CleanAppend(ChangeAtoms(MarkKey, a), b);
    CleanChange(Place([Subscripted(base, KeySubscript(e.key))], base.rulePrefix),
                PairAtoms(env, checks, keys, values, e));
    CleanAppend(EntryAtoms(env, checks, base, keys, values, v, i),
                EntriesAtoms(env, checks, base, keys, values, v, i + 1));
  }

  lemma {:induction false} RepeatedMeans(
      s: Setup, checks: Checks, fd: Field, rules: Option<Rules>, base: Base, w: ValueEval<string>, v: Value)
    requires s.keepAll && UniqueNames(s) && RepeatedSpec(s, Name, fd, rules, base, w).err.None?
    ensures CleanRules(Stands(s), checks, RepeatedSpec(s, Name, fd, rules, base, w).value, v) <==>
            && CleanRules(Stands(s), checks, w, v)
            && (fd.shape.ListOf? && !Nested(base) ==> ItemsKept(s, checks, fd, ItemsOf(rules), v))
    decreases v, Depth(fd, base), 0, 0
  {
    hide ValueSpec, ValueConforms;
    if fd.shape.ListOf? && !Nested(base) {
      var items := ValueSpec(s, Name, fd, ItemRules(rules), ITEM_BASE);
      ItemsMean(s, checks, fd, rules, base, v, 0);
      CleanRulesSnoc(Stands(s), checks, w.rules, ListItems(base, items.value), v);
    }
  }

  lemma {:induction false} ItemsMean(
      s: Setup, checks: Checks, fd: Field, rules: Option<Rules>, base: Base, v: Value, i: nat)
    requires s.keepAll && UniqueNames(s) && fd.shape.ListOf? && i <= |Items(v)|
    requires ValueSpec(s, Name, fd, ItemRules(rules), ITEM_BASE).err.None?
    ensures Clean(ItemsAtoms(Stands(s), checks, base, ValueSpec(s, Name, fd, ItemRules(rules), ITEM_BASE).value, v, i))
            <==>
            forall k :: i <= k < |Items(v)| ==> ValueConforms(s, checks, fd, ItemsOf(rules), true, v.items[k])
    decreases v, 0, |Items(v)| - i
  {
    hide ValueSpec, ValueConforms, ValueAtoms;
    if i < |Items(v)| {
      var items := ValueSpec(s, Name, fd, ItemRules(rules), ITEM_BASE).value;
      var env := Stands(s);
      ValueMeans(s, checks, fd, ItemRules(rules), ITEM_BASE, v.items[i]);
      ItemsMean(s, checks, fd, rules, base, v, i + 1);
      var atoms := ValueAtoms(env, checks, items, v.items[i], true);
      CleanChange(Place([Subscripted(base, Index(i))], base.rulePrefix), atoms);
      CleanAppend(ItemAtoms(env, checks, base, items, v, i), ItemsAtoms(env, checks, base, items, v, i + 1));
    }
  }

  /* ---- Messages ---- */

  lemma CleanPartsSnoc(
      env: Env<string>, checks: Checks, es: seq<MessageEvaluator<string>>, e: MessageEvaluator<string>, m: Message)
    ensures Clean(PartsAtoms(env, checks, es + [e], m)) <==>
            Clean(PartsAtoms(env, checks, es, m)) && Clean(PartAtoms(env, checks, e, m))
  {
    PartsSnoc(env, checks, es, e, m);
    CleanAppend(PartsAtoms(env, checks, es, m), PartAtoms(env, checks, e, m));
  }

  /** The evaluator of a type finds nothing in a message iff the message conforms to the type. */
  lemma {:induction false} MessageMeans(s: Setup, checks: Checks, name: string, m: Message)
    requires s.keepAll && UniqueNames(s)
    ensures Clean(MessageAtoms(Stands(s), checks, Stands(s)(name), m)) <==> Conforms(s, checks, name, m)
    decreases m, 3
  {
    if name in s.schema {
      hide OwnParts, FieldParts, MessageErr, Conforms, PartsAtoms, FieldsKept, OneofsKept, OwnRulesKept;
      var t := s.schema[name];
      var e := MessageSpec(s, Name, name);
      FieldPartsMean(s, checks, t, |t.fields|, m);
      ConformsParts(s, checks, name, m);
      MessageErrIff(s, name);
      OwnMeans(s, checks, name, m);
      OneofRulesMean(s, checks, name, m);
      CleanAppend(PartsAtoms(Stands(s), checks, e.evaluators, m), PartsAtoms(Stands(s), checks, e.nested, m));
      if e.err.Some? { CleanOne(Failed(e.err.value)); }
    }
  }

  ghost predicate FieldsKept(s: Setup, checks: Checks, t: MessageType, n: nat, m: Message)
    requires n <= |t.fields|
  {
    forall i :: 0 <= i < n ==> FieldConforms(s, checks, t, i, m)
  }

  ghost predicate OneofsKept(checks: Checks, t: MessageType, n: nat, m: Message)
    requires n <= |t.oneofs|
  {
    forall k :: 0 <= k < n ==> OneofKept(checks, m, t.oneofs[k])
  }

  lemma ConformsParts(s: Setup, checks: Checks, name: string, m: Message)
    requires name in s.schema
    ensures var t := s.schema[name];
      Conforms(s, checks, name, m) <==>
        && (checks.filter(m, MessageDescriptor(m.typeName)) ==> OwnRulesKept(s, checks, name, m))
        && OneofsKept(checks, t, |t.oneofs|, m) && FieldsKept(s, checks, t, |t.fields|, m)
  {
    hide OwnRulesKept;
  }

  lemma OwnMeans(s: Setup, checks: Checks, name: string, m: Message)
    requires s.keepAll && name in s.schema
    ensures TypeCompiles(s, name) ==>
            (Clean(PartsAtoms(Stands(s), checks, OwnParts(s, name), m)) <==>
             CompiledPass(checks, s.compilers.message(name), Embed(m)))
  {
    if TypeCompiles(s, name) {
      var ps := s.compilers.message(name).programs;
      var e: MessageEvaluator<string> := CelMessage(ps);
      CleanPrograms(checks, ps, Embed(m));
      CleanPartsSnoc(Stands(s), checks, [], e, m);
      assert [] + [e] == [e];
      assert PartsAtoms(Stands(s), checks, [], m) == [];
    }
  }

  // What the nested evaluators of a message find: fields, oneofs and the good oneof rules.
  lemma {:induction false} FieldPartsMean(s: Setup, checks: Checks, t: MessageType, n: nat, m: Message)
    requires s.keepAll && UniqueNames(s) && n <= |t.fields|
    ensures Clean(PartsAtoms(Stands(s), checks, FieldParts(s, Name, t, n), m)) <==>
            && Clean(PartsAtoms(Stands(s), checks, RuleParts(s, t, GoodRules(t, 0)), m))
            && OneofsKept(checks, t, |t.oneofs|, m) && FieldsKept(s, checks, t, n, m)
    decreases m, 2, n
  {
    hide OneofsKept, RuleParts, FieldConforms, FieldSpec, FieldAtoms;
    if n == 0 {
      OneofPartsMean(s, checks, t, |t.oneofs|, m);
    } else {
      FieldPartsMean(s, checks, t, n - 1, m);
      var f := FieldSpec(s, Name, t, n - 1);
      FieldMeans(s, checks, t, n - 1, m);
      CleanPartsSnoc(Stands(s), checks, FieldParts(s, Name, t, n - 1), MessageEvaluator.FieldRules(f), m);
    }
  }

  lemma {:induction false} OneofPartsMean(s: Setup, checks: Checks, t: MessageType, n: nat, m: Message)
    requires s.keepAll && n <= |t.oneofs|
    ensures Clean(PartsAtoms(Stands(s), checks, OneofParts(s, t, n), m)) <==>
            && Clean(PartsAtoms(Stands(s), checks, RuleParts(s, t, GoodRules(t, 0)), m))
            && OneofsKept(checks, t, n, m)
  {
    hide RuleParts, OneofKept;
    if n > 0 {
      OneofPartsMean(s, checks, t, n - 1, m);
      var o := t.oneofs[n - 1];
      OneofMeans(checks, m, o);
      CleanPartsSnoc(Stands(s), checks, OneofParts(s, t, n - 1), Oneof(o.name, o.members, o.required), m);
    }
  }

  lemma OneofMeans(checks: Checks, m: Message, o: OneofDecl)
    ensures Clean(OneofAtoms(checks, m, o.name, o.members, o.required)) <==> OneofKept(checks, m, o)
  {
    OneofFinds(checks, m, o.name, o.members, o.required);
    var a := OneofAtoms(checks, m, o.name, o.members, o.required);
    if a != [] { assert a[0].Violated?; }
  }

  lemma {:induction false} FieldMeans(s: Setup, checks: Checks, t: MessageType, i: nat, m: Message)
    requires s.keepAll && UniqueNames(s) && i < |t.fields|
    ensures Clean(FieldAtoms(Stands(s), checks, FieldSpec(s, Name, t, i), m)) <==> FieldConforms(s, checks, t, i, m)
    decreases m, 1
  {
    hide ValueSpec, ValueAtoms, ValueConforms, RulesCompile;
    var fd := t.fields[i];
    var rules := RulesFor(t, fd);
    SameRules(t, fd);
    ValueErrIff(s, Name, fd, rules, FieldBase(fd));
    var f := FieldSpec(s, Name, t, i);
    if f.err.None? && i < |m.slots| {
      ValueMeans(s, checks, fd, rules, FieldBase(fd), m.slots[i].value);
    }
    var a := FieldAtoms(Stands(s), checks, f, m);
    if a != [] { assert Clean(a) ==> a[0].Pass?; }
  }

  lemma SameRules(t: MessageType, fd: Field)
    ensures RulesFor(t, fd) == EffectiveRules(t, fd)
  {
  }

  /* ---- Oneof rules, by the names of their fields ---- */

  lemma {:induction false} IndexesAt(t: MessageType, names: seq<string>)
    requires forall k :: 0 <= k < |names| ==> IsFieldName(t, names[k])
    ensures |Indexes(t, names)| == |names|
    ensures forall k :: 0 <= k < |names| ==>
              Indexes(t, names)[k] < |t.fields| && t.fields[Indexes(t, names)[k]].name == names[k]
    decreases |names|
  {
    if names != [] {
      var last := |names| - 1;
      IndexesAt(t, names[..last]);
      assert IsFieldName(t, names[last]);
    }
  }

  lemma NamedIsIndexed(t: MessageType, m: Message, names: seq<string>, k: nat)
    requires forall j :: 0 <= j < |names| ==> IsFieldName(t, names[j])
    requires forall i, j :: 0 <= i < j < |t.fields| ==> t.fields[i].name != t.fields[j].name
    requires k < |names|
    ensures |Indexes(t, names)| == |names| && (NamedSet(t, m, names[k]) <==> IsSet(m, Indexes(t, names)[k]))
  {
    IndexesAt(t, names);
  }

  lemma OneofRuleMeans(checks: Checks, t: MessageType, m: Message, r: OneofRule)
    requires GoodOneofRule(t, r)
    requires forall i, j :: 0 <= i < j < |t.fields| ==> t.fields[i].name != t.fields[j].name
    ensures Clean(MessageOneofAtoms(checks, m, Indexes(t, r.fields), r.required)) <==>
            (checks.filter(m, MessageDescriptor(m.typeName)) ==> OneofRuleKept(t, m, r))
  {
    var fields := Indexes(t, r.fields);
    IndexesAt(t, r.fields);
    forall k | 0 <= k < |r.fields|
      ensures NamedSet(t, m, r.fields[k]) <==> IsSet(m, fields[k])
    {
      NamedIsIndexed(t, m, r.fields, k);
    }
    hide NamedSet, IsSet, Indexes;
    MessageOneofFinds(checks, m, fields, r.required);
    var a := MessageOneofAtoms(checks, m, fields, r.required);
    if a != [] { assert a[0].Violated?; }
  }

  lemma {:induction false} RulePartsMean(s: Setup, checks: Checks, t: MessageType, n: nat, m: Message)
    requires s.keepAll && n <= |t.oneofRules|
    requires forall i, j :: 0 <= i < j < |t.fields| ==> t.fields[i].name != t.fields[j].name
    requires forall k :: 0 <= k < n ==> GoodOneofRule(t, t.oneofRules[k])
    ensures Clean(PartsAtoms(Stands(s), checks, RuleParts(s, t, n), m)) <==>
            forall k :: 0 <= k < n ==>
              (checks.filter(m, MessageDescriptor(m.typeName)) ==> OneofRuleKept(t, m, t.oneofRules[k]))
  {
    hide GoodOneofRule, OneofRuleKept, Indexes;
    if n > 0 {
      RulePartsMean(s, checks, t, n - 1, m);
      var r := t.oneofRules[n - 1];
      OneofRuleMeans(checks, t, m, r);
      CleanPartsSnoc(Stands(s), checks, RuleParts(s, t, n - 1), MessageOneof(Indexes(t, r.fields), r.required), m);
    }
  }

  lemma {:induction false} NothingUnfiltered(s: Setup, checks: Checks, t: MessageType, n: nat, m: Message)
    requires s.keepAll && n <= |t.oneofRules| && !checks.filter(m, MessageDescriptor(m.typeName))
    ensures Clean(PartsAtoms(Stands(s), checks, RuleParts(s, t, n), m))
  {
    if n > 0 {
      NothingUnfiltered(s, checks, t, n - 1, m);
      var r := t.oneofRules[n - 1];
      CleanPartsSnoc(Stands(s), checks, RuleParts(s, t, n - 1), MessageOneof(Indexes(t, r.fields), r.required), m);
    }
  }

  lemma OneofRulesMean(s: Setup, checks: Checks, name: string, m: Message)
    requires s.keepAll && UniqueNames(s) && name in s.schema
    ensures var t := s.schema[name];
      var found := Clean(PartsAtoms(Stands(s), checks, RuleParts(s, t, GoodRules(t, 0)), m));
      && (!checks.filter(m, MessageDescriptor(m.typeName)) ==> found)
      && (checks.filter(m, MessageDescriptor(m.typeName)) && TypeCompiles(s, name) ==>
            (found <==> forall k :: 0 <= k < |t.oneofRules| ==> OneofRuleKept(t, m, t.oneofRules[k])))
  {
    hide RuleParts, OneofRuleKept, GoodOneofRule;
    var t := s.schema[name];
    MessageErrIff(s, name);
    if !checks.filter(m, MessageDescriptor(m.typeName)) {
      NothingUnfiltered(s, checks, t, GoodRules(t, 0), m);
    } else if TypeCompiles(s, name) {
      RulePartsMean(s, checks, t, |t.oneofRules|, m);
    }
  }

  /** For every schema, message, filter and mode: checking with the evaluators that the builder makes reports success
      iff the message conforms to its type. */
  lemma SuccessIffConforms(full: Setup, checks: Checks, name: string, m: Message, failFast: bool)
    requires full.keepAll && UniqueNames(full) && name in full.schema
    ensures Run(TopMessage(Stands(full), checks, Stands(full)(name), m, [], false), failFast).Success? <==>
            Conforms(full, checks, name, m)
  {
    hide MessageAtoms, TopMessage, Conforms;
    ValidateMeansFullTree(full, full.(keepAll := false), name, m, checks, failFast);
    TopIsMessage(Stands(full), checks, Stands(full)(name), m, [], false);
    var atoms := MessageAtoms(Stands(full), checks, Stands(full)(name), m);
    CleanChange(Anchored([], false), atoms);
    RunSuccess(ChangeAtoms(Anchored([], false), atoms), failFast);
    MessageMeans(full, checks, name, m);
  }
}
