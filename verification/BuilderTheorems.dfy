/** What holds of every evaluator the builder makes: it depends on its type and the links of the types that its
    fields mention alone; its violations carry root-to-leaf paths; leaving tautologies out changes nothing. */
module BuilderTheorems {
  import opened Options
  import opened Outcomes
  import opened EvalTree
  import opened EvalElide
  import opened EvalPaths
  import opened EvalChains
  import opened BuilderSpec

  /* ---- Only the links of requested types matter ---- */

  ghost predicate AgreeOn<R>(k: string -> R, l: string -> R, us: set<string>) {
    forall u :: u in us ==> k(u) == l(u)
  }

  lemma {:induction false} ValueCongruence<R>(
      s: Setup, k: string -> R, l: string -> R, fd: Field, rules: Option<Rules>, base: Base)
    requires AgreeOn(k, l, ValueUses(s, k, fd, rules, base))
    ensures ValueSpec(s, k, fd, rules, base) == ValueSpec(s, l, fd, rules, base)
    ensures ValueUses(s, k, fd, rules, base) == ValueUses(s, l, fd, rules, base)
    decreases Depth(fd, base), STEPS + 1
  {
    if IgnoreOf(rules) != Always { StepsCongruence(s, k, l, fd, rules, base, STEPS); }
  }

  lemma {:induction false} StepsCongruence<R>(
      s: Setup, k: string -> R, l: string -> R, fd: Field, rules: Option<Rules>, base: Base, n: nat)
    requires n <= STEPS && AgreeOn(k, l, StepsUse(s, k, fd, rules, base, n))
    ensures StepsSpec(s, k, fd, rules, base, n) == StepsSpec(s, l, fd, rules, base, n)
    ensures StepsUse(s, k, fd, rules, base, n) == StepsUse(s, l, fd, rules, base, n)
    decreases Depth(fd, base), n
  {
    if n > 0 {
      StepsCongruence(s, k, l, fd, rules, base, n - 1);
      var b := StepsSpec(s, k, fd, rules, base, n - 1);
      if b.err.None? { StepCongruence(s, k, l, fd, rules, base, n - 1, b.value); }
    }
  }

  lemma {:induction false} StepCongruence<R>(
      s: Setup, k: string -> R, l: string -> R, fd: Field, rules: Option<Rules>, base: Base, i: nat, v: ValueEval<R>)
    requires i < STEPS && AgreeOn(k, l, StepUses(s, k, fd, rules, base, i))
    ensures StepSpec(s, k, fd, rules, base, i, v) == StepSpec(s, l, fd, rules, base, i, v)
    ensures StepUses(s, k, fd, rules, base, i) == StepUses(s, l, fd, rules, base, i)
    decreases Depth(fd, base), 0
  {
    hide Add, ValueUses, ValueSpec;
    match i
    case 3 =>
      if EmbeddedType(fd, base).Some? { WrappedUsesNothing(s, k, rules, base); ValueCongruence(s, k, l, WrappedField(),
        rules, base); }
    case 7 =>
      if fd.shape.MapOf? {
        ValueCongruence(s, k, l, KeyField(fd), KeyRules(rules), KEY_BASE);
        if ValueSpec(s, k, KeyField(fd), KeyRules(rules), KEY_BASE).err.None? {
          ValueCongruence(s, k, l, ValueField(fd), ValueRules(rules), VALUE_BASE);
        }
      }
    case 8 =>
      if fd.shape.ListOf? && !Nested(base) { ValueCongruence(s, k, l, fd, ItemRules(rules), ITEM_BASE); }
    case _ =>
  }

  lemma {:induction false} WrappedUsesNothing<R>(s: Setup, link: string -> R, rules: Option<Rules>, base: Base)
    ensures ValueUses(s, link, WrappedField(), rules, base) == {}
  {
    var n := 0;
    while n < STEPS
      invariant n <= STEPS && StepsUse(s, link, WrappedField(), rules, base, n) == {}
    {
      n := n + 1;
    }
  }

  /** Two builds whose links agree on the requested types make the same nested evaluators. */
  lemma {:induction false} PartsCongruence<R>(s: Setup, k: string -> R, l: string -> R, t: MessageType, n: nat)
    requires n <= |t.fields| && AgreeOn(k, l, FieldsUse(s, k, t, n))
    ensures FieldParts(s, k, t, n) == FieldParts(s, l, t, n) && FieldsUse(s, k, t, n) == FieldsUse(s, l, t, n)
  {
    if n > 0 {
      PartsCongruence(s, k, l, t, n - 1);
      var fd := t.fields[n - 1];
      ValueCongruence(s, k, l, fd, RulesFor(t, fd), FieldBase(fd));
    }
  }

  /* ---- The evaluators of a value carry its element and rule prefix ---- */

  // The bases that values are built with: a field's own, or that of an item, key or value.
  ghost predicate ValidBase(fd: Field, base: Base) {
    if Nested(base) then base.element.None? && !fd.shape.MapOf? else base.element.Some?
  }

  lemma FitsAdd<R(!new)>(
      s: Setup, es: seq<Evaluator<R>>, e: Evaluator<R>, own: Option<PathElement>, prefix: seq<PathElement>)
    requires FitsRules(es, own, prefix) && FitsRule(e, own, prefix)
    ensures FitsRules(Add(s, es, e), own, prefix) && FitsRules(es + [e], own, prefix)
  {
  }

  lemma {:induction false} ValueFits<R(!new)>(s: Setup, link: string -> R, fd: Field, rules: Option<Rules>, base: Base)
    requires ValidBase(fd, base)
    ensures FitsValue(ValueSpec(s, link, fd, rules, base).value, base.element, base.rulePrefix)
    decreases Depth(fd, base), STEPS + 1
  {
    StepsFit(s, link, fd, rules, base, STEPS);
  }

  lemma {:induction false} StepsFit<R(!new)>(
      s: Setup, link: string -> R, fd: Field, rules: Option<Rules>, base: Base, n: nat)
    requires ValidBase(fd, base) && n <= STEPS
    ensures FitsValue(StepsSpec(s, link, fd, rules, base, n).value, base.element, base.rulePrefix)
    decreases Depth(fd, base), n
  {
    if n > 0 {
      StepsFit(s, link, fd, rules, base, n - 1);
      StepFits(s, link, fd, rules, base, n - 1, StepsSpec(s, link, fd, rules, base, n - 1).value);
    }
  }

  lemma {:induction false} StepFits<R(!new)>(
      s: Setup, link: string -> R, fd: Field, rules: Option<Rules>, base: Base, i: nat, v: ValueEval<R>)
    requires ValidBase(fd, base) && i < STEPS && FitsValue(v, base.element, base.rulePrefix)
    ensures FitsValue(StepSpec(s, link, fd, rules, base, i, v).value, base.element, base.rulePrefix)
    decreases Depth(fd, base), 0
  {
    hide Add, FitsRules;
    forall es: seq<Evaluator<R>>, e: Evaluator<R> | FitsRules(es, base.element, base.rulePrefix) &&
      FitsRule(e, base.element, base.rulePrefix)
      ensures FitsRules(Add(s, es, e), base.element, base.rulePrefix)
      ensures FitsRules(es + [e], base.element, base.rulePrefix)
    {
      FitsAdd(s, es, e, base.element, base.rulePrefix);
    }
    match i
    case 3 =>
      if EmbeddedType(fd, base).Some? { WrapperFits(s, link, fd, rules, base, v); }
    case 7 =>
      if fd.shape.MapOf? {
        ValueFits(s, link, KeyField(fd), KeyRules(rules), KEY_BASE);
        ValueFits(s, link, ValueField(fd), ValueRules(rules), VALUE_BASE);
      }
    case 8 =>
      if fd.shape.ListOf? && !Nested(base) {
        ValueFits(s, link, fd, ItemRules(rules), ITEM_BASE);
      }
    case _ =>
  }

  lemma {:induction false} WrapperFits<R(!new)>(
      s: Setup, link: string -> R, fd: Field, rules: Option<Rules>, base: Base, v: ValueEval<R>)
    requires ValidBase(fd, base) && EmbeddedType(fd, base).Some? && FitsValue(v, base.element, base.rulePrefix)
    ensures FitsValue(WrapperSpec(s, link, fd, rules, base, v).value, base.element, base.rulePrefix)
    decreases Depth(fd, base), 0, 0
  {
    ValueFits(s, link, WrappedField(), rules, base);
    FitsAdd(s, v.rules, Evaluators(ValueSpec(s, link, WrappedField(), rules, base).value.rules), base.element,
      base.rulePrefix);
  }

  lemma {:induction false} PartsFit<R(!new)>(s: Setup, link: string -> R, t: MessageType, n: nat)
    requires n <= |t.fields|
    ensures FitsParts(FieldParts(s, link, t, n))
  {
    if n == 0 {
      OtherPartsFit<R>(s, t, |t.oneofs|);
    } else {
      PartsFit(s, link, t, n - 1);
      var fd := t.fields[n - 1];
      ValueFits(s, link, fd, RulesFor(t, fd), FieldBase(fd));
    }
  }

  lemma {:induction false} OtherPartsFit<R(!new)>(s: Setup, t: MessageType, n: nat)
    requires n <= |t.oneofs|
    ensures FitsParts(OneofParts<R>(s, t, n))
  {
    if n == 0 { RulePartsFit<R>(s, t, GoodRules(t, 0)); } else { OtherPartsFit<R>(s, t, n - 1); }
  }

  lemma {:induction false} RulePartsFit<R(!new)>(s: Setup, t: MessageType, n: nat)
    requires n <= |t.oneofRules|
    ensures FitsParts(RuleParts<R>(s, t, n))
  {
    if n > 0 { RulePartsFit<R>(s, t, n - 1); }
  }

  /** Every built evaluator fits: its violations get their paths right. */
  lemma MessageFits<R(!new)>(s: Setup, link: string -> R, name: string)
    requires name in s.schema
    ensures FitsMessage(MessageSpec(s, link, name))
  {
    PartsFit(s, link, s.schema[name], |s.schema[name].fields|);
  }

  /* ---- Leaving out tautologies ---- */

  lemma ElideAdd<R(!new)>(full: Setup, s: Setup, es: seq<Evaluator<R>>, e: Evaluator<R>)
    requires full.keepAll && !s.keepAll
    ensures ElideRules(Add(full, es, e)) == Add(s, ElideRules(es), ElideRule(e))
  {
    assert (es + [e])[..|es|] == es;
  }

  lemma {:induction false} ValueElides<R(!new)>(
      full: Setup, s: Setup, link: string -> R, fd: Field, rules: Option<Rules>, base: Base)
    requires full.keepAll && s == full.(keepAll := false)
    ensures var a, b := ValueSpec(full, link, fd, rules, base), ValueSpec(s, link, fd, rules, base);
            a.err == b.err && ElideValue(a.value) == b.value
    decreases Depth(fd, base), STEPS + 1
  {
    StepsElide(full, s, link, fd, rules, base, STEPS);
  }

  lemma {:induction false} StepsElide<R(!new)>(
      full: Setup, s: Setup, link: string -> R, fd: Field, rules: Option<Rules>, base: Base, n: nat)
    requires full.keepAll && s == full.(keepAll := false) && n <= STEPS
    ensures var a, b := StepsSpec(full, link, fd, rules, base, n), StepsSpec(s, link, fd, rules, base, n);
            a.err == b.err && ElideValue(a.value) == b.value
    decreases Depth(fd, base), n
  {
    hide StepSpec, ElideValue;
    NothingElides<R>();
    if n > 0 {
      StepsElide(full, s, link, fd, rules, base, n - 1);
      StepElides(full, s, link, fd, rules, base, n - 1, StepsSpec(full, link, fd, rules, base, n - 1).value);
    }
  }

  lemma NothingElides<R(!new)>()
    ensures ElideValue(Empty<R>()) == Empty<R>()
  {
  }

  lemma {:induction false} StepElides<R(!new)>(
      full: Setup, s: Setup, link: string -> R, fd: Field, rules: Option<Rules>, base: Base, i: nat, v: ValueEval<R>)
    requires full.keepAll && s == full.(keepAll := false) && i < STEPS
    ensures var a, b := StepSpec(full, link, fd, rules, base, i, v),
            StepSpec(s, link, fd, rules, base, i, ElideValue(v));
            a.err == b.err && ElideValue(a.value) == b.value
    decreases Depth(fd, base), 0
  {
    hide Add, ElideRules, IgnoreEmptySpec, ExpressionsSpec, WrapperSpec, MapSpec, RepeatedSpec;
    forall e
      ensures ElideRules(Add(full, v.rules, e)) == Add(s, ElideRules(v.rules), ElideRule(e))
      ensures ElideRules(Add(full, v.nestedRules, e)) == Add(s, ElideRules(v.nestedRules), ElideRule(e))
    {
      ElideAdd(full, s, v.rules, e);
      ElideAdd(full, s, v.nestedRules, e);
    }
    match i
    case 0 => IgnoreEmptyElides(full, s, fd, rules, base, v);
    case 1 => ExpressionsElide(full, s, fd, rules, base, v);
    case 3 =>
      WrapperElides(full, s, link, fd, rules, base, v);
    case 7 => MapElides(full, s, link, fd, rules, base, v);
    case 8 => RepeatedElides(full, s, link, fd, rules, base, v);
    case _ =>
  }

  lemma {:induction false} WrapperElides<R(!new)>(
      full: Setup, s: Setup, link: string -> R, fd: Field, rules: Option<Rules>, base: Base, v: ValueEval<R>)
    requires full.keepAll && s == full.(keepAll := false)
    ensures var a, b := WrapperSpec(full, link, fd, rules, base, v),
            WrapperSpec(s, link, fd, rules, base, ElideValue(v));
            a.err == b.err && ElideValue(a.value) == b.value
    decreases Depth(fd, base), 0, 0
  {
    hide Add, ElideRules;
    if EmbeddedType(fd, base).None? { return; }
    ValueElides(full, s, link, WrappedField(), rules, base);
    ElideAdd(full, s, v.rules, Evaluators(ValueSpec(full, link, WrappedField(), rules, base).value.rules));
  }

  lemma {:induction false} MapElides<R(!new)>(
      full: Setup, s: Setup, link: string -> R, fd: Field, rules: Option<Rules>, base: Base, v: ValueEval<R>)
    requires full.keepAll && s == full.(keepAll := false)
    ensures var a, b := MapSpec(full, link, fd, rules, base, v), MapSpec(s, link, fd, rules, base, ElideValue(v));
            a.err == b.err && ElideValue(a.value) == b.value
    decreases Depth(fd, base), 0, 0
  {
    hide Add, ElideRules;
    if fd.shape.MapOf? {
      var keyRules, valueRules := KeyRules(rules), ValueRules(rules);
      var keys := ValueSpec(full, link, KeyField(fd), keyRules, KEY_BASE);
      var values := ValueSpec(full, link, ValueField(fd), valueRules, VALUE_BASE);
      ValueElides(full, s, link, KeyField(fd), keyRules, KEY_BASE);
      ValueElides(full, s, link, ValueField(fd), valueRules, VALUE_BASE);
      ElideAdd(full, s, v.rules, KvPairs(base, keys.value, values.value));
    }
  }

  lemma {:induction false} RepeatedElides<R(!new)>(
      full: Setup, s: Setup, link: string -> R, fd: Field, rules: Option<Rules>, base: Base, v: ValueEval<R>)
    requires full.keepAll && s == full.(keepAll := false)
    ensures var a, b := RepeatedSpec(full, link, fd, rules, base, v),
            RepeatedSpec(s, link, fd, rules, base, ElideValue(v));
            a.err == b.err && ElideValue(a.value) == b.value
    decreases Depth(fd, base), 0, 0
  {
    hide Add, ElideRules;
    if fd.shape.ListOf? && !Nested(base) {
      var itemRules := ItemRules(rules);
      ValueElides(full, s, link, fd, itemRules, ITEM_BASE);
      ElideAdd(full, s, v.rules, ListItems(base, ValueSpec(full, link, fd, itemRules, ITEM_BASE).value));
    }
  }

  lemma IgnoreEmptyElides<R(!new)>(full: Setup, s: Setup, fd: Field, rules: Option<Rules>, base: Base, v: ValueEval<R>)
    requires full.keepAll && s == full.(keepAll := false)
    ensures var a, b := IgnoreEmptySpec(full, fd, rules, base, v), IgnoreEmptySpec(s, fd, rules, base, ElideValue(v));
            a.err == b.err && ElideValue(a.value) == b.value
  {
    hide ElideRules;
  }

  lemma ExpressionsElide<R(!new)>(full: Setup, s: Setup, fd: Field, rules: Option<Rules>, base: Base, v: ValueEval<R>)
    requires full.keepAll && s == full.(keepAll := false)
    ensures var a, b := ExpressionsSpec(full, fd, rules, base, v), ExpressionsSpec(s, fd, rules, base, ElideValue(v));
            a.err == b.err && ElideValue(a.value) == b.value
  {
    forall e
      ensures ElideRules(v.rules + [e]) == Append(ElideRules(v.rules), ElideRule(e))
    {
      assert (v.rules + [e])[..|v.rules|] == v.rules;
    }
  }

  lemma ElideAddPart<R(!new)>(full: Setup, s: Setup, es: seq<MessageEvaluator<R>>, e: MessageEvaluator<R>)
    requires full.keepAll && !s.keepAll
    ensures ElideParts(AddPart(full, es, e)) == AddPart(s, ElideParts(es), ElidePart(e))
  {
    assert (es + [e])[..|es|] == es;
  }

  lemma {:induction false} RulePartsElide<R(!new)>(full: Setup, s: Setup, t: MessageType, n: nat)
    requires full.keepAll && s == full.(keepAll := false) && n <= |t.oneofRules|
    ensures ElideParts(RuleParts<R>(full, t, n)) == RuleParts<R>(s, t, n)
  {
    if n > 0 {
      var r := t.oneofRules[n - 1];
      RulePartsElide<R>(full, s, t, n - 1);
      ElideAddPart<R>(full, s, RuleParts(full, t, n - 1), MessageOneof(Indexes(t, r.fields), r.required));
    }
  }

  lemma {:induction false} OneofPartsElide<R(!new)>(full: Setup, s: Setup, t: MessageType, n: nat)
    requires full.keepAll && s == full.(keepAll := false) && n <= |t.oneofs|
    ensures ElideParts(OneofParts<R>(full, t, n)) == OneofParts<R>(s, t, n)
  {
    if n == 0 {
      RulePartsElide<R>(full, s, t, GoodRules(t, 0));
    } else {
      var o := t.oneofs[n - 1];
      OneofPartsElide<R>(full, s, t, n - 1);
      ElideAddPart<R>(full, s, OneofParts(full, t, n - 1), Oneof(o.name, o.members, o.required));
    }
  }

  lemma {:induction false} FieldPartsElide<R(!new)>(full: Setup, s: Setup, link: string -> R, t: MessageType, n: nat)
    requires full.keepAll && s == full.(keepAll := false) && n <= |t.fields|
    ensures ElideParts(FieldParts(full, link, t, n)) == FieldParts(s, link, t, n)
  {
    if n == 0 {
      OneofPartsElide<R>(full, s, t, |t.oneofs|);
    } else {
      var fd := t.fields[n - 1];
      FieldPartsElide(full, s, link, t, n - 1);
      ValueElides(full, s, link, fd, RulesFor(t, fd), FieldBase(fd));
      ElideAddPart(full, s, FieldParts(full, link, t, n - 1),
        MessageEvaluator.FieldRules(FieldSpec(full, link, t, n - 1)));
    }
  }

  /** The built evaluator is the full one without its tautologies. */
  lemma MessageElides<R(!new)>(full: Setup, s: Setup, link: string -> R, name: string)
    requires full.keepAll && s == full.(keepAll := false) && name in s.schema
    ensures Elide(MessageSpec(full, link, name)) == MessageSpec(s, link, name)
  {
    FieldPartsElide(full, s, link, s.schema[name], |s.schema[name].fields|);
    match s.compilers.message(name)
    case Compiled(ps) => ElideAddPart<R>(full, s, [], CelMessage(ps));
    case NotCompiled(_) =>
  }

  /* ---- From the schema to the result ---- */

  // The link of the tree over type names
  function Name(u: string): string { u }

  // What a type name stands for: the evaluator that the builder makes of the type.
  function Stands(s: Setup): Env<string> {
    (name: string) => if name in s.schema then MessageSpec(s, Name, name) else MessageEval(None, [], [])
  }

  /** For every schema and message: what Validate reports with the evaluators that the builder makes is what
      the checks of the full trees, listed from the root down with their paths, amount to. */
  lemma ValidateMeansFullTree(full: Setup, s: Setup, name: string, m: Message, checks: Checks, failFast: bool)
    requires full.keepAll && s == full.(keepAll := false) && name in s.schema
    ensures ChangeOutcome(Reversed, Run(LoadedAtoms(Stands(s), checks, Some(name), m), failFast)) ==
            Run(TopMessage(Stands(full), checks, Stands(full)(name), m, [], false), failFast)
    ensures FitsEnv(Stands(s)) && FitsEnv(Stands(full))
  {
    forall r: string
      ensures FitsMessage(Stands(s)(r)) && FitsMessage(Stands(full)(r)) && Stands(s)(r) == Elide(Stands(full)(r))
    {
      if r in s.schema {
        MessageFits(s, Name, r);
        MessageFits(full, Name, r);
        MessageElides(full, s, Name, r);
      }
    }
    MessageElided(Stands(full), Stands(s), checks, Stands(full)(name), m);
    PathsFromRoot(Stands(full), checks, name, m, failFast);
  }
}
