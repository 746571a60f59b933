/** Evaluators up to object identity: a graph of linked evaluators and the tree over type names that it stands
    for, related part by part, and the fact that both find the same. */
module BuilderGraph {
  import opened Options
  import opened Outcomes
  import opened EvalTree
  import opened EvalElide
  import opened BuilderSpec
  import opened BuilderTheorems

  /* ---- The same but for references: to the object that the name is linked to ---- */

  ghost predicate SameRules<R>(link: string -> R, us: set<string>, a: seq<Evaluator<R>>, b: seq<Evaluator<string>>) {
    |a| == |b| && forall k :: 0 <= k < |b| ==> SameRule(link, us, a[k], b[k])
  }

  ghost predicate SameRule<R>(link: string -> R, us: set<string>, a: Evaluator<R>, b: Evaluator<string>) {
    match b
    case CelPrograms(base, programs) => a == CelPrograms(base, programs)
    case AnyPb(base, typeUrl, allowed, blocked) => a == AnyPb(base, typeUrl, allowed, blocked)
    case DefinedEnum(base, numbers) => a == DefinedEnum(base, numbers)
    case EmbeddedMessage(base, u) => u in us && a == EmbeddedMessage(base, link(u))
    case ListItems(base, items) => a.ListItems? && a.base == base && SameValue(link, us, a.itemRules, items)
    case KvPairs(base, keys, values) =>
      a.KvPairs? && a.base == base && SameValue(link, us, a.keyRules, keys) && SameValue(link, us, a.valueRules, values)
    case Evaluators(rules) => a.Evaluators? && SameRules(link, us, a.rules, rules)
  }

  ghost predicate SameValue<R>(link: string -> R, us: set<string>, a: ValueEval<R>, b: ValueEval<string>) {
    && a.zero == b.zero && a.ignoreEmpty == b.ignoreEmpty
    && SameRules(link, us, a.rules, b.rules) && SameRules(link, us, a.nestedRules, b.nestedRules)
  }

  ghost predicate SamePart<R>(link: string -> R, us: set<string>, a: MessageEvaluator<R>, b: MessageEvaluator<string>) {
    match b
    case CelMessage(programs) => a == CelMessage(programs)
    case MessageOneof(fields, required) => a == MessageOneof(fields, required)
    case Oneof(oneof, members, required) => a == Oneof(oneof, members, required)
    case FieldRules(f) =>
      a.FieldRules? && SameValue(link, us, a.field.value, f.value) &&
      a.field == FieldEval(f.field, f.name, a.field.value, f.required, f.hasPresence, f.ignore, f.err)
  }

  ghost predicate SameParts<R>(
      link: string -> R, us: set<string>, a: seq<MessageEvaluator<R>>, b: seq<MessageEvaluator<string>>) {
    |a| == |b| && forall k :: 0 <= k < |b| ==> SamePart(link, us, a[k], b[k])
  }

  ghost predicate SameMessage<R>(link: string -> R, us: set<string>, a: MessageEval<R>, b: MessageEval<string>) {
    a.err == b.err && SameParts(link, us, a.evaluators, b.evaluators) && SameParts(link, us, a.nested, b.nested)
  }

  /* ---- What is built with links is the same as what is built by name ---- */

  lemma {:induction false} SameTautology<R>(link: string -> R, us: set<string>, a: Evaluator<R>, b: Evaluator<string>)
    requires SameRule(link, us, a, b)
    ensures RuleTautology(a) == RuleTautology(b)
    decreases b, 0
  {
    match b
    case ListItems(_, items) => SameValueTautology(link, us, a.itemRules, items);
    case KvPairs(_, keys, values) =>
      SameValueTautology(link, us, a.keyRules, keys);
      SameValueTautology(link, us, a.valueRules, values);
    case Evaluators(rules) => SameRulesTautology(link, us, a.rules, rules);
    case _ =>
  }

  lemma {:induction false} SameRulesTautology<R>(
      link: string -> R, us: set<string>, a: seq<Evaluator<R>>, b: seq<Evaluator<string>>)
    requires SameRules(link, us, a, b)
    ensures RulesTautology(a) == RulesTautology(b)
    decreases b, 1
  {
    forall k | 0 <= k < |b|
      ensures RuleTautology(a[k]) == RuleTautology(b[k])
    {
      SameTautology(link, us, a[k], b[k]);
    }
    assert RulesTautology(a) ==> forall k :: 0 <= k < |b| ==> RuleTautology(a[k]);
    assert RulesTautology(b) ==> forall k :: 0 <= k < |a| ==> RuleTautology(b[k]);
  }

  lemma {:induction false} SameValueTautology<R>(
      link: string -> R, us: set<string>, a: ValueEval<R>, b: ValueEval<string>)
    requires SameValue(link, us, a, b)
    ensures ValueTautology(a) == ValueTautology(b)
    decreases b, 1
  {
    SameRulesTautology(link, us, a.rules, b.rules);
    SameRulesTautology(link, us, a.nestedRules, b.nestedRules);
  }

  lemma SameAdd<R>(
      s: Setup, link: string -> R, us: set<string>, as_: seq<Evaluator<R>>, bs: seq<Evaluator<string>>, a: Evaluator<R>,
      b: Evaluator<string>)
    requires SameRules(link, us, as_, bs) && SameRule(link, us, a, b)
    ensures SameRules(link, us, Add(s, as_, a), Add(s, bs, b)) && SameRules(link, us, as_ + [a], bs + [b])
  {
    SameTautology(link, us, a, b);
  }

  ghost predicate SameBuilt<R>(link: string -> R, us: set<string>, a: Built<R>, b: Built<string>) {
    a.err == b.err && SameValue(link, us, a.value, b.value)
  }

  lemma {:induction false} SameValueSpec<R>(
      s: Setup, link: string -> R, us: set<string>, fd: Field, rules: Option<Rules>, base: Base)
    requires ValueUses(s, link, fd, rules, base) <= us
    ensures SameBuilt(link, us, ValueSpec(s, link, fd, rules, base), ValueSpec(s, Name, fd, rules, base))
    decreases Depth(fd, base), STEPS + 1
  {
    if IgnoreOf(rules) != Always { SameStepsSpec(s, link, us, fd, rules, base, STEPS); }
  }

  lemma {:induction false} SameStepsSpec<R>(
      s: Setup, link: string -> R, us: set<string>, fd: Field, rules: Option<Rules>, base: Base, n: nat)
    requires n <= STEPS && StepsUse(s, link, fd, rules, base, n) <= us
    ensures SameBuilt(link, us, StepsSpec(s, link, fd, rules, base, n), StepsSpec(s, Name, fd, rules, base, n))
    decreases Depth(fd, base), n
  {
    if n > 0 {
      SameStepsSpec(s, link, us, fd, rules, base, n - 1);
      var a, b := StepsSpec(s, link, fd, rules, base, n - 1), StepsSpec(s, Name, fd, rules, base, n - 1);
      if a.err.None? { SameStepSpec(s, link, us, fd, rules, base, n - 1, a.value, b.value); }
    }
  }

  lemma {:induction false} SameStepSpec<R>(
      s: Setup, link: string -> R, us: set<string>, fd: Field, rules: Option<Rules>, base: Base, i: nat,
      v: ValueEval<R>, w: ValueEval<string>)
    requires i < STEPS && StepUses(s, link, fd, rules, base, i) <= us && SameValue(link, us, v, w)
    ensures SameBuilt(link, us, StepSpec(s, link, fd, rules, base, i, v), StepSpec(s, Name, fd, rules, base, i, w))
    decreases Depth(fd, base), 0
  {
    hide Add, SameRules, MapSpec, RepeatedSpec, WrapperSpec, ExpressionsSpec, EmbeddedSpec;
    forall a, b | SameRule(link, us, a, b)
      ensures SameRules(link, us, Add(s, v.rules, a), Add(s, w.rules, b))
    {
      SameAdd(s, link, us, v.rules, w.rules, a, b);
    }
    match i
    case 1 => SameExpressions(s, link, us, fd, rules, base, v, w);
    case 2 => SameEmbedded(s, link, us, fd, base, v, w);
    case 3 => SameWrapper(s, link, us, fd, rules, base, v, w);
    case 7 => SameMap(s, link, us, fd, rules, base, v, w);
    case 8 => SameRepeated(s, link, us, fd, rules, base, v, w);
    case _ =>
  }

  lemma SameExpressions<R>(
      s: Setup, link: string -> R, us: set<string>, fd: Field, rules: Option<Rules>, base: Base, v: ValueEval<R>,
      w: ValueEval<string>)
    requires SameValue(link, us, v, w)
    ensures SameBuilt(link, us, ExpressionsSpec(s, fd, rules, base, v), ExpressionsSpec(s, fd, rules, base, w))
  {
    var a, b := s.compilers.celExpressions(fd, rules, Nested(base)), s.compilers.celRules(fd, rules, Nested(base));
    if a.Compiled? && b.Compiled? {
      var all := WithPaths("cel_expression", a.programs) + WithPaths("cel", b.programs);
      SameAdd<R>(s, link, us, v.rules, w.rules, CelPrograms(base, all), CelPrograms(base, all));
    }
  }

  lemma SameEmbedded<R>(
      s: Setup, link: string -> R, us: set<string>, fd: Field, base: Base, v: ValueEval<R>, w: ValueEval<string>)
    requires SameValue(link, us, v, w) && (EmbeddedType(fd, base).Some? ==> EmbeddedType(fd, base).value in us)
    ensures SameBuilt(link, us, EmbeddedSpec(s, link, fd, base, v), EmbeddedSpec(s, Name, fd, base, w))
  {
    hide Add, SameRules;
    if EmbeddedType(fd, base).Some? {
      var t := EmbeddedType(fd, base).value;
      SameAdd(s, link, us, v.nestedRules, w.nestedRules, EmbeddedMessage(base, link(t)), EmbeddedMessage(base, t));
    }
  }

  lemma {:induction false} SameWrapper<R>(
      s: Setup, link: string -> R, us: set<string>, fd: Field, rules: Option<Rules>, base: Base, v: ValueEval<R>,
      w: ValueEval<string>)
    requires SameValue(link, us, v, w)
    ensures SameBuilt(link, us, WrapperSpec(s, link, fd, rules, base, v), WrapperSpec(s, Name, fd, rules, base, w))
    decreases Depth(fd, base), 0, 0
  {
    if EmbeddedType(fd, base).None? { return; }
    WrappedUsesNothing(s, link, rules, base);
    SameValueSpec(s, link, us, WrappedField(), rules, base);
    var a, b := ValueSpec(s, link, WrappedField(), rules, base), ValueSpec(s, Name, WrappedField(), rules, base);
    SameAdd(s, link, us, v.rules, w.rules, Evaluators(a.value.rules), Evaluators(b.value.rules));
  }

  lemma {:induction false} SameMap<R>(
      s: Setup, link: string -> R, us: set<string>, fd: Field, rules: Option<Rules>, base: Base, v: ValueEval<R>,
      w: ValueEval<string>)
    requires StepUses(s, link, fd, rules, base, 7) <= us && SameValue(link, us, v, w)
    ensures SameBuilt(link, us, MapSpec(s, link, fd, rules, base, v), MapSpec(s, Name, fd, rules, base, w))
    decreases Depth(fd, base), 0, 0
  {
    hide Add, SameRules, ValueSpec, ValueUses;
    if !fd.shape.MapOf? { return; }
    SameValueSpec(s, link, us, KeyField(fd), KeyRules(rules), KEY_BASE);
    var a, b := ValueSpec(s, link, KeyField(fd), KeyRules(rules), KEY_BASE),
      ValueSpec(s, Name, KeyField(fd), KeyRules(rules), KEY_BASE);
    if a.err.None? {
      SameValueSpec(s, link, us, ValueField(fd), ValueRules(rules), VALUE_BASE);
      var c, d := ValueSpec(s, link, ValueField(fd), ValueRules(rules), VALUE_BASE),
        ValueSpec(s, Name, ValueField(fd), ValueRules(rules), VALUE_BASE);
      SameAdd(s, link, us, v.rules, w.rules, KvPairs(base, a.value, c.value), KvPairs(base, b.value, d.value));
    }
  }

  lemma {:induction false} SameRepeated<R>(
      s: Setup, link: string -> R, us: set<string>, fd: Field, rules: Option<Rules>, base: Base, v: ValueEval<R>,
      w: ValueEval<string>)
    requires StepUses(s, link, fd, rules, base, 8) <= us && SameValue(link, us, v, w)
    ensures SameBuilt(link, us, RepeatedSpec(s, link, fd, rules, base, v), RepeatedSpec(s, Name, fd, rules, base, w))
    decreases Depth(fd, base), 0, 0
  {
    hide Add, SameRules;
    if !fd.shape.ListOf? || Nested(base) { return; }
    SameValueSpec(s, link, us, fd, ItemRules(rules), ITEM_BASE);
    var a, b := ValueSpec(s, link, fd, ItemRules(rules), ITEM_BASE),
      ValueSpec(s, Name, fd, ItemRules(rules), ITEM_BASE);
    SameAdd(s, link, us, v.rules, w.rules, ListItems(base, a.value), ListItems(base, b.value));
  }

  lemma SameAddPart<R>(
      s: Setup, link: string -> R, us: set<string>, as_: seq<MessageEvaluator<R>>, bs: seq<MessageEvaluator<string>>,
      a: MessageEvaluator<R>, b: MessageEvaluator<string>)
    requires SameParts(link, us, as_, bs) && SamePart(link, us, a, b)
    ensures SameParts(link, us, AddPart(s, as_, a), AddPart(s, bs, b))
  {
    if b.FieldRules? { SameValueTautology(link, us, a.field.value, b.field.value); }
  }

  lemma {:induction false} SameRuleParts<R>(s: Setup, link: string -> R, us: set<string>, t: MessageType, n: nat)
    requires n <= |t.oneofRules|
    ensures SameParts(link, us, RuleParts<R>(s, t, n), RuleParts<string>(s, t, n))
  {
    if n > 0 {
      var r := t.oneofRules[n - 1];
      SameRuleParts(s, link, us, t, n - 1);
      SameAddPart(s, link, us, RuleParts<R>(s, t, n - 1), RuleParts<string>(s, t, n - 1),
                  MessageOneof(Indexes(t, r.fields), r.required), MessageOneof(Indexes(t, r.fields), r.required));
    }
  }

  lemma {:induction false} SameOneofParts<R>(s: Setup, link: string -> R, us: set<string>, t: MessageType, n: nat)
    requires n <= |t.oneofs|
    ensures SameParts(link, us, OneofParts<R>(s, t, n), OneofParts<string>(s, t, n))
  {
    if n == 0 {
      SameRuleParts(s, link, us, t, GoodRules(t, 0));
    } else {
      var o := t.oneofs[n - 1];
      SameOneofParts(s, link, us, t, n - 1);
      SameAddPart(s, link, us, OneofParts<R>(s, t, n - 1), OneofParts<string>(s, t, n - 1),
                  Oneof(o.name, o.members, o.required), Oneof(o.name, o.members, o.required));
    }
  }

  lemma {:induction false} SameFieldParts<R>(s: Setup, link: string -> R, us: set<string>, t: MessageType, n: nat)
    requires n <= |t.fields| && FieldsUse(s, link, t, n) <= us
    ensures SameParts(link, us, FieldParts(s, link, t, n), FieldParts(s, Name, t, n))
  {
    if n == 0 {
      SameOneofParts(s, link, us, t, |t.oneofs|);
    } else {
      var fd := t.fields[n - 1];
      SameFieldParts(s, link, us, t, n - 1);
      SameValueSpec(s, link, us, fd, RulesFor(t, fd), FieldBase(fd));
      SameAddPart(s, link, us, FieldParts(s, link, t, n - 1), FieldParts(s, Name, t, n - 1),
                  MessageEvaluator.FieldRules(FieldSpec(s, link, t, n - 1)),
                    MessageEvaluator.FieldRules(FieldSpec(s, Name, t, n - 1)));
    }
  }

  /** The evaluator built with links is the one built by name, but for object identity; all its references are
      links of types that were requested. */
  lemma SameMessageSpec<R>(s: Setup, link: string -> R, us: set<string>, name: string)
    requires name in s.schema && MessageUses(s, link, name) <= us
    ensures SameMessage(link, us, MessageSpec(s, link, name), MessageSpec(s, Name, name))
  {
    var t := s.schema[name];
    SameFieldParts(s, link, us, t, |t.fields|);
    match s.compilers.message(name)
    case Compiled(ps) => SameAddPart<R>(s, link, us, [], [], CelMessage(ps), CelMessage(ps));
    case NotCompiled(_) =>
  }

  /* ---- The same evaluators find the same ---- */

  // What the links lead to is the same as what the names stand for.
  ghost predicate SameEnv<R>(link: string -> R, us: set<string>, env: Env<R>, names: Env<string>) {
    forall u :: u in us ==> SameMessage(link, us, env(link(u)), names(u))
  }

  lemma {:induction false} MessageFindsSame<R>(
      link: string -> R, us: set<string>, env: Env<R>, names: Env<string>, checks: Checks, a: MessageEval<R>,
      b: MessageEval<string>, m: Message)
    requires SameEnv(link, us, env, names) && SameMessage(link, us, a, b)
    ensures MessageAtoms(env, checks, a, m) == MessageAtoms(names, checks, b, m)
    decreases m, b, 1
  {
    PartsFindSame(link, us, env, names, checks, a.evaluators, b.evaluators, m);
    PartsFindSame(link, us, env, names, checks, a.nested, b.nested, m);
  }

  lemma {:induction false} PartsFindSame<R>(
      link: string -> R, us: set<string>, env: Env<R>, names: Env<string>, checks: Checks, a: seq<MessageEvaluator<R>>,
      b: seq<MessageEvaluator<string>>, m: Message)
    requires SameEnv(link, us, env, names) && SameParts(link, us, a, b)
    ensures PartsAtoms(env, checks, a, m) == PartsAtoms(names, checks, b, m)
    decreases m, b, 1
  {
    if b != [] {
      PartFindsSame(link, us, env, names, checks, a[0], b[0], m);
      PartsFindSame(link, us, env, names, checks, a[1..], b[1..], m);
    }
  }

  lemma {:induction false} PartFindsSame<R>(
      link: string -> R, us: set<string>, env: Env<R>, names: Env<string>, checks: Checks, a: MessageEvaluator<R>,
      b: MessageEvaluator<string>, m: Message)
    requires SameEnv(link, us, env, names) && SamePart(link, us, a, b)
    ensures PartAtoms(env, checks, a, m) == PartAtoms(names, checks, b, m)
    decreases m, b, 1
  {
    if b.FieldRules? && b.field.field < |m.slots| {
      ValueFindsSame(link, us, env, names, checks, a.field.value, b.field.value, m.slots[b.field.field].value, true);
    }
  }

  lemma {:induction false} ValueFindsSame<R>(
      link: string -> R, us: set<string>, env: Env<R>, names: Env<string>, checks: Checks, a: ValueEval<R>,
      b: ValueEval<string>, v: Value, shouldValidate: bool)
    requires SameEnv(link, us, env, names) && SameValue(link, us, a, b)
    ensures ValueAtoms(env, checks, a, v, shouldValidate) == ValueAtoms(names, checks, b, v, shouldValidate)
    decreases v, b, 1
  {
    RulesFindSame(link, us, env, names, checks, a.rules, b.rules, v);
    RulesFindSame(link, us, env, names, checks, a.nestedRules, b.nestedRules, v);
  }

  lemma {:induction false} RulesFindSame<R>(
      link: string -> R, us: set<string>, env: Env<R>, names: Env<string>, checks: Checks, a: seq<Evaluator<R>>,
      b: seq<Evaluator<string>>, v: Value)
    requires SameEnv(link, us, env, names) && SameRules(link, us, a, b)
    ensures RulesAtoms(env, checks, a, v) == RulesAtoms(names, checks, b, v)
    decreases v, b, 1
  {
    if b != [] {
      RuleFindsSame(link, us, env, names, checks, a[0], b[0], v);
      RulesFindSame(link, us, env, names, checks, a[1..], b[1..], v);
    }
  }

  lemma {:induction false} RuleFindsSame<R>(
      link: string -> R, us: set<string>, env: Env<R>, names: Env<string>, checks: Checks, a: Evaluator<R>,
      b: Evaluator<string>, v: Value)
    requires SameEnv(link, us, env, names) && SameRule(link, us, a, b)
    ensures RuleAtoms(env, checks, a, v) == RuleAtoms(names, checks, b, v)
    decreases v, b, 1
  {
    match b
    case EmbeddedMessage(_, u) => if v.Embed? { MessageFindsSame(link, us, env, names, checks, env(link(u)), names(u),
      v.m); }
    case ListItems(base, items) => ItemsFindSame(link, us, env, names, checks, base, a.itemRules, items, v, 0);
    case KvPairs(base, keys, values) =>
      EntriesFindSame(link, us, env, names, checks, base, a.keyRules, keys, a.valueRules, values, v, 0);
    case Evaluators(rules) => RulesFindSame(link, us, env, names, checks, a.rules, rules, v);
    case _ =>
  }

  lemma {:induction false} ItemsFindSame<R>(
      link: string -> R, us: set<string>, env: Env<R>, names: Env<string>, checks: Checks, base: Base, a: ValueEval<R>,
      b: ValueEval<string>, v: Value, i: nat)
    requires SameEnv(link, us, env, names) && SameValue(link, us, a, b) && i <= |Items(v)|
    ensures ItemsAtoms(env, checks, base, a, v, i) == ItemsAtoms(names, checks, base, b, v, i)
    decreases v, b, |Items(v)| - i
  {
    if i < |Items(v)| {
      ValueFindsSame(link, us, env, names, checks, a, b, v.items[i], true);
      ItemsFindSame(link, us, env, names, checks, base, a, b, v, i + 1);
    }
  }

  lemma {:induction false} EntriesFindSame<R>(
      link: string -> R, us: set<string>, env: Env<R>, names: Env<string>, checks: Checks, base: Base, a: ValueEval<R>,
      b: ValueEval<string>, c: ValueEval<R>, d: ValueEval<string>, v: Value, i: nat)
    requires SameEnv(link, us, env, names) && SameValue(link, us, a, b) && SameValue(link, us, c, d)
    requires i <= |Entries(v)|
    ensures EntriesAtoms(env, checks, base, a, c, v, i) == EntriesAtoms(names, checks, base, b, d, v, i)
    decreases v, b, |Entries(v)| - i
  {
    if i < |Entries(v)| {
      ValueFindsSame(link, us, env, names, checks, a, b, v.entries[i].key, true);
      ValueFindsSame(link, us, env, names, checks, c, d, v.entries[i].value, true);
      assert PairAtoms(env, checks, a, c, v.entries[i]) == PairAtoms(names, checks, b, d, v.entries[i]);
      EntriesFindSame(link, us, env, names, checks, base, a, b, c, d, v, i + 1);
    }
  }

  /** A set of types whose evaluators are built with links among themselves finds what the type names stand for,
      so the result does not depend on which objects they are, or on what was built before, lazily or as seeds. */
  lemma GraphFindsSame<R>(
      s: Setup, link: string -> R, us: set<string>, env: Env<R>, checks: Checks, name: string, m: Message)
    requires us <= s.schema.Keys && name in us
    requires forall u :: u in us ==> MessageUses(s, link, u) <= us && env(link(u)) == MessageSpec(s, link, u)
    ensures LoadedAtoms(env, checks, Some(link(name)), m) == LoadedAtoms(Stands(s), checks, Some(name), m)
  {
    forall u | u in us
      ensures SameMessage(link, us, env(link(u)), Stands(s)(u))
    {
      SameMessageSpec(s, link, us, u);
    }
    MessageFindsSame(link, us, env, Stands(s), checks, env(link(name)), Stands(s)(name), m);
  }
}
