/** Tautologies: evaluators that report to be one never find anything, whatever the value, the filter and the
    mode, so the tree that Append and AppendNested build, which leaves them out, means what the full tree does. */
module EvalElide {
  import opened Options
  import opened Outcomes
  import opened EvalTree

  /* ---- Tautology ---- */

  predicate RulesTautology<R>(es: seq<Evaluator<R>>) {
    forall k :: 0 <= k < |es| ==> RuleTautology(es[k])
  }

  predicate RuleTautology<R>(e: Evaluator<R>) {
    match e
    case CelPrograms(_, programs) => programs == []
    case AnyPb(_, _, allowed, blocked) => allowed == [] && blocked == []
    case DefinedEnum(_, _) => false
    case EmbeddedMessage(_, _) => false // message.Tautology is always false
    case ListItems(_, itemRules) => ValueTautology(itemRules)
    case KvPairs(_, keyRules, valueRules) => ValueTautology(keyRules) && ValueTautology(valueRules)
    case Evaluators(rules) => RulesTautology(rules)
  }

  predicate ValueTautology<R>(e: ValueEval<R>) {
    RulesTautology(e.rules) && RulesTautology(e.nestedRules)
  }

  predicate FieldTautology<R>(f: FieldEval<R>) {
    !f.required && ValueTautology(f.value) && f.err.None?
  }

  predicate PartTautology<R>(e: MessageEvaluator<R>) {
    match e
    case CelMessage(programs) => programs == []
    case MessageOneof(_, _) => false
    case Oneof(_, _, required) => !required
    case FieldRules(f) => FieldTautology(f)
  }

  /** evaluators.Tautology, a loop that stops at the first that is none */
  method AllTautologies<R>(es: seq<Evaluator<R>>) returns (all: bool)
    ensures all <==> RulesTautology(es)
  {
    for i := 0 to |es|
      invariant forall k :: 0 <= k < i ==> RuleTautology(es[k])
    {
      if !RuleTautology(es[i]) { return false; }
    }
    return true;
  }

  /* ---- A tautology finds nothing ---- */

  lemma {:induction false} RulesFindNothing<R(!new)>(env: Env<R>, checks: Checks, es: seq<Evaluator<R>>, v: Value)
    requires RulesTautology(es)
    ensures RulesAtoms(env, checks, es, v) == []
    decreases v, es, 1
  {
    if es != [] {
      RuleFindsNothing(env, checks, es[0], v);
      RulesFindNothing(env, checks, es[1..], v);
    }
  }

  lemma {:induction false} RuleFindsNothing<R(!new)>(env: Env<R>, checks: Checks, e: Evaluator<R>, v: Value)
    requires RuleTautology(e)
    ensures RuleAtoms(env, checks, e, v) == []
    decreases v, e, 1
  {
    match e
    case CelPrograms(_, programs) =>
    case AnyPb(_, _, allowed, blocked) =>
    case ListItems(base, itemRules) => ItemsFindNothing(env, checks, base, itemRules, v, 0);
    case KvPairs(base, keyRules, valueRules) => EntriesFindNothing(env, checks, base, keyRules, valueRules, v, 0);
    case Evaluators(rules) => RulesFindNothing(env, checks, rules, v);
  }

  lemma {:induction false} ValueFindsNothing<R(!new)>(
      env: Env<R>, checks: Checks, e: ValueEval<R>, v: Value, shouldValidate: bool)
    requires ValueTautology(e)
    ensures ValueAtoms(env, checks, e, v, shouldValidate) == []
    decreases v, e, 1
  {
    RulesFindNothing(env, checks, e.rules, v);
    RulesFindNothing(env, checks, e.nestedRules, v);
  }

  lemma {:induction false} ItemsFindNothing<R(!new)>(
      env: Env<R>, checks: Checks, base: Base, e: ValueEval<R>, v: Value, i: nat)
    requires ValueTautology(e) && i <= |Items(v)|
    ensures ItemsAtoms(env, checks, base, e, v, i) == []
    decreases v, e, |Items(v)| - i
  {
    if i < |Items(v)| {
      ValueFindsNothing(env, checks, e, v.items[i], true);
      ItemsFindNothing(env, checks, base, e, v, i + 1);
    }
  }

  lemma {:induction false} EntriesFindNothing<R(!new)>(
      env: Env<R>, checks: Checks, base: Base, keys: ValueEval<R>, values: ValueEval<R>, v: Value, i: nat)
    requires ValueTautology(keys) && ValueTautology(values) && i <= |Entries(v)|
    ensures EntriesAtoms(env, checks, base, keys, values, v, i) == []
    decreases v, keys, |Entries(v)| - i
  {
    hide ValueTautology, ValueAtoms;
    if i < |Entries(v)| {
      ValueFindsNothing(env, checks, keys, v.entries[i].key, true);
      ValueFindsNothing(env, checks, values, v.entries[i].value, true);
      assert PairAtoms(env, checks, keys, values, v.entries[i]) == [];
      EntriesFindNothing(env, checks, base, keys, values, v, i + 1);
    }
  }

  /** A field evaluator that reports to be a tautology finds nothing in any message. */
  lemma FieldFindsNothing<R(!new)>(env: Env<R>, checks: Checks, f: FieldEval<R>, m: Message)
    requires FieldTautology(f)
    ensures FieldAtoms(env, checks, f, m) == []
  {
    if f.field < |m.slots| { ValueFindsNothing(env, checks, f.value, m.slots[f.field].value, true); }
  }

  lemma PartFindsNothing<R(!new)>(env: Env<R>, checks: Checks, e: MessageEvaluator<R>, m: Message)
    requires PartTautology(e)
    ensures PartAtoms(env, checks, e, m) == []
  {
    if e.FieldRules? { FieldFindsNothing(env, checks, e.field, m); }
  }

  /* ---- Building with Append and AppendNested ---- */

  // value.Append and value.AppendNested
  function Append<R>(es: seq<Evaluator<R>>, e: Evaluator<R>): seq<Evaluator<R>> {
    if RuleTautology(e) then es else es + [e]
  }

  // message.Append and message.AppendNested
  function AppendPart<R>(es: seq<MessageEvaluator<R>>, e: MessageEvaluator<R>): seq<MessageEvaluator<R>> {
    if PartTautology(e) then es else es + [e]
  }

  // What is built when the evaluators of a full tree are appended one after the other, each built that way.
  function ElideRules<R>(es: seq<Evaluator<R>>): seq<Evaluator<R>> {
    if es == [] then [] else Append(ElideRules(es[..|es| - 1]), ElideRule(es[|es| - 1]))
  }

  function ElideRule<R>(e: Evaluator<R>): Evaluator<R> {
    match e
    case ListItems(base, itemRules) => ListItems(base, ElideValue(itemRules))
    case KvPairs(base, keyRules, valueRules) => KvPairs(base, ElideValue(keyRules), ElideValue(valueRules))
    case Evaluators(rules) => Evaluators(ElideRules(rules))
    case _ => e
  }

  function ElideValue<R>(e: ValueEval<R>): ValueEval<R> {
    e.(rules := ElideRules(e.rules), nestedRules := ElideRules(e.nestedRules))
  }

  function ElideParts<R>(es: seq<MessageEvaluator<R>>): seq<MessageEvaluator<R>> {
    if es == [] then [] else AppendPart(ElideParts(es[..|es| - 1]), ElidePart(es[|es| - 1]))
  }

  function ElidePart<R>(e: MessageEvaluator<R>): MessageEvaluator<R> {
    if e.FieldRules? then FieldRules(e.field.(value := ElideValue(e.field.value))) else e
  }

  function Elide<R>(e: MessageEval<R>): MessageEval<R> {
    e.(evaluators := ElideParts(e.evaluators), nested := ElideParts(e.nested))
  }

  /* ---- The built tree means the same ---- */

  ghost predicate Elided<R(!new)>(env: Env<R>, built: Env<R>) {
    forall r :: built(r) == Elide(env(r))
  }

  lemma {:induction false} RulesSnoc<R(!new)>(
      env: Env<R>, checks: Checks, es: seq<Evaluator<R>>, e: Evaluator<R>, v: Value)
    ensures RulesAtoms(env, checks, es + [e], v) == RulesAtoms(env, checks, es, v) + RuleAtoms(env, checks, e, v)
    decreases |es|
  {
    if es == [] {
      assert (es + [e])[1..] == [];
    } else {
      assert (es + [e])[0] == es[0] && (es + [e])[1..] == es[1..] + [e];
      RulesSnoc(env, checks, es[1..], e, v);
    }
  }

  lemma {:induction false} PartsSnoc<R(!new)>(
      env: Env<R>, checks: Checks, es: seq<MessageEvaluator<R>>, e: MessageEvaluator<R>, m: Message)
    ensures PartsAtoms(env, checks, es + [e], m) == PartsAtoms(env, checks, es, m) + PartAtoms(env, checks, e, m)
    decreases |es|
  {
    if es == [] {
      assert (es + [e])[1..] == [];
    } else {
      assert (es + [e])[0] == es[0] && (es + [e])[1..] == es[1..] + [e];
      PartsSnoc(env, checks, es[1..], e, m);
    }
  }

  /** Checking with the built tree finds exactly what checking with the full tree does. */
  lemma {:induction false} MessageElided<R(!new)>(
      env: Env<R>, built: Env<R>, checks: Checks, e: MessageEval<R>, m: Message)
    requires Elided(env, built)
    ensures MessageAtoms(built, checks, Elide(e), m) == MessageAtoms(env, checks, e, m)
    decreases m, e, 1
  {
    PartsElided(env, built, checks, e.evaluators, m);
    PartsElided(env, built, checks, e.nested, m);
  }

  lemma {:induction false} PartsElided<R(!new)>(
      env: Env<R>, built: Env<R>, checks: Checks, es: seq<MessageEvaluator<R>>, m: Message)
    requires Elided(env, built)
    ensures PartsAtoms(built, checks, ElideParts(es), m) == PartsAtoms(env, checks, es, m)
    decreases m, es, 1
  {
    if es != [] {
      var front, last := es[..|es| - 1], es[|es| - 1];
      assert es == front + [last];
      PartsElided(env, built, checks, front, m);
      PartElided(env, built, checks, last, m);
      PartsSnoc(env, checks, front, last, m);
      if PartTautology(ElidePart(last)) {
        PartFindsNothing(built, checks, ElidePart(last), m);
      } else {
        PartsSnoc(built, checks, ElideParts(front), ElidePart(last), m);
      }
    }
  }

  lemma {:induction false} PartElided<R(!new)>(
      env: Env<R>, built: Env<R>, checks: Checks, e: MessageEvaluator<R>, m: Message)
    requires Elided(env, built)
    ensures PartAtoms(built, checks, ElidePart(e), m) == PartAtoms(env, checks, e, m)
    decreases m, e, 1
  {
    if e.FieldRules? && e.field.field < |m.slots| {
      ValueElided(env, built, checks, e.field.value, m.slots[e.field.field].value, true);
    }
  }

  lemma {:induction false} ValueElided<R(!new)>(
      env: Env<R>, built: Env<R>, checks: Checks, e: ValueEval<R>, v: Value, shouldValidate: bool)
    requires Elided(env, built)
    ensures ValueAtoms(built, checks, ElideValue(e), v, shouldValidate) == ValueAtoms(env, checks, e, v, shouldValidate)
    decreases v, e, 1
  {
    RulesElided(env, built, checks, e.rules, v);
    RulesElided(env, built, checks, e.nestedRules, v);
  }

  lemma {:induction false} RulesElided<R(!new)>(
      env: Env<R>, built: Env<R>, checks: Checks, es: seq<Evaluator<R>>, v: Value)
    requires Elided(env, built)
    ensures RulesAtoms(built, checks, ElideRules(es), v) == RulesAtoms(env, checks, es, v)
    decreases v, es, 1
  {
    if es != [] {
      var front, last := es[..|es| - 1], es[|es| - 1];
      assert es == front + [last];
      RulesElided(env, built, checks, front, v);
      RuleElided(env, built, checks, last, v);
      RulesSnoc(env, checks, front, last, v);
      if RuleTautology(ElideRule(last)) {
        RuleFindsNothing(built, checks, ElideRule(last), v);
      } else {
        RulesSnoc(built, checks, ElideRules(front), ElideRule(last), v);
      }
    }
  }

  lemma {:induction false} RuleElided<R(!new)>(env: Env<R>, built: Env<R>, checks: Checks, e: Evaluator<R>, v: Value)
    requires Elided(env, built)
    ensures RuleAtoms(built, checks, ElideRule(e), v) == RuleAtoms(env, checks, e, v)
    decreases v, e, 1
  {
    match e
    case EmbeddedMessage(base, r) => if v.Embed? { MessageElided(env, built, checks, env(r), v.m); }
    case ListItems(base, itemRules) => ItemsElided(env, built, checks, base, itemRules, v, 0);
    case KvPairs(base, keyRules, valueRules) => EntriesElided(env, built, checks, base, keyRules, valueRules, v, 0);
    case Evaluators(rules) => RulesElided(env, built, checks, rules, v);
    case _ =>
  }

  lemma {:induction false} ItemsElided<R(!new)>(
      env: Env<R>, built: Env<R>, checks: Checks, base: Base, e: ValueEval<R>, v: Value, i: nat)
    requires Elided(env, built) && i <= |Items(v)|
    ensures ItemsAtoms(built, checks, base, ElideValue(e), v, i) == ItemsAtoms(env, checks, base, e, v, i)
    decreases v, e, |Items(v)| - i
  {
    if i < |Items(v)| {
      ValueElided(env, built, checks, e, v.items[i], true);
      ItemsElided(env, built, checks, base, e, v, i + 1);
    }
  }

  lemma {:induction false} EntriesElided<R(!new)>(
      env: Env<R>, built: Env<R>, checks: Checks, base: Base, keys: ValueEval<R>, values: ValueEval<R>, v: Value,
      i: nat)
    requires Elided(env, built) && i <= |Entries(v)|
    ensures EntriesAtoms(built, checks, base, ElideValue(keys), ElideValue(values), v, i) ==
            EntriesAtoms(env, checks, base, keys, values, v, i)
    decreases v, keys, |Entries(v)| - i
  {
    if i < |Entries(v)| {
      ValueElided(env, built, checks, keys, v.entries[i].key, true);
      ValueElided(env, built, checks, values, v.entries[i].value, true);
      assert PairAtoms(built, checks, ElideValue(keys), ElideValue(values), v.entries[i]) ==
             PairAtoms(env, checks, keys, values, v.entries[i]);
      EntriesElided(env, built, checks, base, keys, values, v, i + 1);
    }
  }
}
