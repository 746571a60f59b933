/** Where violations are: the same checks, listed from the root of the message down with the path to each
    of them, instead of collecting path elements leaf first. */
module EvalPaths {
  import opened Options
  import opened Outcomes
  import opened EvalTree

  // The place of a value: the path to the message that has the field, the field's own element with its
  // subscript, the part of the rules that pertains to it, and whether it is (inside) a map key.
  datatype Spot = Spot(at: seq<PathElement>, element: PathElement, rulePrefix: seq<PathElement>, inKey: bool)

  function Here(spot: Spot): seq<PathElement> { spot.at + [spot.element] }

  function ItemSpot(spot: Spot, i: nat): Spot {
    spot.(element := spot.element.(subscript := Index(i)), rulePrefix := ITEM_RULES)
  }

  function KeySpot(spot: Spot, key: Value): Spot {
    spot.(element := spot.element.(subscript := KeySubscript(key)), rulePrefix := KEY_RULES, inKey := true)
  }

  function EntrySpot(spot: Spot, key: Value): Spot {
    spot.(element := spot.element.(subscript := KeySubscript(key)), rulePrefix := VALUE_RULES)
  }

  /* ---- The checks with their places, from the root down ---- */

  // Give every violation of a leaf, which has no path yet, a place and a rule prefix.
  function PutAll(path: seq<PathElement>, rulePrefix: seq<PathElement>, inKey: bool, atoms: seq<Atom>): seq<Atom> {
    if atoms == [] then [] else
      [if atoms[0].Violated? then Violated(Violation(path, rulePrefix + atoms[0].v.rule, inKey, atoms[0].v.ruleId))
        else atoms[0]]
      + PutAll(path, rulePrefix, inKey, atoms[1..])
  }

  function TopMessage<R>(
      env: Env<R>, checks: Checks, e: MessageEval<R>, m: Message, at: seq<PathElement>, inKey: bool): seq<Atom>
    decreases m, e, 1
  {
    if !checks.filter(m, MessageDescriptor(m.typeName)) then TopParts(env, checks, e.nested, m, at, inKey)
    else if e.err.Some? then [Failed(e.err.value)]
    else TopParts(env, checks, e.evaluators, m, at, inKey) + TopParts(env, checks, e.nested, m, at, inKey)
  }

  function TopParts<R>(
      env: Env<R>, checks: Checks, es: seq<MessageEvaluator<R>>, m: Message, at: seq<PathElement>,
      inKey: bool): seq<Atom>
    decreases m, es, 1
  {
    if es == [] then [] else
      TopPart(env, checks, es[0], m, at, inKey) + TopParts(env, checks, es[1..], m, at, inKey)
  }

  function TopPart<R>(
      env: Env<R>, checks: Checks, e: MessageEvaluator<R>, m: Message, at: seq<PathElement>, inKey: bool): seq<Atom>
    decreases m, e, 1
  {
    match e
    case CelMessage(programs) => PutAll(at, [], inKey, ProgramAtoms(checks, programs, Embed(m)))
    case MessageOneof(fields, required) => PutAll(at, [], inKey, MessageOneofAtoms(checks, m, fields, required))
    case Oneof(oneof, members, required) =>
      PutAll(at + [Plain(oneof)], [], inKey, OneofAtoms(checks, m, oneof, members, required))
    case FieldRules(f) => TopField(env, checks, f, m, at, inKey)
  }

  function TopField<R>(
      env: Env<R>, checks: Checks, f: FieldEval<R>, m: Message, at: seq<PathElement>, inKey: bool): seq<Atom>
    decreases m, f, 1
  {
    var element := Plain(f.name);
    if f.ignore.Always? || !checks.filter(m, FieldDescriptor(f.field)) then []
    else if f.err.Some? then [Failed(f.err.value)]
    else if Has(m, f.field) || !(f.required || f.hasPresence || f.ignore.IfZeroValue?)
    then if f.field < |m.slots|
         then TopValue(env, checks, f.value, m.slots[f.field].value, Spot(at, element, [], inKey)) else []
    else if f.required then [Violated(Violation(at + [element], [Plain("required")], inKey, "required"))]
    else []
  }

  function TopValue<R>(env: Env<R>, checks: Checks, e: ValueEval<R>, v: Value, spot: Spot): seq<Atom>
    decreases v, e, 1
  {
    if e.ignoreEmpty && v == e.zero then []
    else TopRules(env, checks, e.rules, v, spot) + TopRules(env, checks, e.nestedRules, v, spot)
  }

  function TopRules<R>(env: Env<R>, checks: Checks, es: seq<Evaluator<R>>, v: Value, spot: Spot): seq<Atom>
    decreases v, es, 1
  {
    if es == [] then [] else TopRule(env, checks, es[0], v, spot) + TopRules(env, checks, es[1..], v, spot)
  }

  function TopRule<R>(env: Env<R>, checks: Checks, e: Evaluator<R>, v: Value, spot: Spot): seq<Atom>
    decreases v, e, 1
  {
    match e
    case CelPrograms(_, programs) => PutAll(Here(spot), spot.rulePrefix, spot.inKey, ProgramAtoms(checks, programs, v))
    case AnyPb(_, typeUrl, allowed, blocked) =>
      PutAll(Here(spot), spot.rulePrefix, spot.inKey, AnyAtoms(NOWHERE, UrlOf(v, typeUrl), allowed, blocked))
    case DefinedEnum(_, numbers) => PutAll(Here(spot), spot.rulePrefix, spot.inKey, EnumAtoms(NOWHERE, numbers, v))
    case EmbeddedMessage(_, r) => if v.Embed? then TopMessage(env, checks, env(r), v.m, Here(spot), spot.inKey) else []
    case ListItems(_, itemRules) => TopItems(env, checks, itemRules, v, spot, 0)
    case KvPairs(_, keyRules, valueRules) => TopEntries(env, checks, keyRules, valueRules, v, spot, 0)
    case Evaluators(rules) => TopRules(env, checks, rules, v, spot)
  }

  const NOWHERE := Base(None, [])

  function TopItems<R>(env: Env<R>, checks: Checks, e: ValueEval<R>, v: Value, spot: Spot, i: nat): seq<Atom>
    requires i <= |Items(v)|
    decreases v, e, |Items(v)| - i
  {
    if i == |Items(v)| then [] else
      TopValue(env, checks, e, v.items[i], ItemSpot(spot, i)) + TopItems(env, checks, e, v, spot, i + 1)
  }

  function TopEntries<R>(
      env: Env<R>, checks: Checks, keys: ValueEval<R>, values: ValueEval<R>, v: Value, spot: Spot, i: nat): seq<Atom>
    requires i <= |Entries(v)|
    decreases v, keys, |Entries(v)| - i
  {
    if i == |Entries(v)| then [] else
      var entry := v.entries[i];
      TopValue(env, checks, keys, entry.key, KeySpot(spot, entry.key)) +
      TopValue(env, checks, values, entry.value, EntrySpot(spot, entry.key)) +
      TopEntries(env, checks, keys, values, v, spot, i + 1)
  }

  /* ---- Trees as the builder makes them ---- */

  // The evaluators of a field's own value carry the field's element and no rule prefix. Those of list items,
  // map keys and map values carry the prefix and no element, and are no lists or maps again.
  ghost predicate FitsRules<R(!new)>(es: seq<Evaluator<R>>, own: Option<PathElement>, rulePrefix: seq<PathElement>) {
    forall k :: 0 <= k < |es| ==> FitsRule(es[k], own, rulePrefix)
  }

  ghost predicate FitsRule<R(!new)>(e: Evaluator<R>, own: Option<PathElement>, rulePrefix: seq<PathElement>) {
    match e
    case Evaluators(rules) => FitsRules(rules, own, rulePrefix)
    case ListItems(base, itemRules) =>
      base == Base(own, rulePrefix) && own.Some? && rulePrefix == [] && FitsValue(itemRules, None, ITEM_RULES)
    case KvPairs(base, keyRules, valueRules) =>
      base == Base(own, rulePrefix) && own.Some? && rulePrefix == [] &&
      FitsValue(keyRules, None, KEY_RULES) && FitsValue(valueRules, None, VALUE_RULES)
    case _ => e.base == Base(own, rulePrefix)
  }

  ghost predicate FitsValue<R(!new)>(e: ValueEval<R>, own: Option<PathElement>, rulePrefix: seq<PathElement>) {
    FitsRules(e.rules, own, rulePrefix) && FitsRules(e.nestedRules, own, rulePrefix)
  }

  ghost predicate FitsParts<R(!new)>(es: seq<MessageEvaluator<R>>) {
    forall k :: 0 <= k < |es| && es[k].FieldRules? ==>
      FitsValue(es[k].field.value, Some(Plain(es[k].field.name)), [])
  }

  ghost predicate FitsMessage<R(!new)>(e: MessageEval<R>) {
    FitsParts(e.evaluators) && FitsParts(e.nested)
  }

  ghost predicate FitsEnv<R(!new)>(env: Env<R>) {
    forall r :: FitsMessage(env(r))
  }

  /* ---- The two listings agree ---- */

  function AnchorOf(spot: Spot, own: Option<PathElement>): Change {
    Anchored(if own.Some? then spot.at else Here(spot), spot.inKey)
  }

  ghost predicate IsBare(a: Atom, field: seq<PathElement>) {
    a.Violated? ==> a.v.field == field && !a.v.forKey
  }

  ghost predicate Bare(atoms: seq<Atom>, field: seq<PathElement>) {
    forall k :: 0 <= k < |atoms| ==> IsBare(atoms[k], field)
  }

  // A leaf's violations have the element of its base for a path, or none.
  lemma {:induction false} PutPlaced(spot: Spot, own: Option<PathElement>, atoms: seq<Atom>)
    requires own.Some? ==> own.value == spot.element
    requires Bare(atoms, [])
    ensures PutAll(Here(spot), spot.rulePrefix, spot.inKey, atoms) ==
            ChangeAtoms(AnchorOf(spot, own), ChangeAtoms(Place(ElementOf(Base(own, [])), spot.rulePrefix), atoms))
    decreases |atoms|
  {
    var p, c := Place(ElementOf(Base(own, [])), spot.rulePrefix), AnchorOf(spot, own);
    if atoms == [] {
      assert ChangeAtoms(p, atoms) == [];
    } else {
      var placed := ChangeAtoms(p, atoms);
      assert placed == [ChangeAtom(p, atoms[0])] + ChangeAtoms(p, atoms[1..]);
      assert ChangeAtoms(c, placed) == [ChangeAtom(c, ChangeAtom(p, atoms[0]))] +
        ChangeAtoms(c, ChangeAtoms(p, atoms[1..]));
      PutPlaced(spot, own, atoms[1..]);
      assert IsBare(atoms[0], []);
      assert [] + ElementOf(Base(own, [])) == ElementOf(Base(own, []));
      assert Reverse([spot.element]) == [spot.element] && Here(spot) + [] == Here(spot);
    }
  }

  lemma {:induction false} PutAnchored(at: seq<PathElement>, element: seq<PathElement>, inKey: bool, atoms: seq<Atom>)
    requires |element| <= 1
    requires Bare(atoms, element)
    ensures PutAll(at + element, [], inKey, atoms) == ChangeAtoms(Anchored(at, inKey), atoms)
    decreases |atoms|
  {
    if atoms != [] {
      assert IsBare(atoms[0], element);
      PutAnchored(at, element, inKey, atoms[1..]);
      assert Reverse(element) == element by {
        if element != [] { assert element == [element[0]] && Reverse(element[1..]) == []; }
      }
      assert atoms[0].Violated? ==> [] + atoms[0].v.rule == atoms[0].v.rule;
    }
  }

  lemma {:induction false} ProgramsBare(checks: Checks, ps: seq<Program>, v: Value)
    ensures Bare(ProgramAtoms(checks, ps, v), [])
  {
    if ps != [] {
      ProgramsBare(checks, ps[1..], v);
      var rest := ProgramAtoms(checks, ps[1..], v);
      assert ProgramAtoms(checks, ps, v) == [ProgramAtom(checks, ps[0], v)] + rest;
      forall k | 1 <= k <= |rest|
        ensures IsBare(ProgramAtoms(checks, ps, v)[k], [])
      {
        assert IsBare(rest[k - 1], []);
      }
    }
  }

  lemma {:induction false} TopIsMessage<R(!new)>(
      env: Env<R>, checks: Checks, e: MessageEval<R>, m: Message, at: seq<PathElement>, inKey: bool)
    requires FitsEnv(env) && FitsMessage(e)
    ensures TopMessage(env, checks, e, m, at, inKey) ==
            ChangeAtoms(Anchored(at, inKey), MessageAtoms(env, checks, e, m))
    decreases m, e, 1
  {
    TopIsParts(env, checks, e.evaluators, m, at, inKey);
    TopIsParts(env, checks, e.nested, m, at, inKey);
    ChangeAppend(Anchored(at, inKey), PartsAtoms(env, checks, e.evaluators, m), PartsAtoms(env, checks, e.nested, m));
  }

  lemma {:induction false} TopIsParts<R(!new)>(
      env: Env<R>, checks: Checks, es: seq<MessageEvaluator<R>>, m: Message, at: seq<PathElement>, inKey: bool)
    requires FitsEnv(env) && FitsParts(es)
    ensures TopParts(env, checks, es, m, at, inKey) == ChangeAtoms(Anchored(at, inKey), PartsAtoms(env, checks, es, m))
    decreases m, es, 1
  {
    if es != [] {
      TopIsPart(env, checks, es[0], m, at, inKey);
      TopIsParts(env, checks, es[1..], m, at, inKey);
      ChangeAppend(Anchored(at, inKey), PartAtoms(env, checks, es[0], m), PartsAtoms(env, checks, es[1..], m));
    }
  }

  lemma {:induction false} TopIsPart<R(!new)>(
      env: Env<R>, checks: Checks, e: MessageEvaluator<R>, m: Message, at: seq<PathElement>, inKey: bool)
    requires FitsEnv(env) && FitsParts([e])
    ensures TopPart(env, checks, e, m, at, inKey) == ChangeAtoms(Anchored(at, inKey), PartAtoms(env, checks, e, m))
    decreases m, e, 1
  {
    assert [e][0] == e;
    match e
    case CelMessage(programs) =>
      ProgramsBare(checks, programs, Embed(m));
      PutAnchored(at, [], inKey, ProgramAtoms(checks, programs, Embed(m)));
      assert at + [] == at;
    case MessageOneof(fields, required) =>
      PutAnchored(at, [], inKey, MessageOneofAtoms(checks, m, fields, required));
      assert at + [] == at;
    case Oneof(oneof, members, required) =>
      PutAnchored(at, [Plain(oneof)], inKey, OneofAtoms(checks, m, oneof, members, required));
    case FieldRules(f) => TopIsField(env, checks, f, m, at, inKey);
  }

  lemma {:induction false} TopIsField<R(!new)>(
      env: Env<R>, checks: Checks, f: FieldEval<R>, m: Message, at: seq<PathElement>, inKey: bool)
    requires FitsEnv(env) && FitsValue(f.value, Some(Plain(f.name)), [])
    ensures TopField(env, checks, f, m, at, inKey) == ChangeAtoms(Anchored(at, inKey), FieldAtoms(env, checks, f, m))
    decreases m, f, 1
  {
    hide ValueAtoms, TopValue, FitsValue;
    var element := Plain(f.name);
    assert Reverse([element]) == [element];
    if f.field < |m.slots| {
      TopIsValue(env, checks, f.value, m.slots[f.field].value, Spot(at, element, [], inKey), Some(element));
    }
  }

  lemma {:induction false} TopIsValue<R(!new)>(
      env: Env<R>, checks: Checks, e: ValueEval<R>, v: Value, spot: Spot, own: Option<PathElement>)
    requires FitsEnv(env) && FitsValue(e, own, spot.rulePrefix) && (own.Some? ==> own.value == spot.element)
    ensures TopValue(env, checks, e, v, spot) == ChangeAtoms(AnchorOf(spot, own), ValueAtoms(env, checks, e, v, true))
    decreases v, e, 1
  {
    TopIsRules(env, checks, e.rules, v, spot, own);
    TopIsRules(env, checks, e.nestedRules, v, spot, own);
    ChangeAppend(AnchorOf(spot, own), RulesAtoms(env, checks, e.rules, v), RulesAtoms(env, checks, e.nestedRules, v));
  }

  lemma {:induction false} TopIsRules<R(!new)>(
      env: Env<R>, checks: Checks, es: seq<Evaluator<R>>, v: Value, spot: Spot, own: Option<PathElement>)
    requires FitsEnv(env) && FitsRules(es, own, spot.rulePrefix) && (own.Some? ==> own.value == spot.element)
    ensures TopRules(env, checks, es, v, spot) == ChangeAtoms(AnchorOf(spot, own), RulesAtoms(env, checks, es, v))
    decreases v, es, 1
  {
    if es != [] {
      TopIsRule(env, checks, es[0], v, spot, own);
      TopIsRules(env, checks, es[1..], v, spot, own);
      ChangeAppend(AnchorOf(spot, own), RuleAtoms(env, checks, es[0], v), RulesAtoms(env, checks, es[1..], v));
    }
  }

  lemma {:induction false} TopIsRule<R(!new)>(
      env: Env<R>, checks: Checks, e: Evaluator<R>, v: Value, spot: Spot, own: Option<PathElement>)
    requires FitsEnv(env) && FitsRule(e, own, spot.rulePrefix) && (own.Some? ==> own.value == spot.element)
    ensures TopRule(env, checks, e, v, spot) == ChangeAtoms(AnchorOf(spot, own), RuleAtoms(env, checks, e, v))
    decreases v, e, 1
  {
    match e
    case CelPrograms(base, programs) =>
      ProgramsBare(checks, programs, v);
      PutPlaced(spot, own, ProgramAtoms(checks, programs, v));
    case AnyPb(base, typeUrl, allowed, blocked) =>
      PutPlaced(spot, own, AnyAtoms(NOWHERE, UrlOf(v, typeUrl), allowed, blocked));
      AnyPlaced(base, UrlOf(v, typeUrl), allowed, blocked);
    case DefinedEnum(base, numbers) =>
      PutPlaced(spot, own, EnumAtoms(NOWHERE, numbers, v));
      assert [] + ENUM_DEFINED_ONLY == ENUM_DEFINED_ONLY && [] + ElementOf(base) == ElementOf(base);
      assert EnumAtoms(base, numbers, v) ==
        ChangeAtoms(Place(ElementOf(base), base.rulePrefix), EnumAtoms(NOWHERE, numbers, v));
    case EmbeddedMessage(base, r) =>
      if v.Embed? {
        TopIsMessage(env, checks, env(r), v.m, Here(spot), spot.inKey);
        AnchorPlaced(if own.Some? then spot.at else Here(spot), spot.inKey, ElementOf(base),
          MessageAtoms(env, checks, env(r), v.m));
        assert Here(spot) + [] == Here(spot);
      }
    case ListItems(base, itemRules) => TopIsItems(env, checks, base, itemRules, v, spot, 0);
    case KvPairs(base, keyRules, valueRules) => TopIsEntries(env, checks, base, keyRules, valueRules, v, spot, 0);
    case Evaluators(rules) => TopIsRules(env, checks, rules, v, spot, own);
  }

  lemma AnyPlaced(base: Base, url: string, allowed: seq<string>, blocked: seq<string>)
    ensures AnyAtoms(base, url, allowed, blocked) ==
            ChangeAtoms(Place(ElementOf(base), base.rulePrefix), AnyAtoms(NOWHERE, url, allowed, blocked))
  {
    assert [] + ANY_IN == ANY_IN && [] + ANY_NOT_IN == ANY_NOT_IN && [] + ElementOf(base) == ElementOf(base);
    var c := Place(ElementOf(base), base.rulePrefix);
    var a := if allowed != [] && url !in allowed then [Violated(Violation([], ANY_IN, false, "any.in"))] else [];
    var b := if url in blocked then [Violated(Violation([], ANY_NOT_IN, false, "any.not_in"))] else [];
    ChangeAppend(c, a, b);
  }

  lemma {:induction false} TopIsItems<R(!new)>(
      env: Env<R>, checks: Checks, base: Base, e: ValueEval<R>, v: Value, spot: Spot, i: nat)
    requires FitsEnv(env) && FitsValue(e, None, ITEM_RULES) && base == Base(Some(spot.element), []) && i <= |Items(v)|
    ensures TopItems(env, checks, e, v, spot, i) ==
            ChangeAtoms(Anchored(spot.at, spot.inKey), ItemsAtoms(env, checks, base, e, v, i))
    decreases v, e, |Items(v)| - i
  {
    if i < |Items(v)| {
      TopIsValue(env, checks, e, v.items[i], ItemSpot(spot, i), None);
      AnchorPlaced(spot.at, spot.inKey, [Subscripted(base, Index(i))], ValueAtoms(env, checks, e, v.items[i], true));
      TopIsItems(env, checks, base, e, v, spot, i + 1);
      ChangeAppend(Anchored(spot.at, spot.inKey), ItemAtoms(env, checks, base, e, v, i),
        ItemsAtoms(env, checks, base, e, v, i + 1));
    }
  }

  lemma {:induction false} TopIsEntries<R(!new)>(
      env: Env<R>, checks: Checks, base: Base, keys: ValueEval<R>, values: ValueEval<R>, v: Value, spot: Spot, i: nat)
    requires FitsEnv(env) && FitsValue(keys, None, KEY_RULES) && FitsValue(values, None, VALUE_RULES)
    requires base == Base(Some(spot.element), []) && i <= |Entries(v)|
    ensures TopEntries(env, checks, keys, values, v, spot, i) ==
            ChangeAtoms(Anchored(spot.at, spot.inKey), EntriesAtoms(env, checks, base, keys, values, v, i))
    decreases v, keys, |Entries(v)| - i
  {
    if i < |Entries(v)| {
      var entry, c := v.entries[i], Anchored(spot.at, spot.inKey);
      var place := [Subscripted(base, KeySubscript(entry.key))];
      var a, b := ValueAtoms(env, checks, keys, entry.key, true), ValueAtoms(env, checks, values, entry.value, true);
      TopIsValue(env, checks, keys, entry.key, KeySpot(spot, entry.key), None);
      TopIsValue(env, checks, values, entry.value, EntrySpot(spot, entry.key), None);
      AnchorPlaced(spot.at, spot.inKey, place, PairAtoms(env, checks, keys, values, entry));
      ChangeAppend(Anchored(spot.at + place, spot.inKey), ChangeAtoms(MarkKey, a), b);
      AnchorKey(spot.at + place, spot.inKey, a);
      TopIsEntries(env, checks, base, keys, values, v, spot, i + 1);
      ChangeAppend(c, EntryAtoms(env, checks, base, keys, values, v, i),
        EntriesAtoms(env, checks, base, keys, values, v, i + 1));
    }
  }

  /** What Validate reports is what the listing from the root down amounts to: every violation carries the path
      from the root to its value, in order, although the evaluators appended the elements leaf first. */
  lemma PathsFromRoot<R(!new)>(env: Env<R>, checks: Checks, r: R, m: Message, failFast: bool)
    requires FitsEnv(env)
    ensures ChangeOutcome(Reversed, Run(LoadedAtoms(env, checks, Some(r), m), failFast)) ==
            Run(TopMessage(env, checks, env(r), m, [], false), failFast)
  {
    var atoms := MessageAtoms(env, checks, env(r), m);
    RunChange(Reversed, atoms, failFast);
    AnchorAtRoot(atoms);
    TopIsMessage(env, checks, env(r), m, [], false);
  }
}
