/** The shape of field paths: a path leads from the root message to a value, one element for every field on the
    way, where the subscript of an element picks the list item or map entry of that very field. */
module EvalChains {
  import opened Options
  import opened Outcomes
  import opened EvalTree
  import opened EvalPaths

  // The kinds of map keys
  predicate IsKey(key: Value) { key.Bool? || key.Int? || key.Uint? || key.Text? }

  // The key that a subscript names.
  function KeyOf(s: Subscript): Option<Value> {
    match s
    case NoSubscript => None
    case Index(_) => None
    case BoolKey(flag) => Some(Bool(flag))
    case IntKey(n) => Some(Int(n))
    case UintKey(n) => Some(Uint(n))
    case StringKey(text) => Some(Text(text))
  }

  /** The subscript of a map entry names its key and no other, whatever the kind of the key. */
  lemma SubscriptNamesKey(key: Value, other: Value)
    requires IsKey(key)
    ensures KeyOf(KeySubscript(key)) == Some(key)
    ensures IsKey(other) && KeySubscript(other) == KeySubscript(key) ==> other == key
  {
    assert IsKey(other) ==> KeyOf(KeySubscript(other)) == Some(other);
  }

  // w is what the subscript picks from the value of a field: the value itself, an item of a list, or the entry of a
  // map with the key that the subscript names.
  ghost predicate Picks(v: Value, s: Subscript, w: Value) {
    match s
    case NoSubscript => w == v || PicksEntry(v, None, w) // nothing names a key of another kind
    case Index(k) => k < |Items(v)| && w == Items(v)[k]
    case BoolKey(flag) => PicksEntry(v, Some(Bool(flag)), w)
    case IntKey(n) => PicksEntry(v, Some(Int(n)), w)
    case UintKey(n) => PicksEntry(v, Some(Uint(n)), w)
    case StringKey(text) => PicksEntry(v, Some(Text(text)), w)
  }

  ghost predicate PicksEntry(v: Value, key: Option<Value>, w: Value) {
    exists i :: 0 <= i < |Entries(v)| && IsEntry(Entries(v)[i], key, w)
  }

  predicate IsEntry(e: Entry, key: Option<Value>, w: Value) {
    (w == e.key || w == e.value) && if key.Some? then e.key == key.value else !IsKey(e.key)
  }

  lemma PicksByKey(v: Value, i: nat)
    requires i < |Entries(v)|
    ensures Picks(v, KeySubscript(v.entries[i].key), v.entries[i].key)
    ensures Picks(v, KeySubscript(v.entries[i].key), v.entries[i].value)
  {
    var e := Entries(v)[i];
    var key := if IsKey(e.key) then Some(e.key) else None;
    assert IsEntry(e, key, e.key) && IsEntry(e, key, e.value);
  }

  /* ---- The references of the evaluators of a value, those of items, keys and values included ---- */

  ghost predicate RulesRefer<R>(es: seq<Evaluator<R>>, r: R) {
    exists k :: 0 <= k < |es| && RuleRefers(es[k], r)
  }

  ghost predicate RuleRefers<R>(e: Evaluator<R>, r: R) {
    match e
    case EmbeddedMessage(_, message) => r == message
    case ListItems(_, itemRules) => ValueRefers(itemRules, r)
    case KvPairs(_, keyRules, valueRules) => ValueRefers(keyRules, r) || ValueRefers(valueRules, r)
    case Evaluators(rules) => RulesRefer(rules, r)
    case _ => false
  }

  ghost predicate ValueRefers<R>(e: ValueEval<R>, r: R) {
    RulesRefer(e.rules, r) || RulesRefer(e.nestedRules, r)
  }

  /* ---- Paths ---- */

  ghost predicate IsPart<R(!new)>(e: MessageEval<R>, part: MessageEvaluator<R>) {
    part in e.evaluators || part in e.nested
  }

  // The path leads from the message to a value below it, or to a field or oneof that is not set.
  ghost predicate Leads<R(!new)>(env: Env<R>, e: MessageEval<R>, m: Message, path: seq<PathElement>)
    decreases |path|, 2
  {
    || path == []
    || (exists part :: IsPart(e, part) && part.Oneof? && path == [Plain(part.oneof)])
    || (exists part :: IsPart(e, part) && part.FieldRules? && LeadsThrough(env, part.field, m, path))
  }

  ghost predicate LeadsThrough<R(!new)>(env: Env<R>, f: FieldEval<R>, m: Message, path: seq<PathElement>)
    requires path != []
    decreases |path|, 1
  {
    && path[0].name == f.name
    && (path == [Plain(f.name)] || (f.field < |m.slots| && Goes(env, f.value, m.slots[f.field].value, path)))
  }

  // The first element picks from the value; the others lead on from what it picks, through the evaluator of an
  // embedded message that the field's own evaluators e refer to.
  ghost predicate Goes<R(!new)>(env: Env<R>, e: ValueEval<R>, v: Value, path: seq<PathElement>)
    requires path != []
    decreases |path|, 0
  {
    exists w :: Picks(v, path[0].subscript, w) && Below(env, e, w, path[1..])
  }

  ghost predicate Below<R(!new)>(env: Env<R>, e: ValueEval<R>, w: Value, path: seq<PathElement>)
    decreases |path|, 3
  {
    path == [] || (w.Embed? && exists r :: ValueRefers(e, r) && Leads(env, env(r), w.m, path))
  }

  /* ---- Every listed violation has such a path ---- */

  ghost predicate LeadsFrom<R(!new)>(
      env: Env<R>, e: MessageEval<R>, m: Message, at: seq<PathElement>, path: seq<PathElement>) {
    at <= path && Leads(env, e, m, path[|at|..])
  }

  // own: the evaluators are those of a field's own value; otherwise of an item, key or value in it.
  ghost predicate Placed<R(!new)>(
      env: Env<R>, top: ValueEval<R>, v: Value, spot: Spot, own: bool, path: seq<PathElement>) {
    if own then
      |spot.at| < |path| && spot.at <= path && path[|spot.at|].name == spot.element.name &&
        Goes(env, top, v, path[|spot.at|..])
    else Here(spot) <= path && Below(env, top, v, path[|Here(spot)|..])
  }

  lemma PlaceOwn<R(!new)>(
      env: Env<R>, top: ValueEval<R>, v: Value, w: Value, spot: Spot, sub: Subscript, path: seq<PathElement>)
    requires Picks(v, sub, w) && Placed(env, top, w, spot.(element := spot.element.(subscript := sub)), false, path)
    ensures Placed(env, top, v, spot, true, path)
  {
    var here := spot.at + [spot.element.(subscript := sub)];
    var rest := path[|spot.at|..];
    assert path[..|here|] == here;
    assert path[..|spot.at|] == spot.at by { assert path[..|spot.at|] == here[..|spot.at|]; }
    assert rest[0] == path[|spot.at|] == here[|spot.at|] && rest[1..] == path[|here|..];
  }

  lemma {:induction false} PutAt(path: seq<PathElement>, rulePrefix: seq<PathElement>, inKey: bool, atoms: seq<Atom>)
    ensures forall a :: a in PutAll(path, rulePrefix, inKey, atoms) && a.Violated? ==> a.v.field == path
  {
    if atoms != [] { PutAt(path, rulePrefix, inKey, atoms[1..]); }
  }

  lemma LeafPlaced<R(!new)>(
      env: Env<R>, top: ValueEval<R>, v: Value, spot: Spot, own: Option<PathElement>, atoms: seq<Atom>)
    requires own.Some? ==> own.value == spot.element && spot.element.subscript == NoSubscript
    ensures forall a :: a in PutAll(Here(spot), spot.rulePrefix, spot.inKey, atoms) && a.Violated? ==>
              Placed(env, top, v, spot, own.Some?, a.v.field)
  {
    PutAt(Here(spot), spot.rulePrefix, spot.inKey, atoms);
    assert Here(spot)[|Here(spot)|..] == [] && Below(env, top, v, []);
    assert Placed(env, top, v, spot, false, Here(spot));
    if own.Some? {
      assert spot.(element := spot.element.(subscript := NoSubscript)) == spot;
      PlaceOwn(env, top, v, v, spot, NoSubscript, Here(spot));
    }
  }

  /** Every violation of a message has a path that leads on from where the message is. */
  lemma {:induction false} MessageLeads<R(!new)>(
      env: Env<R>, checks: Checks, e: MessageEval<R>, m: Message, at: seq<PathElement>, inKey: bool)
    requires FitsEnv(env) && FitsMessage(e)
    ensures forall a :: a in TopMessage(env, checks, e, m, at, inKey) && a.Violated? ==>
            LeadsFrom(env, e, m, at, a.v.field)
    decreases m, 3
  {
    PartsLead(env, checks, e, e.evaluators, m, at, inKey);
    PartsLead(env, checks, e, e.nested, m, at, inKey);
  }

  lemma {:induction false} PartsLead<R(!new)>(
      env: Env<R>, checks: Checks, e: MessageEval<R>, es: seq<MessageEvaluator<R>>, m: Message, at: seq<PathElement>,
      inKey: bool)
    requires FitsEnv(env) && FitsParts(es) && forall part :: part in es ==> IsPart(e, part)
    ensures forall a :: a in TopParts(env, checks, es, m, at, inKey) && a.Violated? ==>
            LeadsFrom(env, e, m, at, a.v.field)
    decreases m, 2, |es|
  {
    if es != [] {
      assert es[0] in es;
      PartLeads(env, checks, e, es[0], m, at, inKey);
      PartsLead(env, checks, e, es[1..], m, at, inKey);
    }
  }

  lemma {:induction false} PartLeads<R(!new)>(
      env: Env<R>, checks: Checks, e: MessageEval<R>, part: MessageEvaluator<R>, m: Message, at: seq<PathElement>,
      inKey: bool)
    requires FitsEnv(env) && IsPart(e, part)
    requires part.FieldRules? ==> FitsValue(part.field.value, Some(Plain(part.field.name)), [])
    ensures forall a :: a in TopPart(env, checks, part, m, at, inKey) && a.Violated? ==>
            LeadsFrom(env, e, m, at, a.v.field)
    decreases m, 1
  {
    assert at[|at|..] == [] && LeadsFrom(env, e, m, at, at);
    match part
    case CelMessage(programs) => PutAt(at, [], inKey, ProgramAtoms(checks, programs, Embed(m)));
    case MessageOneof(fields, required) => PutAt(at, [], inKey, MessageOneofAtoms(checks, m, fields, required));
    case Oneof(oneof, members, required) =>
      var place := [Plain(oneof)];
      PutAt(at + place, [], inKey, OneofAtoms(checks, m, oneof, members, required));
      assert (at + place)[|at|..] == place && Leads(env, e, m, place);
    case FieldRules(f) => FieldLeads(env, checks, e, part, m, at, inKey);
  }

  lemma {:induction false} FieldLeads<R(!new)>(
      env: Env<R>, checks: Checks, e: MessageEval<R>, part: MessageEvaluator<R>, m: Message, at: seq<PathElement>,
      inKey: bool)
    requires FitsEnv(env) && IsPart(e, part) && part.FieldRules?
    requires FitsValue(part.field.value, Some(Plain(part.field.name)), [])
    ensures forall a :: a in TopField(env, checks, part.field, m, at, inKey) && a.Violated? ==>
            LeadsFrom(env, e, m, at, a.v.field)
    decreases m, 0
  {
    var f := part.field;
    var element := Plain(f.name);
    assert (at + [element])[|at|..] == [element] && LeadsThrough(env, f, m, [element]);
    assert LeadsFrom(env, e, m, at, at + [element]);
    if f.field < |m.slots| {
      var v, spot := m.slots[f.field].value, Spot(at, element, [], inKey);
      ValuePlaced(env, checks, f.value, f.value, v, spot, Some(element));
      forall path | Placed(env, f.value, v, spot, true, path)
        ensures LeadsFrom(env, e, m, at, path)
      {
        assert LeadsThrough(env, f, m, path[|at|..]);
      }
    }
  }

  lemma {:induction false} ValuePlaced<R(!new)>(
      env: Env<R>, checks: Checks, top: ValueEval<R>, e: ValueEval<R>, v: Value, spot: Spot, own: Option<PathElement>)
    requires forall r :: ValueRefers(e, r) ==> ValueRefers(top, r)
    requires FitsEnv(env) && FitsValue(e, own, spot.rulePrefix)
    requires own.Some? ==> own.value == spot.element && spot.element.subscript == NoSubscript
    ensures forall a :: a in TopValue(env, checks, e, v, spot) && a.Violated? ==>
            Placed(env, top, v, spot, own.Some?, a.v.field)
    decreases v, e, 1
  {
    RulesPlaced(env, checks, top, e.rules, v, spot, own);
    RulesPlaced(env, checks, top, e.nestedRules, v, spot, own);
  }

  lemma FirstRefers<R(!new)>(es: seq<Evaluator<R>>)
    requires es != []
    ensures forall r :: RuleRefers(es[0], r) || RulesRefer(es[1..], r) ==> RulesRefer(es, r)
  {
    forall r | RulesRefer(es[1..], r)
      ensures RulesRefer(es, r)
    {
      var k :| 0 <= k < |es| - 1 && RuleRefers(es[1..][k], r);
      assert RuleRefers(es[k + 1], r);
    }
  }

  lemma {:induction false} RulesPlaced<R(!new)>(
      env: Env<R>, checks: Checks, top: ValueEval<R>, es: seq<Evaluator<R>>, v: Value, spot: Spot,
      own: Option<PathElement>)
    requires forall r :: RulesRefer(es, r) ==> ValueRefers(top, r)
    requires FitsEnv(env) && FitsRules(es, own, spot.rulePrefix)
    requires own.Some? ==> own.value == spot.element && spot.element.subscript == NoSubscript
    ensures forall a :: a in TopRules(env, checks, es, v, spot) && a.Violated? ==>
            Placed(env, top, v, spot, own.Some?, a.v.field)
    decreases v, es, 1
  {
    if es != [] {
      FirstRefers(es);
      RulePlaced(env, checks, top, es[0], v, spot, own);
      RulesPlaced(env, checks, top, es[1..], v, spot, own);
    }
  }

  lemma {:induction false} RulePlaced<R(!new)>(
      env: Env<R>, checks: Checks, top: ValueEval<R>, e: Evaluator<R>, v: Value, spot: Spot, own: Option<PathElement>)
    requires forall r :: RuleRefers(e, r) ==> ValueRefers(top, r)
    requires FitsEnv(env) && FitsRule(e, own, spot.rulePrefix)
    requires own.Some? ==> own.value == spot.element && spot.element.subscript == NoSubscript
    ensures forall a :: a in TopRule(env, checks, e, v, spot) && a.Violated? ==>
            Placed(env, top, v, spot, own.Some?, a.v.field)
    decreases v, e, 1
  {
    match e
    case CelPrograms(_, programs) => LeafPlaced(env, top, v, spot, own, ProgramAtoms(checks, programs, v));
    case AnyPb(_, typeUrl, allowed, blocked) =>
      LeafPlaced(env, top, v, spot, own, AnyAtoms(NOWHERE, UrlOf(v, typeUrl), allowed, blocked));
    case DefinedEnum(_, numbers) => LeafPlaced(env, top, v, spot, own, EnumAtoms(NOWHERE, numbers, v));
    case EmbeddedMessage(_, r) =>
      if v.Embed? {
        MessageLeads(env, checks, env(r), v.m, Here(spot), spot.inKey);
        forall path | LeadsFrom(env, env(r), v.m, Here(spot), path)
          ensures Placed(env, top, v, spot, own.Some?, path)
        {
          assert Below(env, top, v, path[|Here(spot)|..]) && Placed(env, top, v, spot, false, path);
          if own.Some? {
            assert spot.(element := spot.element.(subscript := NoSubscript)) == spot;
            PlaceOwn(env, top, v, v, spot, NoSubscript, path);
          }
        }
      }
    case ListItems(_, itemRules) => ItemsPlaced(env, checks, top, itemRules, v, spot, 0);
    case KvPairs(_, keyRules, valueRules) => EntriesPlaced(env, checks, top, keyRules, valueRules, v, spot, 0);
    case Evaluators(rules) => RulesPlaced(env, checks, top, rules, v, spot, own);
  }

  lemma {:induction false} ItemsPlaced<R(!new)>(
      env: Env<R>, checks: Checks, top: ValueEval<R>, e: ValueEval<R>, v: Value, spot: Spot, i: nat)
    requires forall r :: ValueRefers(e, r) ==> ValueRefers(top, r)
    requires FitsEnv(env) && FitsValue(e, None, ITEM_RULES) && i <= |Items(v)|
    ensures forall a :: a in TopItems(env, checks, e, v, spot, i) && a.Violated? ==>
            Placed(env, top, v, spot, true, a.v.field)
    decreases v, e, |Items(v)| - i
  {
    if i < |Items(v)| {
      ValuePlaced(env, checks, top, e, v.items[i], ItemSpot(spot, i), None);
      forall path | Placed(env, top, v.items[i], ItemSpot(spot, i), false, path)
        ensures Placed(env, top, v, spot, true, path)
      {
        PlaceOwn(env, top, v, v.items[i], spot, Index(i), path);
      }
      ItemsPlaced(env, checks, top, e, v, spot, i + 1);
    }
  }

  lemma {:induction false} EntriesPlaced<R(!new)>(
      env: Env<R>, checks: Checks, top: ValueEval<R>, keys: ValueEval<R>, values: ValueEval<R>, v: Value, spot: Spot,
      i: nat)
    requires forall r :: ValueRefers(keys, r) || ValueRefers(values, r) ==> ValueRefers(top, r)
    requires FitsEnv(env) && FitsValue(keys, None, KEY_RULES) && FitsValue(values, None, VALUE_RULES)
    requires i <= |Entries(v)|
    ensures forall a :: a in TopEntries(env, checks, keys, values, v, spot, i) && a.Violated? ==>
            Placed(env, top, v, spot, true, a.v.field)
    decreases v, keys, |Entries(v)| - i
  {
    if i < |Entries(v)| {
      var entry := v.entries[i];
      var sub := KeySubscript(entry.key);
      ValuePlaced(env, checks, top, keys, entry.key, KeySpot(spot, entry.key), None);
      ValuePlaced(env, checks, top, values, entry.value, EntrySpot(spot, entry.key), None);
      EntryPlaced(env, top, v, spot, i);
      EntriesPlaced(env, checks, top, keys, values, v, spot, i + 1);
    }
  }

  lemma EntryPlaced<R(!new)>(env: Env<R>, top: ValueEval<R>, v: Value, spot: Spot, i: nat)
    requires i < |Entries(v)|
    ensures forall path :: Placed(env, top, v.entries[i].key, KeySpot(spot, v.entries[i].key), false, path) ==>
            Placed(env, top, v, spot, true, path)
    ensures forall path :: Placed(env, top, v.entries[i].value, EntrySpot(spot, v.entries[i].key), false, path) ==>
            Placed(env, top, v, spot, true, path)
  {
    var entry := v.entries[i];
    PicksByKey(v, i);
    forall path | Placed(env, top, entry.key, KeySpot(spot, entry.key), false, path)
      ensures Placed(env, top, v, spot, true, path)
    {
      PlaceOwn(env, top, v, entry.key, spot, KeySubscript(entry.key), path);
    }
    forall path | Placed(env, top, entry.value, EntrySpot(spot, entry.key), false, path)
      ensures Placed(env, top, v, spot, true, path)
    {
      PlaceOwn(env, top, v, entry.value, spot, KeySubscript(entry.key), path);
    }
  }

  /** Every violation that Validate reports has a path that leads from the root message to its value. */
  lemma ReportedPathsLead<R(!new)>(env: Env<R>, checks: Checks, r: R, m: Message, failFast: bool)
    requires FitsEnv(env)
    ensures var o := ChangeOutcome(Reversed, Run(LoadedAtoms(env, checks, Some(r), m), failFast));
            o.Invalid? ==> forall k :: 0 <= k < |o.violations| ==> Leads(env, env(r), m, o.violations[k].field)
  {
    PathsFromRoot(env, checks, r, m, failFast);
    MessageLeads(env, checks, env(r), m, [], false);
    var atoms := TopMessage(env, checks, env(r), m, [], false);
    RunReports(atoms, failFast);
    forall path | LeadsFrom(env, env(r), m, [], path)
      ensures Leads(env, env(r), m, path)
    {
      assert path[0..] == path;
    }
  }

  // Every reported violation is one of the list's.
  lemma {:induction false} RunReports(atoms: seq<Atom>, failFast: bool)
    ensures var o := Run(atoms, failFast);
            o.Invalid? ==> forall k :: 0 <= k < |o.violations| ==> Violated(o.violations[k]) in atoms
    decreases |atoms|
  {
    if atoms != [] { RunReports(atoms[1..], failFast); }
  }
}
