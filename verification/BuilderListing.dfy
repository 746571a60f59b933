/** What the built evaluators list for a message: the outcomes of every rule of every value that the schema asks to be
    checked, and of every message in it, each at its path from the root. Said without the evaluators. */
module BuilderListing {
  import opened Options
  import opened Outcomes
  import opened EvalTree
  import opened EvalLeaves
  import opened EvalPaths
  import opened EvalChains
  import opened BuilderSpec
  import opened BuilderTheorems
  import opened Conformance
  import opened ConformanceTheorems

  /* ---- Every evaluator of a list is listed ---- */

  lemma {:induction false} RuleListed(
      env: Env<string>, checks: Checks, es: seq<Evaluator<string>>, e: Evaluator<string>, v: Value, spot: Spot)
    requires e in es
    ensures forall a :: a in TopRule(env, checks, e, v, spot) ==> a in TopRules(env, checks, es, v, spot)
    decreases |es|
  {
    hide TopRule;
    if es[0] != e { RuleListed(env, checks, es[1..], e, v, spot); }
  }

  lemma {:induction false} PartListed(
      env: Env<string>, checks: Checks, es: seq<MessageEvaluator<string>>, e: MessageEvaluator<string>, m: Message,
      at: seq<PathElement>, inKey: bool)
    requires e in es
    ensures forall a :: a in TopPart(env, checks, e, m, at, inKey) ==> a in TopParts(env, checks, es, m, at, inKey)
    decreases |es|
  {
    hide TopPart;
    if es[0] != e { PartListed(env, checks, es[1..], e, m, at, inKey); }
  }

  lemma {:induction false} ItemListed(
      env: Env<string>, checks: Checks, e: ValueEval<string>, v: Value, spot: Spot, i: nat, k: nat)
    requires i <= k < |Items(v)|
    ensures forall a :: a in TopValue(env, checks, e, v.items[k], ItemSpot(spot, k)) ==>
              a in TopItems(env, checks, e, v, spot, i)
    decreases k - i
  {
    hide TopValue;
    if i < k { ItemListed(env, checks, e, v, spot, i + 1, k); }
  }

  lemma {:induction false} EntryListed(
      env: Env<string>, checks: Checks, keys: ValueEval<string>, values: ValueEval<string>, v: Value, spot: Spot,
      i: nat, k: nat)
    requires i <= k < |Entries(v)|
    ensures forall a :: a in TopValue(env, checks, keys, v.entries[k].key, KeySpot(spot, v.entries[k].key)) ==>
              a in TopEntries(env, checks, keys, values, v, spot, i)
    ensures forall a :: a in TopValue(env, checks, values, v.entries[k].value, EntrySpot(spot, v.entries[k].key)) ==>
              a in TopEntries(env, checks, keys, values, v, spot, i)
    decreases k - i
  {
    hide TopValue;
    if i < k { EntryListed(env, checks, keys, values, v, spot, i + 1, k); }
  }

  /* ---- The evaluators that a value gets ---- */

  ghost predicate KeepsAll(w: ValueEval<string>, x: ValueEval<string>) {
    (forall e :: e in w.rules ==> e in x.rules) && (forall e :: e in w.nestedRules ==> e in x.nestedRules)
  }

  lemma StepKeepsAll(
      s: Setup, fd: Field, rules: Option<Rules>, base: Base, i: nat, w: ValueEval<string>)
    requires s.keepAll && i < STEPS
    ensures KeepsAll(w, StepSpec(s, Name, fd, rules, base, i, w).value)
  {
    hide WithPaths, ValueSpec;
  }

  // What step i has built is still there after all steps.
  lemma {:induction false} StepStays(s: Setup, fd: Field, rules: Option<Rules>, base: Base, i: nat, n: nat)
    requires s.keepAll && i < n <= STEPS && StepsSpec(s, Name, fd, rules, base, n).err.None?
    ensures var w := StepsSpec(s, Name, fd, rules, base, i);
      && w.err.None? && StepSpec(s, Name, fd, rules, base, i, w.value).err.None?
      && KeepsAll(StepSpec(s, Name, fd, rules, base, i, w.value).value, StepsSpec(s, Name, fd, rules, base, n).value)
    decreases n
  {
    hide StepSpec;
    if i + 1 < n {
      StepStays(s, fd, rules, base, i, n - 1);
      StepKeepsAll(s, fd, rules, base, n - 1, StepsSpec(s, Name, fd, rules, base, n - 1).value);
    }
  }

  // The value's rules compile and are not ignored.
  ghost predicate Built(s: Setup, fd: Field, rules: Option<Rules>, base: Base) {
    s.keepAll && !AlwaysIgnored(rules) && RulesCompile(s, fd, rules, Nested(base))
  }

  lemma BuiltStep(s: Setup, fd: Field, rules: Option<Rules>, base: Base, i: nat)
    requires Built(s, fd, rules, base) && i < STEPS
    ensures var w := StepsSpec(s, Name, fd, rules, base, i);
      && w.err.None? && StepSpec(s, Name, fd, rules, base, i, w.value).err.None?
      && KeepsAll(StepSpec(s, Name, fd, rules, base, i, w.value).value, ValueSpec(s, Name, fd, rules, base).value)
  {
    ValueErrIff(s, Name, fd, rules, base);
    hide StepSpec, StepsSpec, RulesCompile, KeepsAll;
    StepStays(s, fd, rules, base, i, STEPS);
  }

  lemma EmbedsMessage(s: Setup, fd: Field, rules: Option<Rules>, base: Base, u: string)
    requires Built(s, fd, rules, base) && SingleKind(fd, Nested(base)) == Some(MessageOf(u))
    ensures EmbeddedMessage(base, u) in ValueSpec(s, Name, fd, rules, base).value.nestedRules
  {
    BuiltStep(s, fd, rules, base, 2);
    hide ValueSpec, StepsSpec, Built;
    SameKinds(fd, base);
    var w := StepsSpec(s, Name, fd, rules, base, 2).value;
    var x := StepSpec(s, Name, fd, rules, base, 2, w).value;
    assert x == EmbeddedSpec(s, Name, fd, base, w).value;
    assert EmbeddedMessage(base, u) in x.nestedRules;
  }

  lemma ListsItems(s: Setup, fd: Field, rules: Option<Rules>, base: Base)
    requires Built(s, fd, rules, base) && fd.shape.ListOf? && !Nested(base)
    ensures ListItems(base, ValueSpec(s, Name, fd, ItemsOf(rules), ITEM_BASE).value) in
              ValueSpec(s, Name, fd, rules, base).value.rules
  {
    BuiltStep(s, fd, rules, base, 8);
    hide ValueSpec, StepsSpec, Built;
    var w := StepsSpec(s, Name, fd, rules, base, 8).value;
    assert StepSpec(s, Name, fd, rules, base, 8, w) == RepeatedSpec(s, Name, fd, rules, base, w);
  }

  lemma ListsEntries(s: Setup, fd: Field, rules: Option<Rules>, base: Base)
    requires Built(s, fd, rules, base) && fd.shape.MapOf?
    ensures KvPairs(base, ValueSpec(s, Name, MapKeyField(fd), KeysOf(rules), KEY_BASE).value,
                    ValueSpec(s, Name, MapValueField(fd), ValuesOf(rules), VALUE_BASE).value) in
              ValueSpec(s, Name, fd, rules, base).value.rules
  {
    BuiltStep(s, fd, rules, base, 7);
    hide ValueSpec, StepsSpec, Built;
    var w := StepsSpec(s, Name, fd, rules, base, 7).value;
    assert StepSpec(s, Name, fd, rules, base, 7, w) == MapSpec(s, Name, fd, rules, base, w);
  }

  /* ---- Messages in fields ---- */

  // The value at a spot is not exempt as its type's zero.
  ghost predicate Checked(s: Setup, fd: Field, rules: Option<Rules>, nested: bool, v: Value) {
    && !AlwaysIgnored(rules) && RulesCompile(s, fd, rules, nested)
    && !(nested && IgnoredIfZero(rules) && v == s.compilers.zero(fd, true))
  }

  lemma NotExempt(s: Setup, fd: Field, rules: Option<Rules>, base: Base, v: Value)
    requires Checked(s, fd, rules, Nested(base), v)
    ensures var e := ValueSpec(s, Name, fd, rules, base).value; !(e.ignoreEmpty && v == e.zero)
  {
    StepsZero(s, Name, fd, rules, base, STEPS);
    hide StepsSpec;
  }

  // The evaluators of a value list what its own rules and its nested rules list.
  lemma ValueListed(s: Setup, checks: Checks, fd: Field, rules: Option<Rules>, base: Base, v: Value, spot: Spot)
    requires Checked(s, fd, rules, Nested(base), v)
    ensures var e := ValueSpec(s, Name, fd, rules, base).value;
      && (forall a :: a in TopRules(Stands(s), checks, e.rules, v, spot) ==>
            a in TopValue(Stands(s), checks, e, v, spot))
      && (forall a :: a in TopRules(Stands(s), checks, e.nestedRules, v, spot) ==>
            a in TopValue(Stands(s), checks, e, v, spot))
  {
    NotExempt(s, fd, rules, base, v);
    hide ValueSpec, TopRules;
  }

  ghost predicate Includes(all: seq<Atom>, some: seq<Atom>) {
    forall a :: a in some ==> a in all
  }

  lemma SingleListed(
      s: Setup, checks: Checks, fd: Field, rules: Option<Rules>, base: Base, v: Value, spot: Spot, u: string)
    requires s.keepAll && Checked(s, fd, rules, Nested(base), v) && v.Embed?
    requires SingleKind(fd, Nested(base)) == Some(MessageOf(u))
    ensures Includes(TopValue(Stands(s), checks, ValueSpec(s, Name, fd, rules, base).value, v, spot),
                     TopMessage(Stands(s), checks, Stands(s)(u), v.m, Here(spot), spot.inKey))
  {
    EmbedsMessage(s, fd, rules, base, u);
    hide ValueSpec, TopRules, TopMessage, TopValue, Checked;
    ValueListed(s, checks, fd, rules, base, v, spot);
    var e := ValueSpec(s, Name, fd, rules, base).value;
    RuleListed(Stands(s), checks, e.nestedRules, EmbeddedMessage(base, u), v, spot);
  }

  /* ---- Programs ---- */

  function ProgramsOf(c: Compiled): seq<Program> {
    match c
    case Compiled(ps) => ps
    case NotCompiled(_) => []
  }

  // The programs that the rules of a value are compiled to, each with its path within the rules.
  ghost predicate IsProgramOf(s: Setup, fd: Field, rules: Option<Rules>, nested: bool, p: Program) {
    || (!OfWrappers(s, fd) && p in ProgramsOf(s.compilers.standard(fd, rules, nested)))
    || p in Numbered("cel_expression", ProgramsOf(s.compilers.celExpressions(fd, rules, nested)))
    || p in Numbered("cel", ProgramsOf(s.compilers.celRules(fd, rules, nested)))
  }

  // What a program finds in a value at a path.
  function OutcomeAt(
      checks: Checks, p: Program, v: Value, path: seq<PathElement>, rulePrefix: seq<PathElement>, inKey: bool): Atom {
    match checks.cel(p, v)
    case CelPass => Pass
    case CelViolation => Violated(Violation(path, rulePrefix + p.path, inKey, p.id))
    case CelError(cause) => Failed(cause)
  }

  lemma {:induction false} ProgramPut(
      checks: Checks, ps: seq<Program>, p: Program, v: Value, path: seq<PathElement>, rulePrefix: seq<PathElement>,
      inKey: bool)
    requires p in ps
    ensures OutcomeAt(checks, p, v, path, rulePrefix, inKey) in
              PutAll(path, rulePrefix, inKey, ProgramAtoms(checks, ps, v))
    decreases |ps|
  {
    var atoms := ProgramAtoms(checks, ps, v);
    assert atoms[0] == ProgramAtom(checks, ps[0], v) && atoms[1..] == ProgramAtoms(checks, ps[1..], v);
    if ps[0] != p { ProgramPut(checks, ps[1..], p, v, path, rulePrefix, inKey); }
  }

  lemma RunsPrograms(s: Setup, fd: Field, rules: Option<Rules>, base: Base, p: Program) returns (ps: seq<Program>)
    requires Built(s, fd, rules, base) && IsProgramOf(s, fd, rules, Nested(base), p)
    ensures p in ps && CelPrograms(base, ps) in ValueSpec(s, Name, fd, rules, base).value.rules
  {
    var i := if !OfWrappers(s, fd) && p in ProgramsOf(s.compilers.standard(fd, rules, Nested(base))) then 4 else 1;
    BuiltStep(s, fd, rules, base, i);
    hide ValueSpec, StepsSpec, Built;
    var w := StepsSpec(s, Name, fd, rules, base, i).value;
    var a, b := s.compilers.celExpressions(fd, rules, Nested(base)), s.compilers.celRules(fd, rules, Nested(base));
    if i == 4 {
      ps := s.compilers.standard(fd, rules, Nested(base)).programs;
      assert StepSpec(s, Name, fd, rules, base, 4, w) == StandardSpec(s, fd, rules, base, w);
    } else {
      ps := WithPaths("cel_expression", a.programs) + WithPaths("cel", b.programs);
      SameNumbered("cel_expression", a.programs);
      SameNumbered("cel", b.programs);
      assert StepSpec(s, Name, fd, rules, base, 1, w) == ExpressionsSpec(s, fd, rules, base, w);
    }
  }

  lemma ProgramListed(
      s: Setup, checks: Checks, fd: Field, rules: Option<Rules>, base: Base, v: Value, spot: Spot, p: Program)
    requires s.keepAll && Checked(s, fd, rules, Nested(base), v) && IsProgramOf(s, fd, rules, Nested(base), p)
    ensures OutcomeAt(checks, p, v, Here(spot), spot.rulePrefix, spot.inKey) in
              TopValue(Stands(s), checks, ValueSpec(s, Name, fd, rules, base).value, v, spot)
  {
    var ps := RunsPrograms(s, fd, rules, base, p);
    hide ValueSpec, TopRules, TopValue, Checked, IsProgramOf, PutAll;
    ValueListed(s, checks, fd, rules, base, v, spot);
    ProgramPut(checks, ps, p, v, Here(spot), spot.rulePrefix, spot.inKey);
    var e := ValueSpec(s, Name, fd, rules, base).value;
    RuleListed(Stands(s), checks, e.rules, CelPrograms(base, ps), v, spot);
  }

  /* ---- The values that a field has checked ---- */

  // A value, the rules for it, the path element that leads to it from the message, and what its rule paths start with.
  datatype Checkpoint = Checkpoint(
    fd: Field, rules: Option<Rules>, nested: bool, v: Value,
    element: PathElement, prefix: seq<PathElement>, inKey: bool)

  function RulePrefix(kind: string, part: string): seq<PathElement> {
    [PathElement(kind, NoSubscript), PathElement(part, NoSubscript)]
  }

  /** The value of the field itself; every item of a list; and every key and every value of a map. */
  ghost predicate IsCheckpoint(fd: Field, rules: Option<Rules>, v: Value, c: Checkpoint) {
    || c == Checkpoint(fd, rules, false, v, PathElement(fd.name, NoSubscript), [], false)
    || (fd.shape.ListOf? && exists k: nat :: IsItem(fd, rules, v, k, c))
    || (fd.shape.MapOf? && exists k: nat :: IsMapKey(fd, rules, v, k, c) || IsMapValue(fd, rules, v, k, c))
  }

  predicate IsItem(fd: Field, rules: Option<Rules>, v: Value, k: nat, c: Checkpoint) {
    k < |Items(v)| && c == Checkpoint(
      fd, ItemsOf(rules), true, v.items[k], PathElement(fd.name, Index(k)), RulePrefix("repeated", "items"), false)
  }

  predicate IsMapKey(fd: Field, rules: Option<Rules>, v: Value, k: nat, c: Checkpoint)
    requires fd.shape.MapOf?
  {
    && k < |Entries(v)| && IsKey(v.entries[k].key)
    && c.fd == MapKeyField(fd) && c.rules == KeysOf(rules) && c.nested && c.v == v.entries[k].key
    && c.element.name == fd.name && KeyOf(c.element.subscript) == Some(v.entries[k].key)
    && c.prefix == RulePrefix("map", "keys") && c.inKey
  }

  predicate IsMapValue(fd: Field, rules: Option<Rules>, v: Value, k: nat, c: Checkpoint)
    requires fd.shape.MapOf?
  {
    && k < |Entries(v)| && IsKey(v.entries[k].key)
    && c.fd == MapValueField(fd) && c.rules == ValuesOf(rules) && c.nested && c.v == v.entries[k].value
    && c.element.name == fd.name && KeyOf(c.element.subscript) == Some(v.entries[k].key)
    && c.prefix == RulePrefix("map", "values") && !c.inKey
  }

  function SpotOf(c: Checkpoint, at: seq<PathElement>, inKey: bool): Spot {
    Spot(at, c.element, c.prefix, inKey || c.inKey)
  }

  function BaseOf(c: Checkpoint): Base {
    if c.nested then Base(None, c.prefix) else Base(Some(c.element), [])
  }

  lemma {:induction false} SubscriptOfKey(key: Value, sub: Subscript)
    requires IsKey(key) && KeyOf(sub) == Some(key)
    ensures sub == KeySubscript(key)
  {
  }

  // The outcomes of a checkpoint are among those of its field.
  lemma CheckpointListed(
      s: Setup, checks: Checks, fd: Field, rules: Option<Rules>, v: Value, c: Checkpoint, at: seq<PathElement>,
      inKey: bool)
    requires s.keepAll && Checked(s, fd, rules, false, v) && IsCheckpoint(fd, rules, v, c)
    ensures Nested(BaseOf(c)) == c.nested
    ensures Includes(TopValue(Stands(s), checks, ValueSpec(s, Name, fd, rules, FieldBase(fd)).value, v,
                              Spot(at, Plain(fd.name), [], inKey)),
                     TopValue(Stands(s), checks, ValueSpec(s, Name, c.fd, c.rules, BaseOf(c)).value, c.v,
                              SpotOf(c, at, inKey)))
  {
    hide ValueSpec, TopValue, RulesCompile;
    if c == Checkpoint(fd, rules, false, v, PathElement(fd.name, NoSubscript), [], false) {
    } else if fd.shape.ListOf? {
      var k: nat :| IsItem(fd, rules, v, k, c);
      ItemsListed(s, checks, fd, rules, v, k, Spot(at, Plain(fd.name), [], inKey));
    } else {
      var k: nat :| IsMapKey(fd, rules, v, k, c) || IsMapValue(fd, rules, v, k, c);
      SubscriptOfKey(v.entries[k].key, c.element.subscript);
      EntriesListed(s, checks, fd, rules, v, k, Spot(at, Plain(fd.name), [], inKey));
    }
  }

  lemma ItemsListed(s: Setup, checks: Checks, fd: Field, rules: Option<Rules>, v: Value, k: nat, spot: Spot)
    requires s.keepAll && Checked(s, fd, rules, false, v) && fd.shape.ListOf? && k < |Items(v)|
    ensures Includes(TopValue(Stands(s), checks, ValueSpec(s, Name, fd, rules, FieldBase(fd)).value, v, spot),
                     TopValue(Stands(s), checks, ValueSpec(s, Name, fd, ItemsOf(rules), ITEM_BASE).value, v.items[k],
                              ItemSpot(spot, k)))
  {
    ListsItems(s, fd, rules, FieldBase(fd));
    hide ValueSpec, TopValue, Checked, TopRules;
    ValueListed(s, checks, fd, rules, FieldBase(fd), v, spot);
    var e, items := ValueSpec(s, Name, fd, rules, FieldBase(fd)).value,
      ValueSpec(s, Name, fd, ItemsOf(rules), ITEM_BASE).value;
    RuleListed(Stands(s), checks, e.rules, ListItems(FieldBase(fd), items), v, spot);
    ItemListed(Stands(s), checks, items, v, spot, 0, k);
  }

  lemma EntriesListed(s: Setup, checks: Checks, fd: Field, rules: Option<Rules>, v: Value, k: nat, spot: Spot)
    requires s.keepAll && Checked(s, fd, rules, false, v) && fd.shape.MapOf? && k < |Entries(v)|
    ensures var all := TopValue(Stands(s), checks, ValueSpec(s, Name, fd, rules, FieldBase(fd)).value, v, spot);
      && Includes(all, TopValue(Stands(s), checks, ValueSpec(s, Name, MapKeyField(fd), KeysOf(rules), KEY_BASE).value,
                                v.entries[k].key, KeySpot(spot, v.entries[k].key)))
      && Includes(all, TopValue(Stands(s), checks,
                                ValueSpec(s, Name, MapValueField(fd), ValuesOf(rules), VALUE_BASE).value,
                                v.entries[k].value, EntrySpot(spot, v.entries[k].key)))
  {
    ListsEntries(s, fd, rules, FieldBase(fd));
    hide ValueSpec, TopValue, Checked, TopRules;
    ValueListed(s, checks, fd, rules, FieldBase(fd), v, spot);
    var e := ValueSpec(s, Name, fd, rules, FieldBase(fd)).value;
    var keys := ValueSpec(s, Name, MapKeyField(fd), KeysOf(rules), KEY_BASE).value;
    var values := ValueSpec(s, Name, MapValueField(fd), ValuesOf(rules), VALUE_BASE).value;
    RuleListed(Stands(s), checks, e.rules, KvPairs(FieldBase(fd), keys, values), v, spot);
    EntryListed(Stands(s), checks, keys, values, v, spot, 0, k);
  }

  /* ---- Messages ---- */

  // The filter admits field i, its rules compile and do not ignore it, and its value is looked at.
  ghost predicate FieldChecked(s: Setup, checks: Checks, t: MessageType, i: nat, m: Message) {
    && i < |t.fields| && i < |m.slots| && checks.filter(m, FieldDescriptor(i))
    && var rules := EffectiveRules(t, t.fields[i]);
       && !AlwaysIgnored(rules) && RulesCompile(s, t.fields[i], rules, false)
       && (IsSet(m, i) ||
             !((rules.Some? && rules.value.required) || t.fields[i].hasPresence || IgnoredIfZero(rules)))
  }

  // The type's own rules compile, unless the filter leaves them out.
  ghost predicate MessageChecked(s: Setup, checks: Checks, name: string, m: Message) {
    name in s.schema && (checks.filter(m, MessageDescriptor(m.typeName)) ==> TypeCompiles(s, name))
  }

  lemma {:induction false} FieldPart(s: Setup, t: MessageType, i: nat, n: nat)
    requires s.keepAll && i < n <= |t.fields|
    ensures MessageEvaluator.FieldRules(FieldSpec(s, Name, t, i)) in FieldParts(s, Name, t, n)
    decreases n
  {
    hide FieldSpec;
    if i + 1 < n { FieldPart(s, t, i, n - 1); }
  }

  // The outcomes of a field's value are among those of the message.
  lemma FieldListed(
      s: Setup, checks: Checks, name: string, m: Message, i: nat, at: seq<PathElement>, inKey: bool)
    requires s.keepAll && MessageChecked(s, checks, name, m) && FieldChecked(s, checks, s.schema[name], i, m)
    ensures var t := s.schema[name]; var fd := t.fields[i];
      Includes(TopMessage(Stands(s), checks, Stands(s)(name), m, at, inKey),
               TopValue(Stands(s), checks, ValueSpec(s, Name, fd, EffectiveRules(t, fd), FieldBase(fd)).value,
                        m.slots[i].value, Spot(at, Plain(fd.name), [], inKey)))
  {
    var t := s.schema[name];
    FieldPart(s, t, i, |t.fields|);
    hide ValueSpec, TopValue, TopParts, TopField, TopMessage, FieldParts, FieldChecked, FieldSpec;
    PartListed(Stands(s), checks, FieldParts(s, Name, t, |t.fields|),
               MessageEvaluator.FieldRules(FieldSpec(s, Name, t, i)), m, at, inKey);
    NestedListed(s, checks, name, m, at, inKey);
    FieldValue(s, checks, t, i, m, at, inKey);
  }

  lemma NestedListed(s: Setup, checks: Checks, name: string, m: Message, at: seq<PathElement>, inKey: bool)
    requires MessageChecked(s, checks, name, m)
    ensures Includes(TopMessage(Stands(s), checks, Stands(s)(name), m, at, inKey),
                     TopParts(Stands(s), checks, FieldParts(s, Name, s.schema[name], |s.schema[name].fields|), m, at,
                              inKey))
  {
    hide TopParts, FieldParts, OwnParts;
    MessageErrIff(s, name);
  }

  lemma FieldValue(
      s: Setup, checks: Checks, t: MessageType, i: nat, m: Message, at: seq<PathElement>, inKey: bool)
    requires FieldChecked(s, checks, t, i, m)
    ensures TopField(Stands(s), checks, FieldSpec(s, Name, t, i), m, at, inKey) ==
            TopValue(Stands(s), checks, ValueSpec(s, Name, t.fields[i], EffectiveRules(t, t.fields[i]),
                                                  FieldBase(t.fields[i])).value,
                     m.slots[i].value, Spot(at, Plain(t.fields[i].name), [], inKey))
  {
    hide ValueSpec, TopValue, RulesCompile;
    SameRules(t, t.fields[i]);
    ValueErrIff(s, Name, t.fields[i], EffectiveRules(t, t.fields[i]), FieldBase(t.fields[i]));
  }

  /** A program that the rules of a field, list item, map key or map value are compiled to is run on it: what it finds
      is among the outcomes of the message, with the path to the value and the path of the rule. */
  lemma ProgramsAreListed(
      s: Setup, checks: Checks, name: string, m: Message, i: nat, c: Checkpoint, p: Program, at: seq<PathElement>,
      inKey: bool)
    requires s.keepAll && MessageChecked(s, checks, name, m) && FieldChecked(s, checks, s.schema[name], i, m)
    requires var fd := s.schema[name].fields[i];
      IsCheckpoint(fd, EffectiveRules(s.schema[name], fd), m.slots[i].value, c)
    requires Checked(s, c.fd, c.rules, c.nested, c.v) && IsProgramOf(s, c.fd, c.rules, c.nested, p)
    ensures OutcomeAt(checks, p, c.v, at + [c.element], c.prefix, inKey || c.inKey) in
              TopMessage(Stands(s), checks, Stands(s)(name), m, at, inKey)
  {
    var fd := s.schema[name].fields[i];
    hide TopMessage, TopValue, ValueSpec, IsCheckpoint, IsProgramOf, OutcomeAt;
    FieldListed(s, checks, name, m, i, at, inKey);
    CheckpointListed(s, checks, fd, EffectiveRules(s.schema[name], fd), m.slots[i].value, c, at, inKey);
    ProgramListed(s, checks, c.fd, c.rules, BaseOf(c), c.v, SpotOf(c, at, inKey), p);
  }

  /** A message in a field, list item or map value is checked with the rules of its own type: all its outcomes are among
      those of the message around it, with the field's element and subscript in their paths. */
  lemma MessagesAreListed(
      s: Setup, checks: Checks, name: string, m: Message, i: nat, c: Checkpoint, u: string, at: seq<PathElement>,
      inKey: bool)
    requires s.keepAll && MessageChecked(s, checks, name, m) && FieldChecked(s, checks, s.schema[name], i, m)
    requires var fd := s.schema[name].fields[i];
      IsCheckpoint(fd, EffectiveRules(s.schema[name], fd), m.slots[i].value, c)
    requires Checked(s, c.fd, c.rules, c.nested, c.v) && c.v.Embed?
    requires c.fd.shape == Singular(MessageOf(u)) || (c.nested && c.fd.shape == ListOf(MessageOf(u)))
    ensures forall a :: a in TopMessage(Stands(s), checks, Stands(s)(u), c.v.m, at + [c.element], inKey || c.inKey) ==>
              a in TopMessage(Stands(s), checks, Stands(s)(name), m, at, inKey)
  {
    var fd := s.schema[name].fields[i];
    hide TopMessage, TopValue, ValueSpec, IsCheckpoint;
    FieldListed(s, checks, name, m, i, at, inKey);
    CheckpointListed(s, checks, fd, EffectiveRules(s.schema[name], fd), m.slots[i].value, c, at, inKey);
    SingleListed(s, checks, c.fd, c.rules, BaseOf(c), c.v, SpotOf(c, at, inKey), u);
  }

  /** A field that a oneof rule names is checked with all its rules when it is set: it is exempt only when unset. */
  lemma OneofMembersAreChecked(
      s: Setup, checks: Checks, name: string, m: Message, i: nat, k: nat, p: Program, at: seq<PathElement>, inKey: bool)
    requires s.keepAll && MessageChecked(s, checks, name, m)
    requires i < |s.schema[name].fields| && k < |s.schema[name].oneofRules| && checks.filter(m, FieldDescriptor(i))
    requires var fd := s.schema[name].fields[i];
      && fd.name in s.schema[name].oneofRules[k].fields && fd.rules.Some? && fd.rules.value.ignore == None
      && var rules := Some(fd.rules.value.(ignore := Some(IfZeroValue)));
         RulesCompile(s, fd, rules, false) && IsProgramOf(s, fd, rules, false, p)
    requires IsSet(m, i)
    ensures var fd := s.schema[name].fields[i];
      OutcomeAt(checks, p, m.slots[i].value, at + [PathElement(fd.name, NoSubscript)], [], inKey) in
        TopMessage(Stands(s), checks, Stands(s)(name), m, at, inKey)
  {
    var fd, v := s.schema[name].fields[i], m.slots[i].value;
    var rules := Some(fd.rules.value.(ignore := Some(IfZeroValue)));
    assert EffectiveRules(s.schema[name], fd) == rules;
    var c := Checkpoint(fd, rules, false, v, PathElement(fd.name, NoSubscript), [], false);
    hide TopMessage, IsProgramOf, OutcomeAt, RulesCompile;
    ProgramsAreListed(s, checks, name, m, i, c, p, at, inKey);
  }

  /** A required field that is not set is reported, at the field. */
  lemma RequiredIsListed(
      s: Setup, checks: Checks, name: string, m: Message, i: nat, at: seq<PathElement>, inKey: bool)
    requires s.keepAll && MessageChecked(s, checks, name, m)
    requires i < |s.schema[name].fields| && checks.filter(m, FieldDescriptor(i)) && !IsSet(m, i)
    requires var fd := s.schema[name].fields[i];
      var rules := EffectiveRules(s.schema[name], fd);
      !AlwaysIgnored(rules) && RulesCompile(s, fd, rules, false) && rules.Some? && rules.value.required
    ensures Violated(Violation(at + [PathElement(s.schema[name].fields[i].name, NoSubscript)],
                               [PathElement("required", NoSubscript)], inKey, "required")) in
              TopMessage(Stands(s), checks, Stands(s)(name), m, at, inKey)
  {
    var t := s.schema[name];
    FieldPart(s, t, i, |t.fields|);
    hide ValueSpec, TopValue, TopParts, TopField, TopMessage, FieldParts, FieldSpec, RulesCompile;
    PartListed(Stands(s), checks, FieldParts(s, Name, t, |t.fields|),
               MessageEvaluator.FieldRules(FieldSpec(s, Name, t, i)), m, at, inKey);
    NestedListed(s, checks, name, m, at, inKey);
    RequiredUnset(s, checks, t, i, m, at, inKey);
  }

  lemma RequiredUnset(
      s: Setup, checks: Checks, t: MessageType, i: nat, m: Message, at: seq<PathElement>, inKey: bool)
    requires i < |t.fields| && checks.filter(m, FieldDescriptor(i)) && !IsSet(m, i)
    requires var rules := EffectiveRules(t, t.fields[i]);
      !AlwaysIgnored(rules) && RulesCompile(s, t.fields[i], rules, false) && rules.Some? && rules.value.required
    ensures Violated(Violation(at + [PathElement(t.fields[i].name, NoSubscript)],
                               [PathElement("required", NoSubscript)], inKey, "required")) in
              TopField(Stands(s), checks, FieldSpec(s, Name, t, i), m, at, inKey)
  {
    hide ValueSpec, TopValue, RulesCompile;
    SameRules(t, t.fields[i]);
    ValueErrIff(s, Name, t.fields[i], EffectiveRules(t, t.fields[i]), FieldBase(t.fields[i]));
  }

  /* ---- The standard rules of fields of wrappers ---- */

  // The two compile the same, but for the standard rules of fields of wrapper messages.
  ghost predicate SameButWrappers(a: Setup, b: Setup) {
    && b == a.(compilers := a.compilers.(standard := b.compilers.standard))
    && forall fd, rules, nested :: SameStandard(a, b, fd, rules, nested)
  }

  ghost predicate SameStandard(a: Setup, b: Setup, fd: Field, rules: Option<Rules>, nested: bool) {
    OfWrappers(a, fd) || b.compilers.standard(fd, rules, nested) == a.compilers.standard(fd, rules, nested)
  }

  lemma {:induction false} SameCompile(a: Setup, b: Setup, fd: Field, rules: Option<Rules>, nested: bool)
    requires SameButWrappers(a, b)
    ensures RulesCompile(a, fd, rules, nested) <==> RulesCompile(b, fd, rules, nested)
    decreases Levels(fd, nested)
  {
    hide TypeCompiles;
    assert SameStandard(a, b, fd, rules, nested);
    forall u
      ensures TypeCompiles(a, u) <==> TypeCompiles(b, u)
    {
      SameTypes(a, b, u);
    }
    match fd.shape
    case Singular(kind) => if kind.MessageOf? { SameCompile(a, b, SCALAR_VALUE, rules, nested); }
    case ListOf(kind) =>
      if !nested { SameCompile(a, b, fd, ItemsOf(rules), true); }
      if nested && kind.MessageOf? { SameCompile(a, b, SCALAR_VALUE, rules, nested); }
    case MapOf(_, _) =>
      SameCompile(a, b, MapKeyField(fd), KeysOf(rules), true);
      SameCompile(a, b, MapValueField(fd), ValuesOf(rules), true);
  }

  lemma SameTypes(a: Setup, b: Setup, u: string)
    requires SameButWrappers(a, b)
    ensures TypeCompiles(a, u) <==> TypeCompiles(b, u)
  {
  }

  lemma {:induction false} SameKept(
      a: Setup, b: Setup, checks: Checks, fd: Field, rules: Option<Rules>, nested: bool, v: Value)
    requires SameButWrappers(a, b)
    ensures RulesKept(a, checks, fd, rules, nested, v) <==> RulesKept(b, checks, fd, rules, nested, v)
    decreases v, Levels(fd, nested), 2
  {
    hide ValueConforms, Conforms, CompiledPass, AnyKept, EnumKept;
    assert SameStandard(a, b, fd, rules, nested);
    SameSingle(a, b, checks, fd, rules, nested, v);
    hide SingleKept, ExpressionsPass, ItemsKept, EntriesKept;
    match fd.shape
    case Singular(_) =>
    case ListOf(_) => if !nested { SameItems(a, b, checks, fd, ItemsOf(rules), v); }
    case MapOf(_, _) => SameEntries(a, b, checks, fd, rules, v);
  }

  lemma {:induction false} SameItems(
      a: Setup, b: Setup, checks: Checks, fd: Field, rules: Option<Rules>, v: Value)
    requires SameButWrappers(a, b) && fd.shape.ListOf?
    ensures ItemsKept(a, checks, fd, rules, v) <==> ItemsKept(b, checks, fd, rules, v)
    decreases v, Levels(fd, false), 1
  {
    hide ValueConforms;
    forall k | 0 <= k < |Items(v)|
      ensures ValueConforms(a, checks, fd, rules, true, v.items[k]) <==>
              ValueConforms(b, checks, fd, rules, true, v.items[k])
    {
      SameValue(a, b, checks, fd, rules, true, v.items[k]);
    }
  }

  lemma {:induction false} SameEntries(
      a: Setup, b: Setup, checks: Checks, fd: Field, rules: Option<Rules>, v: Value)
    requires SameButWrappers(a, b) && fd.shape.MapOf?
    ensures EntriesKept(a, checks, fd, rules, v) <==> EntriesKept(b, checks, fd, rules, v)
    decreases v, Levels(fd, false), 1
  {
    hide ValueConforms;
    forall k | 0 <= k < |Entries(v)|
      ensures ValueConforms(a, checks, MapKeyField(fd), KeysOf(rules), true, v.entries[k].key) <==>
              ValueConforms(b, checks, MapKeyField(fd), KeysOf(rules), true, v.entries[k].key)
      ensures ValueConforms(a, checks, MapValueField(fd), ValuesOf(rules), true, v.entries[k].value) <==>
              ValueConforms(b, checks, MapValueField(fd), ValuesOf(rules), true, v.entries[k].value)
    {
      SameValue(a, b, checks, MapKeyField(fd), KeysOf(rules), true, v.entries[k].key);
      SameValue(a, b, checks, MapValueField(fd), ValuesOf(rules), true, v.entries[k].value);
    }
  }

  lemma {:induction false} SameSingle(
      a: Setup, b: Setup, checks: Checks, fd: Field, rules: Option<Rules>, nested: bool, v: Value)
    requires SameButWrappers(a, b)
    ensures SingleKept(a, checks, fd, rules, nested, v) <==> SingleKept(b, checks, fd, rules, nested, v)
    decreases v, Levels(fd, nested), 1
  {
    hide RulesKept, Conforms;
    match SingleKind(fd, nested)
    case Some(MessageOf(u)) =>
      if v.Embed? { SameConforms(a, b, checks, u, v.m); }
      SameKept(a, b, checks, SCALAR_VALUE, rules, nested, v);
    case _ =>
  }

  lemma {:induction false} SameValue(
      a: Setup, b: Setup, checks: Checks, fd: Field, rules: Option<Rules>, nested: bool, v: Value)
    requires SameButWrappers(a, b)
    ensures ValueConforms(a, checks, fd, rules, nested, v) <==> ValueConforms(b, checks, fd, rules, nested, v)
    decreases v, Levels(fd, nested), 3
  {
    hide RulesKept;
    SameKept(a, b, checks, fd, rules, nested, v);
  }

  lemma {:induction false} SameField(a: Setup, b: Setup, checks: Checks, t: MessageType, i: nat, m: Message)
    requires SameButWrappers(a, b) && i < |t.fields|
    ensures FieldConforms(a, checks, t, i, m) <==> FieldConforms(b, checks, t, i, m)
    decreases m, 1
  {
    hide ValueConforms, RulesCompile;
    var fd := t.fields[i];
    SameCompile(a, b, fd, EffectiveRules(t, fd), false);
    if i < |m.slots| { SameValue(a, b, checks, fd, EffectiveRules(t, fd), false, m.slots[i].value); }
  }

  /** The standard rules of fields of wrapper messages make no difference, whether such a rule is for an item or for the
      list as a whole: a message conforms with them iff it does with any others in their place. */
  lemma {:induction false} SameConforms(a: Setup, b: Setup, checks: Checks, name: string, m: Message)
    requires SameButWrappers(a, b)
    ensures Conforms(a, checks, name, m) <==> Conforms(b, checks, name, m)
    decreases m, 2
  {
    hide FieldConforms, TypeCompiles, OneofRuleKept, OneofKept, CompiledPass;
    SameTypes(a, b, name);
    if name in a.schema {
      var t := a.schema[name];
      forall i | 0 <= i < |t.fields|
        ensures FieldConforms(a, checks, t, i, m) <==> FieldConforms(b, checks, t, i, m)
      {
        SameField(a, b, checks, t, i, m);
      }
    }
  }

  /** The standard rules of every other field are kept by its value whenever the message conforms. */
  lemma StandardRulesAreKept(s: Setup, checks: Checks, name: string, m: Message, i: nat, p: Program)
    requires Conforms(s, checks, name, m) && name in s.schema && FieldChecked(s, checks, s.schema[name], i, m)
    requires var fd := s.schema[name].fields[i];
      var c := s.compilers.standard(fd, EffectiveRules(s.schema[name], fd), false);
      !OfWrappers(s, fd) && c.Compiled? && p in c.programs
    ensures checks.cel(p, m.slots[i].value).CelPass?
  {
    var fd := s.schema[name].fields[i];
    hide OwnRulesKept, OneofKept, ExpressionsPass, SingleKept, ItemsKept, EntriesKept;
    assert FieldConforms(s, checks, s.schema[name], i, m);
    assert RulesKept(s, checks, fd, EffectiveRules(s.schema[name], fd), false, m.slots[i].value);
  }

  const LIST_RULES := Rules(None, false, Some("repeated"), "min_items", [], [], false, None, None, None)

  // A message type with one field, a list of wrapper messages, and a rule for the list as a whole.
  function WrapperList(rule: Program): Setup {
    var list := Field("xs", false, ListOf(MessageOf("W")), Some(LIST_RULES));
    var none := (fd: Field, rules: Option<Rules>, nested: bool) => Compiled([]);
    Setup(map["M" := MessageType([list], [], []), "W" := MessageType([], [], [])],
          Compilers(name => Compiled([]), none, none,
                    (fd: Field, rules: Option<Rules>, nested: bool) =>
                      Compiled(if fd == list && !nested then [rule] else []),
                    (fd: Field, nested: bool) => Bool(false), name => if name == "W" then Some("w") else None),
          true)
  }

  /** The rules of a list as a whole are left out when its items are wrapper messages: a list that breaks such a rule
      conforms. */
  lemma WrapperListSkips(rule: Program)
    ensures var s := WrapperList(rule);
      var checks := Checks((m: Message, d: Descriptor) => true, (p: Program, v: Value) => CelViolation);
      && s.compilers.standard(s.schema["M"].fields[0], Some(LIST_RULES), false) == Compiled([rule])
      && checks.cel(rule, List([])) == CelViolation
      && Conforms(s, checks, "M", Message("M", [Slot(true, List([]))]))
  {
    var s := WrapperList(rule);
    var checks := Checks((m: Message, d: Descriptor) => true, (p: Program, v: Value) => CelViolation);
    var m, fd := Message("M", [Slot(true, List([]))]), s.schema["M"].fields[0];
    assert OfWrappers(s, fd) && EffectiveRules(s.schema["M"], fd) == Some(LIST_RULES);
    assert RulesCompile(s, fd, None, true);
    assert RulesCompile(s, fd, Some(LIST_RULES), false);
    assert ItemsKept(s, checks, fd, None, List([]));
    assert RulesKept(s, checks, fd, Some(LIST_RULES), false, List([]));
    assert FieldConforms(s, checks, s.schema["M"], 0, m);
  }

  /* ---- Types that are requested ---- */

  // Values of message type u that are to be checked: the field's own, its items or its map values.
  ghost predicate AsksFor(fd: Field, rules: Option<Rules>, u: string) {
    match fd.shape
    case Singular(kind) => kind == MessageOf(u)
    case ListOf(kind) => kind == MessageOf(u) && !AlwaysIgnored(ItemsOf(rules))
    case MapOf(_, kind) => kind == MessageOf(u) && !AlwaysIgnored(ValuesOf(rules))
  }

  lemma {:induction false} UsesStay<R>(
      s: Setup, link: string -> R, fd: Field, rules: Option<Rules>, base: Base, i: nat, n: nat)
    requires i < n <= STEPS && StepsSpec(s, link, fd, rules, base, n).err.None?
    ensures StepUses(s, link, fd, rules, base, i) <= StepsUse(s, link, fd, rules, base, n)
    decreases n
  {
    hide StepSpec, StepUses;
    if i + 1 < n { UsesStay(s, link, fd, rules, base, i, n - 1); }
  }

  lemma StepIsUsed<R>(s: Setup, link: string -> R, fd: Field, rules: Option<Rules>, base: Base, i: nat)
    requires i < STEPS && !AlwaysIgnored(rules) && RulesCompile(s, fd, rules, Nested(base))
    ensures StepUses(s, link, fd, rules, base, i) <= ValueUses(s, link, fd, rules, base)
  {
    ValueErrIff(s, link, fd, rules, base);
    hide StepUses, StepsUse, StepsSpec;
    UsesStay(s, link, fd, rules, base, i, STEPS);
  }

  lemma SingleIsUsed<R>(s: Setup, link: string -> R, fd: Field, rules: Option<Rules>, base: Base, u: string)
    requires !AlwaysIgnored(rules) && RulesCompile(s, fd, rules, Nested(base))
    requires SingleKind(fd, Nested(base)) == Some(MessageOf(u))
    ensures u in ValueUses(s, link, fd, rules, base)
  {
    SameKinds(fd, base);
    hide ValueUses, RulesCompile;
    StepIsUsed(s, link, fd, rules, base, 2);
  }

  lemma FieldAsks<R>(s: Setup, link: string -> R, fd: Field, rules: Option<Rules>, u: string)
    requires !AlwaysIgnored(rules) && RulesCompile(s, fd, rules, false) && AsksFor(fd, rules, u)
    ensures u in ValueUses(s, link, fd, rules, FieldBase(fd))
  {
    var base := FieldBase(fd);
    match fd.shape
    case Singular(_) =>
      SingleIsUsed(s, link, fd, rules, base, u);
    case ListOf(_) =>
      SingleIsUsed(s, link, fd, ItemsOf(rules), ITEM_BASE, u);
      hide ValueUses;
      StepIsUsed(s, link, fd, rules, base, 8);
    case MapOf(_, _) =>
      SingleIsUsed(s, link, MapValueField(fd), ValuesOf(rules), VALUE_BASE, u);
      ValueErrIff(s, link, MapKeyField(fd), KeysOf(rules), KEY_BASE);
      hide ValueUses, ValueSpec;
      StepIsUsed(s, link, fd, rules, base, 7);
  }

  lemma {:induction false} FieldIsUsed<R>(s: Setup, link: string -> R, t: MessageType, i: nat, n: nat)
    requires i < n <= |t.fields|
    ensures ValueUses(s, link, t.fields[i], RulesFor(t, t.fields[i]), FieldBase(t.fields[i])) <=
            FieldsUse(s, link, t, n)
    decreases n
  {
    hide ValueUses;
    if i + 1 < n { FieldIsUsed(s, link, t, i, n - 1); }
  }

  /** The type of every message that a field has checked is requested when the field's message type is built. */
  lemma MessageTypesAreRequested<R>(s: Setup, link: string -> R, name: string, i: nat, u: string)
    requires name in s.schema && i < |s.schema[name].fields|
    requires var fd := s.schema[name].fields[i];
      var rules := EffectiveRules(s.schema[name], fd);
      !AlwaysIgnored(rules) && RulesCompile(s, fd, rules, false) && AsksFor(fd, rules, u)
    ensures u in MessageUses(s, link, name)
  {
    var t := s.schema[name];
    SameRules(t, t.fields[i]);
    hide ValueUses, RulesCompile;
    FieldAsks(s, link, t.fields[i], EffectiveRules(t, t.fields[i]), u);
    FieldIsUsed(s, link, t, i, |t.fields|);
  }
}
