/** The evaluator trees that the builder makes, the messages they check, and the flat list of atomic
    outcomes that checking a message with a tree means. References to the evaluators of embedded message
    types are of any type R; an environment says which evaluator a reference stands for. */
module EvalTree {
  import opened Options
  import opened Outcomes

  /* ---- Messages ---- */

  datatype Value =
    | Bool(b: bool)
    | Int(i: int)
    | Uint(u: nat)
    | Text(s: string)
    | EnumNumber(number: int)
    | Embed(m: Message)
    | List(items: seq<Value>)
    | Map(entries: seq<Entry>) // in the order in which Range visits them

  datatype Entry = Entry(key: Value, value: Value)

  // A message of a type: one slot per field of its descriptor, set or not, with the value Get returns.
  datatype Message = Message(typeName: string, slots: seq<Slot>)

  datatype Slot = Slot(has: bool, value: Value)

  predicate Has(m: Message, field: nat) { field < |m.slots| && m.slots[field].has }

  function Items(v: Value): seq<Value> { if v.List? then v.items else [] }

  function Entries(v: Value): seq<Entry> { if v.Map? then v.entries else [] }

  /* ---- Evaluators ---- */

  datatype Program = Program(id: string, path: seq<PathElement>)

  // base: the field path element of the field it pertains to, if any, and the static rule prefix.
  datatype Base = Base(element: Option<PathElement>, rulePrefix: seq<PathElement>)

  // The rule prefixes of what is below a list or map.
  const ITEM_RULES := [Plain("repeated"), Plain("items")]
  const KEY_RULES := [Plain("map"), Plain("keys")]
  const VALUE_RULES := [Plain("map"), Plain("values")]

  datatype Evaluator<R> =
    | CelPrograms(base: Base, programs: seq<Program>)
    | AnyPb(base: Base, typeUrl: nat, allowed: seq<string>, blocked: seq<string>)
    | DefinedEnum(base: Base, numbers: set<int>)
    | EmbeddedMessage(base: Base, message: R)
    | ListItems(base: Base, itemRules: ValueEval<R>)
    | KvPairs(base: Base, keyRules: ValueEval<R>, valueRules: ValueEval<R>)
    | Evaluators(rules: seq<Evaluator<R>>) // what the rules of a wrapper message's value add up to

  // value: Zero and IgnoreEmpty only matter for repeated elements and map keys and values.
  datatype ValueEval<R> = ValueEval(rules: seq<Evaluator<R>>, nestedRules: seq<Evaluator<R>>, zero: Value,
    ignoreEmpty: bool)

  datatype Ignore = Unspecified | IfZeroValue | Always

  datatype FieldEval<R> = FieldEval(
    field: nat, name: string, value: ValueEval<R>,
    required: bool, hasPresence: bool, ignore: Ignore, err: Option<string>)

  datatype MessageEvaluator<R> =
    | CelMessage(programs: seq<Program>)
    | MessageOneof(fields: seq<nat>, required: bool)
    | Oneof(oneof: string, members: seq<nat>, required: bool)
    | FieldRules(field: FieldEval<R>)

  datatype MessageEval<R> = MessageEval(err: Option<string>, evaluators: seq<MessageEvaluator<R>>,
    nested: seq<MessageEvaluator<R>>)

  /* ---- Configuration: what lies outside the model is a parameter ---- */

  datatype CelResult = CelPass | CelViolation | CelError(cause: string)

  // What the filter is asked about.
  datatype Descriptor =
    | MessageDescriptor(typeName: string)
    | FieldDescriptor(field: nat)
    | OneofDescriptor(oneof: string)

  // The filter, and the compiled programs as a pure function.
  datatype Checks = Checks(filter: (Message, Descriptor) -> bool, cel: (Program, Value) -> CelResult)

  datatype Config = Config(failFast: bool, checks: Checks)

  type Env<!R> = R -> MessageEval<R>

  /* ---- Atomic outcomes of the leaves ---- */

  function ElementOf(base: Base): seq<PathElement> {
    if base.element.Some? then [base.element.value] else []
  }

  // The element of a list or map field, subscripted.
  function Subscripted(base: Base, s: Subscript): PathElement {
    PathElement(if base.element.Some? then base.element.value.name else "", s)
  }

  function KeySubscript(key: Value): Subscript {
    match key
    case Bool(b) => BoolKey(b)
    case Int(i) => IntKey(i)
    case Uint(u) => UintKey(u)
    case Text(s) => StringKey(s)
    case _ => NoSubscript
  }

  function ProgramAtom(checks: Checks, p: Program, v: Value): Atom {
    match checks.cel(p, v)
    case CelPass => Pass
    case CelViolation => Violated(Violation([], p.path, false, p.id))
    case CelError(cause) => Failed(cause)
  }

  function ProgramAtoms(checks: Checks, ps: seq<Program>, v: Value): seq<Atom> {
    if ps == [] then [] else [ProgramAtom(checks, ps[0], v)] + ProgramAtoms(checks, ps[1..], v)
  }

  const ANY_IN := [Plain("any"), Plain("in")]
  const ANY_NOT_IN := [Plain("any"), Plain("not_in")]
  const ENUM_DEFINED_ONLY := [Plain("enum"), Plain("defined_only")]

  function UrlOf(v: Value, field: nat): string {
    if v.Embed? && field < |v.m.slots| && v.m.slots[field].value.Text? then v.m.slots[field].value.s else ""
  }

  function AnyAtoms(base: Base, url: string, allowed: seq<string>, blocked: seq<string>): seq<Atom> {
    (if allowed != [] && url !in allowed
     then [Violated(Violation(ElementOf(base), base.rulePrefix + ANY_IN, false, "any.in"))] else []) +
    (if url in blocked
     then [Violated(Violation(ElementOf(base), base.rulePrefix + ANY_NOT_IN, false, "any.not_in"))] else [])
  }

  function EnumAtoms(base: Base, numbers: set<int>, v: Value): seq<Atom> {
    if v.EnumNumber? && v.number in numbers then []
    else [Violated(Violation(ElementOf(base), base.rulePrefix + ENUM_DEFINED_ONLY, false, "enum.defined_only"))]
  }

  function CountHas(m: Message, fields: seq<nat>): nat {
    if fields == [] then 0 else (if Has(m, fields[0]) then 1 else 0) + CountHas(m, fields[1..])
  }

  function MessageOneofAtoms(checks: Checks, m: Message, fields: seq<nat>, required: bool): seq<Atom> {
    if !checks.filter(m, MessageDescriptor(m.typeName)) || fields == [] then []
    else if CountHas(m, fields) > 1 || (required && CountHas(m, fields) != 1)
    then [Violated(Violation([], [], false, "message.oneof"))]
    else []
  }

  function OneofAtoms(checks: Checks, m: Message, oneof: string, members: seq<nat>, required: bool): seq<Atom> {
    if !checks.filter(m, OneofDescriptor(oneof)) || !required || CountHas(m, members) > 0 then []
    else [Violated(Violation([Plain(oneof)], [], false, "required"))]
  }

  /* ---- The flat list of a tree, in evaluation order ---- */

  function MessageAtoms<R>(env: Env<R>, checks: Checks, e: MessageEval<R>, m: Message): seq<Atom>
    decreases m, e, 1
  {
    if checks.filter(m, MessageDescriptor(m.typeName)) then
      if e.err.Some? then [Failed(e.err.value)]
      else PartsAtoms(env, checks, e.evaluators, m) + PartsAtoms(env, checks, e.nested, m)
    else PartsAtoms(env, checks, e.nested, m)
  }

  function PartsAtoms<R>(env: Env<R>, checks: Checks, es: seq<MessageEvaluator<R>>, m: Message): seq<Atom>
    decreases m, es, 1
  {
    if es == [] then [] else PartAtoms(env, checks, es[0], m) + PartsAtoms(env, checks, es[1..], m)
  }

  function PartAtoms<R>(env: Env<R>, checks: Checks, e: MessageEvaluator<R>, m: Message): seq<Atom>
    decreases m, e, 1
  {
    match e
    case CelMessage(programs) => ProgramAtoms(checks, programs, Embed(m))
    case MessageOneof(fields, required) => MessageOneofAtoms(checks, m, fields, required)
    case Oneof(oneof, members, required) => OneofAtoms(checks, m, oneof, members, required)
    case FieldRules(f) => FieldAtoms(env, checks, f, m)
  }

  function FieldAtoms<R>(env: Env<R>, checks: Checks, f: FieldEval<R>, m: Message): seq<Atom>
    decreases m, f, 1
  {
    if f.ignore.Always? || !checks.filter(m, FieldDescriptor(f.field)) then []
    else if f.err.Some? then [Failed(f.err.value)]
    else if f.required && !Has(m, f.field)
    then [Violated(Violation([Plain(f.name)], [Plain("required")], false, "required"))]
    else if (f.hasPresence || f.ignore.IfZeroValue?) && !Has(m, f.field) then []
    else if f.field < |m.slots| then ValueAtoms(env, checks, f.value, m.slots[f.field].value, true)
    else [] // a message has a slot for every field of its descriptor
  }

  function ValueAtoms<R>(env: Env<R>, checks: Checks, e: ValueEval<R>, v: Value, shouldValidate: bool): seq<Atom>
    decreases v, e, 1
  {
    if !shouldValidate then RulesAtoms(env, checks, e.nestedRules, v)
    else if e.ignoreEmpty && v == e.zero then []
    else RulesAtoms(env, checks, e.rules, v) + RulesAtoms(env, checks, e.nestedRules, v)
  }

  function RulesAtoms<R>(env: Env<R>, checks: Checks, es: seq<Evaluator<R>>, v: Value): seq<Atom>
    decreases v, es, 1
  {
    if es == [] then [] else RuleAtoms(env, checks, es[0], v) + RulesAtoms(env, checks, es[1..], v)
  }

  function RuleAtoms<R>(env: Env<R>, checks: Checks, e: Evaluator<R>, v: Value): seq<Atom>
    decreases v, e, 1
  {
    match e
    case CelPrograms(base, programs) =>
      ChangeAtoms(Place(ElementOf(base), base.rulePrefix), ProgramAtoms(checks, programs, v))
    case AnyPb(base, typeUrl, allowed, blocked) => AnyAtoms(base, UrlOf(v, typeUrl), allowed, blocked)
    case DefinedEnum(base, numbers) => EnumAtoms(base, numbers, v)
    case EmbeddedMessage(base, r) =>
      if v.Embed? then ChangeAtoms(Place(ElementOf(base), []), MessageAtoms(env, checks, env(r), v.m)) else []
    case ListItems(base, itemRules) => ItemsAtoms(env, checks, base, itemRules, v, 0)
    case KvPairs(base, keyRules, valueRules) => EntriesAtoms(env, checks, base, keyRules, valueRules, v, 0)
    case Evaluators(rules) => RulesAtoms(env, checks, rules, v)
  }

  // The items from number i on
  function ItemsAtoms<R>(env: Env<R>, checks: Checks, base: Base, e: ValueEval<R>, v: Value, i: nat): seq<Atom>
    requires i <= |Items(v)|
    decreases v, e, |Items(v)| - i
  {
    if i == |Items(v)| then [] else
      ItemAtoms(env, checks, base, e, v, i) + ItemsAtoms(env, checks, base, e, v, i + 1)
  }

  function ItemAtoms<R>(env: Env<R>, checks: Checks, base: Base, e: ValueEval<R>, v: Value, i: nat): seq<Atom>
    requires i < |Items(v)|
    decreases v, e, 0
  {
    ChangeAtoms(Place([Subscripted(base, Index(i))], base.rulePrefix), ValueAtoms(env, checks, e, v.items[i], true))
  }

  // The map entries from number i on
  function EntriesAtoms<R>(
      env: Env<R>, checks: Checks, base: Base, keys: ValueEval<R>, values: ValueEval<R>, v: Value, i: nat): seq<Atom>
    requires i <= |Entries(v)|
    decreases v, keys, |Entries(v)| - i
  {
    if i == |Entries(v)| then [] else
      EntryAtoms(env, checks, base, keys, values, v, i) + EntriesAtoms(env, checks, base, keys, values, v, i + 1)
  }

  function EntryAtoms<R>(
      env: Env<R>, checks: Checks, base: Base, keys: ValueEval<R>, values: ValueEval<R>, v: Value, i: nat): seq<Atom>
    requires i < |Entries(v)|
    decreases v, keys, 0
  {
    ChangeAtoms(Place([Subscripted(base, KeySubscript(v.entries[i].key))], base.rulePrefix),
                PairAtoms(env, checks, keys, values, v.entries[i]))
  }

  function PairAtoms<R>(env: Env<R>, checks: Checks, keys: ValueEval<R>, values: ValueEval<R>, entry: Entry): seq<Atom>
    decreases entry, keys, 0
  {
    ChangeAtoms(MarkKey, ValueAtoms(env, checks, keys, entry.key, true)) +
      ValueAtoms(env, checks, values, entry.value, true)
  }

  // The list for what the builder has loaded; unknownMessage always fails.
  function LoadedAtoms<R>(env: Env<R>, checks: Checks, loaded: Option<R>, m: Message): seq<Atom> {
    match loaded
    case None => [Failed("no evaluator available for " + m.typeName)]
    case Some(r) => MessageAtoms(env, checks, env(r), m)
  }
}
