/** What the builder makes of a message type: an evaluator as a function of the type alone, with a link for
    every embedded type. Descriptors and rules are a finite schema; compilation is a pure function. */
module BuilderSpec {
  import opened Options
  import opened Outcomes
  import opened EvalTree
  import opened EvalElide

  /* ---- Descriptors and rules ---- */

  datatype Kind = Scalar | EnumOf(numbers: set<int>) | MessageOf(typeName: string)

  datatype Shape = Singular(kind: Kind) | ListOf(kind: Kind) | MapOf(key: Kind, value: Kind)

  // rules: what resolving the field's rules gives
  datatype Field = Field(name: string, hasPresence: bool, shape: Shape, rules: Option<Rules>)

  // type: which member of the oneof of type-specific rules is set; text: all that only compilation looks at
  datatype Rules = Rules(
    ignore: Option<Ignore>, required: bool, typeRules: Option<string>, text: string,
    anyIn: seq<string>, anyNotIn: seq<string>, definedOnly: bool,
    items: Option<Rules>, keys: Option<Rules>, values: Option<Rules>)

  datatype OneofRule = OneofRule(fields: seq<string>, required: bool)

  datatype OneofDecl = OneofDecl(name: string, members: seq<nat>, required: bool)

  datatype MessageType = MessageType(fields: seq<Field>, oneofs: seq<OneofDecl>, oneofRules: seq<OneofRule>)

  datatype Compiled = Compiled(programs: seq<Program>) | NotCompiled(error: string)

  function CompileError(c: Compiled): Option<string> { if c.NotCompiled? then Some(c.error) else None }

  // The flag says whether the rules are those of a list item, map key or map value.
  datatype Compilers = Compilers(
    message: string -> Compiled,
    celExpressions: (Field, Option<Rules>, bool) -> Compiled,
    celRules: (Field, Option<Rules>, bool) -> Compiled,
    standard: (Field, Option<Rules>, bool) -> Compiled,
    zero: (Field, bool) -> Value,
    wrapper: string -> Option<string>) // the type rules that a wrapper type expects

  // keepAll: whether evaluators that are tautologies are kept, which the code never does
  datatype Setup = Setup(schema: map<string, MessageType>, compilers: Compilers, keepAll: bool)

  predicate Mentions(fd: Field, t: string) {
    match fd.shape
    case Singular(kind) => kind == MessageOf(t)
    case ListOf(kind) => kind == MessageOf(t)
    case MapOf(key, value) => key == MessageOf(t) || value == MessageOf(t)
  }

  // Descriptors are resolved: every type that a field mentions is there.
  ghost predicate Closed(s: Setup) {
    forall t, i, u :: t in s.schema && 0 <= i < |s.schema[t].fields| && Mentions(s.schema[t].fields[i], u) ==>
      u in s.schema
  }

  /* ---- Appending ---- */

  function Add<R>(s: Setup, es: seq<Evaluator<R>>, e: Evaluator<R>): seq<Evaluator<R>> {
    if s.keepAll then es + [e] else Append(es, e)
  }

  function AddPart<R>(s: Setup, es: seq<MessageEvaluator<R>>, e: MessageEvaluator<R>): seq<MessageEvaluator<R>> {
    if s.keepAll then es + [e] else AppendPart(es, e)
  }

  /* ---- The message's own error ---- */

  function FieldIndex(fields: seq<Field>, name: string): (r: Option<nat>)
    ensures r.Some? ==> r.value < |fields| && fields[r.value].name == name
    ensures r.None? ==> forall i :: 0 <= i < |fields| ==> fields[i].name != name
  {
    if fields == [] then None
    else if fields[|fields| - 1].name == name then Some(|fields| - 1)
    else FieldIndex(fields[..|fields| - 1], name)
  }

  // The error of the first bad name from number i on.
  function NamesErr(t: MessageType, names: seq<string>, i: nat): Option<string>
    requires i <= |names|
    decreases |names| - i
  {
    if i == |names| then None
    else if names[i] in names[..i] then Some("duplicate " + names[i] + " in oneof rule")
    else if FieldIndex(t.fields, names[i]).None? then Some("field " + names[i] + " not found")
    else NamesErr(t, names, i + 1)
  }

  function OneofRuleErr(t: MessageType, r: OneofRule): Option<string> {
    if r.fields == [] then Some("at least one field must be specified in oneof rule") else NamesErr(t, r.fields, 0)
  }

  // The number of oneof rules before the first bad one.
  function GoodRules(t: MessageType, i: nat): (n: nat)
    requires i <= |t.oneofRules|
    ensures i <= n <= |t.oneofRules|
    decreases |t.oneofRules| - i
  {
    if i == |t.oneofRules| || OneofRuleErr(t, t.oneofRules[i]).Some? then i else GoodRules(t, i + 1)
  }

  function OneofsErr(t: MessageType): Option<string> {
    var n := GoodRules(t, 0);
    if n == |t.oneofRules| then None else OneofRuleErr(t, t.oneofRules[n])
  }

  // The error that is there once the fields are processed: it does not depend on them.
  function MessageErr(s: Setup, name: string): Option<string> {
    if name !in s.schema then None
    else if OneofsErr(s.schema[name]).Some? then OneofsErr(s.schema[name])
    else CompileError(s.compilers.message(name))
  }

  /* ---- Values ---- */

  // A value under construction, and the error that ended it.
  datatype Built<R> = Built(value: ValueEval<R>, err: Option<string>)

  // The bases that values are built with: a field's own, and those of list items, map keys and map values.
  function FieldBase(fd: Field): Base { Base(Some(Plain(fd.name)), []) }

  const ITEM_BASE := Base(None, ITEM_RULES)
  const KEY_BASE := Base(None, KEY_RULES)
  const VALUE_BASE := Base(None, VALUE_RULES)

  predicate Nested(base: Base) { base.rulePrefix != [] }

  function IgnoreOf(rules: Option<Rules>): Ignore {
    if rules.Some? && rules.value.ignore.Some? then rules.value.ignore.value else Unspecified
  }

  // The message type of a field that holds one message, or several when it is seen as the item of a list.
  function EmbeddedType(fd: Field, base: Base): Option<string> {
    match fd.shape
    case Singular(MessageOf(t)) => Some(t)
    case ListOf(MessageOf(t)) => if Nested(base) then Some(t) else None
    case _ => None
  }

  // isMessageField for fields that are no maps
  function KindType(fd: Field): Option<string> {
    match fd.shape
    case Singular(MessageOf(t)) => Some(t)
    case ListOf(MessageOf(t)) => Some(t)
    case _ => None
  }

  function EnumNumbers(fd: Field): Option<set<int>> {
    match fd.shape
    case Singular(EnumOf(numbers)) => Some(numbers)
    case ListOf(EnumOf(numbers)) => Some(numbers)
    case _ => None
  }

  const NO_VALUE := Bool(false)

  const ANY_TYPE := "google.protobuf.Any"
  const TYPE_URL: nat := 0

  function Empty<R>(): ValueEval<R> { ValueEval([], [], NO_VALUE, false) }

  function WithPaths(name: string, ps: seq<Program>): (r: seq<Program>)
    ensures |r| == |ps|
  {
    seq(|ps|, i requires 0 <= i < |ps| => ps[i].(path := [PathElement(name, Index(i))]))
  }

  // The field named value of a wrapper type, and the key and value of a map's entry.
  function WrappedField(): Field { Field("value", false, Singular(Scalar), None) }

  function KeyField(fd: Field): Field
    requires fd.shape.MapOf?
  {
    Field("key", false, Singular(fd.shape.key), None)
  }

  function ValueField(fd: Field): Field
    requires fd.shape.MapOf?
  {
    Field("value", true, Singular(fd.shape.value), None)
  }

  function ItemRules(rules: Option<Rules>): Option<Rules> { if rules.Some? then rules.value.items else None }

  function KeyRules(rules: Option<Rules>): Option<Rules> { if rules.Some? then rules.value.keys else None }

  function ValueRules(rules: Option<Rules>): Option<Rules> { if rules.Some? then rules.value.values else None }

  // How deep the values of a field are nested.
  function Depth(fd: Field, base: Base): nat {
    match fd.shape
    case MapOf(_, _) => 2
    case ListOf(kind) => if !Nested(base) then 2 else if kind.MessageOf? then 1 else 0
    case Singular(kind) => if kind.MessageOf? then 1 else 0
  }

  const STEPS: nat := 9

  function ValueSpec<R>(s: Setup, link: string -> R, fd: Field, rules: Option<Rules>, base: Base): Built<R>
    decreases Depth(fd, base), STEPS + 1
  {
    if IgnoreOf(rules) == Always then Built(Empty(), None) else StepsSpec(s, link, fd, rules, base, STEPS)
  }

  // The first n steps; the first error ends them.
  function StepsSpec<R>(s: Setup, link: string -> R, fd: Field, rules: Option<Rules>, base: Base, n: nat): Built<R>
    requires n <= STEPS
    decreases Depth(fd, base), n
  {
    if n == 0 then Built(Empty(), None) else
      var b := StepsSpec(s, link, fd, rules, base, n - 1);
      if b.err.Some? then b else StepSpec(s, link, fd, rules, base, n - 1, b.value)
  }

  function StepSpec<R>(
      s: Setup, link: string -> R, fd: Field, rules: Option<Rules>, base: Base, i: nat, v: ValueEval<R>): Built<R>
    requires i < STEPS
    decreases Depth(fd, base), 0
  {
    match i
    case 0 => IgnoreEmptySpec(s, fd, rules, base, v)
    case 1 => ExpressionsSpec(s, fd, rules, base, v)
    case 2 => EmbeddedSpec(s, link, fd, base, v)
    case 3 => WrapperSpec(s, link, fd, rules, base, v)
    case 4 => StandardSpec(s, fd, rules, base, v)
    case 5 => AnySpec(s, fd, rules, base, v)
    case 6 => EnumSpec(s, fd, rules, base, v)
    case 7 => MapSpec(s, link, fd, rules, base, v)
    case 8 => RepeatedSpec(s, link, fd, rules, base, v)
  }

  function IgnoreEmptySpec<R>(s: Setup, fd: Field, rules: Option<Rules>, base: Base, v: ValueEval<R>): Built<R> {
    if Nested(base) && IgnoreOf(rules) == IfZeroValue
    then Built(v.(ignoreEmpty := true, zero := s.compilers.zero(fd, Nested(base))), None)
    else Built(v.(ignoreEmpty := false), None)
  }

  function ExpressionsSpec<R>(s: Setup, fd: Field, rules: Option<Rules>, base: Base, v: ValueEval<R>): Built<R> {
    match s.compilers.celExpressions(fd, rules, Nested(base))
    case NotCompiled(error) => Built(v, Some(error))
    case Compiled(ps) =>
      match s.compilers.celRules(fd, rules, Nested(base))
      case NotCompiled(error) => Built(v, Some(error))
      case Compiled(qs) =>
        var all := WithPaths("cel_expression", ps) + WithPaths("cel", qs);
        Built(if all != [] || s.keepAll then v.(rules := v.rules + [CelPrograms(base, all)]) else v, None)
  }

  function EmbeddedError(t: string, fd: Field, cause: string): string {
    "failed to compile embedded type " + t + " for " + fd.name + ": " + cause
  }

  function KeysError(
      fd: Field, cause: string): string { "failed to compile key rules for map " + fd.name + ": " + cause }

  function ValuesError(
      fd: Field, cause: string): string { "failed to compile value rules for map " + fd.name + ": " + cause }

  function ItemsError(
      fd: Field, cause: string): string { "failed to compile items rules for repeated " + fd.name + ": " + cause }

  function WrapperError(expected: string): string { "expected rule " + expected }

  function EmbeddedSpec<R>(s: Setup, link: string -> R, fd: Field, base: Base, v: ValueEval<R>): Built<R> {
    match EmbeddedType(fd, base)
    case None => Built(v, None)
    case Some(t) =>
      match MessageErr(s, t)
      case Some(cause) => Built(v, Some(EmbeddedError(t, fd, cause)))
      case None => Built(v.(nestedRules := Add(s, v.nestedRules, EmbeddedMessage(base, link(t)))), None)
  }

  function WrapperSpec<R>(
      s: Setup, link: string -> R, fd: Field, rules: Option<Rules>, base: Base, v: ValueEval<R>): Built<R>
    decreases Depth(fd, base), 0, 0
  {
    if EmbeddedType(fd, base).None? || rules.None? || rules.value.typeRules.None? then Built(v, None) else
      match s.compilers.wrapper(EmbeddedType(fd, base).value)
      case None => Built(v, None)
      case Some(expected) =>
        if rules.value.typeRules.value != expected then Built(v, Some(WrapperError(expected))) else
          var inner := ValueSpec(s, link, WrappedField(), rules, base);
          if inner.err.Some? then Built(v, inner.err)
          else Built(v.(rules := Add(s, v.rules, Evaluators(inner.value.rules))), None)
  }

  function StandardSpec<R>(s: Setup, fd: Field, rules: Option<Rules>, base: Base, v: ValueEval<R>): Built<R> {
    if KindType(fd).Some? && s.compilers.wrapper(KindType(fd).value).Some? then Built(v, None) else
      match s.compilers.standard(fd, rules, Nested(base))
      case NotCompiled(error) => Built(v, Some(error))
      case Compiled(ps) => Built(v.(rules := Add(s, v.rules, CelPrograms(base, ps))), None)
  }

  function AnySpec<R>(s: Setup, fd: Field, rules: Option<Rules>, base: Base, v: ValueEval<R>): Built<R> {
    if EmbeddedType(fd, base) != Some(ANY_TYPE) then Built(v, None) else
      var e := AnyPb(base, TYPE_URL, if rules.Some? then rules.value.anyIn else [], if rules.Some?
        then rules.value.anyNotIn else []);
      Built(v.(rules := Add(s, v.rules, e)), None)
  }

  function EnumSpec<R>(s: Setup, fd: Field, rules: Option<Rules>, base: Base, v: ValueEval<R>): Built<R> {
    if EnumNumbers(fd).Some? && rules.Some? && rules.value.definedOnly
    then Built(v.(rules := Add(s, v.rules, DefinedEnum(base, EnumNumbers(fd).value))), None)
    else Built(v, None)
  }

  function MapSpec<R>(
      s: Setup, link: string -> R, fd: Field, rules: Option<Rules>, base: Base, v: ValueEval<R>): Built<R>
    decreases Depth(fd, base), 0, 0
  {
    if !fd.shape.MapOf? then Built(v, None) else
      var keys := ValueSpec(s, link, KeyField(fd), KeyRules(rules), KEY_BASE);
      if keys.err.Some? then Built(v, Some(KeysError(fd, keys.err.value))) else
        var values := ValueSpec(s, link, ValueField(fd), ValueRules(rules), VALUE_BASE);
        if values.err.Some? then Built(v, Some(ValuesError(fd, values.err.value)))
        else Built(v.(rules := Add(s, v.rules, KvPairs(base, keys.value, values.value))), None)
  }

  function RepeatedSpec<R>(
      s: Setup, link: string -> R, fd: Field, rules: Option<Rules>, base: Base, v: ValueEval<R>): Built<R>
    decreases Depth(fd, base), 0, 0
  {
    if !fd.shape.ListOf? || Nested(base) then Built(v, None) else
      var items := ValueSpec(s, link, fd, ItemRules(rules), ITEM_BASE);
      if items.err.Some? then Built(v, Some(ItemsError(fd, items.err.value)))
      else Built(v.(rules := Add(s, v.rules, ListItems(base, items.value))), None)
  }

  /* ---- The types that building a value asks the cache for ---- */

  function ValueUses<R>(s: Setup, link: string -> R, fd: Field, rules: Option<Rules>, base: Base): set<string>
    decreases Depth(fd, base), STEPS + 1
  {
    if IgnoreOf(rules) == Always then {} else StepsUse(s, link, fd, rules, base, STEPS)
  }

  function StepsUse<R>(s: Setup, link: string -> R, fd: Field, rules: Option<Rules>, base: Base, n: nat): set<string>
    requires n <= STEPS
    decreases Depth(fd, base), n
  {
    if n == 0 then {} else
      StepsUse(s, link, fd, rules, base, n - 1) +
      if StepsSpec(s, link, fd, rules, base, n - 1).err.Some? then {} else StepUses(s, link, fd, rules, base, n - 1)
  }

  function StepUses<R>(s: Setup, link: string -> R, fd: Field, rules: Option<Rules>, base: Base, i: nat): set<string>
    requires i < STEPS
    decreases Depth(fd, base), 0
  {
    if i == 2 then (if EmbeddedType(fd, base).Some? then {EmbeddedType(fd, base).value} else {})
    else if i == 7 && fd.shape.MapOf? then
      ValueUses(s, link, KeyField(fd), KeyRules(rules), KEY_BASE) +
      (if ValueSpec(s, link, KeyField(fd), KeyRules(rules), KEY_BASE).err.Some? then {}
       else ValueUses(s, link, ValueField(fd), ValueRules(rules), VALUE_BASE))
    else if i == 8 && fd.shape.ListOf? && !Nested(base) then
      ValueUses(s, link, fd, ItemRules(rules), ITEM_BASE)
    else {}
  }

  /* ---- Fields and messages ---- */

  predicate PartOfOneofRule(t: MessageType, name: string) {
    exists i :: 0 <= i < |t.oneofRules| && name in t.oneofRules[i].fields
  }

  // The rules as buildField sees them: a member of a oneof rule is ignored when empty unless it says otherwise.
  function RulesFor(t: MessageType, fd: Field): Option<Rules> {
    if fd.rules.Some? && fd.rules.value.ignore.None? && PartOfOneofRule(t, fd.name)
    then Some(fd.rules.value.(ignore := Some(IfZeroValue)))
    else fd.rules
  }

  function FieldSpec<R>(s: Setup, link: string -> R, t: MessageType, i: nat): FieldEval<R>
    requires i < |t.fields|
  {
    var fd := t.fields[i];
    var rules := RulesFor(t, fd);
    var b := ValueSpec(s, link, fd, rules, FieldBase(fd));
    FieldEval(i, fd.name, b.value, rules.Some? && rules.value.required, fd.hasPresence, IgnoreOf(rules), b.err)
  }

  function Indexes(t: MessageType, names: seq<string>): seq<nat> {
    if names == [] then [] else
      Indexes(t, names[..|names| - 1]) +
      match FieldIndex(t.fields, names[|names| - 1]) { case Some(i) => [i] case None => [] }
  }

  function OwnParts<R>(s: Setup, name: string): seq<MessageEvaluator<R>> {
    match s.compilers.message(name)
    case Compiled(ps) => AddPart(s, [], CelMessage(ps))
    case NotCompiled(_) => []
  }

  // The nested evaluators after n oneof rules, n oneofs, n fields
  function RuleParts<R>(s: Setup, t: MessageType, n: nat): seq<MessageEvaluator<R>>
    requires n <= |t.oneofRules|
  {
    if n == 0 then [] else
      var r := t.oneofRules[n - 1];
      AddPart(s, RuleParts(s, t, n - 1), MessageOneof(Indexes(t, r.fields), r.required))
  }

  function OneofParts<R>(s: Setup, t: MessageType, n: nat): seq<MessageEvaluator<R>>
    requires n <= |t.oneofs|
  {
    if n == 0 then RuleParts(s, t, GoodRules(t, 0)) else
      var o := t.oneofs[n - 1];
      AddPart(s, OneofParts(s, t, n - 1), Oneof(o.name, o.members, o.required))
  }

  function FieldParts<R>(s: Setup, link: string -> R, t: MessageType, n: nat): seq<MessageEvaluator<R>>
    requires n <= |t.fields|
  {
    if n == 0 then OneofParts(s, t, |t.oneofs|)
    else AddPart(s, FieldParts(s, link, t, n - 1), FieldRules(FieldSpec(s, link, t, n - 1)))
  }

  /** The evaluator of a type. */
  function MessageSpec<R>(s: Setup, link: string -> R, name: string): MessageEval<R>
    requires name in s.schema
  {
    var t := s.schema[name];
    MessageEval(MessageErr(s, name), OwnParts(s, name), FieldParts(s, link, t, |t.fields|))
  }

  // The types that building the first n fields asks for.
  function FieldsUse<R>(s: Setup, link: string -> R, t: MessageType, n: nat): set<string>
    requires n <= |t.fields|
  {
    if n == 0 then {} else
      var fd := t.fields[n - 1];
      FieldsUse(s, link, t, n - 1) + ValueUses(s, link, fd, RulesFor(t, fd), FieldBase(fd))
  }

  function MessageUses<R>(s: Setup, link: string -> R, name: string): set<string>
    requires name in s.schema
  {
    FieldsUse(s, link, s.schema[name], |s.schema[name].fields|)
  }
}
