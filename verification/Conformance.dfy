/** What it means that a message keeps the rules of its type, said of the schema and the message alone: no evaluators,
    no order of evaluation, no tree. */
module Conformance {
  import opened Options
  import opened Outcomes
  import opened EvalTree
  import opened EvalLeaves
  import opened BuilderSpec

  /* ---- Fields and their values ---- */

  // The kind of the one value that rules apply to: that of a singular field, or of an item of a list.
  function SingleKind(fd: Field, nested: bool): Option<Kind> {
    match fd.shape
    case Singular(kind) => Some(kind)
    case ListOf(kind) => if nested then Some(kind) else None
    case MapOf(_, _) => None
  }

  predicate AlwaysIgnored(rules: Option<Rules>) { rules.Some? && rules.value.ignore == Some(Always) }

  predicate IgnoredIfZero(rules: Option<Rules>) { rules.Some? && rules.value.ignore == Some(IfZeroValue) }

  // A singular or repeated field whose messages wrap a scalar.
  predicate OfWrappers(s: Setup, fd: Field) {
    match fd.shape
    case Singular(MessageOf(u)) => s.compilers.wrapper(u).Some?
    case ListOf(MessageOf(u)) => s.compilers.wrapper(u).Some?
    case _ => false
  }

  // Rules for a wrapped scalar, on a message of type u
  predicate HasWrapperRules(s: Setup, rules: Option<Rules>, u: string) {
    rules.Some? && rules.value.typeRules.Some? && s.compilers.wrapper(u).Some?
  }

  const SCALAR_VALUE := Field("value", false, Singular(Scalar), None)

  function MapKeyField(fd: Field): Field
    requires fd.shape.MapOf?
  {
    Field("key", false, Singular(fd.shape.key), None)
  }

  function MapValueField(fd: Field): Field
    requires fd.shape.MapOf?
  {
    Field("value", true, Singular(fd.shape.value), None)
  }

  function ItemsOf(rules: Option<Rules>): Option<Rules> {
    match rules
    case None => None
    case Some(r) => r.items
  }

  function KeysOf(rules: Option<Rules>): Option<Rules> {
    match rules
    case None => None
    case Some(r) => r.keys
  }

  function ValuesOf(rules: Option<Rules>): Option<Rules> {
    match rules
    case None => None
    case Some(r) => r.values
  }

  function Levels(fd: Field, nested: bool): nat {
    match fd.shape
    case MapOf(_, _) => 2
    case ListOf(kind) => if !nested then 2 else if kind.MessageOf? then 1 else 0
    case Singular(kind) => if kind.MessageOf? then 1 else 0
  }

  /* ---- Rules that can be compiled ---- */

  // A oneof rule names at least one field, none twice, and only fields of the message.
  ghost predicate GoodOneofRule(t: MessageType, r: OneofRule) {
    && r.fields != []
    && (forall j, k :: 0 <= j < k < |r.fields| ==> r.fields[j] != r.fields[k])
    && (forall k :: 0 <= k < |r.fields| ==> IsFieldName(t, r.fields[k]))
  }

  ghost predicate IsFieldName(t: MessageType, name: string) {
    exists i :: 0 <= i < |t.fields| && t.fields[i].name == name
  }

  ghost predicate TypeCompiles(s: Setup, name: string) {
    name in s.schema ==>
      && s.compilers.message(name).Compiled?
      && forall k :: 0 <= k < |s.schema[name].oneofRules| ==>
           GoodOneofRule(s.schema[name], s.schema[name].oneofRules[k])
  }

  ghost predicate RulesCompile(s: Setup, fd: Field, rules: Option<Rules>, nested: bool)
    decreases Levels(fd, nested)
  {
    AlwaysIgnored(rules) ||
    (&& s.compilers.celExpressions(fd, rules, nested).Compiled?
     && s.compilers.celRules(fd, rules, nested).Compiled?
     && SingleCompiles(s, fd, rules, nested)
     && (OfWrappers(s, fd) || s.compilers.standard(fd, rules, nested).Compiled?)
     && match fd.shape
        case Singular(_) => true
        case ListOf(_) => nested || RulesCompile(s, fd, ItemsOf(rules), true)
        case MapOf(_, _) =>
          && RulesCompile(s, MapKeyField(fd), KeysOf(rules), true)
          && RulesCompile(s, MapValueField(fd), ValuesOf(rules), true))
  }

  // A message's own type, and rules of the right kind for a wrapped scalar
  ghost predicate SingleCompiles(s: Setup, fd: Field, rules: Option<Rules>, nested: bool)
    decreases Levels(fd, nested), 0
  {
    match SingleKind(fd, nested)
    case Some(MessageOf(u)) =>
      && TypeCompiles(s, u)
      && (HasWrapperRules(s, rules, u) ==>
            rules.value.typeRules == s.compilers.wrapper(u) && RulesCompile(s, SCALAR_VALUE, rules, nested))
    case _ => true
  }

  /* ---- Rules that are kept ---- */

  ghost predicate AllPass(checks: Checks, ps: seq<Program>, v: Value) {
    forall k :: 0 <= k < |ps| ==> checks.cel(ps[k], v).CelPass?
  }

  // The programs as they are called: each with its place in the list of rules.
  function Numbered(name: string, ps: seq<Program>): (r: seq<Program>)
    ensures |r| == |ps|
  {
    seq(|ps|, k requires 0 <= k < |ps| => ps[k].(path := [PathElement(name, Index(k))]))
  }

  ghost predicate CompiledPass(checks: Checks, c: Compiled, v: Value) {
    c.Compiled? ==> AllPass(checks, c.programs, v)
  }

  ghost predicate ExpressionsPass(s: Setup, checks: Checks, fd: Field, rules: Option<Rules>, nested: bool, v: Value) {
    var a, b := s.compilers.celExpressions(fd, rules, nested), s.compilers.celRules(fd, rules, nested);
    a.Compiled? && b.Compiled? ==>
      AllPass(checks, Numbered("cel_expression", a.programs), v) && AllPass(checks, Numbered("cel", b.programs), v)
  }

  // The type URL of a google.protobuf.Any
  function TypeUrl(v: Value): string {
    if v.Embed? && v.m.slots != [] && v.m.slots[0].value.Text? then v.m.slots[0].value.s else ""
  }

  ghost predicate AnyKept(rules: Option<Rules>, v: Value) {
    rules.Some? ==>
      && (rules.value.anyIn != [] ==> TypeUrl(v) in rules.value.anyIn)
      && TypeUrl(v) !in rules.value.anyNotIn
  }

  ghost predicate EnumKept(fd: Field, rules: Option<Rules>, v: Value) {
    rules.Some? && rules.value.definedOnly ==>
      match fd.shape
      case Singular(EnumOf(numbers)) => v.EnumNumber? && v.number in numbers
      case ListOf(EnumOf(numbers)) => v.EnumNumber? && v.number in numbers
      case _ => true
  }

  ghost predicate RulesKept(s: Setup, checks: Checks, fd: Field, rules: Option<Rules>, nested: bool, v: Value)
    decreases v, Levels(fd, nested), 2
  {
    && ExpressionsPass(s, checks, fd, rules, nested, v)
    && SingleKept(s, checks, fd, rules, nested, v)
    && (!OfWrappers(s, fd) ==> CompiledPass(checks, s.compilers.standard(fd, rules, nested), v))
    && EnumKept(fd, rules, v)
    && match fd.shape
       case Singular(_) => true
       case ListOf(_) => nested || ItemsKept(s, checks, fd, ItemsOf(rules), v)
       case MapOf(_, _) => EntriesKept(s, checks, fd, rules, v)
  }

  // An embedded message conforms to its own type; a wrapped scalar keeps the rules for it.
  ghost predicate SingleKept(s: Setup, checks: Checks, fd: Field, rules: Option<Rules>, nested: bool, v: Value)
    decreases v, Levels(fd, nested), 1
  {
    match SingleKind(fd, nested)
    case Some(MessageOf(u)) =>
      && (v.Embed? ==> Conforms(s, checks, u, v.m))
      && (HasWrapperRules(s, rules, u) ==> RulesKept(s, checks, SCALAR_VALUE, rules, nested, v))
      && (u == "google.protobuf.Any" ==> AnyKept(rules, v))
    case _ => true
  }

  ghost predicate ItemsKept(s: Setup, checks: Checks, fd: Field, rules: Option<Rules>, v: Value)
    requires fd.shape.ListOf?
    decreases v, Levels(fd, false), 1
  {
    forall k :: 0 <= k < |Items(v)| ==> ValueConforms(s, checks, fd, rules, true, v.items[k])
  }

  ghost predicate EntriesKept(s: Setup, checks: Checks, fd: Field, rules: Option<Rules>, v: Value)
    requires fd.shape.MapOf?
    decreases v, Levels(fd, false), 1
  {
    forall k :: 0 <= k < |Entries(v)| ==>
      && ValueConforms(s, checks, MapKeyField(fd), KeysOf(rules), true, v.entries[k].key)
      && ValueConforms(s, checks, MapValueField(fd), ValuesOf(rules), true, v.entries[k].value)
  }

  // An item, key or value may be exempt when it is its type's zero.
  ghost predicate ValueConforms(s: Setup, checks: Checks, fd: Field, rules: Option<Rules>, nested: bool, v: Value)
    decreases v, Levels(fd, nested), 3
  {
    || AlwaysIgnored(rules)
    || (nested && IgnoredIfZero(rules) && v == s.compilers.zero(fd, true))
    || RulesKept(s, checks, fd, rules, nested, v)
  }

  /* ---- Messages ---- */

  // A field that a oneof rule names is exempt when it is not set, unless its rules say otherwise.
  function EffectiveRules(t: MessageType, fd: Field): Option<Rules> {
    match fd.rules
    case None => None
    case Some(r) =>
      if r.ignore == None && exists k :: 0 <= k < |t.oneofRules| && fd.name in t.oneofRules[k].fields
      then Some(r.(ignore := Some(IfZeroValue))) else Some(r)
  }

  ghost predicate FieldConforms(s: Setup, checks: Checks, t: MessageType, i: nat, m: Message)
    requires i < |t.fields|
    decreases m, 1
  {
    var fd := t.fields[i];
    var rules := EffectiveRules(t, fd);
    AlwaysIgnored(rules) || !checks.filter(m, FieldDescriptor(i)) ||
    (&& RulesCompile(s, fd, rules, false)
     && if IsSet(m, i) then ValueConforms(s, checks, fd, rules, false, m.slots[i].value)
        else
          && !(rules.Some? && rules.value.required)
          && (fd.hasPresence || IgnoredIfZero(rules) || i >= |m.slots|
              || ValueConforms(s, checks, fd, rules, false, m.slots[i].value)))
  }

  ghost predicate NamedSet(t: MessageType, m: Message, name: string) {
    exists i :: 0 <= i < |t.fields| && t.fields[i].name == name && IsSet(m, i)
  }

  // At most one of the named fields is set, and one if the rule is required.
  ghost predicate OneofRuleKept(t: MessageType, m: Message, r: OneofRule) {
    && (forall j, k :: 0 <= j < k < |r.fields| ==> !(NamedSet(t, m, r.fields[j]) && NamedSet(t, m, r.fields[k])))
    && (r.required ==> exists k :: 0 <= k < |r.fields| && NamedSet(t, m, r.fields[k]))
  }

  ghost predicate OneofKept(checks: Checks, m: Message, o: OneofDecl) {
    checks.filter(m, OneofDescriptor(o.name)) && o.required ==>
      exists k :: 0 <= k < |o.members| && IsSet(m, o.members[k])
  }

  ghost predicate OwnRulesKept(s: Setup, checks: Checks, name: string, m: Message)
    requires name in s.schema
  {
    && TypeCompiles(s, name)
    && CompiledPass(checks, s.compilers.message(name), Embed(m))
    && forall k :: 0 <= k < |s.schema[name].oneofRules| ==>
         OneofRuleKept(s.schema[name], m, s.schema[name].oneofRules[k])
  }

  /** The message keeps all rules of the type, and so do the messages in it, as far as the filter admits them. */
  ghost predicate Conforms(s: Setup, checks: Checks, name: string, m: Message)
    decreases m, 2
  {
    name in s.schema ==>
      var t := s.schema[name];
      && (checks.filter(m, MessageDescriptor(m.typeName)) ==> OwnRulesKept(s, checks, name, m))
      && (forall k :: 0 <= k < |t.oneofs| ==> OneofKept(checks, m, t.oneofs[k]))
      && (forall i :: 0 <= i < |t.fields| ==> FieldConforms(s, checks, t, i, m))
  }
}
