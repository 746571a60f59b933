/** The builder as the code has it: evaluators of message types are objects in a cache, put there before they
    are filled, so that types that mention each other terminate; values under construction are objects too. */
module Builder {
  import opened Options
  import opened Outcomes
  import opened EvalTree
  import opened EvalElide
  import opened BuilderSpec
  import opened BuilderTheorems

  /* ---- message.go, value.go ---- */

  // The evaluator object of a message type.
  class Node {
    var err: Option<string>
    var evaluators: seq<MessageEvaluator<Node>>
    var nested: seq<MessageEvaluator<Node>>

    constructor ()
      ensures Eval() == MessageEval(None, [], [])
    {
      err, evaluators, nested := None, [], [];
    }

    function Eval(): MessageEval<Node>
      reads this
    {
      MessageEval(err, evaluators, nested)
    }

    method Append(e: MessageEvaluator<Node>)
      modifies this`evaluators
      ensures evaluators == AppendPart(old(evaluators), e)
    {
      if !PartTautology(e) { evaluators := evaluators + [e]; }
    }

    method AppendNested(e: MessageEvaluator<Node>)
      modifies this`nested
      ensures nested == AppendPart(old(nested), e)
    {
      if !PartTautology(e) { nested := nested + [e]; }
    }
  }

  // The evaluator of a value under construction.
  class ValueNode {
    const base: Base
    var rules: seq<Evaluator<Node>>
    var nestedRules: seq<Evaluator<Node>>
    var zero: Value
    var ignoreEmpty: bool

    constructor (base: Base)
      ensures this.base == base && Eval() == Empty()
    {
      this.base := base;
      rules, nestedRules, zero, ignoreEmpty := [], [], NO_VALUE, false;
    }

    function Eval(): ValueEval<Node>
      reads this
    {
      ValueEval(rules, nestedRules, zero, ignoreEmpty)
    }

    method Append(e: Evaluator<Node>)
      modifies this`rules
      ensures rules == EvalElide.Append(old(rules), e)
    {
      if !RuleTautology(e) { rules := rules + [e]; }
    }

    method AppendNested(e: Evaluator<Node>)
      modifies this`nestedRules
      ensures nestedRules == EvalElide.Append(old(nestedRules), e)
    {
      if !RuleTautology(e) { nestedRules := nestedRules + [e]; }
    }
  }

  // messageCache
  class Cache {
    var entries: map<string, Node>

    constructor ()
      ensures entries == map[]
    {
      entries := map[];
    }

    method Clone() returns (copy: Cache)
      ensures fresh(copy) && copy.entries == entries
    {
      copy := new Cache();
      copy.entries := entries;
    }
  }

  /* ---- What a cache holds ---- */

  // The links of a cache: to the objects that it holds.
  function Link(entries: map<string, Node>, other: Node): string -> Node {
    (u: string) => if u in entries then entries[u] else other
  }

  // Every object is that of one type, and has its final error, even while it is being built.
  ghost predicate Valid(s: Setup, entries: map<string, Node>)
    reads entries.Values
  {
    entries.Keys <= s.schema.Keys && ValidBut(s, entries, {})
  }

  ghost predicate ValidBut(s: Setup, entries: map<string, Node>, but: set<string>)
    reads entries.Values
  {
    && (forall u :: u in entries && u !in but ==> entries[u].err == MessageErr(s, u))
    && (forall u, w :: u in entries && w in entries && u != w ==> entries[u] != entries[w])
  }

  // The object of the type is finished: it is the evaluator of the type, linked to objects of the same cache.
  ghost predicate Complete(s: Setup, entries: map<string, Node>, u: string)
    reads if u in entries then {entries[u]} else {}
  {
    && u in entries && u in s.schema
    && MessageUses(s, Link(entries, entries[u]), u) <= entries.Keys
    && entries[u].Eval() == MessageSpec(s, Link(entries, entries[u]), u)
  }

  ghost predicate Within(a: map<string, Node>, b: map<string, Node>) {
    forall u :: u in a ==> u in b && b[u] == a[u]
  }

  lemma CompleteGrows(s: Setup, a: map<string, Node>, b: map<string, Node>, u: string)
    requires Complete(s, a, u) && Within(a, b)
    ensures Complete(s, b, u)
  {
    PartsCongruence(s, Link(a, a[u]), Link(b, b[u]), s.schema[u], |s.schema[u].fields|);
  }

  lemma AllCompleteGrow(s: Setup, a: map<string, Node>, b: map<string, Node>, us: set<string>)
    requires Within(a, b) && forall u :: u in us ==> Complete(s, a, u)
    ensures forall u :: u in us ==> Complete(s, b, u)
  {
    forall u | u in us
      ensures Complete(s, b, u)
    {
      CompleteGrows(s, a, b, u);
    }
  }

  // The cache keeps what it held; what it holds besides is new and finished.
  twostate predicate Grew(s: Setup, cache: Cache)
    reads cache, cache.entries.Values
  {
    && Valid(s, cache.entries) && Within(old(cache.entries), cache.entries)
    && forall u :: u in cache.entries && u !in old(cache.entries) ==>
         fresh(cache.entries[u]) && Complete(s, cache.entries, u)
  }

  // Every type that the field mentions is in the schema.
  ghost predicate Resolved(s: Setup, fd: Field) {
    forall u :: Mentions(fd, u) ==> u in s.schema
  }

  /* ---- builder.go: messages ---- */

  method Build(s: Setup, name: string, cache: Cache) returns (node: Node)
    requires Closed(s) && !s.keepAll && name in s.schema && Valid(s, cache.entries)
    modifies cache
    ensures Grew(s, cache) && name in cache.entries && node == cache.entries[name]
    decreases s.schema.Keys - cache.entries.Keys, 0, 0
  {
    hide MessageSpec, MessageUses, MessageErr, Complete;
    if name in cache.entries { return cache.entries[name]; }
    node := new Node();
    ghost var before := cache.entries;
    cache.entries := cache.entries[name := node];
    assert cache.entries.Keys == before.Keys + {name} && name in s.schema.Keys - before.Keys;
    BuildMessage(s, name, node, cache);
  }

  method BuildMessage(s: Setup, name: string, node: Node, cache: Cache)
    requires Closed(s) && !s.keepAll && name in s.schema && cache.entries.Keys <= s.schema.Keys
    requires ValidBut(s, cache.entries, {name}) && name in cache.entries && cache.entries[name] == node
    requires node.Eval() == MessageEval(None, [], [])
    modifies cache, node
    ensures Grew(s, cache) && Complete(s, cache.entries, name)
    decreases s.schema.Keys - cache.entries.Keys, 6, 0
  {
    var t := s.schema[name];
    ProcessMessageExpressions(s, name, node);
    ProcessMessageOneofRules(s, t, node);
    ProcessOneofRules(s, t, node);
    ProcessFields(s, name, node, cache);
  }

  method ProcessMessageExpressions(s: Setup, name: string, node: Node)
    requires !s.keepAll && node.Eval() == MessageEval(None, [], [])
    modifies node
    ensures node.err == CompileError(s.compilers.message(name))
    ensures node.evaluators == OwnParts(s, name) && node.nested == []
  {
    match s.compilers.message(name)
    case NotCompiled(error) => node.err := Some(error);
    case Compiled(ps) => node.Append(CelMessage(ps));
  }

  // The descriptors of the named fields, in order
  method LookupFields(t: MessageType, names: seq<string>) returns (err: Option<string>, fdescs: seq<nat>)
    ensures err == NamesErr(t, names, 0)
    ensures err.None? ==> fdescs == Indexes(t, names)
  {
    var seen: set<string> := {};
    fdescs := [];
    for i := 0 to |names|
      invariant NamesErr(t, names, 0) == NamesErr(t, names, i)
      invariant seen == set x | x in names[..i]
      invariant fdescs == Indexes(t, names[..i])
    {
      var name := names[i];
      if name in seen { return Some("duplicate " + name + " in oneof rule"), fdescs; }
      seen := seen + {name};
      assert names[..i + 1] == names[..i] + [name];
      match FieldIndex(t.fields, name) {
        case None => return Some("field " + name + " not found"), fdescs;
        case Some(index) => fdescs := fdescs + [index];
      }
    }
    assert names[..|names|] == names;
    err := None;
  }

  method ProcessMessageOneofRules(s: Setup, t: MessageType, node: Node)
    requires !s.keepAll && node.nested == []
    modifies node
    ensures node.err == if OneofsErr(t).Some? then OneofsErr(t) else old(node.err)
    ensures node.evaluators == old(node.evaluators) && node.nested == RuleParts(s, t, GoodRules(t, 0))
  {
    for j := 0 to |t.oneofRules|
      invariant GoodRules(t, 0) == GoodRules(t, j) && node.nested == RuleParts(s, t, j)
      invariant node.err == old(node.err) && node.evaluators == old(node.evaluators)
    {
      var rule := t.oneofRules[j];
      if |rule.fields| == 0 {
        node.err := Some("at least one field must be specified in oneof rule");
        return;
      }
      var err, fdescs := LookupFields(t, rule.fields);
      if err.Some? {
        node.err := err;
        return;
      }
      node.AppendNested(MessageOneof(fdescs, rule.required));
    }
  }

  method ProcessOneofRules(s: Setup, t: MessageType, node: Node)
    requires !s.keepAll && node.nested == RuleParts(s, t, GoodRules(t, 0))
    modifies node
    ensures node.err == old(node.err) && node.evaluators == old(node.evaluators)
    ensures node.nested == OneofParts(s, t, |t.oneofs|)
  {
    for i := 0 to |t.oneofs|
      invariant node.nested == OneofParts(s, t, i)
      invariant node.err == old(node.err) && node.evaluators == old(node.evaluators)
    {
      var o := t.oneofs[i];
      node.AppendNested(Oneof(o.name, o.members, o.required));
    }
  }

  // The first n fields are done.
  ghost predicate FieldsDone(s: Setup, name: string, node: Node, entries: map<string, Node>, n: nat)
    requires name in s.schema && n <= |s.schema[name].fields|
    reads node
  {
    && FieldsUse(s, Link(entries, node), s.schema[name], n) <= entries.Keys
    && node.err == MessageErr(s, name) && node.evaluators == OwnParts(s, name)
    && node.nested == FieldParts(s, Link(entries, node), s.schema[name], n)
  }

  method ProcessFields(s: Setup, name: string, node: Node, cache: Cache)
    requires Closed(s) && !s.keepAll && name in s.schema && Valid(s, cache.entries)
    requires name in cache.entries && cache.entries[name] == node
    requires node.Eval() == MessageEval(MessageErr(s, name), OwnParts(s, name),
             OneofParts(s, s.schema[name], |s.schema[name].oneofs|))
    modifies cache, node
    ensures Grew(s, cache) && Complete(s, cache.entries, name)
    decreases s.schema.Keys - cache.entries.Keys, 5, 0
  {
    hide FieldsDone, MessageErr, Complete, OneofParts, OwnParts;
    NoField(s, name, node, cache.entries);
    for i := 0 to |s.schema[name].fields|
      invariant Grew(s, cache) && FieldsDone(s, name, node, cache.entries, i)
    {
      ghost var before := cache.entries;
      ProcessField(s, name, node, cache, i);
      AllCompleteGrow(s, before, cache.entries, before.Keys - old(cache.entries).Keys);
    }
    Completed(s, cache.entries, name, node);
  }

  method ProcessField(s: Setup, name: string, node: Node, cache: Cache, i: nat)
    requires Closed(s) && !s.keepAll && name in s.schema && Valid(s, cache.entries)
    requires name in cache.entries && cache.entries[name] == node && i < |s.schema[name].fields|
    requires FieldsDone(s, name, node, cache.entries, i)
    modifies cache, node
    ensures Grew(s, cache) && FieldsDone(s, name, node, cache.entries, i + 1)
    decreases s.schema.Keys - cache.entries.Keys, 4, 1
  {
    hide FieldParts, FieldsUse, FieldSpec, MessageErr, ValueUses, Complete, OwnParts;
    ghost var before := cache.entries;
    var fldEval := BuildField(s, s.schema[name], i, cache, node);
    PartsCongruence(s, Link(before, node), Link(cache.entries, node), s.schema[name], i);
    NextField(s, Link(cache.entries, node), s.schema[name], i);
    node.AppendNested(MessageEvaluator.FieldRules(fldEval));
  }

  lemma NoField(s: Setup, name: string, node: Node, entries: map<string, Node>)
    requires name in s.schema
    requires node.Eval() == MessageEval(MessageErr(s, name), OwnParts(s, name),
             OneofParts(s, s.schema[name], |s.schema[name].oneofs|))
    ensures FieldsDone(s, name, node, entries, 0)
  {
  }

  lemma NextField<R>(s: Setup, link: string -> R, t: MessageType, i: nat)
    requires i < |t.fields|
    ensures FieldParts(s, link, t, i + 1) ==
            AddPart(s, FieldParts(s, link, t, i), MessageEvaluator.FieldRules(FieldSpec(s, link, t, i)))
    ensures FieldsUse(s, link, t, i + 1) == FieldsUse(s, link, t, i) +
            ValueUses(s, link, t.fields[i], RulesFor(t, t.fields[i]), FieldBase(t.fields[i]))
  {
  }

  lemma Completed(s: Setup, entries: map<string, Node>, name: string, node: Node)
    requires name in s.schema && name in entries && entries[name] == node
    requires FieldsDone(s, name, node, entries, |s.schema[name].fields|)
    ensures Complete(s, entries, name)
  {
  }

  method BuildField(s: Setup, t: MessageType, i: nat, cache: Cache, ghost other: Node) returns (fld: FieldEval<Node>)
    requires Closed(s) && !s.keepAll && Valid(s, cache.entries) && i < |t.fields| && Resolved(s, t.fields[i])
    modifies cache
    ensures Grew(s, cache) && fld == FieldSpec(s, Link(cache.entries, other), t, i)
    ensures ValueUses(s, Link(cache.entries, other), t.fields[i], RulesFor(t, t.fields[i]), FieldBase(t.fields[i]))
            <= cache.entries.Keys
    decreases s.schema.Keys - cache.entries.Keys, 4, 0
  {
    var fd := t.fields[i];
    var rules := fd.rules;
    if rules.Some? && rules.value.ignore.None? && PartOfOneofRule(t, fd.name) {
      rules := Some(rules.value.(ignore := Some(IfZeroValue)));
    }
    var valEval := new ValueNode(FieldBase(fd));
    var err := BuildValue(s, fd, rules, valEval, cache, other);
    var required := rules.Some? && rules.value.required;
    fld := FieldEval(i, fd.name, valEval.Eval(), required, fd.hasPresence, IgnoreOf(rules), err);
  }

  /* ---- builder.go: values ---- */

  // The first n steps are done, with this result.
  ghost predicate StepsDone(
      s: Setup, fd: Field, rules: Option<Rules>, base: Base, entries: map<string, Node>, other: Node, n: nat,
      b: Built<Node>)
    requires n <= STEPS
  {
    StepsUse(s, Link(entries, other), fd, rules, base, n) <= entries.Keys &&
    b == StepsSpec(s, Link(entries, other), fd, rules, base, n)
  }

  // Step number i is done, from this value, with this result.
  ghost predicate StepDone(
      s: Setup, fd: Field, rules: Option<Rules>, base: Base, entries: map<string, Node>, other: Node, i: nat,
      v: ValueEval<Node>, b: Built<Node>)
    requires i < STEPS
  {
    StepUses(s, Link(entries, other), fd, rules, base, i) <= entries.Keys &&
    b == StepSpec(s, Link(entries, other), fd, rules, base, i, v)
  }

  lemma NoStep(s: Setup, fd: Field, rules: Option<Rules>, base: Base, entries: map<string, Node>, other: Node)
    ensures StepsDone(s, fd, rules, base, entries, other, 0, Built(Empty(), None))
  {
  }

  lemma NextStep(
      s: Setup, fd: Field, rules: Option<Rules>, base: Base, a: map<string, Node>, entries: map<string, Node>,
      other: Node, i: nat, v: ValueEval<Node>, b: Built<Node>)
    requires i < STEPS && Within(a, entries)
    requires StepsDone(s, fd, rules, base, a, other, i, Built(v, None))
    requires StepDone(s, fd, rules, base, entries, other, i, v, b)
    ensures StepsDone(s, fd, rules, base, entries, other, i + 1, b)
  {
    StepsCongruence(s, Link(a, other), Link(entries, other), fd, rules, base, i);
  }

  lemma {:induction false} ErrorEnds(
      s: Setup, fd: Field, rules: Option<Rules>, base: Base, entries: map<string, Node>, other: Node, n: nat,
      b: Built<Node>)
    requires n <= STEPS && StepsDone(s, fd, rules, base, entries, other, n, b) && b.err.Some?
    ensures StepsDone(s, fd, rules, base, entries, other, STEPS, b)
    decreases STEPS - n
  {
    if n < STEPS { ErrorEnds(s, fd, rules, base, entries, other, n + 1, b); }
  }

  method BuildValue(s: Setup, fd: Field, rules: Option<Rules>, valEval: ValueNode, cache: Cache, ghost other: Node)
    returns (err: Option<string>)
    requires Closed(s) && !s.keepAll && Valid(s, cache.entries) && Resolved(s, fd) && valEval.Eval() == Empty()
    modifies cache, valEval
    ensures Grew(s, cache)
    ensures ValueUses(s, Link(cache.entries, other), fd, rules, valEval.base) <= cache.entries.Keys
    ensures Built(valEval.Eval(), err) == ValueSpec(s, Link(cache.entries, other), fd, rules, valEval.base)
    decreases s.schema.Keys - cache.entries.Keys, 1 + Depth(fd, valEval.base), 3
  {
    if IgnoreOf(rules) == Always { return None; }
    err := BuildSteps(s, fd, rules, valEval, cache, other);
  }

  method BuildSteps(s: Setup, fd: Field, rules: Option<Rules>, valEval: ValueNode, cache: Cache, ghost other: Node)
    returns (err: Option<string>)
    requires Closed(s) && !s.keepAll && Valid(s, cache.entries) && Resolved(s, fd) && valEval.Eval() == Empty()
    modifies cache, valEval
    ensures Grew(s, cache)
    ensures StepsDone(s, fd, rules, valEval.base, cache.entries, other, STEPS, Built(valEval.Eval(), err))
    decreases s.schema.Keys - cache.entries.Keys, 1 + Depth(fd, valEval.base), 2
  {
    hide Complete, StepsDone;
    NoStep(s, fd, rules, valEval.base, cache.entries, other);
    for i := 0 to STEPS
      invariant Grew(s, cache)
      invariant StepsDone(s, fd, rules, valEval.base, cache.entries, other, i, Built(valEval.Eval(), None))
    {
      ghost var before := cache.entries;
      err := BuildStep(s, fd, rules, valEval, cache, i, other);
      AllCompleteGrow(s, before, cache.entries, before.Keys - old(cache.entries).Keys);
      if err.Some? {
        ErrorEnds(s, fd, rules, valEval.base, cache.entries, other, i + 1, Built(valEval.Eval(), err));
        return;
      }
    }
    err := None;
  }

  method BuildStep(
      s: Setup, fd: Field, rules: Option<Rules>, valEval: ValueNode, cache: Cache, i: nat, ghost other: Node)
    returns (err: Option<string>)
    requires Closed(s) && !s.keepAll && Valid(s, cache.entries) && Resolved(s, fd) && i < STEPS
    requires StepsDone(s, fd, rules, valEval.base, cache.entries, other, i, Built(valEval.Eval(), None))
    modifies cache, valEval
    ensures Grew(s, cache)
    ensures StepsDone(s, fd, rules, valEval.base, cache.entries, other, i + 1, Built(valEval.Eval(), err))
    decreases s.schema.Keys - cache.entries.Keys, 1 + Depth(fd, valEval.base), 1, 1
  {
    hide Complete, StepsDone, StepDone;
    ghost var before, v := cache.entries, valEval.Eval();
    err := Step(s, fd, rules, valEval, cache, i, other);
    NextStep(s, fd, rules, valEval.base, before, cache.entries, other, i, v, Built(valEval.Eval(), err));
  }

  method Step(s: Setup, fd: Field, rules: Option<Rules>, valEval: ValueNode, cache: Cache, i: nat, ghost other: Node)
    returns (err: Option<string>)
    requires Closed(s) && !s.keepAll && Valid(s, cache.entries) && Resolved(s, fd) && i < STEPS
    modifies cache, valEval
    ensures Grew(s, cache) && StepDone(s, fd, rules, valEval.base, cache.entries, other, i, old(valEval.Eval()),
            Built(valEval.Eval(), err))
    decreases s.schema.Keys - cache.entries.Keys, 1 + Depth(fd, valEval.base), 1, 0
  {
    hide Complete, Valid;
    match i
    case 0 => err := ProcessIgnoreEmpty(s, fd, rules, valEval);
    case 1 => err := ProcessFieldExpressions(s, fd, rules, valEval);
    case 2 => err := ProcessEmbeddedMessage(s, fd, rules, valEval, cache, other);
    case 3 => err := ProcessWrapperRules(s, fd, rules, valEval, cache, other);
    case 4 => err := ProcessStandardRules(s, fd, rules, valEval);
    case 5 => err := ProcessAnyRules(s, fd, rules, valEval);
    case 6 => err := ProcessEnumRules(s, fd, rules, valEval);
    case 7 => err := ProcessMapRules(s, fd, rules, valEval, cache, other);
    case 8 => err := ProcessRepeatedRules(s, fd, rules, valEval, cache, other);
  }

  method ProcessIgnoreEmpty(s: Setup, fd: Field, rules: Option<Rules>, valEval: ValueNode) returns (err: Option<string>)
    requires !s.keepAll
    modifies valEval
    ensures Built(valEval.Eval(), err) == IgnoreEmptySpec(s, fd, rules, valEval.base, old(valEval.Eval()))
  {
    valEval.ignoreEmpty := Nested(valEval.base) && IgnoreOf(rules) == IfZeroValue;
    if valEval.ignoreEmpty { valEval.zero := s.compilers.zero(fd, Nested(valEval.base)); }
    err := None;
  }

  // Give every program the path of its rule.
  method SetPaths(name: string, ps: seq<Program>) returns (r: seq<Program>)
    ensures r == WithPaths(name, ps)
  {
    r := ps;
    for i := 0 to |ps|
      invariant |r| == |ps|
      invariant forall k :: 0 <= k < i ==> r[k] == WithPaths(name, ps)[k]
      invariant forall k :: i <= k < |ps| ==> r[k] == ps[k]
    {
      r := r[i := r[i].(path := [PathElement(name, Index(i))])];
    }
  }

  method ProcessFieldExpressions(s: Setup, fd: Field, rules: Option<Rules>, valEval: ValueNode)
    returns (err: Option<string>)
    requires !s.keepAll
    modifies valEval
    ensures Built(valEval.Eval(), err) == ExpressionsSpec(s, fd, rules, valEval.base, old(valEval.Eval()))
  {
    match s.compilers.celExpressions(fd, rules, Nested(valEval.base))
    case NotCompiled(error) => return Some(error);
    case Compiled(ps) =>
      var expressions := SetPaths("cel_expression", ps);
      match s.compilers.celRules(fd, rules, Nested(valEval.base)) {
        case NotCompiled(error) => return Some(error);
        case Compiled(qs) =>
          var celRules := SetPaths("cel", qs);
          if |expressions + celRules| > 0 {
            valEval.rules := valEval.rules + [CelPrograms(valEval.base, expressions + celRules)];
          }
          return None;
      }
  }

  method ProcessEmbeddedMessage(
      s: Setup, fd: Field, rules: Option<Rules>, valEval: ValueNode, cache: Cache, ghost other: Node)
    returns (err: Option<string>)
    requires Closed(s) && !s.keepAll && Valid(s, cache.entries) && Resolved(s, fd)
    modifies cache, valEval
    ensures Grew(s, cache) && StepDone(s, fd, rules, valEval.base, cache.entries, other, 2, old(valEval.Eval()),
            Built(valEval.Eval(), err))
    decreases s.schema.Keys - cache.entries.Keys, 1 + Depth(fd, valEval.base), 0
  {
    hide Complete, MessageErr;
    var embedded := EmbeddedType(fd, valEval.base);
    if embedded.None? { return None; }
    var embedEval := Build(s, embedded.value, cache);
    if embedEval.err.Some? { return Some(EmbeddedError(embedded.value, fd, embedEval.err.value)); }
    valEval.AppendNested(EmbeddedMessage(valEval.base, embedEval));
    err := None;
  }

  method ProcessWrapperRules(
      s: Setup, fd: Field, rules: Option<Rules>, valEval: ValueNode, cache: Cache, ghost other: Node)
    returns (err: Option<string>)
    requires Closed(s) && !s.keepAll && Valid(s, cache.entries) && Resolved(s, fd)
    modifies cache, valEval
    ensures Grew(s, cache) && StepDone(s, fd, rules, valEval.base, cache.entries, other, 3, old(valEval.Eval()),
            Built(valEval.Eval(), err))
    decreases s.schema.Keys - cache.entries.Keys, 1 + Depth(fd, valEval.base), 0
  {
    var embedded := EmbeddedType(fd, valEval.base);
    if embedded.None? || rules.None? || rules.value.typeRules.None? { return None; }
    var expected := s.compilers.wrapper(embedded.value);
    if expected.None? { return None; }
    if rules.value.typeRules.value != expected.value { return Some(WrapperError(expected.value)); }
    var unwrapped := new ValueNode(valEval.base);
    err := BuildValue(s, WrappedField(), rules, unwrapped, cache, other);
    if err.Some? { return; }
    valEval.Append(Evaluators(unwrapped.rules));
  }

  method ProcessStandardRules(s: Setup, fd: Field, rules: Option<Rules>, valEval: ValueNode)
    returns (err: Option<string>)
    requires !s.keepAll
    modifies valEval
    ensures Built(valEval.Eval(), err) == StandardSpec(s, fd, rules, valEval.base, old(valEval.Eval()))
  {
    if KindType(fd).Some? && s.compilers.wrapper(KindType(fd).value).Some? { return None; }
    match s.compilers.standard(fd, rules, Nested(valEval.base))
    case NotCompiled(error) => return Some(error);
    case Compiled(ps) =>
      valEval.Append(CelPrograms(valEval.base, ps));
      return None;
  }

  method ProcessAnyRules(s: Setup, fd: Field, rules: Option<Rules>, valEval: ValueNode) returns (err: Option<string>)
    requires !s.keepAll
    modifies valEval
    ensures Built(valEval.Eval(), err) == AnySpec(s, fd, rules, valEval.base, old(valEval.Eval()))
  {
    if EmbeddedType(fd, valEval.base) != Some(ANY_TYPE) { return None; }
    valEval.Append(AnyPb(valEval.base, TYPE_URL, if rules.Some? then rules.value.anyIn else [],
                         if rules.Some? then rules.value.anyNotIn else []));
    err := None;
  }

  method ProcessEnumRules(s: Setup, fd: Field, rules: Option<Rules>, valEval: ValueNode) returns (err: Option<string>)
    requires !s.keepAll
    modifies valEval
    ensures Built(valEval.Eval(), err) == EnumSpec(s, fd, rules, valEval.base, old(valEval.Eval()))
  {
    if EnumNumbers(fd).Some? && rules.Some? && rules.value.definedOnly {
      valEval.Append(DefinedEnum(valEval.base, EnumNumbers(fd).value));
    }
    err := None;
  }

  method ProcessMapRules(s: Setup, fd: Field, rules: Option<Rules>, valEval: ValueNode, cache: Cache, ghost other: Node)
    returns (err: Option<string>)
    requires Closed(s) && !s.keepAll && Valid(s, cache.entries) && Resolved(s, fd)
    modifies cache, valEval
    ensures Grew(s, cache) && StepDone(s, fd, rules, valEval.base, cache.entries, other, 7, old(valEval.Eval()),
            Built(valEval.Eval(), err))
    decreases s.schema.Keys - cache.entries.Keys, 1 + Depth(fd, valEval.base), 0
  {
    if !fd.shape.MapOf? { return None; }
    err := ProcessMapKeys(s, fd, rules, valEval, cache, other);
  }

  method ProcessMapKeys(s: Setup, fd: Field, rules: Option<Rules>, valEval: ValueNode, cache: Cache, ghost other: Node)
    returns (err: Option<string>)
    requires Closed(s) && !s.keepAll && Valid(s, cache.entries) && Resolved(s, fd) && fd.shape.MapOf?
    modifies cache, valEval
    ensures Grew(s, cache) && StepDone(s, fd, rules, valEval.base, cache.entries, other, 7, old(valEval.Eval()),
            Built(valEval.Eval(), err))
    decreases s.schema.Keys - cache.entries.Keys, 1 + Depth(fd, valEval.base), 0, 1
  {
    hide StepDone, Complete, ValueSpec, ValueUses, Valid, KeysError, Link;
    var keyEval := new ValueNode(KEY_BASE);
    err := BuildValue(s, KeyField(fd), KeyRules(rules), keyEval, cache, other);
    if err.Some? {
      KeysFail(s, fd, rules, valEval.base, cache.entries, other, valEval.Eval(), err.value);
      return Some(KeysError(fd, err.value));
    }
    ghost var before := cache.entries;
    err := ProcessMapValues(s, fd, rules, keyEval.Eval(), valEval, cache, other);
    AllCompleteGrow(s, before, cache.entries, before.Keys - old(cache.entries).Keys);
    assert forall u :: u in before && u !in old(cache.entries) ==> fresh(before[u]) && Complete(s, cache.entries, u);
  }

  lemma KeysFail(
      s: Setup, fd: Field, rules: Option<Rules>, base: Base, entries: map<string, Node>, other: Node,
      v: ValueEval<Node>, cause: string)
    requires fd.shape.MapOf?
    requires ValueSpec(s, Link(entries, other), KeyField(fd), KeyRules(rules), KEY_BASE).err == Some(cause)
    requires ValueUses(s, Link(entries, other), KeyField(fd), KeyRules(rules), KEY_BASE) <= entries.Keys
    ensures StepDone(s, fd, rules, base, entries, other, 7, v, Built(v, Some(KeysError(fd, cause))))
  {
  }

  method ProcessMapValues(
      s: Setup, fd: Field, rules: Option<Rules>, keys: ValueEval<Node>, valEval: ValueNode, cache: Cache,
      ghost other: Node)
    returns (err: Option<string>)
    requires Closed(s) && !s.keepAll && Valid(s, cache.entries) && Resolved(s, fd) && fd.shape.MapOf?
    requires ValueSpec(s, Link(cache.entries, other), KeyField(fd), KeyRules(rules), KEY_BASE) == Built(keys, None)
    requires ValueUses(s, Link(cache.entries, other), KeyField(fd), KeyRules(rules), KEY_BASE) <= cache.entries.Keys
    modifies cache, valEval
    ensures Grew(s, cache) && StepDone(s, fd, rules, valEval.base, cache.entries, other, 7, old(valEval.Eval()),
            Built(valEval.Eval(), err))
    decreases s.schema.Keys - cache.entries.Keys, 1 + Depth(fd, valEval.base), 0, 0
  {
    hide StepDone, Complete, ValueSpec, ValueUses, Valid, Link;
    ghost var before := cache.entries;
    var valueEval := new ValueNode(VALUE_BASE);
    err := BuildValue(s, ValueField(fd), ValueRules(rules), valueEval, cache, other);
    KeysKept(s, fd, rules, before, cache.entries, other);
    MapDone(s, fd, rules, valEval.base, cache.entries, other, valEval.Eval(), keys, valueEval.Eval(), err);
    if err.Some? { return Some(ValuesError(fd, err.value)); }
    valEval.Append(KvPairs(valEval.base, keys, valueEval.Eval()));
  }

  lemma KeysKept(s: Setup, fd: Field, rules: Option<Rules>, a: map<string, Node>, b: map<string, Node>, other: Node)
    requires Within(a, b) && fd.shape.MapOf?
    requires ValueUses(s, Link(a, other), KeyField(fd), KeyRules(rules), KEY_BASE) <= a.Keys
    ensures ValueSpec(s, Link(b, other), KeyField(fd), KeyRules(rules), KEY_BASE) ==
            ValueSpec(s, Link(a, other), KeyField(fd), KeyRules(rules), KEY_BASE)
    ensures ValueUses(s, Link(b, other), KeyField(fd), KeyRules(rules), KEY_BASE) <= b.Keys
  {
    ValueCongruence(s, Link(a, other), Link(b, other), KeyField(fd), KeyRules(rules), KEY_BASE);
  }

  lemma MapDone(
      s: Setup, fd: Field, rules: Option<Rules>, base: Base, entries: map<string, Node>, other: Node,
      v: ValueEval<Node>, keys: ValueEval<Node>, values: ValueEval<Node>, err: Option<string>)
    requires fd.shape.MapOf? && !s.keepAll
    requires ValueSpec(s, Link(entries, other), KeyField(fd), KeyRules(rules), KEY_BASE) == Built(keys, None)
    requires ValueUses(s, Link(entries, other), KeyField(fd), KeyRules(rules), KEY_BASE) <= entries.Keys
    requires ValueSpec(s, Link(entries, other), ValueField(fd), ValueRules(rules), VALUE_BASE) == Built(values, err)
    requires ValueUses(s, Link(entries, other), ValueField(fd), ValueRules(rules), VALUE_BASE) <= entries.Keys
    ensures StepDone(s, fd, rules, base, entries, other, 7, v,
                     if err.Some? then Built(v, Some(ValuesError(fd, err.value)))
                     else Built(v.(rules := EvalElide.Append(v.rules, KvPairs(base, keys, values))), None))
  {
  }

  method ProcessRepeatedRules(
      s: Setup, fd: Field, rules: Option<Rules>, valEval: ValueNode, cache: Cache, ghost other: Node)
    returns (err: Option<string>)
    requires Closed(s) && !s.keepAll && Valid(s, cache.entries) && Resolved(s, fd)
    modifies cache, valEval
    ensures Grew(s, cache) && StepDone(s, fd, rules, valEval.base, cache.entries, other, 8, old(valEval.Eval()),
            Built(valEval.Eval(), err))
    decreases s.schema.Keys - cache.entries.Keys, 1 + Depth(fd, valEval.base), 0
  {
    if !fd.shape.ListOf? || Nested(valEval.base) { return None; }
    var itemEval := new ValueNode(ITEM_BASE);
    err := BuildValue(s, fd, ItemRules(rules), itemEval, cache, other);
    if err.Some? { return Some(ItemsError(fd, err.value)); }
    valEval.Append(ListItems(valEval.base, itemEval.Eval()));
  }
}
