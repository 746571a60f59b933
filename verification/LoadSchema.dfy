/** The concurrent loader over the builder's own schema: the order in which building a type asks for others, and what
    the objects that concurrent calls return find. */
module LoadSchema {
  import opened Options
  import opened Outcomes
  import opened EvalTree
  import opened BuilderSpec
  import opened BuilderTheorems
  import opened BuilderGraph
  import LoadProtocol

  /* ---- The embedded types of a message type, in the order in which they are asked for ---- */

  function ValueOrder(s: Setup, fd: Field, rules: Option<Rules>, base: Base): seq<string>
    decreases Depth(fd, base), STEPS + 1
  {
    if IgnoreOf(rules) == Always then [] else StepsOrder(s, fd, rules, base, STEPS)
  }

  function StepsOrder(s: Setup, fd: Field, rules: Option<Rules>, base: Base, n: nat): seq<string>
    requires n <= STEPS
    decreases Depth(fd, base), n
  {
    if n == 0 then [] else
      StepsOrder(s, fd, rules, base, n - 1) +
      if StepsSpec(s, Name, fd, rules, base, n - 1).err.Some? then [] else StepOrder(s, fd, rules, base, n - 1)
  }

  function StepOrder(s: Setup, fd: Field, rules: Option<Rules>, base: Base, i: nat): seq<string>
    requires i < STEPS
    decreases Depth(fd, base), 0
  {
    if i == 2 then (if EmbeddedType(fd, base).Some? then [EmbeddedType(fd, base).value] else [])
    else if i == 7 && fd.shape.MapOf? then
      ValueOrder(s, KeyField(fd), KeyRules(rules), KEY_BASE) +
      (if ValueSpec(s, Name, KeyField(fd), KeyRules(rules), KEY_BASE).err.Some? then []
       else ValueOrder(s, ValueField(fd), ValueRules(rules), VALUE_BASE))
    else if i == 8 && fd.shape.ListOf? && !Nested(base) then
      ValueOrder(s, fd, ItemRules(rules), ITEM_BASE)
    else []
  }

  function FieldsOrder(s: Setup, t: MessageType, n: nat): seq<string>
    requires n <= |t.fields|
  {
    if n == 0 then [] else
      var fd := t.fields[n - 1];
      FieldsOrder(s, t, n - 1) + ValueOrder(s, fd, RulesFor(t, fd), FieldBase(fd))
  }

  /** The requests of every type, as the concurrent loader sees them. */
  function Requests(s: Setup): LoadProtocol.Schema {
    map name | name in s.schema :: FieldsOrder(s, s.schema[name], |s.schema[name].fields|)
  }

  function Elems(a: seq<string>): set<string> { set u | u in a }

  lemma ElemsAppend(a: seq<string>, b: seq<string>)
    ensures Elems(a + b) == Elems(a) + Elems(b)
  {
  }

  /* ---- They are the types that the builder's specification names, whatever the links are ---- */

  lemma {:induction false} ValueOrderUses<R>(
      s: Setup, link: string -> R, fd: Field, rules: Option<Rules>, base: Base)
    ensures Elems(ValueOrder(s, fd, rules, base)) == ValueUses(s, link, fd, rules, base)
    decreases Depth(fd, base), STEPS + 1
  {
    if IgnoreOf(rules) != Always { StepsOrderUse(s, link, fd, rules, base, STEPS); }
  }

  lemma {:induction false} StepsOrderUse<R>(
      s: Setup, link: string -> R, fd: Field, rules: Option<Rules>, base: Base, n: nat)
    requires n <= STEPS
    ensures Elems(StepsOrder(s, fd, rules, base, n)) == StepsUse(s, link, fd, rules, base, n)
    decreases Depth(fd, base), n
  {
    if n > 0 {
      hide StepSpec, StepUses, StepOrder, Elems;
      StepsOrderUse(s, link, fd, rules, base, n - 1);
      StepOrderUses(s, link, fd, rules, base, n - 1);
      var us := StepsUse(s, link, fd, rules, base, n - 1);
      SameStepsSpec(s, link, us, fd, rules, base, n - 1);
      ElemsAppend(StepsOrder(s, fd, rules, base, n - 1), StepOrder(s, fd, rules, base, n - 1));
    }
  }

  lemma {:induction false} StepOrderUses<R>(
      s: Setup, link: string -> R, fd: Field, rules: Option<Rules>, base: Base, i: nat)
    requires i < STEPS
    ensures Elems(StepOrder(s, fd, rules, base, i)) == StepUses(s, link, fd, rules, base, i)
    decreases Depth(fd, base), 0
  {
    hide ValueSpec, ValueUses, ValueOrder, Elems;
    if i == 7 && fd.shape.MapOf? {
      MapOrderUses(s, link, fd, rules, base);
    } else if i == 8 && fd.shape.ListOf? && !Nested(base) {
      ValueOrderUses(s, link, fd, ItemRules(rules), ITEM_BASE);
    } else {
      FewElems();
    }
  }

  lemma FewElems()
    ensures Elems([]) == {} && forall u :: Elems([u]) == {u}
  {
  }

  lemma {:induction false} MapOrderUses<R>(
      s: Setup, link: string -> R, fd: Field, rules: Option<Rules>, base: Base)
    requires fd.shape.MapOf?
    ensures Elems(StepOrder(s, fd, rules, base, 7)) == StepUses(s, link, fd, rules, base, 7)
    decreases Depth(fd, base), 0, 0
  {
    hide ValueSpec, ValueUses, ValueOrder, Elems;
    ValueOrderUses(s, link, KeyField(fd), KeyRules(rules), KEY_BASE);
    ValueOrderUses(s, link, ValueField(fd), ValueRules(rules), VALUE_BASE);
    var us := ValueUses(s, link, KeyField(fd), KeyRules(rules), KEY_BASE);
    SameValueSpec(s, link, us, KeyField(fd), KeyRules(rules), KEY_BASE);
    var keys := ValueOrder(s, KeyField(fd), KeyRules(rules), KEY_BASE);
    ElemsAppend(keys, ValueOrder(s, ValueField(fd), ValueRules(rules), VALUE_BASE));
    ElemsAppend(keys, []);
    FewElems();
  }

  lemma {:induction false} FieldsOrderUse<R>(s: Setup, link: string -> R, t: MessageType, n: nat)
    requires n <= |t.fields|
    ensures Elems(FieldsOrder(s, t, n)) == FieldsUse(s, link, t, n)
  {
    if n > 0 {
      var fd := t.fields[n - 1];
      hide ValueUses, ValueOrder;
      FieldsOrderUse(s, link, t, n - 1);
      ValueOrderUses(s, link, fd, RulesFor(t, fd), FieldBase(fd));
      ElemsAppend(FieldsOrder(s, t, n - 1), ValueOrder(s, fd, RulesFor(t, fd), FieldBase(fd)));
    }
  }

  /** The loader's requests are what the specification of the builder says a type needs, with links of any kind. */
  lemma RequestsAreUses<R>(s: Setup, link: string -> R, name: string)
    requires name in s.schema
    ensures Elems(Requests(s)[name]) == MessageUses(s, link, name)
  {
    FieldsOrderUse(s, link, s.schema[name], |s.schema[name].fields|);
  }

  /* ---- Requests are resolved ---- */

  ghost predicate Mentioned(fd: Field, us: seq<string>) {
    forall u :: u in us ==> Mentions(fd, u)
  }

  lemma {:induction false} ValueMentioned(s: Setup, fd: Field, rules: Option<Rules>, base: Base)
    ensures Mentioned(fd, ValueOrder(s, fd, rules, base))
    decreases Depth(fd, base), STEPS + 1
  {
    if IgnoreOf(rules) != Always { StepsMentioned(s, fd, rules, base, STEPS); }
  }

  lemma {:induction false} StepsMentioned(s: Setup, fd: Field, rules: Option<Rules>, base: Base, n: nat)
    requires n <= STEPS
    ensures Mentioned(fd, StepsOrder(s, fd, rules, base, n))
    decreases Depth(fd, base), n
  {
    if n > 0 {
      hide StepOrder, StepsSpec;
      StepsMentioned(s, fd, rules, base, n - 1);
      StepMentioned(s, fd, rules, base, n - 1);
    }
  }

  lemma {:induction false} StepMentioned(s: Setup, fd: Field, rules: Option<Rules>, base: Base, i: nat)
    requires i < STEPS
    ensures Mentioned(fd, StepOrder(s, fd, rules, base, i))
    decreases Depth(fd, base), 0
  {
    hide ValueOrder, ValueSpec;
    if i == 7 && fd.shape.MapOf? {
      ValueMentioned(s, KeyField(fd), KeyRules(rules), KEY_BASE);
      ValueMentioned(s, ValueField(fd), ValueRules(rules), VALUE_BASE);
    } else if i == 8 && fd.shape.ListOf? && !Nested(base) {
      ValueMentioned(s, fd, ItemRules(rules), ITEM_BASE);
    }
  }

  lemma {:induction false} FieldsMentioned(s: Setup, t: MessageType, n: nat, u: string) returns (i: nat)
    requires n <= |t.fields| && u in FieldsOrder(s, t, n)
    ensures i < n && Mentions(t.fields[i], u)
  {
    hide ValueOrder;
    var fd := t.fields[n - 1];
    if u in FieldsOrder(s, t, n - 1) {
      i := FieldsMentioned(s, t, n - 1, u);
    } else {
      i := n - 1;
      ValueMentioned(s, fd, RulesFor(t, fd), FieldBase(fd));
    }
  }

  lemma RequestsClosed(s: Setup)
    requires Closed(s)
    ensures LoadProtocol.Closed(Requests(s))
  {
    hide FieldsOrder;
    forall d, k | d in Requests(s) && 0 <= k < |Requests(s)[d]|
      ensures Requests(s)[d][k] in Requests(s)
    {
      var i := FieldsMentioned(s, s.schema[d], |s.schema[d].fields|, Requests(s)[d][k]);
    }
  }

  /* ---- What concurrent callers get ---- */

  function LinkIn(cache: map<string, nat>, other: nat): string -> nat {
    (u: string) => if u in cache then cache[u] else other
  }

  function Published(st: LoadProtocol.State): map<string, nat> {
    if st.published < |st.caches| then st.caches[st.published] else map[]
  }

  // The objects of the cache hold the evaluators of their types, linked to objects of the same cache.
  ghost predicate Holds(s: Setup, cache: map<string, nat>, env: Env<nat>) {
    forall u :: u in cache && u in s.schema ==> env(cache[u]) == MessageSpec(s, LinkIn(cache, cache[u]), u)
  }

  lemma CacheNeedsNoMore(s: Setup, objs: seq<LoadProtocol.Obj>, cache: map<string, nat>, link: string -> nat, u: string)
    requires LoadProtocol.AllFinished(Requests(s), objs, cache) && u in cache
    ensures u in s.schema && MessageUses(s, link, u) <= cache.Keys
    ensures forall w :: w in MessageUses(s, link, u) ==> cache[w] in objs[cache[u]].links
  {
    hide FieldsOrder, MessageUses;
    assert LoadProtocol.Finished(Requests(s), objs, cache, u);
    RequestsAreUses(s, link, u);
    var us, links := Requests(s)[u], objs[cache[u]].links;
    forall w | w in MessageUses(s, link, u)
      ensures w in cache && cache[w] in links
    {
      assert w in us;
      var k :| 0 <= k < |us| && us[k] == w;
      assert links[k] == cache[w];
    }
  }

  lemma ReturnedIsPublished(s: Setup, run: seq<LoadProtocol.State>, i: nat, t: nat)
    requires Closed(s) && LoadProtocol.IsRun(Requests(s), run) && i < |run| && t < |run[i].threads|
    requires run[i].threads[t].Returned?
    ensures run[i].threads[t].desc in Published(run[i])
    ensures Published(run[i])[run[i].threads[t].desc] == run[i].threads[t].obj
    ensures LoadProtocol.AllFinished(Requests(s), run[i].objs, Published(run[i]))
  {
    hide FieldsOrder, Requests;
    RequestsClosed(s);
    LoadProtocol.RunKeeps(Requests(s), run, i);
    assert LoadProtocol.ThreadOk(Requests(s), run[i], run[i].threads[t]);
  }

  /** However the threads interleave: the object that a call returns finds what its type alone determines, provided
      that the published objects hold the evaluators of their types. */
  lemma ReturnedFindsSame(
      s: Setup, run: seq<LoadProtocol.State>, i: nat, t: nat, env: Env<nat>, checks: Checks, m: Message)
    requires Closed(s) && LoadProtocol.IsRun(Requests(s), run) && i < |run| && t < |run[i].threads|
    requires run[i].threads[t].Returned? && Holds(s, Published(run[i]), env)
    ensures LoadedAtoms(env, checks, Some(run[i].threads[t].obj), m) ==
            LoadedAtoms(Stands(s), checks, Some(run[i].threads[t].desc), m)
  {
    hide Requests, MessageSpec, MessageUses, FieldParts, FieldsUse, LoadedAtoms, LoadProtocol.IsRun;
    ReturnedIsPublished(s, run, i, t);
    CacheFinds(s, run[i].objs, Published(run[i]), run[i].threads[t].desc, env, checks, m);
  }

  lemma CacheFinds(
      s: Setup, objs: seq<LoadProtocol.Obj>, cache: map<string, nat>, d: string, env: Env<nat>, checks: Checks,
      m: Message)
    requires LoadProtocol.AllFinished(Requests(s), objs, cache) && d in cache && Holds(s, cache, env)
    ensures LoadedAtoms(env, checks, Some(cache[d]), m) == LoadedAtoms(Stands(s), checks, Some(d), m)
  {
    hide Requests, FieldParts, FieldsUse, LoadedAtoms, LoadProtocol.AllFinished;
    var link := LinkIn(cache, cache[d]);
    forall u | u in cache
      ensures u in s.schema && MessageUses(s, link, u) <= cache.Keys && env(link(u)) == MessageSpec(s, link, u)
    {
      CacheNeedsNoMore(s, objs, cache, link, u);
      PartsCongruence(s, link, LinkIn(cache, cache[u]), s.schema[u], |s.schema[u].fields|);
    }
    GraphFindsSame(s, link, cache.Keys, env, checks, d, m);
  }

  /** The object that a call returns is linked to the objects of all types that its evaluator refers to. */
  lemma ReturnedIsLinked(s: Setup, run: seq<LoadProtocol.State>, i: nat, t: nat)
    requires Closed(s) && LoadProtocol.IsRun(Requests(s), run) && i < |run| && t < |run[i].threads|
    requires run[i].threads[t].Returned?
    ensures var d, o, cache := run[i].threads[t].desc, run[i].threads[t].obj, Published(run[i]);
      var link := LinkIn(cache, o);
      && d in s.schema && o < |run[i].objs|
      && SameMessage(link, MessageUses(s, link, d), MessageSpec(s, link, d), MessageSpec(s, Name, d))
      && forall u :: u in MessageUses(s, link, d) ==> u in cache && link(u) in run[i].objs[o].links
  {
    hide Requests, FieldParts, FieldsUse, SameMessage, MessageUses, MessageSpec, LoadProtocol.IsRun;
    ReturnedIsPublished(s, run, i, t);
    var d, o, cache := run[i].threads[t].desc, run[i].threads[t].obj, Published(run[i]);
    var link := LinkIn(cache, o);
    assert LoadProtocol.Finished(Requests(s), run[i].objs, cache, d);
    CacheNeedsNoMore(s, run[i].objs, cache, link, d);
    SameMessageSpec(s, link, MessageUses(s, link, d), d);
  }
}
