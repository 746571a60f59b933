/** The build-through cache: what a caller gets is finished, is linked within one cache, and means what its type
    does whatever was requested before it. */
module BuilderLoad {
  import opened Options
  import opened Outcomes
  import opened EvalTree
  import opened EvalPaths
  import opened EvalHeap
  import opened BuilderSpec
  import opened BuilderTheorems
  import opened BuilderGraph
  import opened Builder
  import opened Conformance
  import opened ConformanceTheorems

  // All that the cache holds is finished.
  ghost predicate AllComplete(s: Setup, entries: map<string, Node>)
    reads entries.Values
  {
    forall u :: u in entries ==> Complete(s, entries, u)
  }

  // build, called from outside: when it returns, all that the cache holds is finished.
  method BuildAll(s: Setup, name: string, cache: Cache) returns (node: Node)
    requires Closed(s) && !s.keepAll && name in s.schema && Valid(s, cache.entries) && AllComplete(s, cache.entries)
    modifies cache
    ensures Valid(s, cache.entries) && AllComplete(s, cache.entries)
    ensures Within(old(cache.entries), cache.entries) && name in cache.entries && node == cache.entries[name]
  {
    hide Complete, Valid;
    ghost var before := cache.entries;
    node := Build(s, name, cache);
    AllCompleteGrow(s, before, cache.entries, before.Keys);
  }

  method BuildSeeds(s: Setup, seeds: seq<string>) returns (first: Cache)
    requires Closed(s) && !s.keepAll && forall k :: 0 <= k < |seeds| ==> seeds[k] in s.schema
    ensures fresh(first) && Valid(s, first.entries) && AllComplete(s, first.entries)
    ensures forall k :: 0 <= k < |seeds| ==> seeds[k] in first.entries
  {
    hide Complete, Valid, AllComplete;
    NothingCached(s);
    first := new Cache();
    for i := 0 to |seeds|
      invariant fresh(first) && Valid(s, first.entries) && AllComplete(s, first.entries)
      invariant forall k :: 0 <= k < i ==> seeds[k] in first.entries
    {
      var _ := BuildAll(s, seeds[i], first);
    }
  }

  lemma NothingCached(s: Setup)
    ensures Valid(s, map[]) && AllComplete(s, map[])
  {
  }

  class Loader {
    const s: Setup
    var cache: Cache // the published one; it is replaced, never changed

    ghost predicate Ready()
      reads this, cache, cache.entries.Values
    {
      Closed(s) && !s.keepAll && Valid(s, cache.entries) && AllComplete(s, cache.entries)
    }

    /** newBuilder: the seeds are built into the first cache. */
    constructor (s: Setup, seeds: seq<string>)
      requires Closed(s) && !s.keepAll && forall k :: 0 <= k < |seeds| ==> seeds[k] in s.schema
      ensures this.s == s && Ready() && forall k :: 0 <= k < |seeds| ==> seeds[k] in cache.entries
    {
      this.s := s;
      var first := BuildSeeds(s, seeds);
      this.cache := first;
    }

    /** load: only what is cached already, and that is finished; nothing is built. */
    method Load(name: string) returns (node: Option<Node>)
      requires Ready()
      ensures node.Some? <==> name in cache.entries
      ensures node.Some? ==> node.value == cache.entries[name] && Complete(s, cache.entries, name)
    {
      if name in cache.entries { return Some(cache.entries[name]); }
      return None;
    }

    /** loadOrBuild, one call at a time: a new cache with the type in it is published unless it was there. The old
        cache keeps its contents, and so does every object in it. */
    method LoadOrBuild(name: string) returns (node: Node)
      requires Ready() && name in s.schema
      modifies this`cache
      ensures Ready() && name in cache.entries && node == cache.entries[name]
      ensures Within(old(cache.entries), cache.entries)
      ensures name in old(cache.entries) ==> cache == old(cache)
    {
      hide Complete, Valid, AllComplete;
      if name in cache.entries { return cache.entries[name]; }
      var newCache := cache.Clone();
      node := BuildAll(s, name, newCache);
      cache := newCache;
    }
  }

  /** Checking with the objects of a finished cache is checking with what the type names stand for. */
  lemma CacheFindsSame(s: Setup, entries: map<string, Node>, env: Env<Node>, checks: Checks, name: string, m: Message)
    requires AllComplete(s, entries) && name in entries && forall u :: u in entries ==>
             env(entries[u]) == entries[u].Eval()
    ensures LoadedAtoms(env, checks, Some(entries[name]), m) == LoadedAtoms(Stands(s), checks, Some(name), m)
  {
    var link := Link(entries, entries[name]);
    forall u | u in entries
      ensures u in s.schema && MessageUses(s, link, u) <= entries.Keys && env(link(u)) == MessageSpec(s, link, u)
    {
      assert Complete(s, entries, u);
      PartsCongruence(s, Link(entries, entries[u]), link, s.schema[u], |s.schema[u].fields|);
    }
    GraphFindsSame(s, link, entries.Keys, env, checks, name, m);
  }

  /** The whole way: what Validate reports for a message with the evaluator that any finished cache holds for its
      type is what the checks of the full trees, each with its path from the root, amount to. */
  lemma LoadedMeansFullTree(
      full: Setup, s: Setup, entries: map<string, Node>, env: Env<Node>, checks: Checks, name: string, m: Message,
      failFast: bool)
    requires full.keepAll && s == full.(keepAll := false)
    requires AllComplete(s, entries) && name in entries && forall u :: u in entries ==>
             env(entries[u]) == entries[u].Eval()
    ensures ChangeOutcome(Reversed, Run(LoadedAtoms(env, checks, Some(entries[name]), m), failFast)) ==
            Run(TopMessage(Stands(full), checks, Stands(full)(name), m, [], false), failFast)
  {
    assert Complete(s, entries, name);
    CacheFindsSame(s, entries, env, checks, name, m);
    ValidateMeansFullTree(full, s, name, m, checks, failFast);
  }

  /** Every reference in a finished evaluator is to the object that the same cache holds for the type. */
  lemma ReferencesStayInCache(s: Setup, entries: map<string, Node>, name: string)
    requires Complete(s, entries, name)
    ensures SameMessage(Link(entries, entries[name]), entries.Keys, entries[name].Eval(), MessageSpec(s, Name, name))
  {
    SameMessageSpec(s, Link(entries, entries[name]), entries.Keys, name);
  }

  /* ---- validator.go: validating with what the builder has loaded ---- */

  // The evaluators that the objects of a cache hold.
  method Snapshot(cache: Cache) returns (env: Env<Node>)
    ensures forall u :: u in cache.entries ==> env(cache.entries[u]) == cache.entries[u].Eval()
  {
    var held := map node | node in cache.entries.Values :: node.Eval();
    env := (node: Node) => if node in held then held[node] else MessageEval(None, [], []);
  }

  /** validator.Validate: load the evaluator of the message's type, building it unless that is switched off, evaluate
      and turn the paths round. The result is what the checks of the full trees, listed from the root down with their
      paths, amount to; without an evaluator it is an error. */
  method Validate(full: Setup, loader: Loader, lazy: bool, cfg: Config, m: Message) returns (err: Err)
    requires full.keepAll && loader.s == full.(keepAll := false) && loader.Ready()
    requires lazy ==> m.typeName in loader.s.schema
    modifies loader`cache
    ensures loader.Ready() && Sound(err) && (lazy ==> m.typeName in loader.cache.entries)
    ensures !lazy ==> loader.cache == old(loader.cache)
    ensures Abs(err) ==
            if m.typeName in loader.cache.entries
            then Run(TopMessage(Stands(full), cfg.checks, Stands(full)(m.typeName), m, [], false), cfg.failFast)
            else Fatal("no evaluator available for " + m.typeName)
    ensures UniqueNames(full) && m.typeName in loader.cache.entries ==>
              (err == Nil <==> Conforms(full, cfg.checks, m.typeName, m))
  {
    var loaded: Option<Node>;
    if lazy {
      var node := loader.LoadOrBuild(m.typeName);
      loaded := Some(node);
    } else {
      loaded := loader.Load(m.typeName);
    }
    var env := Snapshot(loader.cache);
    err := EvalHeap.Validate(env, cfg, loaded, m);
    if loaded.Some? {
      LoadedMeansFullTree(full, loader.s, loader.cache.entries, env, cfg.checks, m.typeName, m, cfg.failFast);
      if UniqueNames(full) { SuccessIffConforms(full, cfg.checks, m.typeName, m, cfg.failFast); }
    } else {
      RunFailed(cfg.failFast);
    }
  }
}
