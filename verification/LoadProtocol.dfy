/** Concurrent loadOrBuild: threads that read the published cache without the lock, and under it look again,
    clone the cache, build into the clone step by step and publish it. Every read and write of shared state
    is a step of its own, and the steps of all threads interleave in any way. */
module LoadProtocol {
  /* ---- State ---- */

  // An evaluator object: the type it is for, its references to embedded types so far, whether it is finished.
  datatype Obj = Obj(desc: string, links: seq<nat>, done: bool)

  // A call of build that is under way: the object and the number of embedded types it has dealt with.
  datatype Frame = Frame(desc: string, obj: nat, next: nat)

  datatype Thread =
    | Idle
    | Start(desc: string) // called
    | Loaded(desc: string, cache: nat) // has the published cache, not looked into it
    | Waiting(desc: string) // for the lock
    | Locked(desc: string)
    | Reloaded(desc: string, cache: nat)
    | Building(desc: string, cache: nat, stack: seq<Frame>)
    | Built(desc: string, cache: nat, obj: nat)
    | Leaving(desc: string, obj: nat) // about to unlock
    | Returned(desc: string, obj: nat)

  datatype Lock = Free | Held(thread: nat)

  // Objects and caches are numbered as they are allocated. past: the caches published so far.
  datatype State = State(
    objs: seq<Obj>, caches: seq<map<string, nat>>, published: nat, lock: Lock, threads: seq<Thread>, past: set<nat>)

  // The embedded types of every type, in the order in which its fields ask for them.
  type Schema = map<string, seq<string>>

  ghost predicate Closed(schema: Schema) {
    forall d, k :: d in schema && 0 <= k < |schema[d]| ==> schema[d][k] in schema
  }

  predicate InCritical(t: Thread) {
    t.Locked? || t.Reloaded? || t.Building? || t.Built? || t.Leaving?
  }

  /* ---- Steps ---- */

  function Goto(s: State, t: nat, to: Thread): State
    requires t < |s.threads|
  {
    s.(threads := s.threads[t := to])
  }

  // Thread t takes its next step; an idle thread calls loadOrBuild for a type. A blocked thread stays.
  function Step(schema: Schema, s: State, t: nat, call: string): State
    requires t < |s.threads|
  {
    match s.threads[t]
    case Idle => if call in schema then Goto(s, t, Start(call)) else s
    case Start(d) => Goto(s, t, Loaded(d, s.published))
    case Loaded(d, c) =>
      if c < |s.caches| && d in s.caches[c] then Goto(s, t, Returned(d, s.caches[c][d])) else Goto(s, t, Waiting(d))
    case Waiting(d) => if s.lock.Free? then s.(threads := s.threads[t := Locked(d)], lock := Held(t)) else s
    case Locked(d) => Goto(s, t, Reloaded(d, s.published))
    case Reloaded(d, c) =>
      if c >= |s.caches| then s
      else if d in s.caches[c] then Goto(s, t, Leaving(d, s.caches[c][d]))
      else s.(threads := s.threads[t := Building(d, |s.caches|, [])], caches := s.caches + [s.caches[c]])
    case Building(d, c, stack) => if c < |s.caches| then BuildStep(schema, s, t, d, c, stack) else s
    case Built(d, c, o) => s.(threads := s.threads[t := Leaving(d, o)], published := c, past := s.past + {c})
    case Leaving(d, o) => s.(threads := s.threads[t := Returned(d, o)], lock := Free)
    case Returned(_, _) => Goto(s, t, Idle)
  }

  function Top(stack: seq<Frame>): Frame
    requires stack != []
  {
    stack[|stack| - 1]
  }

  // The type that build is asked for next.
  function Request(schema: Schema, d: string, stack: seq<Frame>): string {
    if stack == [] then d
    else if Top(stack).desc in schema && Top(stack).next < |schema[Top(stack).desc]|
    then schema[Top(stack).desc][Top(stack).next] else d
  }

  predicate FieldsLeft(schema: Schema, stack: seq<Frame>) {
    stack == [] || (Top(stack).desc in schema && Top(stack).next < |schema[Top(stack).desc]|)
  }

  // The caller of build gets object o: the evaluator on top of the stack links to it, or the outermost call returns.
  function Give(s: State, t: nat, d: string, c: nat, stack: seq<Frame>, o: nat): State
    requires t < |s.threads|
  {
    if stack == [] then Goto(s, t, Built(d, c, o)) else
      var f := Top(stack);
      var linked := if f.obj < |s.objs| then s.objs[f.obj := s.objs[f.obj].(links := s.objs[f.obj].links + [o])]
        else s.objs;
      s.(threads := s.threads[t := Building(d, c, stack[|stack| - 1 := f.(next := f.next + 1)])], objs := linked)
  }

  function BuildStep(schema: Schema, s: State, t: nat, d: string, c: nat, stack: seq<Frame>): State
    requires t < |s.threads| && c < |s.caches|
  {
    if FieldsLeft(schema, stack) then
      var r := Request(schema, d, stack);
      if r in s.caches[c] then Give(s, t, d, c, stack, s.caches[c][r])
      else // a new object, in the cache before it is filled
        var o: nat := |s.objs|;
        var grown: map<string, nat> := s.caches[c][r := o];
        s.(threads := s.threads[t := Building(d, c, stack + [Frame(r, o, 0)])], objs := s.objs + [Obj(r, [], false)],
          caches := s.caches[c := grown])
    else
      var f := Top(stack);
      var finished := if f.obj < |s.objs| then s.objs[f.obj := s.objs[f.obj].(done := true)] else s.objs;
      Give(s.(objs := finished), t, d, c, stack[..|stack| - 1], f.obj)
  }

  ghost predicate Next(schema: Schema, a: State, b: State) {
    exists t: nat, call: string :: t < |a.threads| && b == Step(schema, a, t, call)
  }

  // The first cache is what the seeds have filled; no thread has called yet.
  ghost predicate Init(schema: Schema, s: State) {
    && |s.caches| == 1 && s.published == 0 && s.past == {0} && s.lock == Free
    && AllFinished(schema, s.objs, s.caches[0]) && NoOthers(s.objs, s.caches[0])
    && forall t :: 0 <= t < |s.threads| ==> s.threads[t] == Idle
  }

  /* ---- Invariant ---- */

  // The links are those of the first n embedded types, to the objects of the cache.
  ghost predicate Linked(schema: Schema, cache: map<string, nat>, d: string, links: seq<nat>, n: nat) {
    && d in schema && n <= |schema[d]| && |links| == n
    && forall k :: 0 <= k < n ==> schema[d][k] in cache && links[k] == cache[schema[d][k]]
  }

  ghost predicate Finished(schema: Schema, objs: seq<Obj>, cache: map<string, nat>, d: string)
    requires d in cache
  {
    && d in schema && cache[d] < |objs| && objs[cache[d]].desc == d && objs[cache[d]].done
    && Linked(schema, cache, d, objs[cache[d]].links, |schema[d]|)
  }

  ghost predicate AllFinished(schema: Schema, objs: seq<Obj>, cache: map<string, nat>) {
    forall d :: d in cache ==> Finished(schema, objs, cache, d)
  }

  // Every object there is is the one that the cache holds for its type.
  ghost predicate NoOthers(objs: seq<Obj>, cache: map<string, nat>) {
    forall o :: 0 <= o < |objs| ==> objs[o].desc in cache && cache[objs[o].desc] == o
  }

  ghost predicate Within(a: map<string, nat>, b: map<string, nat>) {
    forall d :: d in a ==> d in b && b[d] == a[d]
  }

  ghost predicate OnStack(stack: seq<Frame>, d: string) {
    exists k :: 0 <= k < |stack| && stack[k].desc == d
  }

  // The frame's object is in the cache, unfinished, and linked up to the frame's position.
  ghost predicate FrameOk(schema: Schema, objs: seq<Obj>, cache: map<string, nat>, f: Frame) {
    && f.desc in cache && cache[f.desc] == f.obj && f.obj < |objs|
    && objs[f.obj].desc == f.desc && !objs[f.obj].done
    && Linked(schema, cache, f.desc, objs[f.obj].links, f.next)
  }

  ghost predicate Asks(schema: Schema, f: Frame, d: string) {
    f.desc in schema && f.next < |schema[f.desc]| && schema[f.desc][f.next] == d
  }

  // Every frame above the first is for the type that the frame below it asks for.
  ghost predicate Chained(schema: Schema, stack: seq<Frame>) {
    forall j, k :: 0 <= j < k < |stack| && k == j + 1 ==>
      Asks(schema, stack[j], stack[k].desc)
  }

  ghost predicate StackOk(schema: Schema, objs: seq<Obj>, cache: map<string, nat>, d: string, stack: seq<Frame>) {
    && (forall k :: 0 <= k < |stack| ==> FrameOk(schema, objs, cache, stack[k]))
    && (forall j, k :: 0 <= j < k < |stack| ==> stack[j].obj != stack[k].obj)
    && Chained(schema, stack)
    && (if stack == [] then d !in cache else stack[0].desc == d)
    && (forall e :: e in cache ==> OnStack(stack, e) || Finished(schema, objs, cache, e))
  }

  // A cache that is not published yet, and extends the published one.
  ghost predicate Private(s: State, c: nat) {
    c < |s.caches| && c !in s.past && s.published < |s.caches| && Within(s.caches[s.published], s.caches[c])
  }

  ghost predicate ThreadOk(schema: Schema, s: State, t: Thread)
    requires s.published < |s.caches|
  {
    match t
    case Idle => true
    case Start(d) => d in schema
    case Loaded(d, c) => d in schema && c in s.past
    case Waiting(d) => d in schema
    case Locked(d) => d in schema
    case Reloaded(d, c) => d in schema && c == s.published
    case Building(d, c, stack) => d in schema && Private(s, c) && StackOk(schema, s.objs, s.caches[c], d, stack)
    case Built(d, c, o) =>
      d in schema && Private(s, c) && AllFinished(schema, s.objs, s.caches[c]) && d in s.caches[c] &&
        s.caches[c][d] == o
    case Leaving(d, o) => d in s.caches[s.published] && s.caches[s.published][d] == o
    case Returned(d, o) => d in s.caches[s.published] && s.caches[s.published][d] == o
  }

  // The cache that holds all objects: the one being built, or else the published one.
  function Current(s: State): nat {
    match s.lock
    case Free => s.published
    case Held(t) =>
      if t < |s.threads| && (s.threads[t].Building? || s.threads[t].Built?) then s.threads[t].cache else s.published
  }

  ghost predicate PastOk(schema: Schema, s: State) {
    && s.published in s.past && s.published < |s.caches|
    && (forall c :: c in s.past ==>
          c < |s.caches| && AllFinished(schema, s.objs, s.caches[c]) && Within(s.caches[c], s.caches[s.published]))
  }

  ghost predicate Inv(schema: Schema, s: State) {
    && PastOk(schema, s)
    && (forall t :: 0 <= t < |s.threads| ==> (InCritical(s.threads[t]) <==> s.lock == Held(t)))
    && (s.lock.Held? ==> s.lock.thread < |s.threads|)
    && (forall t :: 0 <= t < |s.threads| ==> ThreadOk(schema, s, s.threads[t]))
    && Current(s) < |s.caches| && NoOthers(s.objs, s.caches[Current(s)])
  }

  /* ---- The invariant is kept ---- */

  // Objects are only added, and finished ones never change.
  ghost predicate Later(a: seq<Obj>, b: seq<Obj>) {
    |a| <= |b| && forall o :: 0 <= o < |a| && a[o].done ==> b[o] == a[o]
  }

  lemma FinishedKept(
      schema: Schema, a: seq<Obj>, b: seq<Obj>, cache: map<string, nat>, more: map<string, nat>, d: string)
    requires Later(a, b) && Within(cache, more) && d in cache && Finished(schema, a, cache, d)
    ensures Finished(schema, b, more, d)
  {
  }

  lemma AllFinishedKept(schema: Schema, a: seq<Obj>, b: seq<Obj>, cache: map<string, nat>)
    requires Later(a, b) && AllFinished(schema, a, cache)
    ensures AllFinished(schema, b, cache)
  {
    forall d | d in cache
      ensures Finished(schema, b, cache, d)
    {
      FinishedKept(schema, a, b, cache, cache, d);
    }
  }

  lemma PastKept(schema: Schema, a: State, b: State)
    requires PastOk(schema, a) && Later(a.objs, b.objs) && a.past == b.past && a.published == b.published
    requires |a.caches| <= |b.caches| && forall c :: c in a.past ==> b.caches[c] == a.caches[c]
    ensures PastOk(schema, b)
  {
    forall c | c in b.past
      ensures c < |b.caches| && AllFinished(schema, b.objs, b.caches[c]) && Within(b.caches[c], b.caches[b.published])
    {
      AllFinishedKept(schema, a.objs, b.objs, a.caches[c]);
    }
  }

  lemma OutsideKept(schema: Schema, a: State, b: State, t: Thread)
    requires a.published < |a.caches| && b.published < |b.caches| && a.past <= b.past
    requires Within(a.caches[a.published], b.caches[b.published])
    requires ThreadOk(schema, a, t) && !InCritical(t)
    ensures ThreadOk(schema, b, t)
  {
  }

  // A step that only moves a thread from one state outside of building to another.
  lemma GotoKeeps(schema: Schema, s: State, t: nat, to: Thread)
    requires Inv(schema, s) && t < |s.threads| && ThreadOk(schema, s, to)
    requires InCritical(to) == InCritical(s.threads[t])
    requires !s.threads[t].Building? && !s.threads[t].Built? && !to.Building? && !to.Built?
    ensures Inv(schema, Goto(s, t, to))
  {
    var b := Goto(s, t, to);
    forall u | 0 <= u < |b.threads|
      ensures ThreadOk(schema, b, b.threads[u])
    {
      assert ThreadOk(schema, s, b.threads[u]);
    }
    PastKept(schema, s, b);
  }

  lemma LockKeeps(schema: Schema, s: State, t: nat, d: string)
    requires Inv(schema, s) && t < |s.threads| && s.threads[t] == Waiting(d) && s.lock.Free?
    ensures Inv(schema, s.(threads := s.threads[t := Locked(d)], lock := Held(t)))
  {
    var b := s.(threads := s.threads[t := Locked(d)], lock := Held(t));
    forall u | 0 <= u < |b.threads|
      ensures ThreadOk(schema, b, b.threads[u])
    {
      assert ThreadOk(schema, s, s.threads[u]);
    }
    PastKept(schema, s, b);
  }

  lemma UnlockKeeps(schema: Schema, s: State, t: nat, d: string, o: nat)
    requires Inv(schema, s) && t < |s.threads| && s.threads[t] == Leaving(d, o)
    ensures Inv(schema, s.(threads := s.threads[t := Returned(d, o)], lock := Free))
  {
    var b := s.(threads := s.threads[t := Returned(d, o)], lock := Free);
    forall u | 0 <= u < |b.threads|
      ensures ThreadOk(schema, b, b.threads[u])
    {
      assert ThreadOk(schema, s, s.threads[u]) && ThreadOk(schema, s, s.threads[t]);
    }
    PastKept(schema, s, b);
  }

  lemma CloneKeeps(schema: Schema, s: State, t: nat, d: string)
    requires Inv(schema, s) && t < |s.threads| && s.threads[t] == Reloaded(d, s.published)
    requires d !in s.caches[s.published]
    ensures Inv(schema, s.(threads := s.threads[t := Building(d, |s.caches|, [])],
            caches := s.caches + [s.caches[s.published]]))
  {
    var b := s.(threads := s.threads[t := Building(d, |s.caches|, [])], caches := s.caches + [s.caches[s.published]]);
    PastKept(schema, s, b);
    forall u | 0 <= u < |b.threads|
      ensures ThreadOk(schema, b, b.threads[u])
    {
      assert ThreadOk(schema, s, s.threads[u]);
      if u != t { OutsideKept(schema, s, b, s.threads[u]); }
    }
  }

  lemma PublishKeeps(schema: Schema, s: State, t: nat, d: string, c: nat, o: nat)
    requires Inv(schema, s) && t < |s.threads| && s.threads[t] == Built(d, c, o)
    ensures Inv(schema, s.(threads := s.threads[t := Leaving(d, o)], published := c, past := s.past + {c}))
  {
    var b := s.(threads := s.threads[t := Leaving(d, o)], published := c, past := s.past + {c});
    assert ThreadOk(schema, s, s.threads[t]);
    forall u | 0 <= u < |b.threads|
      ensures ThreadOk(schema, b, b.threads[u])
    {
      assert ThreadOk(schema, s, s.threads[u]);
      if u != t { OutsideKept(schema, s, b, s.threads[u]); }
    }
  }

  /* ---- The steps of a build ---- */

  // What a step of the builder changes, apart from its own state: the private cache grows, finished objects stay.
  ghost predicate BuildMove(s: State, b: State, t: nat, c: nat) {
    && t < |s.threads| && |b.threads| == |s.threads| &&
      (forall u :: 0 <= u < |s.threads| && u != t ==> b.threads[u] == s.threads[u])
    && c < |s.caches| == |b.caches| && (forall e :: 0 <= e < |s.caches| && e != c ==> b.caches[e] == s.caches[e])
    && Within(s.caches[c], b.caches[c]) && Later(s.objs, b.objs)
    && b.past == s.past && b.published == s.published && b.lock == s.lock
  }

  lemma BuildKeeps(schema: Schema, s: State, b: State, t: nat, d: string, c: nat, stack: seq<Frame>)
    requires Inv(schema, s) && t < |s.threads| && s.threads[t] == Building(d, c, stack)
    requires BuildMove(s, b, t, c) && NoOthers(b.objs, b.caches[c])
    requires (b.threads[t].Building? || b.threads[t].Built?) && b.threads[t].cache == c
    requires ThreadOk(schema, s, s.threads[t]) && s.published < |b.caches| && ThreadOk(schema, b, b.threads[t])
    ensures Inv(schema, b)
  {
    assert c !in s.past;
    PastKept(schema, s, b);
    forall u | 0 <= u < |b.threads|
      ensures ThreadOk(schema, b, b.threads[u])
    {
      if u != t {
        assert ThreadOk(schema, s, s.threads[u]);
        OutsideKept(schema, s, b, s.threads[u]);
      }
    }
  }

  lemma FrameKept(schema: Schema, a: seq<Obj>, b: seq<Obj>, cache: map<string, nat>, more: map<string, nat>, f: Frame)
    requires FrameOk(schema, a, cache, f) && Within(cache, more) && f.obj < |b| && b[f.obj] == a[f.obj]
    ensures FrameOk(schema, b, more, f)
  {
  }

  lemma NewFrame(schema: Schema, objs: seq<Obj>, cache: map<string, nat>, f: Frame)
    requires f.desc in schema && f.next == 0 && f.desc in cache && cache[f.desc] == f.obj
    requires f.obj < |objs| && objs[f.obj] == Obj(f.desc, [], false)
    ensures FrameOk(schema, objs, cache, f)
  {
  }

  // build puts a new object into the cache.
  lemma PushOk(schema: Schema, objs: seq<Obj>, cache: map<string, nat>, d: string, stack: seq<Frame>, r: string)
    requires Closed(schema) && StackOk(schema, objs, cache, d, stack) && NoOthers(objs, cache)
    requires d in schema && FieldsLeft(schema, stack) && r == Request(schema, d, stack) && r !in cache
    ensures var o := |objs|;
            StackOk(schema, objs + [Obj(r, [], false)], cache[r := o], d, stack + [Frame(r, o, 0)])
    ensures NoOthers(objs + [Obj(r, [], false)], cache[r := |objs|])
    ensures Within(cache, cache[r := |objs|])
  {
    hide Chained, Linked, Finished;
    ChainGoesOn(schema, stack, r, |objs|);
    var o: nat := |objs|;
    var objs', stack' := objs + [Obj(r, [], false)], stack + [Frame(r, o, 0)];
    var cache': map<string, nat> := cache[r := o];
    forall k | 0 <= k < |stack'|
      ensures FrameOk(schema, objs', cache', stack'[k])
    {
      if k < |stack| { FrameKept(schema, objs, objs', cache, cache', stack[k]); }
        else { NewFrame(schema, objs', cache', stack'[k]); }
    }
    forall j, k | 0 <= j < k < |stack'|
      ensures stack'[j].obj != stack'[k].obj
    {
      assert FrameOk(schema, objs, cache, stack[j]);
    }
    forall e | e in cache'
      ensures OnStack(stack', e) || Finished(schema, objs', cache', e)
    {
      if e == r {
        assert stack'[|stack|].desc == r;
      } else if OnStack(stack, e) {
        var k :| 0 <= k < |stack| && stack[k].desc == e;
        assert stack'[k].desc == e;
      } else {
        FinishedKept(schema, objs, objs', cache, cache', e);
      }
    }
  }

  lemma FrameGetsLink(schema: Schema, objs: seq<Obj>, cache: map<string, nat>, f: Frame, o: nat)
    requires FrameOk(schema, objs, cache, f) && f.next < |schema[f.desc]|
    requires schema[f.desc][f.next] in cache && cache[schema[f.desc][f.next]] == o
    ensures FrameOk(schema, objs[f.obj := objs[f.obj].(links := objs[f.obj].links + [o])], cache,
            f.(next := f.next + 1))
  {
  }

  lemma ChainGoesOn(schema: Schema, stack: seq<Frame>, r: string, o: nat)
    requires Chained(schema, stack)
    ensures stack != [] ==> Chained(schema, stack[|stack| - 1 := Top(stack).(next := Top(stack).next + 1)])
    ensures stack != [] ==> Chained(schema, stack[..|stack| - 1])
    ensures stack != [] && FieldsLeft(schema, stack) && r == Request(schema, Top(stack).desc, stack) ==>
              Chained(schema, stack + [Frame(r, o, 0)])
    ensures stack == [] ==> Chained(schema, stack + [Frame(r, o, 0)])
    ensures |stack| > 1 ==>
              FieldsLeft(schema, stack[..|stack| - 1]) && Request(schema, r, stack[..|stack| - 1]) == Top(stack).desc
  {
    if stack == [] { return; }
    var top := |stack| - 1;
    var up, more := stack[top := stack[top].(next := stack[top].next + 1)], stack + [Frame(r, o, 0)];
    forall j, k | 0 <= j < k < |stack| && k == j + 1
      ensures Asks(schema, up[j], up[k].desc)
    {
      assert Asks(schema, stack[j], stack[k].desc);
    }
    if FieldsLeft(schema, stack) && r == Request(schema, Top(stack).desc, stack) {
      forall j, k | 0 <= j < k < |more| && k == j + 1
        ensures Asks(schema, more[j], more[k].desc)
      {
        if k < |stack| { assert Asks(schema, stack[j], stack[k].desc); }
      }
    }
    if |stack| > 1 {
      assert Asks(schema, stack[top - 1], stack[top].desc);
    }
  }

  // The evaluator on top gets the link that it asked for.
  lemma LinkOk(schema: Schema, objs: seq<Obj>, cache: map<string, nat>, d: string, stack: seq<Frame>, o: nat)
    requires StackOk(schema, objs, cache, d, stack) && NoOthers(objs, cache) && stack != [] && FieldsLeft(schema, stack)
    requires Request(schema, d, stack) in cache && cache[Request(schema, d, stack)] == o
    ensures var f := Top(stack);
            f.obj < |objs| &&
            StackOk(schema, objs[f.obj := objs[f.obj].(links := objs[f.obj].links + [o])], cache, d,
                    stack[|stack| - 1 := f.(next := f.next + 1)])
    ensures NoOthers(objs[Top(stack).obj := objs[Top(stack).obj].(links := objs[Top(stack).obj].links + [o])], cache)
  {
    hide Chained, Linked, Finished, NoOthers;
    ChainGoesOn(schema, stack, "", o);
    var f := Top(stack);
    assert FrameOk(schema, objs, cache, stack[|stack| - 1]);
    var objs' := objs[f.obj := objs[f.obj].(links := objs[f.obj].links + [o])];
    var stack' := stack[|stack| - 1 := f.(next := f.next + 1)];
    forall k | 0 <= k < |stack'|
      ensures FrameOk(schema, objs', cache, stack'[k])
    {
      if k < |stack| - 1 {
        assert stack[k].obj != stack[|stack| - 1].obj;
        FrameKept(schema, objs, objs', cache, cache, stack[k]);
      } else {
        FrameGetsLink(schema, objs, cache, f, o);
      }
    }
    forall e | e in cache
      ensures OnStack(stack', e) || Finished(schema, objs', cache, e)
    {
      if OnStack(stack, e) {
        var k :| 0 <= k < |stack| && stack[k].desc == e;
        assert stack'[k].desc == e;
      } else {
        FinishedKept(schema, objs, objs', cache, cache, e);
      }
    }
    NoneAdded(objs, objs', cache);
  }

  lemma NoneAdded(a: seq<Obj>, b: seq<Obj>, cache: map<string, nat>)
    requires NoOthers(a, cache) && |a| == |b| && forall o :: 0 <= o < |a| ==> b[o].desc == a[o].desc
    ensures NoOthers(b, cache)
  {
  }

  // The evaluator on top is finished.
  lemma PopOk(schema: Schema, objs: seq<Obj>, cache: map<string, nat>, d: string, stack: seq<Frame>)
    requires StackOk(schema, objs, cache, d, stack) && NoOthers(objs, cache) && stack != []
    requires !FieldsLeft(schema, stack)
    ensures Top(stack).obj < |objs|
    ensures var f, rest := Top(stack), stack[..|stack| - 1];
            var objs' := objs[f.obj := objs[f.obj].(done := true)];
            && Later(objs, objs') && NoOthers(objs', cache) && f.desc in cache && cache[f.desc] == f.obj
            && (rest != [] ==> StackOk(schema, objs', cache, d, rest))
            && (rest != [] ==> FieldsLeft(schema, rest) && Request(schema, d, rest) == f.desc)
            && (rest == [] ==> AllFinished(schema, objs', cache) && f.desc == d)
  {
    hide Chained, Linked, Finished;
    var f, rest := Top(stack), stack[..|stack| - 1];
    ChainGoesOn(schema, stack, d, 0);
    assert FrameOk(schema, objs, cache, stack[|stack| - 1]);
    var objs' := objs[f.obj := objs[f.obj].(done := true)];
    forall k | 0 <= k < |rest|
      ensures FrameOk(schema, objs', cache, rest[k])
    {
      assert stack[k].obj != stack[|stack| - 1].obj;
      FrameKept(schema, objs, objs', cache, cache, stack[k]);
    }
    FrameInSchema(schema, objs, cache, f);
    FrameFinished(schema, objs, cache, f);
    forall e | e in cache
      ensures OnStack(rest, e) || Finished(schema, objs', cache, e)
    {
      if OnStack(stack, e) {
        var k :| 0 <= k < |stack| && stack[k].desc == e;
        if k < |rest| { assert rest[k].desc == e; }
      } else {
        FinishedKept(schema, objs, objs', cache, cache, e);
      }
    }
    if rest != [] { assert rest[0] == stack[0]; }
  }

  lemma FrameInSchema(schema: Schema, objs: seq<Obj>, cache: map<string, nat>, f: Frame)
    requires FrameOk(schema, objs, cache, f)
    ensures f.desc in schema && f.next <= |schema[f.desc]|
  {
  }

  lemma FrameFinished(schema: Schema, objs: seq<Obj>, cache: map<string, nat>, f: Frame)
    requires FrameOk(schema, objs, cache, f) && f.desc in schema && f.next >= |schema[f.desc]|
    ensures Finished(schema, objs[f.obj := objs[f.obj].(done := true)], cache, f.desc)
  {
  }

  lemma BuildStepKeeps(schema: Schema, s: State, t: nat, d: string, c: nat, stack: seq<Frame>)
    requires Closed(schema) && Inv(schema, s) && t < |s.threads| && s.threads[t] == Building(d, c, stack)
    requires c < |s.caches|
    ensures Inv(schema, BuildStep(schema, s, t, d, c, stack))
  {
    hide StackOk, NoOthers, Finished, PastOk, FrameOk;
    assert ThreadOk(schema, s, s.threads[t]);
    if FieldsLeft(schema, stack) {
      if Request(schema, d, stack) in s.caches[c] {
        LinkStepKeeps(schema, s, t, d, c, stack);
      } else {
        PushStepKeeps(schema, s, t, d, c, stack);
      }
    } else {
      PopStepKeeps(schema, s, t, d, c, stack);
    }
  }

  lemma LinkStepKeeps(schema: Schema, s: State, t: nat, d: string, c: nat, stack: seq<Frame>)
    requires Closed(schema) && Inv(schema, s) && t < |s.threads| && s.threads[t] == Building(d, c, stack)
    requires c < |s.caches|
    requires FieldsLeft(schema, stack) && Request(schema, d, stack) in s.caches[c]
    ensures Inv(schema, BuildStep(schema, s, t, d, c, stack))
  {
    assert ThreadOk(schema, s, s.threads[t]);
    var b := BuildStep(schema, s, t, d, c, stack);
    LinkOk(schema, s.objs, s.caches[c], d, stack, s.caches[c][Request(schema, d, stack)]);
    assert FrameOk(schema, s.objs, s.caches[c], stack[|stack| - 1]);
    BuildKeeps(schema, s, b, t, d, c, stack);
  }

  lemma PushStepKeeps(schema: Schema, s: State, t: nat, d: string, c: nat, stack: seq<Frame>)
    requires Closed(schema) && Inv(schema, s) && t < |s.threads| && s.threads[t] == Building(d, c, stack)
    requires c < |s.caches|
    requires FieldsLeft(schema, stack) && Request(schema, d, stack) !in s.caches[c]
    ensures Inv(schema, BuildStep(schema, s, t, d, c, stack))
  {
    assert ThreadOk(schema, s, s.threads[t]);
    var b := BuildStep(schema, s, t, d, c, stack);
    PushOk(schema, s.objs, s.caches[c], d, stack, Request(schema, d, stack));
    BuildKeeps(schema, s, b, t, d, c, stack);
  }

  lemma PopStepKeeps(schema: Schema, s: State, t: nat, d: string, c: nat, stack: seq<Frame>)
    requires Closed(schema) && Inv(schema, s) && t < |s.threads| && s.threads[t] == Building(d, c, stack)
    requires c < |s.caches|
    requires !FieldsLeft(schema, stack)
    ensures Inv(schema, BuildStep(schema, s, t, d, c, stack))
  {
    hide Chained, Linked, Finished, OnStack;
    assert ThreadOk(schema, s, s.threads[t]);
    var b := BuildStep(schema, s, t, d, c, stack);
    PopOk(schema, s.objs, s.caches[c], d, stack);
    var f, rest := Top(stack), stack[..|stack| - 1];
    if rest != [] {
      var objs' := s.objs[f.obj := s.objs[f.obj].(done := true)];
      LinkOk(schema, objs', s.caches[c], d, rest, f.obj);
      assert FrameOk(schema, objs', s.caches[c], rest[|rest| - 1]);
    }
    BuildKeeps(schema, s, b, t, d, c, stack);
  }

  /** Every step of every thread keeps the invariant. */
  lemma StepKeeps(schema: Schema, s: State, t: nat, call: string)
    requires Closed(schema) && Inv(schema, s) && t < |s.threads|
    ensures Inv(schema, Step(schema, s, t, call))
  {
    assert ThreadOk(schema, s, s.threads[t]);
    match s.threads[t]
    case Idle => if call in schema { GotoKeeps(schema, s, t, Start(call)); }
    case Start(d) => GotoKeeps(schema, s, t, Loaded(d, s.published));
    case Loaded(d, c) =>
      if d in s.caches[c] { GotoKeeps(schema, s, t, Returned(d, s.caches[c][d])); }
        else { GotoKeeps(schema, s, t, Waiting(d)); }
    case Waiting(d) => if s.lock.Free? { LockKeeps(schema, s, t, d); }
    case Locked(d) => GotoKeeps(schema, s, t, Reloaded(d, s.published));
    case Reloaded(d, c) =>
      if d in s.caches[c] { GotoKeeps(schema, s, t, Leaving(d, s.caches[c][d])); } else { CloneKeeps(schema, s, t, d); }
    case Building(d, c, stack) => BuildStepKeeps(schema, s, t, d, c, stack);
    case Built(d, c, o) => PublishKeeps(schema, s, t, d, c, o);
    case Leaving(d, o) => UnlockKeeps(schema, s, t, d, o);
    case Returned(_, _) => GotoKeeps(schema, s, t, Idle);
  }

  lemma InitHolds(schema: Schema, s: State)
    requires Init(schema, s)
    ensures Inv(schema, s)
  {
  }

  /* ---- What never changes ---- */

  // Published caches keep their contents, the published entries only grow, objects keep their type and, once
  // finished, everything.
  ghost predicate Grows(a: State, b: State) {
    && a.past <= b.past && |a.caches| <= |b.caches|
    && (forall c :: c in a.past && c < |a.caches| ==> b.caches[c] == a.caches[c])
    && a.published < |a.caches| && b.published < |b.caches|
    && Within(a.caches[a.published], b.caches[b.published])
    && Later(a.objs, b.objs)
    && (forall o :: 0 <= o < |a.objs| ==> b.objs[o].desc == a.objs[o].desc)
  }

  lemma StepGrows(schema: Schema, s: State, t: nat, call: string)
    requires Closed(schema) && Inv(schema, s) && t < |s.threads|
    ensures Grows(s, Step(schema, s, t, call))
  {
    hide BuildStep, StackOk, NoOthers, AllFinished;
    StepKeeps(schema, s, t, call);
    assert ThreadOk(schema, s, s.threads[t]);
    if s.threads[t].Building? { BuildStepGrows(schema, s, t, s.threads[t].desc, s.threads[t].cache,
      s.threads[t].stack); }
  }

  lemma BuildStepGrows(schema: Schema, s: State, t: nat, d: string, c: nat, stack: seq<Frame>)
    requires Inv(schema, s) && t < |s.threads| && s.threads[t] == Building(d, c, stack) && c < |s.caches|
    ensures Grows(s, BuildStep(schema, s, t, d, c, stack))
  {
    hide Chained, Linked, Finished, NoOthers, OnStack;
    assert ThreadOk(schema, s, s.threads[t]);
    if stack != [] { assert FrameOk(schema, s.objs, s.caches[c], stack[|stack| - 1]); }
    if |stack| > 1 {
      assert FrameOk(schema, s.objs, s.caches[c], stack[|stack| - 2]);
      assert stack[|stack| - 2].obj != stack[|stack| - 1].obj;
    }
  }

  lemma GrowsNot(schema: Schema, s: State)
    requires Inv(schema, s)
    ensures Grows(s, s)
  {
  }

  lemma GrowsTwice(a: State, b: State, c: State)
    requires Grows(a, b) && Grows(b, c)
    ensures Grows(a, c)
  {
  }

  /* ---- Whole runs ---- */

  ghost predicate IsRun(schema: Schema, run: seq<State>) {
    && run != [] && Init(schema, run[0])
    && forall i, j :: 0 <= i < j < |run| && j == i + 1 ==> Next(schema, run[i], run[j])
  }

  lemma {:induction false} RunKeeps(schema: Schema, run: seq<State>, i: nat)
    requires Closed(schema) && IsRun(schema, run) && i < |run|
    ensures Inv(schema, run[i])
  {
    if i == 0 {
      InitHolds(schema, run[0]);
    } else {
      RunKeeps(schema, run, i - 1);
      assert Next(schema, run[i - 1], run[i]);
      var t: nat, call: string :| t < |run[i - 1].threads| && run[i] == Step(schema, run[i - 1], t, call);
      StepKeeps(schema, run[i - 1], t, call);
    }
  }

  /** In every interleaving: published caches never change, what is published only grows, and a type that is
      published stays mapped to the same object. */
  lemma {:induction false} RunGrows(schema: Schema, run: seq<State>, i: nat, j: nat)
    requires Closed(schema) && IsRun(schema, run) && i <= j < |run|
    ensures Grows(run[i], run[j])
    decreases j - i
  {
    hide Inv, Grows, Step, Init;
    RunKeeps(schema, run, i);
    GrowsNot(schema, run[i]);
    if i < j {
      RunGrows(schema, run, i, j - 1);
      RunKeeps(schema, run, j - 1);
      assert Next(schema, run[j - 1], run[j]);
      var t: nat, call: string :| t < |run[j - 1].threads| && run[j] == Step(schema, run[j - 1], t, call);
      StepGrows(schema, run[j - 1], t, call);
      GrowsTwice(run[i], run[j - 1], run[j]);
    }
  }

  /** No type is built twice: no two objects are ever for the same type. */
  lemma BuiltOnce(schema: Schema, run: seq<State>, i: nat, o: nat, p: nat)
    requires Closed(schema) && IsRun(schema, run) && i < |run| && o < |run[i].objs| && p < |run[i].objs|
    requires run[i].objs[o].desc == run[i].objs[p].desc
    ensures o == p
  {
    RunKeeps(schema, run, i);
  }

  /** Two calls for one type get the same object, whichever threads make them and whenever they return. */
  lemma SameForAll(schema: Schema, run: seq<State>, i: nat, j: nat, t: nat, u: nat)
    requires Closed(schema) && IsRun(schema, run) && i <= j < |run| && t < |run[i].threads| && u < |run[j].threads|
    requires run[i].threads[t].Returned? && run[j].threads[u].Returned?
    requires run[i].threads[t].desc == run[j].threads[u].desc
    ensures run[i].threads[t].obj == run[j].threads[u].obj
  {
    RunKeeps(schema, run, i);
    RunKeeps(schema, run, j);
    RunGrows(schema, run, i, j);
    assert ThreadOk(schema, run[i], run[i].threads[t]) && ThreadOk(schema, run[j], run[j].threads[u]);
  }

  // The object that following the links numbered ks leads to, if there is one.
  function Follow(objs: seq<Obj>, o: nat, ks: seq<nat>): nat
    decreases |ks|
  {
    if ks == [] || o >= |objs| || ks[0] >= |objs[o].links| then o else Follow(objs, objs[o].links[ks[0]], ks[1..])
  }

  lemma {:induction false} FollowStays(schema: Schema, objs: seq<Obj>, cache: map<string, nat>, d: string, ks: seq<nat>)
    requires AllFinished(schema, objs, cache) && d in cache
    ensures exists e :: e in cache && cache[e] == Follow(objs, cache[d], ks) && Finished(schema, objs, cache, e)
    decreases |ks|
  {
    assert Finished(schema, objs, cache, d);
    if ks != [] && ks[0] < |objs[cache[d]].links| {
      FollowStays(schema, objs, cache, schema[d][ks[0]], ks[1..]);
    }
  }

  /** No caller gets an evaluator under construction: from the moment a call has returned an object, that object
      and every object that its links lead to are finished, and stay as they are. */
  lemma NeverUnfinished(schema: Schema, run: seq<State>, i: nat, j: nat, t: nat, ks: seq<nat>)
    requires Closed(schema) && IsRun(schema, run) && i <= j < |run| && t < |run[i].threads|
    requires run[i].threads[t].Returned?
    ensures var o, objs := run[i].threads[t].obj, run[i].objs;
            && o < |objs| && objs[o].desc == run[i].threads[t].desc
            && Follow(objs, o, ks) < |objs| && objs[Follow(objs, o, ks)].done
            && |objs| <= |run[j].objs| && run[j].objs[Follow(objs, o, ks)] == objs[Follow(objs, o, ks)]
  {
    RunKeeps(schema, run, i);
    RunGrows(schema, run, i, j);
    var s := run[i];
    assert ThreadOk(schema, s, s.threads[t]);
    FollowStays(schema, s.objs, s.caches[s.published], s.threads[t].desc, ks);
    assert Finished(schema, s.objs, s.caches[s.published], s.threads[t].desc);
  }

  /* ---- Building ends ---- */

  // What is left of the build besides types that are not in the cache yet.
  function Left(schema: Schema, stack: seq<Frame>): nat {
    if stack == [] then 0 else
      var f := Top(stack);
      Left(schema, stack[..|stack| - 1]) + 1 + if f.desc in schema &&
        f.next < |schema[f.desc]| then |schema[f.desc]| - f.next else 0
  }

  /** Every step of a build leaves fewer types to build, or as many and less of the evaluators under way, however
      the types mention each other; so every build ends. */
  lemma BuildDescends(schema: Schema, s: State, t: nat, d: string, c: nat, stack: seq<Frame>)
    requires Closed(schema) && Inv(schema, s) && t < |s.threads| && s.threads[t] == Building(d, c, stack)
    requires c < |s.caches|
    ensures var b := BuildStep(schema, s, t, d, c, stack);
            && c < |b.caches|
            && (|| b.threads[t].Built?
                || schema.Keys - b.caches[c].Keys < schema.Keys - s.caches[c].Keys
                || (b.caches[c] == s.caches[c] && b.threads[t].Building? &&
                  Left(schema, b.threads[t].stack) < Left(schema, stack)))
  {
    assert ThreadOk(schema, s, s.threads[t]);
    if FieldsLeft(schema, stack) {
      var r := Request(schema, d, stack);
      if r in s.caches[c] {
        LinkLeft(schema, stack);
      } else {
        assert r in schema.Keys - s.caches[c].Keys;
      }
    } else if |stack| > 1 {
      assert StackOk(schema, s.objs, s.caches[c], d, stack);
      ChainGoesOn(schema, stack, d, 0);
      LinkLeft(schema, stack[..|stack| - 1]);
    }
  }

  lemma LinkLeft(schema: Schema, stack: seq<Frame>)
    requires stack != [] && FieldsLeft(schema, stack)
    ensures Left(schema, stack[|stack| - 1 := Top(stack).(next := Top(stack).next + 1)]) < Left(schema, stack)
  {
    assert stack[|stack| - 1 := Top(stack).(next := Top(stack).next + 1)][..|stack| - 1] == stack[..|stack| - 1];
  }
}
