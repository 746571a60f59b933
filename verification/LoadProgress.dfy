/** Progress of concurrent loadOrBuild: as long as a call is outstanding some thread in a call can go on, every step
    inside a call leaves less to do, and so every call can be run to its end from every reachable state. */
module LoadProgress {
  import opened LoadProtocol

  predicate InCall(t: Thread) { !t.Idle? && !t.Returned? }

  /* ---- What is left to do ---- */

  // The steps of a call, building counted as one.
  function StepsLeft(t: Thread): nat {
    match t
    case Idle => 0
    case Start(_) => 8
    case Loaded(_, _) => 7
    case Waiting(_) => 6
    case Locked(_) => 5
    case Reloaded(_, _) => 4
    case Building(_, _, _) => 3
    case Built(_, _, _) => 2
    case Leaving(_, _) => 1
    case Returned(_, _) => 0
  }

  // Those of all outstanding calls
  function AllStepsLeft(ts: seq<Thread>): nat {
    if ts == [] then 0 else AllStepsLeft(ts[..|ts| - 1]) + StepsLeft(ts[|ts| - 1])
  }

  // The build that is under way, if any
  function Builder(s: State): Thread {
    if s.lock.Held? && s.lock.thread < |s.threads| then s.threads[s.lock.thread] else Idle
  }

  function TypesLeft(schema: Schema, s: State): nat {
    match Builder(s)
    case Building(_, c, _) => if c < |s.caches| then |schema.Keys - s.caches[c].Keys| else 0
    case _ => 0
  }

  function LinksLeft(schema: Schema, s: State): nat {
    match Builder(s)
    case Building(_, _, stack) => Left(schema, stack)
    case _ => 0
  }

  // Less is left in b than in a: fewer steps of calls, or as many and less to build.
  predicate Lower(schema: Schema, b: State, a: State) {
    || AllStepsLeft(b.threads) < AllStepsLeft(a.threads)
    || (AllStepsLeft(b.threads) == AllStepsLeft(a.threads)
        && (|| TypesLeft(schema, b) < TypesLeft(schema, a)
            || (TypesLeft(schema, b) == TypesLeft(schema, a) && LinksLeft(schema, b) < LinksLeft(schema, a))))
  }

  lemma {:induction false} OneThread(a: seq<Thread>, b: seq<Thread>, t: nat)
    requires t < |a| == |b| && forall u :: 0 <= u < |a| && u != t ==> b[u] == a[u]
    ensures AllStepsLeft(b) - AllStepsLeft(a) == StepsLeft(b[t]) - StepsLeft(a[t])
    decreases |a|
  {
    var last := |a| - 1;
    if t < last {
      OneThread(a[..last], b[..last], t);
    } else {
      assert a[..last] == b[..last];
    }
  }

  // A step changes no other thread.
  lemma OthersStay(schema: Schema, s: State, t: nat, call: string)
    requires t < |s.threads|
    ensures var b := Step(schema, s, t, call);
      |b.threads| == |s.threads| && forall u :: 0 <= u < |s.threads| && u != t ==> b.threads[u] == s.threads[u]
  {
  }

  lemma BuilderIsThread(schema: Schema, s: State, t: nat)
    requires Inv(schema, s) && t < |s.threads| && InCritical(s.threads[t])
    ensures Builder(s) == s.threads[t]
  {
  }

  lemma BuildLowers(schema: Schema, s: State, t: nat, call: string)
    requires Closed(schema) && Inv(schema, s) && t < |s.threads| && s.threads[t].Building?
    ensures Step(schema, s, t, call) != s && Lower(schema, Step(schema, s, t, call), s)
  {
    var th, b := s.threads[t], Step(schema, s, t, call);
    StepKeeps(schema, s, t, call);
    OthersStay(schema, s, t, call);
    OneThread(s.threads, b.threads, t);
    assert ThreadOk(schema, s, th);
    hide Inv, BuildStep, StackOk, PastOk, NoOthers;
    BuildDescends(schema, s, t, th.desc, th.cache, th.stack);
    BuilderIsThread(schema, s, t);
    BuildStepThread(schema, s, t, th.desc, th.cache, th.stack);
    BuilderIsThread(schema, b, t);
    if schema.Keys - b.caches[th.cache].Keys < schema.Keys - s.caches[th.cache].Keys {
      FewerTypes(schema.Keys - b.caches[th.cache].Keys, schema.Keys - s.caches[th.cache].Keys);
    }
  }

  lemma FewerTypes(a: set<string>, b: set<string>)
    requires a < b
    ensures |a| < |b|
  {
    assert b == a + (b - a);
  }

  lemma BuildStepThread(schema: Schema, s: State, t: nat, d: string, c: nat, stack: seq<Frame>)
    requires t < |s.threads| && c < |s.caches|
    ensures var to := BuildStep(schema, s, t, d, c, stack).threads[t];
      (to.Building? || to.Built?) && to.cache == c && to.desc == d
  {
  }

  /** Every step inside a call that changes anything, taking and leaving the lock included, leaves less to do. */
  lemma StepLowers(schema: Schema, s: State, t: nat, call: string)
    requires Closed(schema) && Inv(schema, s) && t < |s.threads| && InCall(s.threads[t])
    requires Step(schema, s, t, call) != s
    ensures Lower(schema, Step(schema, s, t, call), s)
  {
    if s.threads[t].Building? {
      BuildLowers(schema, s, t, call);
    } else {
      hide BuildStep, Inv, Left;
      var b := Step(schema, s, t, call);
      OthersStay(schema, s, t, call);
      OneThread(s.threads, b.threads, t);
    }
  }

  /** While a call is outstanding, a thread in a call can take a step that changes the state: the caller itself, or the
      one that holds the lock it waits for. */
  lemma SomeoneGoesOn(schema: Schema, s: State, t: nat) returns (u: nat)
    requires Closed(schema) && Inv(schema, s) && t < |s.threads| && InCall(s.threads[t])
    ensures u < |s.threads| && InCall(s.threads[u]) && forall call :: Step(schema, s, u, call) != s
    ensures u == t || (s.threads[t].Waiting? && s.lock == Held(u))
  {
    u := if s.threads[t].Waiting? && s.lock.Held? then s.lock.thread else t;
    assert ThreadOk(schema, s, s.threads[u]);
    forall call
      ensures Step(schema, s, u, call) != s
    {
      if s.threads[u].Building? {
        BuildLowers(schema, s, u, call);
      } else {
        hide BuildStep;
        assert Step(schema, s, u, call).threads[u] != s.threads[u];
      }
    }
  }

  /* ---- Calls come to their end ---- */

  ghost predicate Continues(schema: Schema, path: seq<State>) {
    path != [] && forall i, j :: 0 <= i < j < |path| && j == i + 1 ==> Next(schema, path[i], path[j])
  }

  lemma ContinuesCons(schema: Schema, s: State, path: seq<State>)
    requires Continues(schema, path) && Next(schema, s, path[0])
    ensures Continues(schema, [s] + path)
  {
    hide Next;
    var more := [s] + path;
    forall i, j | 0 <= i < j < |more| && j == i + 1
      ensures Next(schema, more[i], more[j])
    {
      if i > 0 { assert Next(schema, path[i - 1], path[j - 1]); }
    }
  }

  lemma ContinuesJoin(schema: Schema, a: seq<State>, b: seq<State>)
    requires Continues(schema, a) && Continues(schema, b) && a[|a| - 1] == b[0]
    ensures Continues(schema, a + b[1..])
  {
    hide Next;
    var ab := a + b[1..];
    forall i, j | 0 <= i < j < |ab| && j == i + 1
      ensures Next(schema, ab[i], ab[j])
    {
      if j >= |a| { assert Next(schema, b[i - |a| + 1], b[j - |a| + 1]); }
    }
  }

  lemma CallStays(schema: Schema, s: State, t: nat, call: string)
    requires Closed(schema) && Inv(schema, s) && t < |s.threads| && InCall(s.threads[t])
    ensures var to := Step(schema, s, t, call).threads[t];
      !to.Idle? && to.desc == s.threads[t].desc && (!InCall(to) ==> to.Returned?)
  {
    hide BuildStep;
    var th := s.threads[t];
    assert ThreadOk(schema, s, th);
    if th.Building? { BuildStepThread(schema, s, t, th.desc, th.cache, th.stack); }
  }

  /** An outstanding call returns in some continuation, which no other call has to start or end for. */
  lemma {:induction false} CallEnds(schema: Schema, s: State, t: nat) returns (path: seq<State>)
    requires Closed(schema) && Inv(schema, s) && t < |s.threads| && InCall(s.threads[t])
    ensures Continues(schema, path) && path[0] == s && t < |path[|path| - 1].threads|
    ensures var to := path[|path| - 1].threads[t]; to.Returned? && to.desc == s.threads[t].desc
    decreases AllStepsLeft(s.threads), TypesLeft(schema, s), LinksLeft(schema, s)
  {
    hide Inv, Step, TypesLeft, LinksLeft, AllStepsLeft;
    var u := SomeoneGoesOn(schema, s, t);
    var b := Step(schema, s, u, "");
    StepKeeps(schema, s, u, "");
    StepLowers(schema, s, u, "");
    OthersStay(schema, s, u, "");
    CallStays(schema, s, u, "");
    assert Next(schema, s, b);
    if InCall(b.threads[t]) {
      path := CallEnds(schema, b, t);
    } else {
      path := [b];
    }
    ContinuesCons(schema, s, path);
    path := [s] + path;
  }

  lemma IdleStarts(schema: Schema, s: State, t: nat, d: string) returns (b: State)
    requires Closed(schema) && Inv(schema, s) && t < |s.threads| && s.threads[t].Idle? && d in schema
    ensures Next(schema, s, b) && Inv(schema, b) && t < |b.threads| && b.threads[t] == Start(d)
  {
    b := Step(schema, s, t, d);
    StepKeeps(schema, s, t, d);
  }

  lemma ReturnedIsIdle(schema: Schema, s: State, t: nat) returns (b: State)
    requires Closed(schema) && Inv(schema, s) && t < |s.threads| && s.threads[t].Returned?
    ensures Next(schema, s, b) && Inv(schema, b) && t < |b.threads| && b.threads[t].Idle?
  {
    b := Step(schema, s, t, "");
    StepKeeps(schema, s, t, "");
  }

  // A thread without an outstanding call can call for any type and get it.
  lemma NewCallEnds(schema: Schema, s: State, t: nat, d: string) returns (path: seq<State>)
    requires Closed(schema) && Inv(schema, s) && t < |s.threads| && !InCall(s.threads[t]) && d in schema
    ensures Continues(schema, path) && path[0] == s && t < |path[|path| - 1].threads|
    ensures var to := path[|path| - 1].threads[t]; to.Returned? && to.desc == d
  {
    hide Inv, Next;
    var idle := s;
    if s.threads[t].Returned? { idle := ReturnedIsIdle(schema, s, t); }
    var b := IdleStarts(schema, idle, t, d);
    path := CallEnds(schema, b, t);
    ContinuesCons(schema, idle, path);
    path := [idle] + path;
    if s.threads[t].Returned? {
      ContinuesCons(schema, s, path);
      path := [s] + path;
    }
  }

  lemma RunContinues(schema: Schema, run: seq<State>, path: seq<State>)
    requires IsRun(schema, run) && Continues(schema, path) && path[0] == run[|run| - 1]
    ensures IsRun(schema, run + path[1..])
  {
    ContinuesJoin(schema, run, path);
  }

  /** From every state that any interleaving reaches, whatever the other threads are in the middle of: the outstanding
      call of a thread returns in some continuation of the run. */
  lemma OutstandingCallReturns(schema: Schema, run: seq<State>, t: nat) returns (more: seq<State>)
    requires Closed(schema) && IsRun(schema, run) && t < |run[|run| - 1].threads|
    requires InCall(run[|run| - 1].threads[t])
    ensures IsRun(schema, run + more) && t < |(run + more)[|run + more| - 1].threads|
    ensures var to := (run + more)[|run + more| - 1].threads[t];
      to.Returned? && to.desc == run[|run| - 1].threads[t].desc
  {
    hide Inv, Next, Init;
    RunKeeps(schema, run, |run| - 1);
    var path := CallEnds(schema, run[|run| - 1], t);
    RunContinues(schema, run, path);
    more := path[1..];
  }

  /** And every thread can, once it is out of its call, call for every type of the schema and have the call return. */
  lemma EveryCallReturns(schema: Schema, run: seq<State>, t: nat, d: string) returns (more: seq<State>)
    requires Closed(schema) && IsRun(schema, run) && t < |run[|run| - 1].threads| && d in schema
    ensures IsRun(schema, run + more) && t < |(run + more)[|run + more| - 1].threads|
    ensures var to := (run + more)[|run + more| - 1].threads[t]; to.Returned? && to.desc == d
  {
    assert run != [] && run + [] == run;
    hide Inv, Next, Init, IsRun;
    var first: seq<State> := [];
    if InCall(run[|run| - 1].threads[t]) { first := OutstandingCallReturns(schema, run, t); }
    var now := run + first;
    RunKeeps(schema, now, |now| - 1);
    var path := NewCallEnds(schema, now[|now| - 1], t, d);
    RunContinues(schema, now, path);
    more := first + path[1..];
    assert run + more == now + path[1..];
  }

  /** Without seeds and for any number of threads there is a first state, and from it any thread can get any type. */
  lemma FirstCall(schema: Schema, threads: nat, t: nat, d: string) returns (run: seq<State>)
    requires Closed(schema) && t < threads && d in schema
    ensures IsRun(schema, run) && |run[0].threads| == threads && run[0].objs == []
    ensures t < |run[|run| - 1].threads|
    ensures var to := run[|run| - 1].threads[t]; to.Returned? && to.desc == d
  {
    var first := State([], [map[]], 0, Free, seq(threads, _ => Idle), {0});
    assert IsRun(schema, [first]);
    hide IsRun;
    var more := EveryCallReturns(schema, [first], t, d);
    run := [first] + more;
  }
}
