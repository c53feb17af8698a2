/** The program: set-up, and the worker thread as it changes its fields. */
module ParallelMake {
  import opened Graph
  import opened Worker
  import opened WorkerHistory
  import CycleCheck

  class Make {
    const graph: Graph
    const world: World
    var state: map<Name, State>
    var queue: seq<Name>
    var pending: seq<Name>
    // The rules that were run or found up to date, oldest first.
    var log: seq<Name>
    // The rules whose commands were run.
    var ran: seq<Name>

    function Now(): Snapshot
      reads this
    {
      Snapshot(state, queue, pending, log, ran)
    }

    constructor (graph: Graph, world: World, queue: seq<Name>)
      ensures this.graph == graph && this.world == world
      ensures Now() == Initial(graph, queue)
    {
      this.graph, this.world, this.queue := graph, world, queue;
      state, pending, log, ran := map t | t in graph :: 0, [], [], [];
    }

    /** Looks at the dependencies of `t` one after the other, while changing their states. */
    method ScanDependencies(t: Name) returns (waiting: bool, failed: bool)
      requires WellFormed(graph, Now()) && t in graph && t !in graph[t] && Distinct(graph[t])
      modifies this`state, this`queue
      ensures failed == AnyFailed(old(state), graph[t]) && waiting == AnyUndecided(old(state), graph[t])
      ensures queue == old(queue) + Untouched(old(state), graph[t])
      ensures state == Marked(old(state), graph[t], t, failed)
    {
      var deps := graph[t];
      waiting, failed := false, false;
      for n := 0 to |deps|
        invariant failed == AnyFailed(old(state), deps[..n]) && waiting == AnyUndecided(old(state), deps[..n])
        invariant queue == old(queue) + Untouched(old(state), deps[..n])
        invariant state == Marked(old(state), deps[..n], t, failed)
      {
        var d := deps[n];
        ghost var before := Untouched(old(state), deps[..n]);
        assert old(queue) + before + [d] == old(queue) + (before + [d]);
        NextDependency(old(state), deps, n);
        MarkNext(old(state), deps, n, t, failed, state);
        if state[d] == 2 {
          waiting := true;
        }
        if state[d] == 0 {
          state := state[d := 2];
          waiting := true;
          queue := queue + [d];
        } else if state[d] == -1 {
          state := state[t := -1];
          failed := true;
        }
      }
      assert deps[..|deps|] == deps;
    }

    /** The modification time of the youngest dependency, or -1. */
    method NewestDependency(t: Name) returns (newest: int)
      requires t in graph
      ensures newest == Newest(world, t, graph[t])
    {
      var deps := graph[t];
      newest := -1;
      for n := 0 to |deps|
        invariant newest == Newest(world, t, deps[..n])
      {
        assert deps[..n + 1][..n] == deps[..n];
        var time := world.mtime(t, deps[n]);
        if time > newest {
          newest := time;
        }
      }
      assert deps[..|deps|] == deps;
    }

    /** The commands of a target. */
    method RunRule(t: Name) returns (outcome: State)
      modifies this`ran
      ensures ran == old(ran) + [t] && outcome == if world.runs(t) then 1 else -1
    {
      ran := ran + [t];
      outcome := if world.runs(t) then 1 else -1;
    }

    /** All dependencies are done: the target is run unless it exists, a dependency does, and none is younger. */
    method Decide(t: Name)
      requires t in graph && t in state
      modifies this`state, this`log, this`ran
      ensures state == old(state)[t := if OwnSuccess(graph, world, t) then 1 else -1]
      ensures log == old(log) + [t]
      ensures ran == if && world.mtime(t, t) != -1
                        && (exists d :: d in graph[t] && world.mtime(t, d) > -1)
                        && forall d | d in graph[t] :: world.mtime(t, d) <= world.mtime(t, t)
                     then old(ran) else old(ran) + [t]
    {
      CurrentByNewest(world, t, graph[t]);
      var modified := world.mtime(t, t);
      var outcome: State := 1;
      if modified != -1 {
        var newest := NewestDependency(t);
        if newest == -1 {
          outcome := RunRule(t);
        } else if newest > modified {
          outcome := RunRule(t);
        }
      } else {
        outcome := RunRule(t);
      }
      state := state[t := outcome];
      log := log + [t];
    }

    /** Pending targets are tried again, the youngest first. */
    method Flush()
      modifies this`queue, this`pending
      ensures queue == old(queue) + Reverse(old(pending)) && pending == []
    {
      while pending != []
        invariant queue + Reverse(pending) == old(queue) + Reverse(old(pending))
      {
        queue := queue + [pending[|pending| - 1]];
        pending := pending[..|pending| - 1];
      }
    }

    /** One round of the thread's loop. */
    method Pull()
      requires WellFormed(graph, Now()) && queue != []
      requires queue[0] !in graph[queue[0]] && Distinct(graph[queue[0]])
      modifies this
      ensures Now() == Step(graph, world, old(Now()))
    {
      var t := queue[0];
      queue := queue[1..];
      var waiting, failed := ScanDependencies(t);
      if failed {
        Flush();
        return;
      }
      if waiting {
        pending := pending + [t];
        return;
      }
      NothingTouched(old(state), old(queue[1..]), graph[t]);
      DecideAndFlush(t);
    }

    method DecideAndFlush(t: Name)
      requires t in graph && t in state
      modifies this`state, this`log, this`ran, this`queue, this`pending
      ensures state == old(state)[t := if OwnSuccess(graph, world, t) then 1 else -1]
      ensures log == old(log) + [t] && ran == if Current(world, t, graph[t]) then old(ran) else old(ran) + [t]
      ensures queue == old(queue) + Reverse(old(pending)) && pending == []
    {
      Decide(t);
      Flush();
    }

    ghost predicate Kept(goals: seq<Name>)
      reads this
    {
      && AllDistinct(graph)
      && Sound(graph, world, goals, Now()) && Logged(graph, Now()) && Needed(graph, goals, Now())
      && LogEnabled(graph, world, Now()) && RanUnlessCurrent(graph, world, Now())
    }

    /** How the run from here on ends if nobody stops it. */
    ghost function End(goals: seq<Name>): Snapshot
      requires Kept(goals)
      reads this
    {
      Complete(graph, world, goals, Now())
    }

    /** The thread's loop. It may be told to stop as soon as all goals are decided; until then it never
        finds the queue empty, and it comes to an end. Unless stopped, it ends with the queue empty. */
    method Work(goals: seq<Name>) returns (stopped: bool)
      requires Kept(goals)
      modifies this
      ensures Kept(goals)
      ensures forall t | t in goals :: !Undecided(state[t])
      ensures log <= old(End(goals)).log && (!stopped ==> Now() == old(End(goals)))
    {
      ghost var end := End(goals);
      stopped := false;
      while !stopped && queue != []
        invariant Kept(goals) && End(goals) == end
        invariant stopped ==> forall t | t in goals :: !Undecided(state[t])
        decreases !stopped, Measure(Now()).0, Measure(Now()).1, Measure(Now()).2
      {
        if * {
          Round(goals);
        } else if forall t | t in goals :: !Undecided(state[t]) {
          stopped := true;
        } else {
          Round(goals);
        }
      }
      LogGrows(graph, world, goals, Now());
      if !stopped { NeverStuck(graph, goals, Now()); }
    }

    method Round(goals: seq<Name>)
      requires Kept(goals)
      requires queue != []
      modifies this
      ensures Kept(goals) && End(goals) == old(End(goals))
      ensures Less(Measure(Now()), old(Measure(Now())))
    {
      Scan(graph, goals, Now());
      StepKeepsSound(graph, world, goals, Now());
      StepKeepsLogged(graph, world, Now());
      StepKeepsNeeded(graph, world, goals, Now());
      StepDecreases(graph, world, Now());
      StepLogsEnabled(graph, world, goals, Now());
      StepRuns(graph, world, Now());
      Pull();
    }
  }

  lemma NextDependency(state: map<Name, State>, deps: seq<Name>, n: nat)
    requires n < |deps| && Distinct(deps) && forall d | d in deps :: d in state
    ensures var d, seen, now := deps[n], deps[..n], deps[..n + 1];
            && d !in seen
            && (AnyFailed(state, now) <==> AnyFailed(state, seen) || state[d] == -1)
            && (AnyUndecided(state, now) <==> AnyUndecided(state, seen) || Undecided(state[d]))
            && Untouched(state, now) == Untouched(state, seen) + if state[d] == 0 then [d] else []
  {
    var d, seen, now := deps[n], deps[..n], deps[..n + 1];
    assert now == seen + [d] && now[..n] == seen;
    assert forall x :: x in now <==> x in seen || x == d;
  }

  /** The states while the dependencies of `t` are scanned. */
  function Marked(before: map<Name, State>, deps: seq<Name>, t: Name, failed: bool): map<Name, State> {
    if failed then Touch(before, deps)[t := -1] else Touch(before, deps)
  }

  lemma MarkNext(before: map<Name, State>, deps: seq<Name>, n: nat, t: Name, failed: bool, state: map<Name, State>)
    requires n < |deps| && Distinct(deps) && t in before && t !in deps && deps[n] in before
    requires state == Marked(before, deps[..n], t, failed)
    ensures state.Keys == before.Keys && state[deps[n]] == before[deps[n]]
    ensures before[deps[n]] == 0 ==> state[deps[n] := 2] == Marked(before, deps[..n + 1], t, failed)
    ensures before[deps[n]] == -1 ==> state[t := -1] == Marked(before, deps[..n + 1], t, true)
    ensures before[deps[n]] == 1 || before[deps[n]] == 2 ==> state == Marked(before, deps[..n + 1], t, failed)
  {
    var d, seen, now := deps[n], deps[..n], deps[..n + 1];
    assert now == seen + [d];
    assert forall x :: x in now <==> x in seen || x == d;
    assert t !in now;
    assert Touch(before, now) == if before[d] == 0 then Touch(before, seen)[d := 2] else Touch(before, seen);
  }

  /** What the scan finds and marks, rule by rule. */
  lemma ScanMeans(before: map<Name, State>, deps: seq<Name>, t: Name)
    requires t in before && t !in deps && forall d | d in deps :: d in before
    ensures AnyFailed(before, deps) <==> exists d :: d in deps && before[d] == -1
    ensures AnyUndecided(before, deps) <==> exists d :: d in deps && (before[d] == 0 || before[d] == 2)
    ensures var failed := AnyFailed(before, deps);
            var after := Marked(before, deps, t, failed);
            && after.Keys == before.Keys
            && forall u | u in before :: after[u] == if failed && u == t then -1
                                                     else if u in deps && before[u] == 0 then 2 else before[u]
  {}

  /** The untouched dependencies are taken in order. */
  lemma {:induction false} UntouchedInOrder(state: map<Name, State>, a: seq<Name>, b: seq<Name>)
    requires forall d | d in a + b :: d in state
    ensures Untouched(state, a + b) == Untouched(state, a) + Untouched(state, b)
  {
    if b == [] {
      assert a + b == a;
    } else {
      var init := b[..|b| - 1];
      assert (a + b)[..|a + b| - 1] == a + init;
      UntouchedInOrder(state, a, init);
    }
  }

  lemma NothingTouched(state: map<Name, State>, queue: seq<Name>, deps: seq<Name>)
    requires !AnyUndecided(state, deps) && forall d | d in deps :: d in state
    ensures Touch(state, deps) == state && queue + Untouched(state, deps) == queue
  {
    UndecidedAreNone(state, deps);
    TouchOfDecided(state, deps);
  }

  lemma TouchOfDecided(state: map<Name, State>, deps: seq<Name>)
    requires !AnyUndecided(state, deps)
    ensures Touch(state, deps) == state
  {}

  lemma {:induction false} SelectedGoals(g: Graph, goals: seq<Name>, cyclic: bool)
    requires forall t | t in goals :: t in g
    ensures forall t :: t in CycleCheck.Select(g, goals, cyclic) <==> t in goals && ReachesCycle(g, t) == cyclic
  {
    if goals != [] {
      SelectedGoals(g, goals[..|goals| - 1], cyclic);
      assert forall t :: t in goals <==> t in goals[..|goals| - 1] || t == goals[|goals| - 1];
    }
  }

  /** The goals that lead into no cycle, in their order. */
  ghost function Goals(g: Graph, goals: seq<Name>): (r: seq<Name>)
    requires forall t | t in goals :: t in g
    ensures forall t :: t in r <==> t in goals && !ReachesCycle(g, t)
  {
    SelectedGoals(g, goals, false);
    CycleCheck.Select(g, goals, false)
  }

  /** The whole program with one worker thread. Goals that lead into a cycle are reported; every other goal
      is decided, and rightly. No rule is run before its dependencies or if one of them failed, nothing is run
      that no goal needs, and the commands of a target are not run exactly when it and at least one dependency
      exist and no dependency is younger.
      Unless the thread is stopped early, nothing is run twice exactly when no goal that can be run is asked
      for while it waits for its own turn. */
  method Parmake(g: Graph, w: World, goals: seq<Name>)
    returns (reported: seq<Name>, state: map<Name, State>, order: seq<Name>, ran: seq<Name>, stopped: bool)
    requires Closed(g) && AllDistinct(g) && Distinct(goals) && forall t | t in goals :: t in g
    ensures reported == CycleCheck.Select(g, goals, true)
    ensures forall t :: t in reported <==> t in goals && ReachesCycle(g, t)
    ensures forall t | t in goals && !ReachesCycle(g, t) ::
              t in state && state[t] == if Succeeds(g, w, t) then 1 else -1
    ensures Right(g, w, state)
    ensures DependenciesFirst(g, order) && forall t | t in state && state[t] == 1 :: t in order
    ensures forall t | t in order :: FromGoal(g, Goals(g, goals), t)
    ensures forall t | t in order :: t in g && forall d | d in g[t] :: Succeeds(g, w, d)
    ensures forall t | t in order ::
              multiset(ran)[t] == if && w.mtime(t, t) != -1
                                     && (exists d :: d in g[t] && w.mtime(t, d) > -1)
                                     && forall d | d in g[t] :: w.mtime(t, d) <= w.mtime(t, t)
                                  then 0 else multiset(order)[t]
    ensures forall t | t in ran :: t in order
    ensures order <= Order(g, w, Goals(g, goals)) && (!stopped ==> order == Order(g, w, Goals(g, goals)))
    ensures AsksOnce(g, w, Goals(g, goals)) ==> Distinct(order)
    ensures !stopped && Distinct(order) ==> AsksOnce(g, w, Goals(g, goals))
    ensures Independent(g, Goals(g, goals)) ==> Distinct(order)
  {
    var queue;
    queue, reported := CycleCheck.SetUp(g, goals);
    assert queue == Goals(g, goals);
    SelectedDistinct(g, goals);
    SelectedGoals(g, goals, true);
    state, order, ran, stopped := MakeGoals(g, w, queue);
  }

  /** The thread at work on goals that lead into no cycle. */
  method MakeGoals(g: Graph, w: World, goals: seq<Name>)
    returns (state: map<Name, State>, order: seq<Name>, ran: seq<Name>, stopped: bool)
    requires Closed(g) && AllDistinct(g) && Distinct(goals)
    requires forall t | t in goals :: t in g && !ReachesCycle(g, t)
    ensures forall t | t in goals :: t in state && state[t] == if Succeeds(g, w, t) then 1 else -1
    ensures Right(g, w, state)
    ensures DependenciesFirst(g, order) && forall t | t in state && state[t] == 1 :: t in order
    ensures forall t | t in order :: FromGoal(g, goals, t)
    ensures forall t | t in order :: t in g && forall d | d in g[t] :: Succeeds(g, w, d)
    ensures forall t | t in order ::
              multiset(ran)[t] == if && w.mtime(t, t) != -1
                                     && (exists d :: d in g[t] && w.mtime(t, d) > -1)
                                     && forall d | d in g[t] :: w.mtime(t, d) <= w.mtime(t, t)
                                  then 0 else multiset(order)[t]
    ensures forall t | t in ran :: t in order
    ensures order <= Order(g, w, goals) && (!stopped ==> order == Order(g, w, goals))
    ensures AsksOnce(g, w, goals) ==> Distinct(order)
    ensures !stopped && Distinct(order) ==> AsksOnce(g, w, goals)
    ensures Independent(g, goals) ==> Distinct(order)
  {
    InitialIsSound(g, w, goals);
    var make := new Make(g, w, goals);
    stopped := make.Work(goals);
    state, order, ran := make.state, make.log, make.ran;
    RanMeans(g, w, make.Now());
    RunsOnceIff(g, w, goals);
    PrefixDistinct(order, Order(g, w, goals));
    if Independent(g, goals) { IndependentAskOnce(g, w, goals); }
  }

  lemma PrefixDistinct(a: seq<Name>, b: seq<Name>)
    ensures a <= b && Distinct(b) ==> Distinct(a)
  {}

  lemma RanMeans(g: Graph, w: World, s: Snapshot)
    requires LogEnabled(g, w, s) && RanUnlessCurrent(g, w, s)
    ensures forall t | t in s.log :: t in g && forall d | d in g[t] :: Succeeds(g, w, d)
    ensures forall t | t in s.log ::
              multiset(s.ran)[t] == if && w.mtime(t, t) != -1
                                       && (exists d :: d in g[t] && w.mtime(t, d) > -1)
                                       && forall d | d in g[t] :: w.mtime(t, d) <= w.mtime(t, t)
                                    then 0 else multiset(s.log)[t]
    ensures forall t | t in s.ran :: t in s.log
  {
    forall t | t in s.log ensures t in g && Enabled(g, w, t) && (Current(w, t, g[t]) || !Current(w, t, g[t])) {}
    forall t | t in s.ran ensures t in s.log {
      assert multiset(s.ran)[t] > 0;
    }
  }

  lemma {:induction false} SelectedDistinct(g: Graph, goals: seq<Name>)
    requires Distinct(goals) && forall t | t in goals :: t in g
    ensures Distinct(CycleCheck.Select(g, goals, false))
  {
    if goals != [] {
      SelectedDistinct(g, goals[..|goals| - 1]);
      SelectedGoals(g, goals[..|goals| - 1], false);
    }
  }

  /** What deciding the rules that `t` reaches runs: those whose dependencies all succeed and that are not up to
      date. */
  ghost predicate RunsBelow(g: Graph, w: World, t: Name, u: Name) {
    && u in g && Reaches(g, t, u) && Enabled(g, w, u)
    && !(&& w.mtime(u, u) != -1
         && (exists d :: d in g[u] && w.mtime(u, d) > -1)
         && forall d | d in g[u] :: w.mtime(u, d) <= w.mtime(u, u))
  }

  lemma RunsBelowStep(g: Graph, w: World, t: Name, u: Name)
    requires Closed(g) && t in g
    ensures RunsBelow(g, w, t, u) <==>
            || (u == t && Enabled(g, w, t) && !Current(w, t, g[t]))
            || exists d :: d in g[t] && RunsBelow(g, w, d, u)
  {
    ReachesSelf(g, t);
    if RunsBelow(g, w, t, u) && u != t {
      ReachesByDependency(g, t, u);
    }
    forall d | d in g[t] && RunsBelow(g, w, d, u) ensures Reaches(g, t, u) {
      ReachesThrough(g, t, d, u);
    }
  }

  /** The recursive form: it decides a rule after all its dependencies. `path` is the way to `t`, so that
      the recursion is at most as deep as there are rules. */
  method ParmakeH(g: Graph, w: World, t: Name, ghost path: seq<Name>) returns (res: State, ran: seq<Name>)
    requires Closed(g) && t in g
    requires IsWalk(g, path + [t]) && !ReachesCycle(g, (path + [t])[0])
    ensures res == if Succeeds(g, w, t) then 1 else -1
    ensures forall u :: u in ran <==> RunsBelow(g, w, t, u)
    decreases |g.Keys| - |path|
  {
    var failed := false;
    ran := [];
    var deps := g[t];
    for n := 0 to |deps|
      invariant failed <==> exists i :: 0 <= i < n && !Succeeds(g, w, deps[i])
      invariant forall u :: u in ran <==> exists i :: 0 <= i < n && RunsBelow(g, w, deps[i], u)
    {
      ghost var walk := path + [t];
      DeeperWalk(g, walk, deps[n]);
      var r, more := ParmakeH(g, w, deps[n], walk);
      ran := ran + more;
      if r == -1 {
        failed := true;
      }
    }
    SucceedsByDependencies(g, w, t);
    forall u { RunsBelowStep(g, w, t, u); }
    if failed {
      return -1, ran;
    }
    var make := new Make(g, w, []);
    make.Decide(t);
    res, ran := make.state[t], ran + make.ran;
  }

  lemma DeeperWalk(g: Graph, walk: seq<Name>, d: Name)
    requires Closed(g) && IsWalk(g, walk) && !ReachesCycle(g, walk[0]) && d in g[walk[|walk| - 1]]
    ensures IsWalk(g, walk + [d]) && (walk + [d])[0] == walk[0] && |walk| <= |g.Keys|
  {
    if |walk| > |g.Keys| { LongWalkLoops(g, walk); }
  }

  /** The worker and the recursive form agree on every goal that leads into no cycle. */
  method Agree(g: Graph, w: World, goals: seq<Name>, t: Name) returns (worker: State, recursive: State)
    requires Closed(g) && AllDistinct(g) && Distinct(goals) && forall t' | t' in goals :: t' in g
    requires t in goals && !ReachesCycle(g, t)
    ensures worker == recursive
  {
    var reported, state, order, ran, stopped := Parmake(g, w, goals);
    worker := state[t];
    var runs;
    recursive, runs := ParmakeH(g, w, t, []);
  }
}
