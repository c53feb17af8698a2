/** In which order, and how often, the worker decides rules. */
module WorkerHistory {
  import opened Graph
  import opened Worker

  // ---- Dependencies first ----

  /** Whenever a rule was run or found up to date, all its dependencies had been before it. */
  ghost predicate DependenciesFirst(g: Graph, log: seq<Name>) {
    forall k, d | 0 <= k < |log| && log[k] in g && d in g[log[k]] :: d in log[..k]
  }

  ghost predicate Logged(g: Graph, s: Snapshot) {
    DependenciesFirst(g, s.log) && forall t | t in s.state && s.state[t] == 1 :: t in s.log
  }

  ghost predicate FromGoal(g: Graph, goals: seq<Name>, t: Name) { exists a :: a in goals && Reaches(g, a, t) }

  /** Only what some goal needs is queued or run. */
  ghost predicate Needed(g: Graph, goals: seq<Name>, s: Snapshot) {
    forall t | Waits(s, t) || t in s.log :: FromGoal(g, goals, t)
  }

  lemma Append(g: Graph, log: seq<Name>, t: Name)
    requires DependenciesFirst(g, log) && t in g && forall d | d in g[t] :: d in log
    ensures DependenciesFirst(g, log + [t])
  {
    var log' := log + [t];
    forall k, d | 0 <= k < |log'| && log'[k] in g && d in g[log'[k]] ensures d in log'[..k] {
      if k < |log| {
        assert log'[..k] == log[..k] && log[k] == log'[k];
      } else {
        assert log'[..k] == log;
      }
    }
  }

  lemma StepKeepsLogged(g: Graph, w: World, s: Snapshot)
    requires WellFormed(g, s) && s.queue != [] && Logged(g, s)
    ensures Logged(g, Step(g, w, s))
  {
    var t := s.queue[0];
    if !AnyFailed(s.state, g[t]) && !AnyUndecided(s.state, g[t]) {
      forall d | d in g[t] ensures d in s.log {
        assert d in s.state && s.state[d] == 1;
      }
      Append(g, s.log, t);
    }
  }

  lemma StepKeepsNeeded(g: Graph, w: World, goals: seq<Name>, s: Snapshot)
    requires WellFormed(g, s) && s.queue != [] && Needed(g, goals, s)
    ensures Needed(g, goals, Step(g, w, s))
  {
    var t, s' := s.queue[0], Step(g, w, s);
    assert Waits(s, t);
    UntouchedElements(s.state, g[t]);
    ReverseElements(s.pending);
    forall x | Waits(s', x) || x in s'.log ensures FromGoal(g, goals, x) {
      if !Waits(s, x) && x !in s.log {
        var a :| a in goals && Reaches(g, a, t);
        ReachesFurther(g, a, t, x);
      }
    }
  }

  /** The goals that lead into no cycle are a sound start. */
  lemma InitialIsSound(g: Graph, w: World, queue: seq<Name>)
    requires Closed(g) && forall t | t in queue :: t in g && !ReachesCycle(g, t)
    ensures Sound(g, w, queue, Initial(g, queue)) && Logged(g, Initial(g, queue))
    ensures Needed(g, queue, Initial(g, queue))
  {
    forall t | t in queue ensures FromGoal(g, queue, t) {
      ReachesSelf(g, t);
    }
  }

  // ---- The whole run ----

  /** The worker from `s` on, until its queue is empty. */
  ghost function Complete(g: Graph, w: World, goals: seq<Name>, s: Snapshot): Snapshot
    requires Sound(g, w, goals, s) && AllDistinct(g)
    decreases Measure(s).0, Measure(s).1, Measure(s).2
  {
    if s.queue == [] then s
    else
      StepKeepsSound(g, w, goals, s);
      StepDecreases(g, w, s);
      Complete(g, w, goals, Step(g, w, s))
  }

  /** The rules that the pulls of that run ask for: untouched dependencies of their targets. */
  ghost function Asked(g: Graph, w: World, goals: seq<Name>, s: Snapshot): seq<Name>
    requires Sound(g, w, goals, s) && AllDistinct(g)
    decreases Measure(s).0, Measure(s).1, Measure(s).2
  {
    if s.queue == [] then []
    else
      StepKeepsSound(g, w, goals, s);
      StepDecreases(g, w, s);
      Untouched(s.state, g[s.queue[0]]) + Asked(g, w, goals, Step(g, w, s))
  }

  /** The targets that a pull fails for a failed dependency. */
  function FailsNow(g: Graph, s: Snapshot): seq<Name>
    requires WellFormed(g, s) && s.queue != []
  {
    if AnyFailed(s.state, g[s.queue[0]]) then [s.queue[0]] else []
  }

  ghost function Failures(g: Graph, w: World, goals: seq<Name>, s: Snapshot): seq<Name>
    requires Sound(g, w, goals, s) && AllDistinct(g)
    decreases Measure(s).0, Measure(s).1, Measure(s).2
  {
    if s.queue == [] then []
    else
      StepKeepsSound(g, w, goals, s);
      StepDecreases(g, w, s);
      FailsNow(g, s) + Failures(g, w, goals, Step(g, w, s))
  }

  // ---- How often a rule is decided ----

  /** Every place that a rule has: queued, pending, or decided without a failed dependency. */
  function Places(s: Snapshot): multiset<Name> { multiset(s.queue) + multiset(s.pending) + multiset(s.log) }

  lemma {:induction false} ReverseSame(s: seq<Name>)
    ensures multiset(Reverse(s)) == multiset(s)
  {
    if s != [] {
      ReverseSame(s[..|s| - 1]);
      assert s == s[..|s| - 1] + [s[|s| - 1]];
    }
  }

  /** A pull moves its target from one place to another or fails it, and gives a place to what it asks for. */
  lemma StepCounts(g: Graph, w: World, goals: seq<Name>, s: Snapshot)
    requires Placed(g, goals, s) && s.queue != []
    ensures Places(Step(g, w, s)) + multiset(FailsNow(g, s))
         == Places(s) + multiset(Untouched(s.state, g[s.queue[0]]))
  {
    var t, rest, asks := s.queue[0], s.queue[1..], Untouched(s.state, g[s.queue[0]]);
    assert s.queue == [t] + rest;
    ReverseSame(s.pending);
    Moved(t, rest, asks, Reverse(s.pending), s.pending, s.log);
    if AnyFailed(s.state, g[t]) {
      assert FailsNow(g, s) == [t];
    } else {
      assert FailsNow(g, s) == [];
      if !AnyUndecided(s.state, g[t]) { UndecidedAreNone(s.state, g[t]); }
    }
  }

  /** The three ways in which a target moves. */
  lemma Moved(t: Name, rest: seq<Name>, asks: seq<Name>, flushed: seq<Name>, pending: seq<Name>, log: seq<Name>)
    requires multiset(flushed) == multiset(pending)
    ensures var before := multiset([t] + rest) + multiset(pending) + multiset(log);
            && multiset(rest + asks + flushed) + multiset(log) + multiset([t]) == before + multiset(asks)
            && multiset(rest + asks) + multiset(pending + [t]) + multiset(log) == before + multiset(asks)
            && multiset(rest + flushed) + multiset(log + [t]) == before
  {}

  lemma Balance(log: multiset<Name>, places: multiset<Name>, places': multiset<Name>, failed: seq<Name>,
                failures: seq<Name>, asks: seq<Name>, asked: seq<Name>)
    requires places' + multiset(failed) == places + multiset(asks)
    requires log + multiset(failures) == places' + multiset(asked)
    ensures log + multiset(failed + failures) == places + multiset(asks + asked)
  {
    var f, f', a, a' := multiset(failed), multiset(failures), multiset(asks), multiset(asked);
    assert log + (f + f') == (log + f') + f;
    assert (places' + a') + f == (places' + f) + a';
    assert (places + a) + a' == places + (a + a');
  }

  lemma {:induction false} RunCounts(g: Graph, w: World, goals: seq<Name>, s: Snapshot)
    requires Sound(g, w, goals, s) && AllDistinct(g)
    ensures multiset(Complete(g, w, goals, s).log) + multiset(Failures(g, w, goals, s))
         == Places(s) + multiset(Asked(g, w, goals, s))
    decreases Measure(s).0, Measure(s).1, Measure(s).2
  {
    if s.queue == [] {
      NeverStuck(g, goals, s);
    } else {
      StepKeepsSound(g, w, goals, s);
      StepDecreases(g, w, s);
      StepCounts(g, w, goals, s);
      RunCounts(g, w, goals, Step(g, w, s));
      var s' := Step(g, w, s);
      Balance(multiset(Complete(g, w, goals, s').log), Places(s), Places(s'), FailsNow(g, s),
              Failures(g, w, goals, s'), Untouched(s.state, g[s.queue[0]]), Asked(g, w, goals, s'));
    }
  }

  /** What was touched is never asked for again. */
  lemma {:induction false} AskedWereUntouched(g: Graph, w: World, goals: seq<Name>, s: Snapshot)
    requires Sound(g, w, goals, s) && AllDistinct(g)
    ensures forall d | d in Asked(g, w, goals, s) :: d in s.state && s.state[d] == 0
    ensures Distinct(Asked(g, w, goals, s))
    decreases Measure(s).0, Measure(s).1, Measure(s).2
  {
    if s.queue != [] {
      var now := Untouched(s.state, g[s.queue[0]]);
      StepKeepsSound(g, w, goals, s);
      StepDecreases(g, w, s);
      AskedWereUntouched(g, w, goals, Step(g, w, s));
      UntouchedElements(s.state, g[s.queue[0]]);
      StillUntouched(g, w, s);
      UntouchedDistinct(s.state, g[s.queue[0]]);
      DistinctConcat(now, Asked(g, w, goals, Step(g, w, s)));
    }
  }

  /** What is untouched after a pull was so before, and the pull did not ask for it. */
  lemma StillUntouched(g: Graph, w: World, s: Snapshot)
    requires WellFormed(g, s) && s.queue != []
    ensures forall d | d in Step(g, w, s).state && Step(g, w, s).state[d] == 0 ::
              d in s.state && s.state[d] == 0 && d !in Untouched(s.state, g[s.queue[0]])
  {
    UntouchedElements(s.state, g[s.queue[0]]);
  }

  lemma {:induction false} UntouchedDistinct(state: map<Name, State>, deps: seq<Name>)
    requires Distinct(deps) && forall d | d in deps :: d in state
    ensures Distinct(Untouched(state, deps))
  {
    if deps != [] {
      var init := deps[..|deps| - 1];
      UntouchedDistinct(state, init);
      UntouchedElements(state, init);
    }
  }

  lemma DistinctConcat(a: seq<Name>, b: seq<Name>)
    requires Distinct(a) && Distinct(b) && forall x | x in a :: x !in b
    ensures Distinct(a + b)
  {
    forall i, j | 0 <= i < j < |a + b| ensures (a + b)[i] != (a + b)[j] {
      if i < |a| <= j { assert a[i] in a && b[j - |a|] in b; }
    }
  }

  lemma {:induction false} DistinctCounts(s: seq<Name>)
    ensures Distinct(s) <==> forall d :: multiset(s)[d] == if d in s then 1 else 0
  {
    if s != [] {
      var init, last := s[..|s| - 1], s[|s| - 1];
      assert s == init + [last];
      DistinctCounts(init);
      if Distinct(s) {
        assert last !in init;
      } else if Distinct(init) {
        assert last in init;
        assert multiset(s)[last] == 2;
      } else {
        var d :| multiset(init)[d] != if d in init then 1 else 0;
        assert multiset(init)[d] > 1;
        assert multiset(s)[d] > 1;
      }
    }
  }

  /** Whether the commands of a rule can be reached: all its dependencies succeed. */
  ghost predicate Enabled(g: Graph, w: World, t: Name)
    requires t in g
  {
    forall d | d in g[t] :: Succeeds(g, w, d)
  }

  /** Only rules whose dependencies all succeed are run or found up to date. */
  ghost predicate LogEnabled(g: Graph, w: World, s: Snapshot) { forall t | t in s.log :: t in g && Enabled(g, w, t) }

  lemma StepLogsEnabled(g: Graph, w: World, goals: seq<Name>, s: Snapshot)
    requires Sound(g, w, goals, s) && s.queue != [] && LogEnabled(g, w, s)
    ensures LogEnabled(g, w, Step(g, w, s))
  {
    assert Waits(s, s.queue[0]);
  }

  lemma {:induction false} LogsEnabled(g: Graph, w: World, goals: seq<Name>, s: Snapshot)
    requires Sound(g, w, goals, s) && AllDistinct(g) && LogEnabled(g, w, s)
    ensures LogEnabled(g, w, Complete(g, w, goals, s))
    ensures forall t | t in Failures(g, w, goals, s) :: t in g && !Enabled(g, w, t)
    decreases Measure(s).0, Measure(s).1, Measure(s).2
  {
    if s.queue != [] {
      StepKeepsSound(g, w, goals, s);
      StepDecreases(g, w, s);
      LogsEnabled(g, w, goals, Step(g, w, s));
    }
  }

  /** Of the rules in the log exactly those that are not up to date are run, as often as they are there. */
  ghost predicate RanUnlessCurrent(g: Graph, w: World, s: Snapshot) {
    forall t :: multiset(s.ran)[t] == if t in g && Current(w, t, g[t]) then 0 else multiset(s.log)[t]
  }

  lemma StepRuns(g: Graph, w: World, s: Snapshot)
    requires WellFormed(g, s) && s.queue != [] && RanUnlessCurrent(g, w, s)
    ensures RanUnlessCurrent(g, w, Step(g, w, s))
  {}

  lemma {:induction false} CompleteRuns(g: Graph, w: World, goals: seq<Name>, s: Snapshot)
    requires Sound(g, w, goals, s) && AllDistinct(g) && RanUnlessCurrent(g, w, s)
    ensures RanUnlessCurrent(g, w, Complete(g, w, goals, s))
    decreases Measure(s).0, Measure(s).1, Measure(s).2
  {
    if s.queue != [] {
      StepKeepsSound(g, w, goals, s);
      StepDecreases(g, w, s);
      StepRuns(g, w, s);
      CompleteRuns(g, w, goals, Step(g, w, s));
    }
  }

  /** Every rule is decided once for being a goal and once for being asked for while untouched, each time with
      the same outcome: it fails for its dependencies, or it is run or found up to date. */
  lemma EndCounts(g: Graph, w: World, goals: seq<Name>)
    requires Closed(g) && AllDistinct(g) && Distinct(goals)
    requires forall t | t in goals :: t in g && !ReachesCycle(g, t)
    ensures Sound(g, w, goals, Initial(g, goals))
    ensures var s := Initial(g, goals);
            var asked, log, failed := Asked(g, w, goals, s), Complete(g, w, goals, s).log, Failures(g, w, goals, s);
            forall t | t in g ::
              var times := (if t in goals then 1 else 0) + if t in asked then 1 else 0;
              && multiset(log)[t] == (if Enabled(g, w, t) then times else 0)
              && multiset(failed)[t] == if Enabled(g, w, t) then 0 else times
  {
    var s := Initial(g, goals);
    InitialIsSound(g, w, goals);
    RunCounts(g, w, goals, s);
    AskedWereUntouched(g, w, goals, s);
    LogsEnabled(g, w, goals, s);
    CountsOf(Complete(g, w, goals, s).log, Failures(g, w, goals, s), goals, Asked(g, w, goals, s));
  }

  lemma CountsOf(log: seq<Name>, failed: seq<Name>, goals: seq<Name>, asked: seq<Name>)
    requires multiset(log) + multiset(failed) == multiset(goals) + multiset(asked)
    requires Distinct(goals) && Distinct(asked)
    ensures forall t :: multiset(log)[t] + multiset(failed)[t]
                     == (if t in goals then 1 else 0) + if t in asked then 1 else 0
  {
    DistinctCounts(goals);
    DistinctCounts(asked);
    forall t
      ensures multiset(log)[t] + multiset(failed)[t] == (if t in goals then 1 else 0) + if t in asked then 1 else 0
    {
      assert multiset(log)[t] + multiset(failed)[t] == (multiset(log) + multiset(failed))[t];
    }
  }

  /** No goal whose commands can be reached is asked for while it still waits for its own turn. */
  ghost predicate AsksOnce(g: Graph, w: World, goals: seq<Name>)
    requires Closed(g) && AllDistinct(g) && forall t | t in goals :: t in g && !ReachesCycle(g, t)
  {
    InitialIsSound(g, w, goals);
    forall t | t in goals && t in Asked(g, w, goals, Initial(g, goals)) :: !Enabled(g, w, t)
  }

  /** The rules run or found up to date in the whole run, in order. */
  ghost function Order(g: Graph, w: World, goals: seq<Name>): seq<Name>
    requires Closed(g) && AllDistinct(g) && forall t | t in goals :: t in g && !ReachesCycle(g, t)
  {
    InitialIsSound(g, w, goals);
    Complete(g, w, goals, Initial(g, goals)).log
  }

  /** Exactly then no rule is run twice. */
  lemma RunsOnceIff(g: Graph, w: World, goals: seq<Name>)
    requires Closed(g) && AllDistinct(g) && Distinct(goals)
    requires forall t | t in goals :: t in g && !ReachesCycle(g, t)
    ensures Distinct(Order(g, w, goals)) <==> AsksOnce(g, w, goals)
  {
    var log := Order(g, w, goals);
    EndCounts(g, w, goals);
    LogsEnabled(g, w, goals, Initial(g, goals));
    DistinctCounts(log);
    if !AsksOnce(g, w, goals) {
      var t :| t in goals && t in Asked(g, w, goals, Initial(g, goals)) && Enabled(g, w, t);
      assert multiset(log)[t] == 2;
    }
  }

  lemma {:induction false} LogGrows(g: Graph, w: World, goals: seq<Name>, s: Snapshot)
    requires Sound(g, w, goals, s) && AllDistinct(g)
    ensures s.log <= Complete(g, w, goals, s).log
    decreases Measure(s).0, Measure(s).1, Measure(s).2
  {
    if s.queue != [] {
      StepKeepsSound(g, w, goals, s);
      StepDecreases(g, w, s);
      LogGrows(g, w, goals, Step(g, w, s));
    }
  }

  // ---- Independent goals ----

  /** No goal is needed for another goal. A single goal always qualifies. */
  ghost predicate Independent(g: Graph, goals: seq<Name>) {
    Distinct(goals) && forall a, b | a in goals && b in goals && a != b :: !Reaches(g, a, b)
  }

  lemma DependencyIsNoGoal(g: Graph, goals: seq<Name>, t: Name, d: Name)
    requires Closed(g) && t in g && d in g[t] && Independent(g, goals) && FromGoal(g, goals, t)
    requires !ReachesCycle(g, t)
    ensures d !in goals && FromGoal(g, goals, d)
  {
    var a :| a in goals && Reaches(g, a, t);
    ReachesFurther(g, a, t, d);
    if d in goals {
      assert a == d;
      MutualReachLoops(g, d, t);
      CycleFromDependency(g, t, d);
    }
  }

  /** Then no pull asks for a goal. */
  lemma {:induction false} IndependentNotAsked(g: Graph, w: World, goals: seq<Name>, s: Snapshot)
    requires Sound(g, w, goals, s) && AllDistinct(g) && Needed(g, goals, s) && Independent(g, goals)
    ensures forall d | d in Asked(g, w, goals, s) :: d !in goals
    decreases Measure(s).0, Measure(s).1, Measure(s).2
  {
    if s.queue != [] {
      var t := s.queue[0];
      StepKeepsSound(g, w, goals, s);
      StepDecreases(g, w, s);
      StepKeepsNeeded(g, w, goals, s);
      IndependentNotAsked(g, w, goals, Step(g, w, s));
      assert Waits(s, t);
      UntouchedElements(s.state, g[t]);
      forall d | d in g[t] { DependencyIsNoGoal(g, goals, t, d); }
    }
  }

  lemma IndependentAskOnce(g: Graph, w: World, goals: seq<Name>)
    requires Closed(g) && AllDistinct(g) && Independent(g, goals)
    requires forall t | t in goals :: t in g && !ReachesCycle(g, t)
    ensures AsksOnce(g, w, goals)
  {
    InitialIsSound(g, w, goals);
    IndependentNotAsked(g, w, goals, Initial(g, goals));
  }

  // ---- Two goals, one needed for the other ----

  ghost predicate OneNeedsOther(g: Graph, a: Name, b: Name) {
    a != b && g.Keys == {a, b} && g[a] == [b] && g[b] == []
  }

  lemma NoCycle(g: Graph, a: Name, b: Name)
    requires OneNeedsOther(g, a, b)
    ensures Closed(g) && AllDistinct(g) && !ReachesCycle(g, a) && !ReachesCycle(g, b)
  {
    if ReachesCycle(g, b) {
      var d := CycleThroughDependency(g, b);
    }
    if ReachesCycle(g, a) {
      var d := CycleThroughDependency(g, a);
    }
  }

  lemma AskedFirst(g: Graph, w: World, goals: seq<Name>, s: Snapshot, d: Name)
    requires Sound(g, w, goals, s) && AllDistinct(g) && s.queue != [] && d in g[s.queue[0]] && s.state[d] == 0
    ensures d in Asked(g, w, goals, s)
  {
    UntouchedElements(s.state, g[s.queue[0]]);
  }

  /** A target without dependencies is decided at once. */
  lemma LeafNotAsked(g: Graph, w: World, goals: seq<Name>, s: Snapshot)
    requires Sound(g, w, goals, s) && AllDistinct(g) && s.queue != [] && g[s.queue[0]] == []
    ensures s.queue[0] !in Asked(g, w, goals, s)
  {
    StepKeepsSound(g, w, goals, s);
    StepDecreases(g, w, s);
    AskedWereUntouched(g, w, goals, Step(g, w, s));
  }

  /** An enabled goal that the first pull asks for is run twice. */
  lemma AskedAtOnce(g: Graph, w: World, goals: seq<Name>, b: Name)
    requires Closed(g) && AllDistinct(g) && Distinct(goals) && goals != [] && b in goals
    requires forall t | t in goals :: t in g && !ReachesCycle(g, t)
    requires b in g[goals[0]] && Enabled(g, w, b)
    ensures multiset(Order(g, w, goals))[b] == 2
  {
    InitialIsSound(g, w, goals);
    AskedFirst(g, w, goals, Initial(g, goals), b);
    EndCounts(g, w, goals);
  }

  /** Queued behind the goal that needs it, a goal is asked for while it waits, and so it is run twice. */
  lemma RunsTwice(g: Graph, w: World, goals: seq<Name>, a: Name, b: Name)
    requires OneNeedsOther(g, a, b) && goals == [a, b]
    ensures Closed(g) && AllDistinct(g) && !ReachesCycle(g, a) && !ReachesCycle(g, b)
    ensures multiset(Order(g, w, goals))[b] == 2
  {
    NoCycle(g, a, b);
    assert b in g[a] && goals[1] == b;
    AskedAtOnce(g, w, goals, b);
  }

  lemma NoneOfTwo(s: seq<Name>, asked: seq<Name>)
    requires |s| == 2 && s[0] !in asked && s[1] !in asked
    ensures forall t | t in s :: t !in asked
  {}

  /** A first goal without dependencies and goals that nothing depends on are not asked for. */
  lemma LeafFirst(g: Graph, w: World, goals: seq<Name>, a: Name)
    requires Closed(g) && AllDistinct(g) && |goals| == 2 && goals[1] == a
    requires forall t | t in goals :: t in g && !ReachesCycle(g, t)
    requires g[goals[0]] == [] && forall t | t in g :: a !in g[t]
    ensures AsksOnce(g, w, goals)
  {
    InitialIsSound(g, w, goals);
    LeafNotAsked(g, w, goals, Initial(g, goals));
    NeverAsked(g, w, goals, Initial(g, goals), a);
    NoneOfTwo(goals, Asked(g, w, goals, Initial(g, goals)));
  }

  /** Queued in front of it, it is not. */
  lemma RunsOnce(g: Graph, w: World, goals: seq<Name>, a: Name, b: Name)
    requires OneNeedsOther(g, a, b) && goals == [b, a]
    ensures Closed(g) && AllDistinct(g) && !ReachesCycle(g, a) && !ReachesCycle(g, b)
    ensures AsksOnce(g, w, goals)
  {
    NoCycle(g, a, b);
    LeafFirst(g, w, goals, a);
  }

  /** What no rule depends on is never asked for. */
  lemma {:induction false} NeverAsked(g: Graph, w: World, goals: seq<Name>, s: Snapshot, a: Name)
    requires Sound(g, w, goals, s) && AllDistinct(g) && forall t | t in g :: a !in g[t]
    ensures a !in Asked(g, w, goals, s)
    decreases Measure(s).0, Measure(s).1, Measure(s).2
  {
    if s.queue != [] {
      StepKeepsSound(g, w, goals, s);
      StepDecreases(g, w, s);
      NeverAsked(g, w, goals, Step(g, w, s), a);
      UntouchedElements(s.state, g[s.queue[0]]);
    }
  }
}
