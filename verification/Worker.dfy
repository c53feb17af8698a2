/** The worker of parallel make, run by one thread: a queue of targets, a list of targets that wait for
    dependencies, and a state for every rule. */
module Worker {
  import opened Graph

  /** 0: untouched; 2: waiting; 1: done; -1: failed. */
  type State = s: int | s == 0 || s == 1 || s == 2 || s == -1

  /** What the worker asks of the world. `mtime(t, f)` is the modification time of file `f` when target
      `t` is decided, or -1; `runs(t)` tells whether the commands of `t` all succeed. */
  datatype World = World(mtime: (Name, Name) -> int, runs: Name -> bool)

  /** The newest of -1 and the modification times of `deps`. */
  function Newest(w: World, t: Name, deps: seq<Name>): (newest: int)
    ensures newest >= -1 && forall d | d in deps :: w.mtime(t, d) <= newest
    ensures newest == -1 || exists d :: d in deps && w.mtime(t, d) == newest
  {
    if deps == [] then -1
    else
      var rest := Newest(w, t, deps[..|deps| - 1]);
      var last := w.mtime(t, deps[|deps| - 1]);
      assert forall d | d in deps :: d in deps[..|deps| - 1] || d == deps[|deps| - 1];
      if last > rest then last else rest
  }

  /** Up to date: the target exists, at least one dependency does, and none is younger. */
  predicate Current(w: World, t: Name, deps: seq<Name>) {
    && w.mtime(t, t) != -1
    && (exists d :: d in deps && w.mtime(t, d) > -1)
    && forall d | d in deps :: w.mtime(t, d) <= w.mtime(t, t)
  }

  lemma CurrentByNewest(w: World, t: Name, deps: seq<Name>)
    ensures Current(w, t, deps) <==>
            w.mtime(t, t) != -1 && Newest(w, t, deps) != -1 && Newest(w, t, deps) <= w.mtime(t, t)
  {}

  /** The target is up to date, or its commands succeed. */
  predicate OwnSuccess(g: Graph, w: World, t: Name)
    requires t in g
  {
    Current(w, t, g[t]) || w.runs(t)
  }

  /** The specification of an outcome: the rule and everything that it depends on succeed. */
  ghost predicate Succeeds(g: Graph, w: World, t: Name) {
    forall u | u in g && Reaches(g, t, u) :: OwnSuccess(g, w, u)
  }

  /** In terms of times and commands alone. */
  lemma SucceedsMeans(g: Graph, w: World, t: Name)
    ensures Succeeds(g, w, t) <==>
            forall u | u in g && Reaches(g, t, u) ::
              || w.runs(u)
              || (&& w.mtime(u, u) != -1
                  && (exists d :: d in g[u] && w.mtime(u, d) > -1)
                  && forall d | d in g[u] :: w.mtime(u, d) <= w.mtime(u, u))
  {
    if Succeeds(g, w, t) {
      forall u | u in g && Reaches(g, t, u) && !w.runs(u) ensures Current(w, u, g[u]) {
        assert OwnSuccess(g, w, u);
      }
    }
  }

  lemma SucceedsByDependencies(g: Graph, w: World, t: Name)
    requires Closed(g) && t in g
    ensures Succeeds(g, w, t) <==> OwnSuccess(g, w, t) && forall d | d in g[t] :: Succeeds(g, w, d)
  {
    ReachesSelf(g, t);
    forall d, u | d in g[t] && u in g && Reaches(g, d, u) ensures Reaches(g, t, u) {
      ReachesThrough(g, t, d, u);
    }
    forall u | u in g && Reaches(g, t, u) && u != t ensures exists d :: d in g[t] && Reaches(g, d, u) {
      ReachesByDependency(g, t, u);
    }
  }

  // ---- One pull from the queue ----

  /** `log` lists the rules decided by running them or finding them up to date, oldest first, and `ran` those
      whose commands were run. */
  datatype Snapshot = Snapshot(state: map<Name, State>, queue: seq<Name>, pending: seq<Name>, log: seq<Name>,
                               ran: seq<Name>)

  predicate Undecided(s: State) { s == 0 || s == 2 }

  function AskedFor(s: State): State { if s == 0 then 2 else s }

  /** Dependencies nobody asked for yet become waiting, and are queued in order. */
  function Touch(state: map<Name, State>, deps: seq<Name>): map<Name, State> {
    map v | v in state :: if v in deps then AskedFor(state[v]) else state[v]
  }

  function Untouched(state: map<Name, State>, deps: seq<Name>): seq<Name>
    requires forall d | d in deps :: d in state
  {
    if deps == [] then []
    else Untouched(state, deps[..|deps| - 1])
         + if state[deps[|deps| - 1]] == 0 then [deps[|deps| - 1]] else []
  }

  function Reverse(s: seq<Name>): (r: seq<Name>)
    ensures |r| == |s| && forall k | 0 <= k < |s| :: r[k] == s[|s| - 1 - k]
  {
    if s == [] then [] else [s[|s| - 1]] + Reverse(s[..|s| - 1])
  }

  predicate AnyFailed(state: map<Name, State>, deps: seq<Name>) {
    exists d | d in deps :: d in state && state[d] == -1
  }

  predicate AnyUndecided(state: map<Name, State>, deps: seq<Name>) {
    exists d | d in deps :: d in state && Undecided(state[d])
  }

  predicate WellFormed(g: Graph, s: Snapshot) {
    Closed(g) && s.state.Keys == g.Keys && forall t | t in s.queue :: t in g
  }

  function Step(g: Graph, w: World, s: Snapshot): Snapshot
    requires WellFormed(g, s) && s.queue != []
  {
    var t, rest := s.queue[0], s.queue[1..];
    var pushed := rest + Untouched(s.state, g[t]);
    if AnyFailed(s.state, g[t]) then
      Snapshot(Touch(s.state, g[t])[t := -1], pushed + Reverse(s.pending), [], s.log, s.ran)
    else if AnyUndecided(s.state, g[t]) then
      Snapshot(Touch(s.state, g[t]), pushed, s.pending + [t], s.log, s.ran)
    else
      Snapshot(s.state[t := if OwnSuccess(g, w, t) then 1 else -1], rest + Reverse(s.pending), [], s.log + [t],
               if Current(w, t, g[t]) then s.ran else s.ran + [t])
  }

  predicate AllDistinct(g: Graph) { forall t | t in g :: Distinct(g[t]) }

  function Initial(g: Graph, queue: seq<Name>): Snapshot { Snapshot(map t | t in g :: 0, queue, [], [], []) }

  // ---- What every pull keeps ----

  ghost predicate Waits(s: Snapshot, t: Name) { t in s.queue || t in s.pending }

  /** A waiting rule is queued or pending, and an undecided goal too; a pending rule has a waiting
      dependency. */
  ghost predicate Placed(g: Graph, goals: seq<Name>, s: Snapshot) {
    && WellFormed(g, s)
    && (forall t | Waits(s, t) :: t in g && !ReachesCycle(g, t))
    && (forall t | t in g && s.state[t] == 2 :: Waits(s, t))
    && (forall t | t in goals :: t in g && (Undecided(s.state[t]) ==> Waits(s, t)))
    && (forall t | t in s.pending :: Blocked(g, s, t))
  }

  /** A decided rule is decided rightly. */
  ghost predicate Right(g: Graph, w: World, state: map<Name, State>) {
    && (forall t | t in g && t in state && state[t] == 1 :: Succeeds(g, w, t))
    && (forall t | t in g && t in state && state[t] == -1 :: !Succeeds(g, w, t))
  }

  ghost predicate Sound(g: Graph, w: World, goals: seq<Name>, s: Snapshot) {
    Placed(g, goals, s) && Right(g, w, s.state)
  }

  ghost predicate Blocked(g: Graph, s: Snapshot, t: Name)
    requires s.state.Keys == g.Keys
  {
    t in g && exists d :: d in g[t] && d in g && s.state[d] == 2
  }

  lemma {:induction false} UntouchedElements(state: map<Name, State>, deps: seq<Name>)
    requires forall d | d in deps :: d in state
    ensures forall d :: d in Untouched(state, deps) <==> d in deps && state[d] == 0
  {
    if deps != [] {
      UntouchedElements(state, deps[..|deps| - 1]);
      assert forall d :: d in deps <==> d in deps[..|deps| - 1] || d == deps[|deps| - 1];
    }
  }

  lemma {:induction false} ReverseElements(s: seq<Name>)
    ensures |Reverse(s)| == |s| && forall x :: x in Reverse(s) <==> x in s
  {
    if s != [] {
      ReverseElements(s[..|s| - 1]);
      assert forall x :: x in s <==> x in s[..|s| - 1] || x == s[|s| - 1];
    }
  }

  /** What the code reads when it scans the dependencies of the target it pulled. */
  ghost predicate Scanned(g: Graph, s: Snapshot, t: Name, pushed: seq<Name>, flushed: seq<Name>) {
    && t in g && t !in g[t] && s.queue != [] && s.queue[0] == t && s.state.Keys == g.Keys
    && (forall d | d in g[t] :: d in g && !ReachesCycle(g, d))
    && (forall d :: d in pushed <==> (d in g[t] && d in g && s.state[d] == 0) || d in s.queue[1..])
    && (forall x :: x in s.queue <==> x == t || x in s.queue[1..])
    && (forall x :: x in flushed <==> x in s.pending)
  }

  lemma Scan(g: Graph, goals: seq<Name>, s: Snapshot)
    requires Placed(g, goals, s) && s.queue != []
    ensures var t := s.queue[0];
            Scanned(g, s, t, s.queue[1..] + Untouched(s.state, g[t]), Reverse(s.pending))
  {
    var t := s.queue[0];
    assert Waits(s, t);
    UntouchedElements(s.state, g[t]);
    ReverseElements(s.pending);
    if t in g[t] {
      ReachesSelf(g, t);
      MutualReachLoops(g, t, t);
    }
    assert s.queue == [t] + s.queue[1..];
    forall d | d in g[t] ensures d in g && !ReachesCycle(g, d) {
      if ReachesCycle(g, d) { CycleFromDependency(g, t, d); }
    }
  }

  /** The target leaves, and every pending target is queued again. */
  lemma LeavingKeeps(g: Graph, goals: seq<Name>, s: Snapshot, t: Name, pushed: seq<Name>, flushed: seq<Name>,
                     s': Snapshot)
    requires Placed(g, goals, s) && Scanned(g, s, t, pushed, flushed)
    requires s'.state.Keys == g.Keys && s'.pending == [] && !Undecided(s'.state[t])
    requires forall x :: x in s'.queue <==> x in pushed || x in flushed
    requires forall x | x in g && x != t ::
               s'.state[x] == s.state[x] || (x in g[t] && s.state[x] == 0 && s'.state[x] == 2)
    ensures Placed(g, goals, s')
  {
    forall x ensures Waits(s', x) <==> x in pushed || x in s.pending {}
    forall x | Waits(s, x) && x != t ensures Waits(s', x) {}
  }

  /** The target waits for a dependency that is waiting by now. */
  lemma WaitingKeeps(g: Graph, goals: seq<Name>, s: Snapshot, t: Name, pushed: seq<Name>, flushed: seq<Name>)
    requires Placed(g, goals, s) && Scanned(g, s, t, pushed, flushed) && AnyUndecided(s.state, g[t])
    ensures Placed(g, goals, Snapshot(Touch(s.state, g[t]), pushed, s.pending + [t], s.log, s.ran))
  {
    var s' := Snapshot(Touch(s.state, g[t]), pushed, s.pending + [t], s.log, s.ran);
    forall x ensures Waits(s', x) <==> x in pushed || x in s.pending || x == t {}
    forall x | Waits(s, x) ensures Waits(s', x) {}
    var d :| d in g[t] && d in s.state && Undecided(s.state[d]);
    assert s'.state[d] == 2;
    forall x | x in s.pending ensures Blocked(g, s', x) {
      var d' :| d' in g[x] && d' in g && s.state[d'] == 2;
      assert s'.state[d'] == 2;
    }
  }

  lemma OutcomeIsRight(g: Graph, w: World, state: map<Name, State>, t: Name)
    requires Closed(g) && state.Keys == g.Keys && t in g && t !in g[t] && Right(g, w, state)
    ensures AnyFailed(state, g[t]) ==> Right(g, w, Touch(state, g[t])[t := -1])
    ensures !AnyFailed(state, g[t]) ==> Right(g, w, Touch(state, g[t]))
    ensures !AnyFailed(state, g[t]) && !AnyUndecided(state, g[t]) ==>
              Right(g, w, state[t := if OwnSuccess(g, w, t) then 1 else -1])
  {
    SucceedsByDependencies(g, w, t);
  }

  lemma FailingKeeps(g: Graph, w: World, goals: seq<Name>, s: Snapshot)
    requires Placed(g, goals, s) && s.queue != [] && AnyFailed(s.state, g[s.queue[0]])
    ensures Placed(g, goals, Step(g, w, s))
  {
    var t := s.queue[0];
    Scan(g, goals, s);
    LeavingKeeps(g, goals, s, t, s.queue[1..] + Untouched(s.state, g[t]), Reverse(s.pending), Step(g, w, s));
  }

  lemma DecidingKeeps(g: Graph, w: World, goals: seq<Name>, s: Snapshot)
    requires Placed(g, goals, s) && s.queue != []
    requires !AnyFailed(s.state, g[s.queue[0]]) && !AnyUndecided(s.state, g[s.queue[0]])
    ensures Placed(g, goals, Step(g, w, s))
  {
    var t := s.queue[0];
    Scan(g, goals, s);
    UndecidedAreNone(s.state, g[t]);
    LeavingKeeps(g, goals, s, t, s.queue[1..] + Untouched(s.state, g[t]), Reverse(s.pending), Step(g, w, s));
  }

  /** No pull loses a waiting rule or decides one wrongly. */
  lemma StepKeepsSound(g: Graph, w: World, goals: seq<Name>, s: Snapshot)
    requires Sound(g, w, goals, s) && s.queue != []
    ensures Sound(g, w, goals, Step(g, w, s))
  {
    var t := s.queue[0];
    Scan(g, goals, s);
    OutcomeIsRight(g, w, s.state, t);
    if AnyFailed(s.state, g[t]) {
      FailingKeeps(g, w, goals, s);
    } else if AnyUndecided(s.state, g[t]) {
      WaitingKeeps(g, goals, s, t, s.queue[1..] + Untouched(s.state, g[t]), Reverse(s.pending));
    } else {
      DecidingKeeps(g, w, goals, s);
    }
  }

  lemma {:induction false} UndecidedAreNone(state: map<Name, State>, deps: seq<Name>)
    requires !AnyUndecided(state, deps) && forall d | d in deps :: d in state
    ensures Untouched(state, deps) == []
  {
    if deps != [] {
      assert forall d | d in deps[..|deps| - 1] :: d in deps;
      UndecidedAreNone(state, deps[..|deps| - 1]);
    }
  }

  // ---- Progress ----

  lemma NextOfChain(g: Graph, goals: seq<Name>, s: Snapshot, t: Name) returns (d: Name)
    requires Placed(g, goals, s) && s.queue == [] && t in s.pending
    ensures t in g && d in g[t] && d in s.pending
  {
    assert Blocked(g, s, t);
    d :| d in g[t] && d in g && s.state[d] == 2;
    assert Waits(s, d);
  }

  ghost predicate LeadsOn(g: Graph, t: Name, pending: seq<Name>) {
    t in g && exists d :: d in g[t] && d in pending
  }

  lemma {:induction false} ChainOfPending(g: Graph, pending: seq<Name>, t: Name, n: nat) returns (chain: seq<Name>)
    requires t in pending && forall t' | t' in pending :: LeadsOn(g, t', pending)
    ensures |chain| == n + 1 && IsWalk(g, chain) && chain[0] == t
    decreases n
  {
    assert LeadsOn(g, t, pending);
    if n == 0 {
      chain := [t];
    } else {
      var d :| d in g[t] && d in pending;
      var rest := ChainOfPending(g, pending, d, n - 1);
      Prepend(g, t, rest);
      chain := [t] + rest;
    }
  }

  /** The queue is never empty while a target waits: the worker cannot block for ever. */
  lemma NeverStuck(g: Graph, goals: seq<Name>, s: Snapshot)
    requires Placed(g, goals, s) && s.queue == []
    ensures s.pending == []
    ensures forall t | t in goals :: !Undecided(s.state[t])
  {
    if s.pending != [] {
      var t := s.pending[0];
      assert Waits(s, t);
      forall t' | t' in s.pending ensures LeadsOn(g, t', s.pending) {
        var d := NextOfChain(g, goals, s, t');
      }
      var chain := ChainOfPending(g, s.pending, t, |g.Keys|);
      LongWalkLoops(g, chain);
    }
  }

  function FreshRules(state: map<Name, State>): set<Name> { set t | t in state && state[t] == 0 }

  /** How many rules nobody asked for yet. */
  function Fresh(state: map<Name, State>): nat { |FreshRules(state)| }

  lemma {:induction false} TouchUses(state: map<Name, State>, deps: seq<Name>)
    requires Distinct(deps) && forall d | d in deps :: d in state
    ensures Fresh(Touch(state, deps)) + |Untouched(state, deps)| == Fresh(state)
  {
    if deps == [] {
      assert Touch(state, deps) == state;
    } else {
      var init, d := deps[..|deps| - 1], deps[|deps| - 1];
      TouchUses(state, init);
      TouchOneMore(state, init, d);
      assert deps == init + [d];
    }
  }

  lemma TouchOneMore(state: map<Name, State>, init: seq<Name>, d: Name)
    requires d !in init && d in state
    ensures Fresh(Touch(state, init)) == Fresh(Touch(state, init + [d])) + if state[d] == 0 then 1 else 0
  {
    var before, after := FreshRules(Touch(state, init)), FreshRules(Touch(state, init + [d]));
    forall v ensures v in before <==> v in after || (v == d && state[d] == 0) {
      assert v in init + [d] <==> v in init || v == d;
    }
    assert before == after + if state[d] == 0 then {d} else {};
  }

  lemma SettingUses(state: map<Name, State>, t: Name, v: State)
    requires t in state && v != 0
    ensures Fresh(state[t := v]) <= Fresh(state)
  {
    SubsetSize(FreshRules(state[t := v]), FreshRules(state));
  }

  /** Fresh rules and places in the queue and the list, then fresh rules, then places in the queue. */
  function Measure(s: Snapshot): (nat, nat, nat) {
    (Fresh(s.state) + |s.queue| + |s.pending|, Fresh(s.state), |s.queue|)
  }

  predicate Less(a: (nat, nat, nat), b: (nat, nat, nat)) {
    a.0 < b.0 || (a.0 == b.0 && (a.1 < b.1 || (a.1 == b.1 && a.2 < b.2)))
  }

  /** So the worker runs out of work. */
  lemma StepDecreases(g: Graph, w: World, s: Snapshot)
    requires WellFormed(g, s) && s.queue != [] && forall t | t in g :: Distinct(g[t])
    ensures Less(Measure(Step(g, w, s)), Measure(s))
  {
    var t := s.queue[0];
    TouchUses(s.state, g[t]);
    ReverseElements(s.pending);
    SettingUses(Touch(s.state, g[t]), t, -1);
    SettingUses(s.state, t, if OwnSuccess(g, w, t) then 1 else -1);
  }
}
