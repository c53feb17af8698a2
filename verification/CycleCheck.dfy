/** Cycle detection with a vector of visited rules that all goals share, and that a search which finds a
    cycle leaves filled. */
module CycleCheck {
  import opened Graph

  class Vector {
    var items: seq<Name>

    constructor ()
      ensures items == []
    {
      items := [];
    }

    method Contains(x: Name) returns (found: bool)
      ensures found <==> x in items
    {
      for i := 0 to |items|
        invariant forall j | 0 <= j < i :: items[j] != x
      {
        if items[i] == x {
          return true;
        }
      }
      found := false;
    }

    method PushBack(x: Name)
      modifies this
      ensures items == old(items) + [x]
    {
      items := items + [x];
    }

    method PopBack()
      requires items != []
      modifies this
      ensures items == old(items)[..|old(items)| - 1]
    {
      items := items[..|items| - 1];
    }
  }

  /** The first `kept` entries were left behind by failed searches; the rest are the walk to `v`. */
  ghost predicate Searching(g: Graph, items: seq<Name>, kept: nat, v: Name) {
    && kept <= |items| && Distinct(items)
    && (forall i | 0 <= i < |items| :: items[i] in g)
    && (forall i | 0 <= i < kept :: ReachesCycle(g, items[i]))
    && IsWalk(g, items[kept..] + [v])
  }

  function Unvisited(g: Graph, items: seq<Name>): nat { |g.Keys - Elements(items)| }

  lemma VisitedLoops(g: Graph, items: seq<Name>, kept: nat, v: Name)
    requires Searching(g, items, kept, v) && v in items
    ensures ReachesCycle(g, v)
  {
    var i :| 0 <= i < |items| && items[i] == v;
    if i >= kept {
      assert items[kept..][i - kept] == v;
      WalkBack(g, items[kept..], v);
    }
  }

  lemma Deeper(g: Graph, items: seq<Name>, kept: nat, v: Name, d: Name)
    requires Closed(g) && Searching(g, items, kept, v) && v in g && v !in items && d in g[v]
    ensures Searching(g, items + [v], kept, d)
    ensures Unvisited(g, items + [v]) < Unvisited(g, items)
  {
    var w := items[kept..] + [v];
    assert (items + [v])[kept..] == w;
    assert v == w[|w| - 1];
    var w' := w + [d];
    forall i | 0 <= i < |w'| - 1 ensures w'[i + 1] in g[w'[i]] {
      if i < |w| - 1 { assert w[i + 1] in g[w[i]]; }
    }
    assert v in g.Keys - Elements(items);
    assert g.Keys - Elements(items + [v]) == (g.Keys - Elements(items)) - {v};
  }

  lemma NoneLeadsToCycle(g: Graph, v: Name)
    requires v in g && forall i | 0 <= i < |g[v]| :: !ReachesCycle(g, g[v][i])
    ensures !ReachesCycle(g, v)
  {
    if ReachesCycle(g, v) {
      var d := CycleThroughDependency(g, v);
    }
  }

  /** Every rule that was pushed since `items` reaches a cycle. */
  ghost predicate PushedLoop(g: Graph, items: seq<Name>, now: seq<Name>) {
    items <= now && forall i | |items| <= i < |now| :: now[i] in g && ReachesCycle(g, now[i])
  }

  lemma LeftBehind(g: Graph, items: seq<Name>, dep: Name, now: seq<Name>)
    requires PushedLoop(g, items + [dep], now) && dep in g && ReachesCycle(g, dep)
    ensures PushedLoop(g, items, now)
  {
    assert now[|items|] == (items + [dep])[|items|] == dep;
    assert items <= items + [dep];
  }

  /** True exactly when a cycle can be reached from `dep`, although `visited` may hold leftovers: each of
      those reaches a cycle itself. A failed search leaves only such rules behind. */
  method HasCycle(g: Graph, dep: Name, visited: Vector, ghost kept: nat) returns (found: bool)
    requires Closed(g) && dep in g && Searching(g, visited.items, kept, dep)
    modifies visited
    ensures found <==> ReachesCycle(g, dep)
    ensures !found ==> visited.items == old(visited.items)
    ensures found ==> Distinct(visited.items) && PushedLoop(g, old(visited.items), visited.items)
    decreases Unvisited(g, visited.items)
  {
    var seen := visited.Contains(dep);
    if seen {
      VisitedLoops(g, visited.items, kept, dep);
      return true;
    }
    ghost var items := visited.items;
    visited.PushBack(dep);
    var n := 0;
    while n < |g[dep]|
      invariant 0 <= n <= |g[dep]| && visited.items == items + [dep]
      invariant forall i | 0 <= i < n :: !ReachesCycle(g, g[dep][i])
    {
      Deeper(g, items, kept, dep, g[dep][n]);
      var res := HasCycle(g, g[dep][n], visited, kept);
      if res {
        CycleFromDependency(g, dep, g[dep][n]);
        LeftBehind(g, items, dep, visited.items);
        return true;
      }
      n := n + 1;
    }
    NoneLeadsToCycle(g, dep);
    visited.PopBack();
    assert visited.items == items;
    found := false;
  }

  /** The goals from which a cycle can (or cannot) be reached, in their order. */
  ghost function Select(g: Graph, goals: seq<Name>, cyclic: bool): seq<Name> {
    if goals == [] then []
    else Select(g, goals[..|goals| - 1], cyclic)
         + if ReachesCycle(g, goals[|goals| - 1]) == cyclic then [goals[|goals| - 1]] else []
  }

  /** The set-up loop: every goal is queued or reported, and which of the two depends on that goal
      alone, not on the goals before it. */
  method SetUp(g: Graph, goals: seq<Name>) returns (queue: seq<Name>, reported: seq<Name>)
    requires Closed(g) && forall i | 0 <= i < |goals| :: goals[i] in g
    ensures queue == Select(g, goals, false)
    ensures reported == Select(g, goals, true)
  {
    var visited := new Vector();
    queue, reported := [], [];
    for i := 0 to |goals|
      invariant fresh(visited) && Distinct(visited.items)
      invariant forall j | 0 <= j < |visited.items| :: visited.items[j] in g && ReachesCycle(g, visited.items[j])
      invariant queue == Select(g, goals[..i], false) && reported == Select(g, goals[..i], true)
    {
      assert goals[..i + 1][..i] == goals[..i];
      assert Searching(g, visited.items, |visited.items|, goals[i]);
      var cyclic := HasCycle(g, goals[i], visited, |visited.items|);
      if cyclic {
        reported := reported + [goals[i]];
      } else {
        queue := queue + [goals[i]];
      }
    }
    assert goals[..|goals|] == goals;
  }
}
