/** Dependency graphs, walks in them, and what lies at the end of a walk. */
module Graph {
  type Name = string

  /** The dependencies of each rule, in the order in which they were declared. */
  type Graph = map<Name, seq<Name>>

  predicate Closed(g: Graph) { forall v, d | v in g && d in g[v] :: d in g }

  ghost predicate IsWalk(g: Graph, w: seq<Name>) {
    && w != [] && (forall i | 0 <= i < |w| :: w[i] in g)
    && forall i | 0 <= i < |w| - 1 :: w[i + 1] in g[w[i]]
  }

  ghost predicate WalkFromTo(g: Graph, w: seq<Name>, a: Name, b: Name) {
    IsWalk(g, w) && w[0] == a && w[|w| - 1] == b
  }

  ghost predicate Reaches(g: Graph, a: Name, b: Name) { exists w :: WalkFromTo(g, w, a, b) }

  /** The walk comes back to a rule that it visited before. */
  ghost predicate Loops(g: Graph, w: seq<Name>, i: nat) { IsWalk(g, w) && i < |w| - 1 && w[i] == w[|w| - 1] }

  ghost predicate ReachesCycle(g: Graph, v: Name) { exists w, i: nat :: Loops(g, w, i) && w[0] == v }

  predicate Distinct(s: seq<Name>) { forall i, j | 0 <= i < j < |s| :: s[i] != s[j] }

  function Elements(s: seq<Name>): set<Name> { set x | x in s }

  lemma {:induction false} DistinctSize(s: seq<Name>)
    requires Distinct(s)
    ensures |Elements(s)| == |s|
  {
    if s != [] {
      var init := s[..|s| - 1];
      DistinctSize(init);
      assert s == init + [s[|s| - 1]];
      assert Elements(s) == Elements(init) + {s[|s| - 1]};
    }
  }

  lemma SubsetSize(a: set<Name>, b: set<Name>)
    requires a <= b
    ensures |a| <= |b|
  {
    assert b == a + (b - a);
  }

  // ---- Cycles ----

  lemma Prepend(g: Graph, v: Name, w: seq<Name>)
    requires IsWalk(g, w) && v in g && w[0] in g[v]
    ensures IsWalk(g, [v] + w)
  {
    var s := [v] + w;
    assert forall i | 1 <= i < |s| :: s[i] == w[i - 1];
    assert forall i | 0 <= i < |w| - 1 :: w[i + 1] in g[w[i]];
    forall i | 0 <= i < |s| - 1 ensures s[i + 1] in g[s[i]] {
      if i > 0 { assert w[(i - 1) + 1] in g[w[i - 1]]; }
    }
  }

  lemma CycleFromDependency(g: Graph, v: Name, d: Name)
    requires v in g && d in g[v] && ReachesCycle(g, d)
    ensures ReachesCycle(g, v)
  {
    var w, i: nat :| Loops(g, w, i) && w[0] == d;
    Prepend(g, v, w);
    assert ([v] + w)[i + 1] == w[i];
    assert Loops(g, [v] + w, i + 1);
  }

  lemma CycleThroughDependency(g: Graph, v: Name) returns (d: Name)
    requires ReachesCycle(g, v)
    ensures v in g && d in g[v] && ReachesCycle(g, d)
  {
    var w, i: nat :| Loops(g, w, i) && w[0] == v;
    d := w[1];
    assert w[0 + 1] in g[w[0]];
    if i > 0 {
      assert Loops(g, w[1..], i - 1);
    } else {
      var around := w[1..] + [d];
      assert forall k | 0 <= k < |around| - 1 :: around[k] == w[k + 1];
      assert around[|around| - 1] == w[0 + 1] && w[0 + 1] in g[w[0]];
      forall k | 0 <= k < |around| - 1 ensures around[k + 1] in g[around[k]] {
        if k + 2 < |w| { assert w[(k + 1) + 1] in g[w[k + 1]]; }
      }
      assert Loops(g, around, 0);
    }
  }

  lemma WalkIntoCycle(g: Graph, w: seq<Name>, v: Name)
    requires IsWalk(g, w) && w[|w| - 1] == v && ReachesCycle(g, v)
    ensures forall u | u in w :: ReachesCycle(g, u)
    decreases |w|
  {
    if |w| > 1 {
      var init := w[..|w| - 1];
      assert w == init + [v];
      CycleFromDependency(g, init[|init| - 1], v);
      WalkIntoCycle(g, init, init[|init| - 1]);
    }
  }

  /** A walk that comes back into itself. */
  lemma WalkBack(g: Graph, w: seq<Name>, v: Name)
    requires IsWalk(g, w + [v]) && v in w
    ensures ReachesCycle(g, v)
  {
    var i :| 0 <= i < |w| && w[i] == v;
    var around := w[i..] + [v];
    assert forall k | 0 <= k < |around| :: around[k] == (w + [v])[i + k];
    assert Loops(g, around, 0);
  }

  /** A walk with more rules than there are comes back into itself. */
  lemma LongWalkLoops(g: Graph, w: seq<Name>)
    requires IsWalk(g, w) && |w| > |g.Keys|
    ensures ReachesCycle(g, w[0])
  {
    if Distinct(w) {
      DistinctSize(w);
      SubsetSize(Elements(w), g.Keys);
      assert false;
    }
    var i, j :| 0 <= i < j < |w| && w[i] == w[j];
    assert Loops(g, w[..j + 1], i);
  }

  // ---- Reachability ----

  lemma ReachesSelf(g: Graph, v: Name)
    requires v in g
    ensures Reaches(g, v, v)
  {
    assert WalkFromTo(g, [v], v, v);
  }

  lemma ReachesThrough(g: Graph, v: Name, d: Name, u: Name)
    requires v in g && d in g[v] && Reaches(g, d, u)
    ensures Reaches(g, v, u)
  {
    var w :| WalkFromTo(g, w, d, u);
    assert WalkFromTo(g, [v] + w, v, u);
  }

  lemma ReachesFurther(g: Graph, v: Name, u: Name, d: Name)
    requires Closed(g) && Reaches(g, v, u) && u in g && d in g[u]
    ensures Reaches(g, v, d)
  {
    var w :| WalkFromTo(g, w, v, u);
    assert WalkFromTo(g, w + [d], v, d);
  }

  lemma ReachesByDependency(g: Graph, v: Name, u: Name)
    requires Reaches(g, v, u) && u != v
    ensures v in g && exists d :: d in g[v] && Reaches(g, d, u)
  {
    var w :| WalkFromTo(g, w, v, u);
    assert WalkFromTo(g, w[1..], w[1], u);
  }

  /** Two rules that reach each other lie on a cycle. */
  lemma MutualReachLoops(g: Graph, v: Name, u: Name)
    requires Closed(g) && Reaches(g, v, u) && u in g && v in g[u]
    ensures ReachesCycle(g, v)
  {
    var w :| WalkFromTo(g, w, v, u);
    var around := w + [v];
    assert Loops(g, around, 0);
  }
}
