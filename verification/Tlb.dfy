/** The translation lookaside buffer: a list of nodes, most recently used first. */
module Tlb {
  import opened Options
  import opened VmTypes

  const MAX_NODES := 16

  /** `entry` is None in the node that tlb_create zeroes. */
  datatype Node = Node(base: nat, entry: Option<Ref>)

  function Empty(): seq<Node> { [Node(0, None)] }

  function Find(t: seq<Node>, base: nat): (i: nat)
    ensures i <= |t|
    ensures forall k | 0 <= k < i :: t[k].base != base
    ensures i < |t| ==> t[i].base == base
  {
    if t == [] || t[0].base == base then 0 else 1 + Find(t[1..], base)
  }

  /** Moves the first node for `base` to the front and yields its entry. */
  function Get(t: seq<Node>, base: nat): (seq<Node>, Option<Ref>) {
    var i := Find(t, base);
    if i < |t| then ([t[i]] + t[..i] + t[i + 1..], t[i].entry) else (t, None)
  }

  function Add(t: seq<Node>, base: nat, ref: Ref): seq<Node> {
    [Node(base, Some(ref))] + if |t| >= MAX_NODES then t[..|t| - 1] else t
  }

  /** One use of a page: a lookup, then an add when the lookup found no entry. */
  function Use(t: seq<Node>, base: nat, ref: Ref): seq<Node> {
    var (t', hit) := Get(t, base);
    if hit.None? then Add(t', base, ref) else t'
  }

  // ---- Exact LRU ----

  datatype Reference = Reference(base: nat, ref: Ref)

  function Run(uses: seq<Reference>): seq<Node> {
    if uses == [] then Empty()
    else var u := uses[|uses| - 1]; Use(Run(uses[..|uses| - 1]), u.base, u.ref)
  }

  function Remove(s: seq<nat>, x: nat): seq<nat> {
    if s == [] then [] else (if s[0] == x then [] else [s[0]]) + Remove(s[1..], x)
  }

  /** The distinct pages of a history, most recent first. */
  function Recency(uses: seq<Reference>): seq<nat> {
    if uses == [] then []
    else var b := uses[|uses| - 1].base; [b] + Remove(Recency(uses[..|uses| - 1]), b)
  }

  function Keys(t: seq<Node>): seq<nat> { seq(|t|, i requires 0 <= i < |t| => t[i].base) }

  function Shorten(s: seq<nat>): seq<nat> { if |s| > MAX_NODES then s[..MAX_NODES] else s }

  ghost predicate Distinct(s: seq<nat>) { forall i, j | 0 <= i < j < |s| :: s[i] != s[j] }

  function Bases(uses: seq<Reference>): set<nat> { set u | u in uses :: u.base }

  /** The uses after the last use of `base`. */
  function Since(uses: seq<Reference>, base: nat): seq<Reference> {
    if uses == [] || uses[|uses| - 1].base == base then []
    else Since(uses[..|uses| - 1], base) + [uses[|uses| - 1]]
  }

  lemma {:induction false} RemoveAbsent(s: seq<nat>, x: nat)
    requires x !in s
    ensures Remove(s, x) == s
  {
    if s != [] { RemoveAbsent(s[1..], x); }
  }

  lemma {:induction false} RemoveAt(s: seq<nat>, i: nat)
    requires i < |s| && Distinct(s)
    ensures Remove(s, s[i]) == s[..i] + s[i + 1..]
  {
    if i == 0 {
      RemoveAbsent(s[1..], s[0]);
    } else {
      RemoveAt(s[1..], i - 1);
      assert s[..i] == [s[0]] + s[1..][..i - 1];
      assert s[i + 1..] == s[1..][i..];
    }
  }

  lemma {:induction false} RemoveKeepsTheRest(s: seq<nat>, x: nat)
    requires Distinct(s)
    ensures forall y :: y in Remove(s, x) <==> y in s && y != x
    ensures Distinct(Remove(s, x))
  {
    if s != [] {
      RemoveKeepsTheRest(s[1..], x);
      assert forall y :: y in s <==> y == s[0] || y in s[1..];
      assert s[0] !in Remove(s[1..], x);
    }
  }

  lemma {:induction false} RecencyIsDistinct(uses: seq<Reference>)
    ensures Distinct(Recency(uses))
    ensures forall b :: b in Recency(uses) <==> b in Bases(uses)
  {
    if uses != [] {
      var init, u := uses[..|uses| - 1], uses[|uses| - 1];
      RecencyIsDistinct(init);
      RemoveKeepsTheRest(Recency(init), u.base);
      assert forall x :: x in Recency(uses) <==> x == u.base || x in Recency(init);
      assert uses == init + [u];
      assert Bases(uses) == Bases(init) + {u.base};
    }
  }

  /** After any sequence of uses of non-zero pages the list holds, in recency order, the at most
      sixteen most recently used pages, with the initial node behind them while it fits. */
  lemma {:induction false} ListIsRecency(uses: seq<Reference>)
    requires forall u | u in uses :: u.base != 0
    ensures HoldsRecency(Run(uses), Recency(uses)) && |Run(uses)| <= 16
  {
    if uses != [] {
      var init, u := uses[..|uses| - 1], uses[|uses| - 1];
      ListIsRecency(init);
      UseIsRecency(Run(init), Recency(init), u);
    }
  }

  ghost predicate HoldsRecency(t: seq<Node>, r: seq<nat>) {
    && 0 !in r && Distinct(r)
    && Keys(t) == Shorten(r + [0])
    && forall n | n in t :: n.entry.None? <==> n.base == 0
  }

  function ToFront(s: seq<nat>, i: nat): seq<nat>
    requires i < |s|
  {
    [s[i]] + (s[..i] + s[i + 1..])
  }

  lemma ToFrontOfKeys(t: seq<Node>, i: nat)
    requires i < |t|
    ensures Keys([t[i]] + t[..i] + t[i + 1..]) == ToFront(Keys(t), i)
  {
    var left, right := Keys([t[i]] + t[..i] + t[i + 1..]), ToFront(Keys(t), i);
    forall k | 0 <= k < |t| ensures left[k] == right[k] {
      if k > i { assert left[k] == Keys(t)[k]; }
    }
  }

  lemma ToFrontOfShortened(s: seq<nat>, i: nat)
    requires i < |Shorten(s)|
    ensures Shorten(ToFront(s, i)) == ToFront(Shorten(s), i)
  {
    var left, right := Shorten(ToFront(s, i)), ToFront(Shorten(s), i);
    forall k | 0 <= k < |left| ensures left[k] == right[k] {
      if k > i { assert left[k] == s[k]; }
    }
  }

  lemma ToFrontRemoves(r: seq<nat>, i: nat)
    requires i < |r| && Distinct(r)
    ensures ToFront(r + [0], i) == [r[i]] + Remove(r, r[i]) + [0]
  {
    var before, after := r[..i], r[i + 1..];
    RemoveAt(r, i);
    WithoutAppended(r, i);
    Associates(before, after, [0]);
    Associates([r[i]], before + after, [0]);
  }

  lemma WithoutAppended(r: seq<nat>, i: nat)
    requires i < |r|
    ensures (r + [0])[..i] == r[..i] && (r + [0])[i + 1..] == r[i + 1..] + [0]
  {}

  lemma Associates(a: seq<nat>, b: seq<nat>, c: seq<nat>)
    ensures a + (b + c) == (a + b) + c
  {}

  lemma HitIsRecency(t: seq<Node>, r: seq<nat>, i: nat)
    requires HoldsRecency(t, r) && i < |t| && t[i].base != 0
    ensures i < |r| && Keys([t[i]] + t[..i] + t[i + 1..]) == Shorten([r[i]] + Remove(r, r[i]) + [0])
  {
    assert Keys(t)[i] == t[i].base;
    assert i < |r|;
    calc {
      Keys([t[i]] + t[..i] + t[i + 1..]);
      { ToFrontOfKeys(t, i); }
      ToFront(Keys(t), i);
      ToFront(Shorten(r + [0]), i);
      { ToFrontOfShortened(r + [0], i); }
      Shorten(ToFront(r + [0], i));
      { ToFrontRemoves(r, i); }
      Shorten([r[i]] + Remove(r, r[i]) + [0]);
    }
  }

  lemma EarlyIsKept(s: seq<nat>, j: nat)
    requires j < |s|
    ensures j < MAX_NODES ==> s[j] in Shorten(s)
  {
    assert j < MAX_NODES < |s| ==> s[..MAX_NODES][j] == s[j];
  }

  lemma MissIsRecency(t: seq<Node>, r: seq<nat>, base: nat, ref: Ref)
    requires HoldsRecency(t, r) && base !in Keys(t)
    ensures Keys(Add(t, base, ref)) == Shorten([base] + Remove(r, base) + [0])
  {
    var keys := Keys(t);
    var kept := if |t| >= MAX_NODES then keys[..|t| - 1] else keys;
    assert Keys(Add(t, base, ref)) == [base] + kept;
    if base in r {
      var j :| 0 <= j < |r| && r[j] == base;
      EarlyIsKept(r + [0], j);
      RemoveAt(r, j);
      assert ([base] + Remove(r, base) + [0])[..MAX_NODES] == [base] + (r + [0])[..MAX_NODES - 1];
    } else {
      RemoveAbsent(r, base);
      assert [base] + r + [0] == [base] + (r + [0]);
    }
  }

  lemma UseIsRecency(t: seq<Node>, r: seq<nat>, u: Reference)
    requires u.base != 0 && HoldsRecency(t, r)
    ensures HoldsRecency(Use(t, u.base, u.ref), [u.base] + Remove(r, u.base))
  {
    var i, rest := Find(t, u.base), Remove(r, u.base);
    RemoveKeepsTheRest(r, u.base);
    assert forall k | 0 <= k < |rest| :: rest[k] in rest;
    if i < |t| {
      assert t[i] in t;
      assert Keys(t)[i] == u.base;
      HitIsRecency(t, r, i);
    } else {
      assert u.base !in Keys(t);
      MissIsRecency(t, r, u.base, u.ref);
    }
  }

  lemma {:induction false} SinceIsRecencyPrefix(uses: seq<Reference>, i: nat)
    requires i < |Recency(uses)|
    ensures Bases(Since(uses, Recency(uses)[i])) == set k | 0 <= k < i :: Recency(uses)[k]
  {
    var base := Recency(uses)[i];
    if i > 0 {
      var init, last := uses[..|uses| - 1], uses[|uses| - 1];
      var r := Recency(init);
      RecencyIsDistinct(uses);
      RecencyIsDistinct(init);
      assert last.base == Recency(uses)[0] != base;
      RemoveKeepsTheRest(r, last.base);
      assert base == Remove(r, last.base)[i - 1] && base in Remove(r, last.base);
      var j :| 0 <= j < |r| && r[j] == base;
      SinceIsRecencyPrefix(init, j);
      assert Bases(Since(uses, base)) == Bases(Since(init, base)) + {last.base};
      RecencyStep(r, last.base, j, i);
    }
  }

  lemma RecencyStep(r: seq<nat>, b: nat, j: nat, i: nat)
    requires Distinct(r) && j < |r| && r[j] != b
    requires var s := [b] + Remove(r, b); i < |s| && s[i] == r[j] && Distinct(s)
    ensures var s := [b] + Remove(r, b);
            (set k | 0 <= k < i :: s[k]) == (set k | 0 <= k < j :: r[k]) + {b}
  {
    var s := [b] + Remove(r, b);
    if b in r {
      var m :| 0 <= m < |r| && r[m] == b;
      RemoveAt(r, m);
      assert s[if m < j then j else j + 1] == r[j];
      SamePrefix(r, m, j, i, s);
    } else {
      RemoveAbsent(r, b);
      assert s[j + 1] == r[j];
      SamePrefix(r, |r|, j, i, s);
    }
  }

  /** Moving element `m` of `r` to the front (or a new element, when m == |r|) changes the set of
      elements ahead of element `j` by exactly that element. */
  lemma SamePrefix(r: seq<nat>, m: nat, j: nat, i: nat, s: seq<nat>)
    requires j < |r| && m <= |r| && m != j && Distinct(r) && s != []
    requires s == [s[0]] + if m < |r| then r[..m] + r[m + 1..] else r
    requires m < |r| ==> s[0] == r[m]
    requires i == if m < j then j else j + 1
    ensures (set k | 0 <= k < i :: s[k]) == (set k | 0 <= k < j :: r[k]) + {s[0]}
  {
    var left, right := set k | 0 <= k < i :: s[k], set k | 0 <= k < j :: r[k];
    forall x | x in left ensures x in right + {s[0]} {
      var k :| 0 <= k < i && s[k] == x;
      if k > 0 { assert x == r[if k - 1 < m then k - 1 else k]; }
    }
    forall x | x in right + {s[0]} ensures x in left {
      if x == s[0] {
        assert s[0] in left;
      } else {
        var k :| 0 <= k < j && r[k] == x;
        assert s[if k < m then k + 1 else k] == x;
      }
    }
  }

  lemma {:induction false} DistinctPrefixSize(s: seq<nat>, i: nat)
    requires i <= |s| && Distinct(s)
    ensures |set k | 0 <= k < i :: s[k]| == i
  {
    if i > 0 {
      DistinctPrefixSize(s, i - 1);
      assert (set k | 0 <= k < i :: s[k]) == (set k | 0 <= k < i - 1 :: s[k]) + {s[i - 1]};
    }
  }

  /** A page hits exactly when it was used before and fewer than sixteen distinct other pages were
      used since. */
  lemma HitExactlyWhenRecent(uses: seq<Reference>, base: nat)
    requires base != 0 && forall u | u in uses :: u.base != 0
    ensures Get(Run(uses), base).1.Some?
            <==> base in Bases(uses) && |Bases(Since(uses, base))| < 16
  {
    var t, r := Run(uses), Recency(uses);
    ListIsRecency(uses);
    RecencyIsDistinct(uses);
    assert forall k | 0 <= k < |t| :: t[k].base == Keys(t)[k] == (r + [0])[k] && t[k] in t;
    if base in r {
      var i :| 0 <= i < |r| && r[i] == base;
      SinceIsRecencyPrefix(uses, i);
      DistinctPrefixSize(r, i);
      if i < MAX_NODES { assert t[i].base == base; }
    }
  }
}
