/** Insertion into a sorted list, for any comparer, as a function on sequences. */
module StableInsert {
  ghost predicate TotalPreorder<T(!new)>(cmp: (T, T) -> int) {
    && (forall a, b :: cmp(a, b) < 0 <==> cmp(b, a) > 0)
    && (forall a, b, c :: cmp(a, b) <= 0 && cmp(b, c) <= 0 ==> cmp(a, c) <= 0)
  }

  ghost predicate Sorted<T>(cmp: (T, T) -> int, s: seq<T>) {
    forall i, j | 0 <= i < j < |s| :: cmp(s[i], s[j]) <= 0
  }

  /** Where the walk from entry `k` puts `x`. */
  function PlaceFrom<T>(cmp: (T, T) -> int, s: seq<T>, x: T, k: nat): (p: nat)
    requires k < |s|
    ensures k < p <= |s|
    decreases |s| - k
  {
    if k + 1 == |s| || (cmp(s[k], x) <= 0 && cmp(x, s[k + 1]) < 0) then k + 1 else PlaceFrom(cmp, s, x, k + 1)
  }

  function Place<T>(cmp: (T, T) -> int, s: seq<T>, x: T): (p: nat)
    ensures p <= |s|
  {
    if s == [] || cmp(x, s[0]) < 0 then 0 else PlaceFrom(cmp, s, x, 0)
  }

  function InsertAt<T>(s: seq<T>, p: nat, x: T): (r: seq<T>)
    requires p <= |s|
    ensures |r| == |s| + 1 && r[p] == x
  {
    s[..p] + [x] + s[p..]
  }

  lemma InsertShifts<T>(s: seq<T>, p: nat, x: T, k: nat, r: seq<T>)
    requires p <= |s| && k < |s| && r == InsertAt(s, p, x)
    ensures r[if k < p then k else k + 1] == s[k]
  {}

  function Insert<T>(cmp: (T, T) -> int, s: seq<T>, x: T): (r: seq<T>) { InsertAt(s, Place(cmp, s, x), x) }

  /** In a sorted list, everything before the place is at most `x` and everything from it on is greater. */
  lemma {:induction false} PlaceFromSplits<T(!new)>(cmp: (T, T) -> int, s: seq<T>, x: T, k: nat)
    requires TotalPreorder(cmp) && Sorted(cmp, s) && k < |s| && cmp(s[k], x) <= 0
    ensures var p := PlaceFrom(cmp, s, x, k);
            (forall i | 0 <= i < p :: cmp(s[i], x) <= 0) && (forall i | p <= i < |s| :: cmp(x, s[i]) < 0)
    decreases |s| - k
  {
    if k + 1 < |s| {
      if cmp(x, s[k + 1]) < 0 {
        forall i | k + 1 <= i < |s| ensures cmp(x, s[i]) < 0 {
          assert i == k + 1 || cmp(s[k + 1], s[i]) <= 0;
        }
      } else {
        PlaceFromSplits(cmp, s, x, k + 1);
      }
    }
  }

  lemma PlaceSplits<T(!new)>(cmp: (T, T) -> int, s: seq<T>, x: T)
    requires TotalPreorder(cmp) && Sorted(cmp, s)
    ensures var p := Place(cmp, s, x);
            (forall i | 0 <= i < p :: cmp(s[i], x) <= 0) && (forall i | p <= i < |s| :: cmp(x, s[i]) < 0)
  {
    if s != [] {
      if cmp(x, s[0]) < 0 {
        forall i | 0 <= i < |s| ensures cmp(x, s[i]) < 0 {
          assert i == 0 || cmp(s[0], s[i]) <= 0;
        }
      } else {
        PlaceFromSplits(cmp, s, x, 0);
      }
    }
  }

  lemma SortedAround<T(!new)>(cmp: (T, T) -> int, s: seq<T>, x: T, p: nat, r: seq<T>)
    requires TotalPreorder(cmp) && Sorted(cmp, s) && p <= |s| && r == s[..p] + [x] + s[p..]
    requires forall i | 0 <= i < p :: cmp(s[i], x) <= 0
    requires forall i | p <= i < |s| :: cmp(x, s[i]) < 0
    ensures Sorted(cmp, r)
  {
    forall i, j | 0 <= i < j < |r| ensures cmp(r[i], r[j]) <= 0 {
      if i < p {
        assert r[i] == s[i];
        if j > p { assert r[j] == s[j - 1]; }
      } else {
        assert r[j] == s[j - 1];
        if i > p { assert r[i] == s[i - 1]; }
      }
    }
  }

  /** Insertion is sorted and stable: `x` comes after all entries equal to it. */
  lemma InsertIsStable<T(!new)>(cmp: (T, T) -> int, s: seq<T>, x: T)
    requires TotalPreorder(cmp) && Sorted(cmp, s)
    ensures var p := Place(cmp, s, x);
            && (forall i | 0 <= i < p :: cmp(s[i], x) <= 0) && (forall i | p <= i < |s| :: cmp(x, s[i]) < 0)
            && Sorted(cmp, Insert(cmp, s, x)) && multiset(Insert(cmp, s, x)) == multiset(s) + multiset{x}
  {
    var p, r := Place(cmp, s, x), Insert(cmp, s, x);
    PlaceSplits(cmp, s, x);
    SortedAround(cmp, s, x, p, r);
    assert s == s[..p] + s[p..];
  }

  /** So `x` goes to the end exactly when no entry is greater. */
  lemma InsertAtEnd<T(!new)>(cmp: (T, T) -> int, s: seq<T>, x: T)
    requires TotalPreorder(cmp) && Sorted(cmp, s)
    ensures Insert(cmp, s, x) == s + [x] <==> forall i | 0 <= i < |s| :: cmp(s[i], x) <= 0
  {
    PlaceSplits(cmp, s, x);
    var p := Place(cmp, s, x);
    if p < |s| {
      assert cmp(x, s[p]) < 0;
      assert Insert(cmp, s, x)[p] == x && (s + [x])[p] == s[p];
    }
  }

  lemma InsertElements<T>(s: seq<T>, p: nat, x: T)
    requires p <= |s|
    ensures multiset(InsertAt(s, p, x)) == multiset(s) + multiset{x}
  {
    assert s == s[..p] + s[p..];
  }

  /** It becomes the head exactly when all entries are greater; otherwise the head stays. */
  lemma InsertHead<T(!new)>(cmp: (T, T) -> int, s: seq<T>, x: T)
    requires TotalPreorder(cmp) && Sorted(cmp, s)
    ensures var r := Insert(cmp, s, x);
            if forall y | y in s :: cmp(x, y) < 0 then r[0] == x && r[1..] == s
            else s != [] && r[0] == s[0] && multiset(r[1..]) == multiset(s[1..]) + multiset{x}
  {
    PlaceSplits(cmp, s, x);
    var r, p := Insert(cmp, s, x), Place(cmp, s, x);
    if p == 0 {
      assert r[1..] == s;
    } else {
      assert s[0] in s && cmp(s[0], x) <= 0;
      assert r[1..] == InsertAt(s[1..], p - 1, x);
      InsertElements(s[1..], p - 1, x);
    }
  }
}
