/** The priority queue as a linked list of jobs, ordered by metadata that its owner may change. */
module PriQueue {
  import opened StableInsert

  class Job<Info> {
    var info: Info

    constructor (info: Info)
      ensures this.info == info
    {
      this.info := info;
    }
  }

  class Node<Info> {
    const value: Job<Info>
    var next: Node?<Info>

    constructor (value: Job<Info>)
      ensures this.value == value && next == null
    {
      this.value, next := value, null;
    }
  }

  ghost function Infos<Info>(jobs: seq<Job<Info>>): (r: seq<Info>)
    reads jobs
    ensures |r| == |jobs| && forall i | 0 <= i < |r| :: r[i] == jobs[i].info
  {
    if jobs == [] then [] else [jobs[0].info] + Infos(jobs[1..])
  }

  lemma InsertAtElements<T>(s: seq<T>, p: nat, x: T)
    requires p <= |s|
    ensures var r := InsertAt(s, p, x);
            && |r| == |s| + 1 && r[p] == x
            && (forall i | 0 <= i < p :: r[i] == s[i]) && (forall i | p < i < |r| :: r[i] == s[i - 1])
            && forall y :: y in r <==> y in s || y == x
  {
    var r := InsertAt(s, p, x);
    forall y | y in s ensures y in r {
      var i :| 0 <= i < |s| && s[i] == y;
      assert r[if i < p then i else i + 1] == y;
    }
  }

  lemma InsertAtDistinct<T>(s: seq<T>, p: nat, x: T)
    requires p <= |s| && x !in s && forall i, j | 0 <= i < j < |s| :: s[i] != s[j]
    ensures var r := InsertAt(s, p, x); forall i, j | 0 <= i < j < |r| :: r[i] != r[j]
  {
    InsertAtElements(s, p, x);
  }

  lemma InsertAtMembers<T>(s: seq<T>, p: nat, x: T)
    requires p <= |s|
    ensures forall y :: y in InsertAt(s, p, x) <==> y in s || y == x
  {
    InsertAtElements(s, p, x);
  }

  function NodeAt<Info>(nodes: seq<Node<Info>>, i: nat): Node?<Info> { if i < |nodes| then nodes[i] else null }

  /** Every node names the one behind it. */
  ghost predicate Chained<Info>(nodes: seq<Node<Info>>)
    reads nodes
  {
    forall i | 0 <= i < |nodes| :: nodes[i].next == NodeAt(nodes, i + 1)
  }

  lemma ChainedInserted<Info>(nodes: seq<Node<Info>>, p: nat, entry: Node<Info>, r: seq<Node<Info>>)
    requires p <= |nodes| && r == InsertAt(nodes, p, entry)
    requires entry.next == NodeAt(nodes, p)
    requires forall k | 0 <= k < |nodes| :: nodes[k].next == if k + 1 == p then entry else NodeAt(nodes, k + 1)
    ensures Chained(r)
  {
    InsertAtElements(nodes, p, entry);
    forall i | 0 <= i < |r| ensures r[i].next == NodeAt(r, i + 1) {
      if i > p {
        assert r[i] == nodes[i - 1];
      }
    }
  }

  lemma InfosInsert<Info>(jobs: seq<Job<Info>>, p: nat, job: Job<Info>)
    requires p <= |jobs|
    ensures Infos(InsertAt(jobs, p, job)) == InsertAt(Infos(jobs), p, job.info)
  {
    var r, q := InsertAt(jobs, p, job), InsertAt(Infos(jobs), p, job.info);
    InsertAtElements(jobs, p, job);
    InsertAtElements(Infos(jobs), p, job.info);
    forall i | 0 <= i < |r| ensures Infos(r)[i] == q[i] {
      if i < p {
        assert r[i] == jobs[i];
      } else if i > p {
        assert r[i] == jobs[i - 1];
      }
    }
  }

  ghost predicate Apart<Info>(jobs: seq<Job<Info>>) { forall i, j | 0 <= i < j < |jobs| :: jobs[i] != jobs[j] }

  lemma ApartInsert<Info>(jobs: seq<Job<Info>>, p: nat, job: Job<Info>)
    requires Apart(jobs) && p <= |jobs| && job !in jobs
    ensures Apart(InsertAt(jobs, p, job))
  {
    var r := InsertAt(jobs, p, job);
    forall i, j | 0 <= i < j < |r| ensures r[i] != r[j] {
      assert i != p ==> r[i] == jobs[if i < p then i else i - 1] && r[i] in jobs;
      assert j != p ==> r[j] == jobs[if j < p then j else j - 1] && r[j] in jobs;
    }
  }

  /** What an insertion means for the jobs and for the nodes that hold them. */
  lemma Inserted<Info>(jobs: seq<Job<Info>>, jobs': seq<Job<Info>>, p: nat, job: Job<Info>, infos: seq<Info>)
    requires p <= |jobs| && jobs' == InsertAt(jobs, p, job) && infos == Infos(jobs)
    ensures Infos(jobs') == InsertAt(infos, p, job.info)
    ensures Apart(jobs) && job !in jobs ==> Apart(jobs')
    ensures forall j :: j in jobs' <==> j in jobs || j == job
  {
    InfosInsert(jobs, p, job);
    if Apart(jobs) && job !in jobs { ApartInsert(jobs, p, job); }
    InsertAtMembers(jobs, p, job);
  }

  lemma NodesInserted<Info>(nodes: seq<Node<Info>>, nodes': seq<Node<Info>>, p: nat, node: Node<Info>)
    requires p <= |nodes| && nodes' == InsertAt(nodes, p, node)
    ensures forall n | n in nodes' :: n in nodes || n == node
  {
    InsertAtMembers(nodes, p, node);
  }

  class Queue<Info> {
    const cmp: (Info, Info) -> int
    var head: Node?<Info>
    var size: int
    ghost var nodes: seq<Node<Info>>
    ghost var jobs: seq<Job<Info>>

    ghost predicate Valid()
      reads this, nodes
    {
      && size == |nodes| == |jobs| && head == NodeAt(nodes, 0)
      && Chained(nodes)
      && (forall i, j | 0 <= i < j < |nodes| :: nodes[i] != nodes[j])
      && (forall i | 0 <= i < |nodes| :: nodes[i].value == jobs[i])
    }

    constructor (cmp: (Info, Info) -> int)
      ensures Valid() && jobs == [] && nodes == [] && this.cmp == cmp
    {
      this.cmp, head, size, nodes, jobs := cmp, null, 0, [], [];
    }

    /** The last entry that the new one goes behind, and the index after it. */
    method Walk(x: Info, ghost infos: seq<Info>) returns (left: Node<Info>, index: int)
      requires Valid() && nodes != [] && infos == Infos(jobs) && cmp(x, infos[0]) >= 0
      ensures 1 <= index <= |nodes| && left == nodes[index - 1] && index == Place(cmp, infos, x)
    {
      index := 1;
      left := head;
      while left.next != null && !(cmp(left.value.info, x) <= 0 && cmp(x, left.next.value.info) < 0)
        invariant 1 <= index <= |nodes| && left == nodes[index - 1]
        invariant PlaceFrom(cmp, infos, x, 0) == PlaceFrom(cmp, infos, x, index - 1)
        decreases |nodes| - index
      {
        assert left.next == nodes[index];
        left := left.next;
        index := index + 1;
      }
    }

    /** Where the new entry goes: in front of the head, or behind the entry `left`. */
    method Find(x: Info, ghost infos: seq<Info>) returns (left: Node?<Info>, index: int)
      requires Valid() && infos == Infos(jobs)
      ensures index == Place(cmp, infos, x) <= |nodes|
      ensures if index == 0 then left == null else left == nodes[index - 1]
    {
      if head == null {
        return null, 0;
      }
      if cmp(x, head.value.info) < 0 {
        return null, 0;
      }
      left, index := Walk(x, infos);
    }

    method LinkFirst(entry: Node<Info>)
      requires Valid() && entry !in nodes
      modifies this, entry`next
      ensures Valid() && nodes == InsertAt(old(nodes), 0, entry) && jobs == InsertAt(old(jobs), 0, entry.value)
    {
      entry.next := head;
      head := entry;
      size := size + 1;
      nodes, jobs := InsertAt(nodes, 0, entry), InsertAt(jobs, 0, entry.value);
      InsertAtElements(old(nodes), 0, entry);
      InsertAtElements(old(jobs), 0, entry.value);
    }

    method LinkAfter(left: Node<Info>, entry: Node<Info>, ghost index: nat)
      requires Valid() && entry !in nodes && 1 <= index <= |nodes| && left == nodes[index - 1]
      modifies this, left`next, entry`next
      ensures Valid() && nodes == InsertAt(old(nodes), index, entry) && jobs == InsertAt(old(jobs), index, entry.value)
    {
      InsertAtElements(nodes, index, entry);
      InsertAtElements(jobs, index, entry.value);
      InsertAtDistinct(nodes, index, entry);
      entry.next := left.next;
      left.next := entry;
      size := size + 1;
      assert forall k | 0 <= k < |nodes| :: nodes[k].next == if k + 1 == index then entry else NodeAt(nodes, k + 1);
      ChainedInserted(nodes, index, entry, InsertAt(nodes, index, entry));
      nodes, jobs := InsertAt(nodes, index, entry), InsertAt(jobs, index, entry.value);
    }

    /** Puts the job where the walk stops, and returns that index; no job changes. */
    method Offer(job: Job<Info>, ghost infos: seq<Info>) returns (index: int)
      requires Valid() && infos == Infos(jobs)
      modifies this, nodes
      ensures Valid() && index == Place(cmp, infos, job.info) <= |infos| == |old(nodes)|
      ensures jobs == InsertAt(old(jobs), index, job)
      ensures forall n | n in nodes :: n in old(nodes) || fresh(n)
    {
      ghost var before := nodes;
      var left;
      left, index := Find(job.info, infos);
      var newentry := new Node(job);
      if left == null {
        LinkFirst(newentry);
      } else {
        LinkAfter(left, newentry, index);
      }
      NodesInserted(before, nodes, index, newentry);
    }

    /** Takes the head, if there is one. */
    method Poll() returns (job: Job?<Info>)
      requires Valid()
      modifies this
      ensures Valid()
      ensures if old(jobs) == [] then job == null && jobs == [] && nodes == []
              else job == old(jobs)[0] && jobs == old(jobs)[1..] && nodes == old(nodes)[1..]
    {
      if head == null {
        return null;
      }
      job := head.value;
      head := head.next;
      size := size - 1;
      nodes, jobs := nodes[1..], jobs[1..];
      assert forall i | 0 <= i < |nodes| :: nodes[i] == old(nodes)[i + 1];
    }
  }
}
