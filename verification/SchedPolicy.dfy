/** What the policies promise: who runs next, how long a job waits, and what the averages mean. */
module SchedPolicy {
  import opened Options
  import opened StableInsert
  import opened SchedModel

  // ---- Who runs next ----

  /** A free processor takes the head of the queue; a job with all of its time remaining starts. */
  lemma HeadIsTaken(w: World, time: int)
    requires Inv(w) && Legal(w, Quantum(time)) && w.running.None?
    ensures var w', q := Step(w, Quantum(time)), w.sched.queue;
            if q == [] then w'.running.None? && w'.sched.queue == []
            else && w'.sched.queue == q[1..]
                 && w'.running == Some(if q[0].remaining == q[0].running then q[0].(start := time as real) else q[0])
  {}

  /** Under FCFS, PRI and SJF the job on the processor goes on, charged for the time since the last quantum. */
  lemma RunningGoesOn(w: World, time: int)
    requires Inv(w) && Legal(w, Quantum(time)) && w.running.Some?
    requires w.sched.scheme == FCFS || w.sched.scheme == PRI || w.sched.scheme == SJF
    ensures var w', r := Step(w, Quantum(time)), w.running.value;
            && w'.sched.queue == w.sched.queue
            && w'.running == Some(r.(remaining := r.remaining - (time - w.sched.now) as real))
  {}

  /** Under the other policies it is evicted and charged, and goes on or changes places with the head of the queue. */
  lemma EvictedGoesOnOrWaits(w: World, time: int) returns (evicted: Info)
    requires Inv(w) && Legal(w, Quantum(time)) && w.running.Some?
    requires w.sched.scheme == PPRI || w.sched.scheme == PSRTF || w.sched.scheme == RR
    ensures evicted == w.running.value.(remaining := w.running.value.remaining - (time - w.sched.now) as real,
                                        last := time as real)
    ensures var w', q := Step(w, Quantum(time)), w.sched.queue;
            || (w'.running == Some(evicted) && w'.sched.queue == q)
            || (&& q != [] && multiset(w'.sched.queue) == multiset(q[1..]) + multiset{evicted}
                && w'.running == Some(if q[0].remaining == q[0].running then q[0].(start := time as real) else q[0]))
  {
    evicted := Requeued(w, time);
    ChargedAccounted(w, Settle(w, time), time);
    var r := Insert(Comparer(w.sched.scheme), w.sched.queue, evicted);
    HeadOrEvicted(w.sched.scheme, w.sched.queue, evicted, r, time);
    QuantumQueue(w, time, r);
  }

  lemma HeadOrEvicted(s: Scheme, q: seq<Info>, x: Info, r: seq<Info>, time: int)
    requires Sorted(Comparer(s), q) && r == Insert(Comparer(s), q, x) && x.remaining != x.running
    ensures r != []
    ensures (Dispatched(r[0], time) == x && r[1..] == q)
         || (&& q != [] && multiset(r[1..]) == multiset(q[1..]) + multiset{x}
             && Dispatched(r[0], time) == if q[0].remaining == q[0].running then q[0].(start := time as real) else q[0])
  {
    EvictedOrHead(s, q, x);
  }

  lemma QuantumQueue(w: World, time: int, q: seq<Info>)
    requires Inv(w) && Legal(w, Quantum(time)) && w.running.Some? && Preemptive(w.sched.scheme)
    requires q == Insert(Comparer(w.sched.scheme), w.sched.queue, Requeued(w, time)) && q != []
    ensures var w' := Step(w, Quantum(time));
            w'.sched.queue == q[1..] && w'.running == Some(Dispatched(q[0], time))
  {}

  /** The evicted job becomes the head of the queue exactly if it comes before all that wait. */
  lemma EvictedOrHead(s: Scheme, q: seq<Info>, x: Info)
    requires Sorted(Comparer(s), q)
    ensures var r := Insert(Comparer(s), q, x);
            && r != []
            && if forall i | i in q :: Compare(s, x, i) < 0 then r[0] == x && r[1..] == q
               else q != [] && r[0] == q[0] && multiset(r[1..]) == multiset(q[1..]) + multiset{x}
  {
    ComparerIsPreorder(s);
    InsertHead(Comparer(s), q, x);
  }

  /** The next job comes before all that are ready, strictly if it is the evicted one. */
  lemma NextIsLeast(w: World, time: int) returns (next: Option<Info>)
    requires Inv(w) && Legal(w, Quantum(time)) && (w.running.Some? ==> Preemptive(w.sched.scheme))
    ensures next == Step(w, Quantum(time)).running && (next.None? <==> w.sched.queue == [] && w.running.None?)
    ensures next.Some? ==> forall i | i in w.sched.queue :: Compare(w.sched.scheme, next.value, i) <= 0
    ensures w.running.Some? ==>
              && Compare(w.sched.scheme, next.value, Requeued(w, time)) <= 0
              && (next.value.id == w.running.value.id ==>
                    && next.value == Requeued(w, time)
                    && forall i | i in w.sched.queue :: Compare(w.sched.scheme, next.value, i) < 0)
  {
    QuantumSteps(w, time);
    next := Dispatch(Settle(w, time)).running;
    SettleKeeps(w, time);
    var ready := Settle(w, time).sched.queue;
    if w.running.Some? {
      ChargedAccounted(w, Settle(w, time), time);
      InsertJoins(w.sched.scheme, w.sched.queue, Requeued(w, time));
      EvictedOrHead(w.sched.scheme, w.sched.queue, Requeued(w, time));
    }
    if ready != [] {
      HeadIsLeast(w.sched.scheme, ready, time);
      assert ready[0] in ready;
    }
  }

  lemma HeadIsLeast(s: Scheme, q: seq<Info>, time: int)
    requires q != [] && Sorted(Comparer(s), q)
    ensures forall i | i in q :: Compare(s, Dispatched(q[0], time), i) <= 0
  {
    forall i | i in q ensures Compare(s, q[0], i) <= 0 {
      var k :| 0 <= k < |q| && q[k] == i;
      assert k > 0 ==> Comparer(s)(q[0], q[k]) <= 0;
    }
  }

  /** Preemptive shortest remaining time first: the next job has the least time remaining of all that are ready,
      the evicted one included, and among those with equal time it arrived first. */
  lemma LeastRemainingRuns(w: World, time: int)
    requires Inv(w) && Legal(w, Quantum(time)) && w.sched.scheme == PSRTF
    ensures var next := Step(w, Quantum(time)).running;
            && (next.None? <==> w.sched.queue == [] && w.running.None?)
            && (next.Some? ==> forall i | i in w.sched.queue ::
                  || next.value.remaining < i.remaining
                  || (next.value.remaining == i.remaining && next.value.arrive <= i.arrive))
            && (w.running.Some? ==>
                  var r := w.running.value;
                  var left := r.remaining - (time - w.sched.now) as real;
                  && (|| next.value.remaining < left
                      || (next.value.remaining == left && next.value.arrive <= r.arrive))
                  && (next.value.id == r.id ==> next.value.remaining == left && forall i | i in w.sched.queue ::
                        left < i.remaining || (left == i.remaining && r.arrive < i.arrive)))
  {
    var next := NextIsLeast(w, time);
  }

  /** Preemptive priority: likewise the least priority. */
  lemma LeastPriorityRuns(w: World, time: int)
    requires Inv(w) && Legal(w, Quantum(time)) && w.sched.scheme == PPRI
    ensures var next := Step(w, Quantum(time)).running;
            && (next.None? <==> w.sched.queue == [] && w.running.None?)
            && (next.Some? ==> forall i | i in w.sched.queue ::
                  || next.value.priority < i.priority
                  || (next.value.priority == i.priority && next.value.arrive <= i.arrive))
            && (w.running.Some? ==>
                  var r := w.running.value;
                  && (|| next.value.priority < r.priority
                      || (next.value.priority == r.priority && next.value.arrive <= r.arrive))
                  && (next.value.id == r.id ==> next.value.priority == r.priority && forall i | i in w.sched.queue ::
                        r.priority < i.priority || (r.priority == i.priority && r.arrive < i.arrive)))
  {
    var next := NextIsLeast(w, time);
  }

  /** Round robin: the job that was evicted longest ago, or never, and among those the one that arrived first; the
      evicted one only if no other is ready. */
  lemma LongestWaitingRuns(w: World, time: int)
    requires Inv(w) && Legal(w, Quantum(time)) && w.sched.scheme == RR
    ensures var next := Step(w, Quantum(time)).running;
            && (next.None? <==> w.sched.queue == [] && w.running.None?)
            && (next.Some? ==> forall i | i in w.sched.queue ::
                  next.value.last < i.last || (next.value.last == i.last && next.value.arrive <= i.arrive))
            && (w.running.Some? ==>
                  && next.value.last <= time as real
                  && (next.value.id == w.running.value.id <==> w.sched.queue == []))
  {
    var next := NextIsLeast(w, time);
    if w.running.Some? && w.sched.queue != [] {
      QuantumTurns(w, time);
      assert w.sched.queue[0] in w.sched.queue;
    }
  }

  /** First come first served, priority, shortest job first: when the processor is free, the job that arrived
      first, that has the least priority, that has the least running time; the latter two by arrival among equals. */
  lemma FreeProcessorTakes(w: World, time: int)
    requires Inv(w) && Legal(w, Quantum(time)) && w.running.None?
    ensures var s, next := w.sched.scheme, Step(w, Quantum(time)).running;
            && (next.None? <==> w.sched.queue == [])
            && forall i | next.Some? && i in w.sched.queue ::
                 && (s == FCFS ==> next.value.arrive <= i.arrive)
                 && (s == PRI ==> || next.value.priority < i.priority
                                  || (next.value.priority == i.priority && next.value.arrive <= i.arrive))
                 && (s == SJF ==> || next.value.running < i.running
                                  || (next.value.running == i.running && next.value.arrive <= i.arrive))
  {
    var next := NextIsLeast(w, time);
  }

  /** A new job waits with all of its time remaining, and nothing else changes but the count. */
  lemma ArrivalWaits(w: World, e: Event) returns (p: nat)
    requires e.Arrive?
    ensures var w', n := Step(w, e), w.sched.arrived + 1;
            && p <= |w.sched.queue|
            && w'.sched.queue == w.sched.queue[..p] + w'.sched.queue[p..p + 1] + w.sched.queue[p..]
            && w' == w.(sched := w.sched.(arrived := n, queue := w'.sched.queue))
    ensures var i := Step(w, e).sched.queue[p];
            && i.id == w.sched.arrived + 1 && i.running == e.running && i.priority == e.priority && i.arrive == e.at
            && i.remaining == e.running && i.start == 0.0 && i.last == 0.0
  {
    p := Place(Comparer(w.sched.scheme), w.sched.queue, NewInfo(w.sched.arrived + 1, e.priority, e.running, e.at));
  }

  /** Without preemption a job stays on the processor until it is done. */
  lemma {:induction false} KeepsProcessor(w: World, es: seq<Event>)
    requires Inv(w) && LegalRun(w, es) && w.running.Some?
    requires w.sched.scheme == FCFS || w.sched.scheme == PRI || w.sched.scheme == SJF
    requires forall e | e in es :: !e.Done?
    ensures Run(w, es).running.Some? && Run(w, es).running.value.id == w.running.value.id
    decreases |es|
  {
    if es != [] {
      StepKeeps(w, es[0]);
      KeepsProcessor(Step(w, es[0]), es[1..]);
    }
  }

  // ---- Round robin ----

  function Ids(q: seq<Info>): (r: seq<nat>)
    ensures |r| == |q| && forall k | 0 <= k < |q| :: r[k] == q[k].id
  {
    if q == [] then [] else [q[0].id] + Ids(q[1..])
  }

  /** The queue with the running job behind it. */
  function Circle(w: World): seq<nat> {
    Ids(w.sched.queue) + if w.running.Some? then [w.running.value.id] else []
  }

  /** An evicted job goes to the end of the queue. */
  lemma EvictedGoesLast(w: World, time: int)
    requires Inv(w) && Legal(w, Quantum(time)) && w.sched.scheme == RR && w.running.Some?
    ensures Settle(w, time).sched.queue == w.sched.queue + [Requeued(w, time)]
  {
    ComparerIsPreorder(RR);
    InsertAtEnd(Comparer(RR), w.sched.queue, Requeued(w, time));
    forall k | 0 <= k < |w.sched.queue| ensures Comparer(RR)(w.sched.queue[k], Requeued(w, time)) <= 0 {
      assert w.sched.queue[k] in w.sched.queue;
    }
  }

  lemma QuantumTurns(w: World, time: int)
    requires Inv(w) && Legal(w, Quantum(time)) && w.sched.scheme == RR
    ensures var w' := Step(w, Quantum(time));
            if Circle(w) == [] then w'.running.None? && w'.sched.queue == []
            else w'.running.Some? && w'.running.value.id == Circle(w)[0] && Ids(w'.sched.queue) == Circle(w)[1..]
  {
    QuantumSteps(w, time);
    if w.running.Some? { EvictedGoesLast(w, time); }
    assert Ids(Settle(w, time).sched.queue) == Circle(w);
  }

  function Quanta(es: seq<Event>): nat {
    if es == [] then 0 else (if es[0].Quantum? then 1 else 0) + Quanta(es[1..])
  }

  function Arrivals(es: seq<Event>): nat {
    if es == [] then 0 else (if es[0].Arrive? then 1 else 0) + Arrivals(es[1..])
  }

  lemma ArrivalShifts(w: World, e: Event, k: nat) returns (k': nat)
    requires Inv(w) && e.Arrive? && k < |w.sched.queue|
    ensures var q := Step(w, e).sched.queue; k <= k' <= k + 1 && k' < |q| && q[k'].id == w.sched.queue[k].id
  {
    var x := NewInfo(w.sched.arrived + 1, e.priority, e.running, e.at);
    var p := Place(Comparer(w.sched.scheme), w.sched.queue, x);
    k' := if k < p then k else k + 1;
    InsertShifts(w.sched.queue, p, x, k, Step(w, e).sched.queue);
  }

  /** Every quantum brings a waiting job one place forward, and every arrival at most one place back. */
  lemma NextPlace(w: World, e: Event, k: nat) returns (k': nat)
    requires Inv(w) && Legal(w, e) && w.sched.scheme == RR && k < |w.sched.queue| && (e.Quantum? ==> k > 0)
    ensures var w1 := Step(w, e);
            && Inv(w1) && w1.sched.scheme == RR && k' < |w1.sched.queue| && w1.sched.queue[k'].id == w.sched.queue[k].id
            && k' + (if e.Quantum? then 1 else 0) <= k + (if e.Arrive? then 1 else 0)
  {
    StepKeeps(w, e);
    match e
    case Arrive(_, _, _) => k' := ArrivalShifts(w, e, k);
    case Done(_) => k' := k;
    case Quantum(time) =>
      QuantumTurns(w, time);
      k' := k - 1;
      assert Ids(Step(w, e).sched.queue)[k'] == Circle(w)[k];
  }

  lemma RunFirst(w: World, es: seq<Event>, n: nat)
    requires n < |es| && Legal(w, es[0]) && LegalRun(Step(w, es[0]), es[1..][..n])
    ensures LegalRun(w, es[..n + 1]) && Run(w, es[..n + 1]) == Run(Step(w, es[0]), es[1..][..n])
    ensures Quanta(es[..n + 1]) == (if es[0].Quantum? then 1 else 0) + Quanta(es[1..][..n])
    ensures Arrivals(es[..n + 1]) == (if es[0].Arrive? then 1 else 0) + Arrivals(es[1..][..n])
  {
    assert es[..n + 1][1..] == es[1..][..n];
  }

  /** The `n`-th event is the quantum that dispatches the job, and it comes in time. */
  ghost predicate DispatchedAt(w: World, es: seq<Event>, id: nat, k: nat, n: nat) {
    && 0 < n <= |es| && es[n - 1].Quantum? && LegalRun(w, es[..n])
    && Run(w, es[..n]).running.Some? && Run(w, es[..n]).running.value.id == id
    && Quanta(es[..n]) <= k + 1 + Arrivals(es[..n])
  }

  lemma DispatchedLater(w: World, es: seq<Event>, id: nat, k: nat, k': nat, m: nat)
    requires es != [] && Legal(w, es[0]) && DispatchedAt(Step(w, es[0]), es[1..], id, k', m)
    requires k' + (if es[0].Quantum? then 1 else 0) <= k + (if es[0].Arrive? then 1 else 0)
    ensures DispatchedAt(w, es, id, k, m + 1)
  {
    RunFirst(w, es, m);
  }

  lemma DispatchedNow(w: World, es: seq<Event>)
    requires Inv(w) && es != [] && Legal(w, es[0]) && es[0].Quantum? && w.sched.scheme == RR && w.sched.queue != []
    ensures DispatchedAt(w, es, w.sched.queue[0].id, 0, 1)
  {
    QuantumTurns(w, es[0].time);
    RunFirst(w, es, 0);
  }

  /** Bounded waiting: a job in place `k` of the queue is dispatched within `k + 1` quanta, and one more for
      every job that arrives meanwhile. */
  lemma {:induction false} BoundedWaiting(w: World, es: seq<Event>, k: nat) returns (n: nat)
    requires Inv(w) && LegalRun(w, es) && w.sched.scheme == RR && k < |w.sched.queue|
    requires Quanta(es) >= k + 1 + Arrivals(es)
    ensures DispatchedAt(w, es, w.sched.queue[k].id, k, n)
    decreases |es|
  {
    if es[0].Quantum? && k == 0 {
      n := 1;
      DispatchedNow(w, es);
    } else {
      var k' := NextPlace(w, es[0], k);
      var m := BoundedWaiting(Step(w, es[0]), es[1..], k');
      n := m + 1;
      DispatchedLater(w, es, w.sched.queue[k].id, k, k', m);
    }
  }

  /** The jobs in the order in which they were dispatched. */
  function Dispatches(w: World, es: seq<Event>): seq<nat>
    requires LegalRun(w, es)
    decreases |es|
  {
    if es == [] then []
    else
      var w1 := Step(w, es[0]);
      (if es[0].Quantum? && w1.running.Some? then [w1.running.value.id] else []) + Dispatches(w1, es[1..])
  }

  lemma {:induction false} QueueTakesTurns(w: World, es: seq<Event>)
    requires Inv(w) && LegalRun(w, es) && w.sched.scheme == RR && Arrivals(es) == 0 && Quanta(es) <= |w.sched.queue|
    ensures Dispatches(w, es) == Ids(w.sched.queue)[..Quanta(es)]
    decreases |es|
  {
    if es != [] {
      StepKeeps(w, es[0]);
      if es[0].Quantum? {
        NextTurn(w, es[0]);
        TakeOne(Ids(w.sched.queue), Ids(Step(w, es[0]).sched.queue), Quanta(es[1..]));
      }
      QueueTakesTurns(Step(w, es[0]), es[1..]);
    }
  }

  lemma NextTurn(w: World, e: Event)
    requires Inv(w) && Legal(w, e) && w.sched.scheme == RR && e.Quantum? && w.sched.queue != []
    ensures var w1, ids := Step(w, e), Ids(w.sched.queue);
            w1.running.Some? && w1.running.value.id == ids[0] && ids[1..] <= Ids(w1.sched.queue)
  {
    QuantumTurns(w, e.time);
    TailOfSum(Ids(w.sched.queue), if w.running.Some? then [w.running.value.id] else []);
  }

  lemma TailOfSum(a: seq<nat>, b: seq<nat>)
    requires a != []
    ensures (a + b)[0] == a[0] && a[1..] <= (a + b)[1..]
  {
    assert (a + b)[1..] == a[1..] + b;
  }

  lemma TakeOne(a: seq<nat>, b: seq<nat>, n: nat)
    requires a != [] && a[1..] <= b && n < |a|
    ensures [a[0]] + b[..n] == a[..n + 1] && |b| + 1 >= |a|
  {
    assert b[..n] == a[1..][..n];
  }

  /** Without arrivals, between two dispatches of a job every job that waited is dispatched once, in turn. */
  lemma FullTurn(w: World, es: seq<Event>)
    requires Inv(w) && LegalRun(w, es) && w.sched.scheme == RR && w.running.Some? && Arrivals(es) == 0
    requires es != [] && es[0].Quantum? && Quanta(es) == |w.sched.queue| + 1
    ensures Dispatches(w, es) == Ids(w.sched.queue) + [w.running.value.id]
    ensures forall j, k | 0 <= j < k < |Dispatches(w, es)| :: Dispatches(w, es)[j] != Dispatches(w, es)[k]
  {
    var c := Circle(w);
    CircleDistinct(w);
    FirstTurn(w, es[0], c);
    QueueTakesTurns(Step(w, es[0]), es[1..]);
    TakeAll(c);
  }

  lemma TakeAll(c: seq<nat>)
    requires c != []
    ensures [c[0]] + c[1..][..|c| - 1] == c
  {}

  lemma FirstTurn(w: World, e: Event, c: seq<nat>)
    requires Inv(w) && Legal(w, e) && e.Quantum? && w.sched.scheme == RR && w.running.Some? && c == Circle(w)
    ensures var w1 := Step(w, e);
            && Inv(w1) && w1.sched.scheme == RR && |w1.sched.queue| == |w.sched.queue|
            && w1.running.Some? && w1.running.value.id == c[0] && Ids(w1.sched.queue) == c[1..]
  {
    StepKeeps(w, e);
    QuantumTurns(w, e.time);
  }

  lemma CircleDistinct(w: World)
    requires Apart(w)
    ensures forall j, k | 0 <= j < k < |Circle(w)| :: Circle(w)[j] != Circle(w)[k]
  {
    forall j, k | 0 <= j < k < |Circle(w)| ensures Circle(w)[j] != Circle(w)[k] {
      assert w.sched.queue[j] in w.sched.queue;
    }
  }

  // ---- The averages ----

  function AverageWait(s: Sched): real
    requires s.finished > 0
  {
    s.wait / s.finished as real
  }

  function AverageTurnaround(s: Sched): real
    requires s.finished > 0
  {
    s.turnaround / s.finished as real
  }

  function AverageResponse(s: Sched): real
    requires s.finished > 0
  {
    s.response / s.finished as real
  }

  lemma {:induction false} TotalResponse(ps: seq<Past>)
    requires forall p | p in ps :: p.given <= p.end - p.first as real && p.given >= p.info.running
    ensures Response(ps) <= Turnaround(ps) - RunningTimes(ps)
  {
    if ps != [] {
      var p := ps[|ps| - 1];
      assert p in ps;
      TotalResponse(ps[..|ps| - 1]);
    }
  }

  lemma Quotients(turnaround: real, running: real, wait: real, response: real, n: real)
    requires n > 0.0 && wait == turnaround - running
    ensures wait / n == turnaround / n - running / n
    ensures response <= wait ==> response / n <= wait / n
  {}

  /** In every run the average wait is the average turnaround less the average running time; and it is at
      least the average response if every finished job got its running time. */
  lemma AveragesAgree(scheme: Scheme, es: seq<Event>)
    requires LegalRun(Start(scheme), es) && Run(Start(scheme), es).sched.finished > 0
    ensures var w := Run(Start(scheme), es);
            && w.sched.finished == |w.past|
            && AverageTurnaround(w.sched) == Turnaround(w.past) / w.sched.finished as real
            && AverageResponse(w.sched) == Response(w.past) / w.sched.finished as real
            && AverageWait(w.sched) == AverageTurnaround(w.sched) - RunningTimes(w.past) / w.sched.finished as real
            && ((forall p | p in w.past :: p.given == p.info.running) ==>
                  AverageWait(w.sched) >= AverageResponse(w.sched))
  {
    StartInv(scheme);
    RunKeeps(Start(scheme), es);
    var w := Run(Start(scheme), es);
    Quotients(Turnaround(w.past), RunningTimes(w.past), w.sched.wait, Response(w.past), w.sched.finished as real);
    if forall p | p in w.past :: p.given == p.info.running { TotalResponse(w.past); }
  }

  /** The accounts at any moment of any run: jobs are conserved, and the remaining time and the start of a
      job are what really happened. */
  lemma RunAccounts(scheme: Scheme, es: seq<Event>)
    requires LegalRun(Start(scheme), es)
    ensures var w := Run(Start(scheme), es);
            && Sorted(Comparer(w.sched.scheme), w.sched.queue)
            && w.sched.arrived == |w.sched.queue| + (if w.running.Some? then 1 else 0) + w.sched.finished
            && forall i | i in w.sched.queue || w.running == Some(i) ::
                 && i.remaining == i.running - Given(w, i.id)
                 && (i.id in w.first ==> i.start == w.first[i.id] as real)
  {
    StartInv(scheme);
    RunKeeps(Start(scheme), es);
    var w := Run(Start(scheme), es);
    forall i | i in w.sched.queue || w.running == Some(i) ensures Accounted(w, i) {}
  }
}
