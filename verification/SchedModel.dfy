/** The scheduler on values: six policies, one queue, running statistics, and the runs that its callers make. */
module SchedModel {
  import opened Options
  import opened StableInsert

  datatype Scheme = FCFS | PPRI | PRI | PSRTF | RR | SJF

  datatype Info = Info(id: nat, running: real, priority: real, arrive: real, remaining: real, start: real, last: real)

  predicate Preemptive(s: Scheme) { s == PPRI || s == PSRTF || s == RR }

  function Order(x: real, y: real): int { if x < y then -1 else if x > y then 1 else 0 }

  function Key(s: Scheme, i: Info): real {
    match s
    case FCFS => i.arrive
    case PPRI => i.priority
    case PRI => i.priority
    case PSRTF => i.remaining
    case RR => i.last
    case SJF => i.running
  }

  /** Ties are broken by arrival. */
  function Compare(s: Scheme, a: Info, b: Info): int {
    var c := Order(Key(s, a), Key(s, b));
    if c != 0 then c else Order(a.arrive, b.arrive)
  }

  function Comparer(s: Scheme): (Info, Info) -> int { (a, b) => Compare(s, a, b) }

  lemma ComparerIsPreorder(s: Scheme)
    ensures TotalPreorder(Comparer(s)) && forall a, b :: -1 <= Comparer(s)(a, b) <= 1
  {}

  // ---- The library ----

  /** `now` is the time of the last quantum, or -1. */
  datatype Sched = Sched(scheme: Scheme, queue: seq<Info>, now: int, arrived: nat, finished: nat,
                         turnaround: real, wait: real, response: real)

  function StartUp(scheme: Scheme): Sched { Sched(scheme, [], -1, 0, 0, 0.0, 0.0, 0.0) }

  function NewInfo(id: nat, priority: real, running: real, time: real): Info {
    Info(id, running, priority, time, running, 0.0, 0.0)
  }

  function NewJob(s: Sched, id: nat, priority: real, running: real, time: real): Sched {
    s.(arrived := s.arrived + 1, queue := Insert(Comparer(s.scheme), s.queue, NewInfo(id, priority, running, time)))
  }

  /** The evicted job pays for the time since the last quantum. */
  function Charged(s: Sched, i: Info, time: int): Info {
    if s.now != -1 then i.(remaining := i.remaining - (time - s.now) as real) else i
  }

  /** A job with all of its time remaining starts now. */
  function Dispatched(i: Info, time: int): Info {
    if i.remaining == i.running then i.(start := time as real) else i
  }

  /** The head of the queue leaves it. */
  function Take(s: Sched, time: int): (Sched, Option<Info>) {
    if s.queue == [] then (s, None) else (s.(queue := s.queue[1..]), Some(Dispatched(s.queue[0], time)))
  }

  function Expire(s: Sched, evicted: Option<Info>, time: int): (Sched, Option<Info>) {
    if evicted.Some? && !Preemptive(s.scheme) then (s.(now := time), Some(Charged(s, evicted.value, time)))
    else if evicted.Some? then
      var requeued := Charged(s, evicted.value, time).(last := time as real);
      Take(s.(now := time, queue := Insert(Comparer(s.scheme), s.queue, requeued)), time)
    else Take(s.(now := time), time)
  }

  function Finish(s: Sched, i: Info, time: real): Sched {
    s.(finished := s.finished + 1, turnaround := s.turnaround + (time - i.arrive),
       wait := s.wait + (time - i.arrive - i.running), response := s.response + (i.start - i.arrive))
  }

  // ---- Its callers ----

  datatype Event = Arrive(priority: real, running: real, at: real) | Quantum(time: int) | Done(end: real)

  /** A finished job with its first dispatch and the processor time that it got. */
  datatype Past = Past(info: Info, end: real, first: int, given: real)

  /** What is really going on beside what the library knows: the job on the processor, the processor time
      each job got up to the last quantum, its first dispatch, and the finished jobs. */
  datatype World = World(sched: Sched, running: Option<Info>, given: map<nat, real>, first: map<nat, int>,
                         past: seq<Past>)

  function Given(w: World, id: nat): real { if id in w.given then w.given[id] else 0.0 }

  function Start(scheme: Scheme): World { World(StartUp(scheme), None, map[], map[], []) }

  /** Quantum times increase from 0 on; a job finishes after the quantum that it runs in began. */
  predicate Legal(w: World, e: Event) {
    match e
    case Arrive(_, _, _) => true
    case Quantum(time) => time > w.sched.now
    case Done(end) => w.running.Some? && end >= w.sched.now as real
  }

  function Step(w: World, e: Event): World
    requires Legal(w, e)
  {
    match e
    case Arrive(priority, running, at) => w.(sched := NewJob(w.sched, w.sched.arrived + 1, priority, running, at))
    case Quantum(time) =>
      var (sched, next) := Expire(w.sched, w.running, time);
      World(sched, next,
            if w.running.Some? then
              w.given[w.running.value.id := Given(w, w.running.value.id) + (time - w.sched.now) as real]
            else w.given,
            if next.Some? && next.value.id !in w.first then w.first[next.value.id := time] else w.first,
            w.past)
    case Done(end) =>
      var i := w.running.value;
      var first := if i.id in w.first then w.first[i.id] else 0;
      w.(sched := Finish(w.sched, i, end), running := None,
         past := w.past + [Past(i, end, first, Given(w, i.id) + (end - w.sched.now as real))])
  }

  predicate LegalRun(w: World, es: seq<Event>)
    decreases |es|
  {
    es == [] || (Legal(w, es[0]) && LegalRun(Step(w, es[0]), es[1..]))
  }

  function Run(w: World, es: seq<Event>): World
    requires LegalRun(w, es)
    decreases |es|
  {
    if es == [] then w else Run(Step(w, es[0]), es[1..])
  }

  // ---- What every event keeps ----

  /** The remaining time is the running time less the processor time given; the start is the first dispatch;
      and no job got more processor time than has passed since then. */
  ghost predicate Accounted(w: World, i: Info) {
    && i.id <= w.sched.arrived
    && i.remaining == i.running - Given(w, i.id)
    && (i.id in w.first ==>
          && i.start == w.first[i.id] as real && 0 <= w.first[i.id] <= w.sched.now
          && Given(w, i.id) <= (w.sched.now - w.first[i.id]) as real)
    && (i.id !in w.first ==> Given(w, i.id) == 0.0)
  }

  ghost predicate QueueAccounted(w: World) {
    && (forall i | i in w.sched.queue :: Accounted(w, i) && (i.id in w.first ==> Given(w, i.id) > 0.0))
    && (forall i | i in w.sched.queue :: 0.0 <= i.last <= (if w.sched.now < 0 then 0 else w.sched.now) as real)
  }

  ghost predicate RunningAccounted(w: World) {
    w.running.Some? ==> w.sched.now >= 0 && Accounted(w, w.running.value) && w.running.value.id in w.first
                        && Given(w, w.running.value.id) >= 0.0
  }

  /** Every job is in one place. */
  ghost predicate Apart(w: World) {
    && DistinctIds(w.sched.queue)
    && (w.running.Some? ==> forall i | i in w.sched.queue :: i.id != w.running.value.id)
  }

  ghost predicate Conserved(w: World) {
    && w.sched.arrived == |w.sched.queue| + (if w.running.Some? then 1 else 0) + w.sched.finished
    && w.sched.finished == |w.past|
  }

  function Turnaround(ps: seq<Past>): real {
    if ps == [] then 0.0 else Turnaround(ps[..|ps| - 1]) + (ps[|ps| - 1].end - ps[|ps| - 1].info.arrive)
  }

  function Response(ps: seq<Past>): real {
    if ps == [] then 0.0 else Response(ps[..|ps| - 1]) + (ps[|ps| - 1].first as real - ps[|ps| - 1].info.arrive)
  }

  function RunningTimes(ps: seq<Past>): real {
    if ps == [] then 0.0 else RunningTimes(ps[..|ps| - 1]) + ps[|ps| - 1].info.running
  }

  /** The totals are those of the finished jobs, and none got more time than it was there. */
  ghost predicate Counted(w: World) {
    && w.sched.turnaround == Turnaround(w.past) && w.sched.response == Response(w.past)
    && w.sched.wait == Turnaround(w.past) - RunningTimes(w.past)
    && forall p | p in w.past :: p.given <= p.end - p.first as real
  }

  ghost predicate Inv(w: World) {
    && Sorted(Comparer(w.sched.scheme), w.sched.queue)
    && QueueAccounted(w) && RunningAccounted(w) && Apart(w) && Conserved(w) && Counted(w)
    && w.sched.now >= -1 && (forall id | id in w.first || id in w.given :: id <= w.sched.arrived)
  }

  lemma StartInv(scheme: Scheme)
    ensures Inv(Start(scheme)) && Legal(Start(scheme), Quantum(0))
  {}

  ghost predicate DistinctIds(q: seq<Info>) { forall j, k | 0 <= j < k < |q| :: q[j].id != q[k].id }

  /** `r` is `q` with `x` put somewhere, and still sorted. */
  ghost predicate Joined(s: Scheme, q: seq<Info>, x: Info, r: seq<Info>) {
    && Sorted(Comparer(s), r) && |r| == |q| + 1 && (forall i :: i in r <==> i in q || i == x)
    && (DistinctIds(q) && (forall i | i in q :: i.id != x.id) ==> DistinctIds(r))
  }

  lemma InsertJoins(s: Scheme, q: seq<Info>, x: Info)
    requires Sorted(Comparer(s), q)
    ensures Joined(s, q, x, Insert(Comparer(s), q, x))
  {
    ComparerIsPreorder(s);
    InsertIsStable(Comparer(s), q, x);
    var r := Insert(Comparer(s), q, x);
    forall i ensures i in r <==> i in q || i == x {
      assert i in multiset(r) <==> i in multiset(q) + multiset{x};
    }
    InsertDistinct(q, x, Place(Comparer(s), q, x), r);
  }

  lemma InsertDistinct(q: seq<Info>, x: Info, p: nat, r: seq<Info>)
    requires p <= |q| && r == q[..p] + [x] + q[p..]
    ensures DistinctIds(q) && (forall i | i in q :: i.id != x.id) ==> DistinctIds(r)
  {
    if DistinctIds(q) && forall i | i in q :: i.id != x.id {
      forall j, k | 0 <= j < k < |r| ensures r[j].id != r[k].id {
        assert j != p ==> r[j] == q[if j < p then j else j - 1] && r[j] in q;
        assert k != p ==> r[k] == q[if k < p then k else k - 1] && r[k] in q;
      }
    }
  }

  lemma ArriveKeeps(w: World, e: Event)
    requires Inv(w) && e.Arrive? && Legal(w, e)
    ensures Inv(Step(w, e))
  {
    var x, w' := NewInfo(w.sched.arrived + 1, e.priority, e.running, e.at), Step(w, e);
    assert w' == w.(sched := w.sched.(arrived := w.sched.arrived + 1, queue := w'.sched.queue));
    InsertJoins(w.sched.scheme, w.sched.queue, x);
    ArrivalJoins(w, w', x);
  }

  lemma ArrivalJoins(w: World, w': World, x: Info)
    requires Inv(w) && x.id == w.sched.arrived + 1 && x.remaining == x.running && x.last == 0.0
    requires Joined(w.sched.scheme, w.sched.queue, x, w'.sched.queue)
    requires w' == w.(sched := w.sched.(arrived := w.sched.arrived + 1, queue := w'.sched.queue))
    ensures Inv(w')
  {
    forall i | i in w'.sched.queue ensures Accounted(w', i) && (i.id in w'.first ==> Given(w', i.id) > 0.0) {
      if i in w.sched.queue { assert Accounted(w, i); }
    }
  }

  lemma DoneKeeps(w: World, e: Event)
    requires Inv(w) && e.Done? && Legal(w, e)
    ensures Inv(Step(w, e))
  {
    var w' := Step(w, e);
    assert w'.past[..|w.past|] == w.past;
  }

  // A quantum in two steps: the running job is charged and queued, then the head of the queue is dispatched.

  function ChargedGiven(w: World, time: int): map<nat, real> {
    if w.running.Some? then w.given[w.running.value.id := Given(w, w.running.value.id) + (time - w.sched.now) as real]
    else w.given
  }

  function Requeued(w: World, time: int): Info
    requires w.running.Some?
  {
    Charged(w.sched, w.running.value, time).(last := time as real)
  }

  function Settle(w: World, time: int): World {
    w.(sched := w.sched.(now := time,
                         queue := if w.running.Some? then
                                    Insert(Comparer(w.sched.scheme), w.sched.queue, Requeued(w, time))
                                  else w.sched.queue),
       running := None, given := ChargedGiven(w, time))
  }

  function Dispatch(w: World): World {
    if w.sched.queue == [] then w
    else
      var next := Dispatched(w.sched.queue[0], w.sched.now);
      w.(sched := w.sched.(queue := w.sched.queue[1..]), running := Some(next),
         first := if next.id !in w.first then w.first[next.id := w.sched.now] else w.first)
  }

  /** A job that may not be preempted is charged and goes on. */
  function Proceed(w: World, time: int): World
    requires w.running.Some?
  {
    w.(sched := w.sched.(now := time), running := Some(Charged(w.sched, w.running.value, time)),
       given := ChargedGiven(w, time))
  }

  lemma QuantumSteps(w: World, time: int)
    requires Legal(w, Quantum(time)) && RunningAccounted(w)
    ensures Step(w, Quantum(time)) ==
            if w.running.Some? && !Preemptive(w.sched.scheme) then Proceed(w, time) else Dispatch(Settle(w, time))
  {}

  /** The charge is the same to the library and in truth. */
  lemma ChargedAccounted(w: World, w': World, time: int)
    requires Inv(w) && w.running.Some? && time > w.sched.now && w'.given == ChargedGiven(w, time)
    requires w'.first == w.first && w'.sched.now == time && w'.sched.arrived == w.sched.arrived
    ensures var i := Charged(w.sched, w.running.value, time);
            && Accounted(w', i) && Accounted(w', i.(last := time as real)) && Given(w', i.id) > 0.0
            && i.id == w.running.value.id && i.id in w'.first
  {}

  lemma OthersAccounted(w: World, w': World, time: int)
    requires Inv(w) && time > w.sched.now && w'.given == ChargedGiven(w, time)
    requires w'.first == w.first && w'.sched.now == time && w'.sched.arrived == w.sched.arrived
    ensures forall i | i in w.sched.queue ::
              Accounted(w', i) && (i.id in w'.first ==> Given(w', i.id) > 0.0) && 0.0 <= i.last <= time as real
  {
    forall i | i in w.sched.queue ensures Accounted(w', i) && (i.id in w'.first ==> Given(w', i.id) > 0.0) {
      assert Accounted(w, i) && Given(w', i.id) == Given(w, i.id);
    }
  }

  lemma ProceedKeeps(w: World, time: int)
    requires Inv(w) && w.running.Some? && time > w.sched.now
    ensures Inv(Proceed(w, time))
  {
    ChargedAccounted(w, Proceed(w, time), time);
    OthersAccounted(w, Proceed(w, time), time);
  }

  lemma SettleKeeps(w: World, time: int)
    requires Inv(w) && time > w.sched.now
    ensures Inv(Settle(w, time))
  {
    var w' := Settle(w, time);
    OthersAccounted(w, w', time);
    if w.running.Some? {
      ChargedAccounted(w, w', time);
      InsertJoins(w.sched.scheme, w.sched.queue, Requeued(w, time));
    }
  }

  /** A job that stays in the queue. */
  lemma LeftAccounted(w: World, i: Info)
    requires Inv(w) && w.running.None? && w.sched.now >= 0 && w.sched.queue != [] && i in w.sched.queue[1..]
    ensures Accounted(Dispatch(w), i) && (i.id in Dispatch(w).first ==> Given(Dispatch(w), i.id) > 0.0)
    ensures i.id != w.sched.queue[0].id
  {
    var q := w.sched.queue;
    var k :| 0 <= k < |q[1..]| && q[1..][k] == i;
    assert q[k + 1] == i && i in q && Accounted(w, i);
  }

  lemma DispatchKeeps(w: World)
    requires Inv(w) && w.running.None? && w.sched.now >= 0
    ensures Inv(Dispatch(w))
  {
    var w' := Dispatch(w);
    if w.sched.queue != [] {
      var q := w.sched.queue;
      assert q[0] in q && Accounted(w, q[0]);
      forall i | i in q[1..] { LeftAccounted(w, i); }
    }
  }

  /** No event breaks the order of the queue, loses a job, or lets the accounts drift. */
  lemma StepKeeps(w: World, e: Event)
    requires Inv(w) && Legal(w, e)
    ensures Inv(Step(w, e))
  {
    match e
    case Arrive(_, _, _) => ArriveKeeps(w, e);
    case Done(_) => DoneKeeps(w, e);
    case Quantum(time) =>
      QuantumSteps(w, time);
      if w.running.Some? && !Preemptive(w.sched.scheme) {
        ProceedKeeps(w, time);
      } else {
        SettleKeeps(w, time);
        DispatchKeeps(Settle(w, time));
      }
  }

  lemma {:induction false} RunKeeps(w: World, es: seq<Event>)
    requires Inv(w) && LegalRun(w, es)
    ensures Inv(Run(w, es))
    decreases |es|
  {
    if es != [] {
      StepKeeps(w, es[0]);
      RunKeeps(Step(w, es[0]), es[1..]);
    }
  }
}
