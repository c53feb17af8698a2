/** The scheduler library as it changes its globals and the metadata of jobs. */
module Scheduler {
  import opened Options
  import opened StableInsert
  import opened SchedModel
  import opened SchedPolicy
  import P = PriQueue

  type Job = P.Job<Info>

  class Library {
    const scheme: Scheme
    const prempt: bool
    const pqueue: P.Queue<Info>
    var numarr: nat
    var numfin: nat
    var totalturnaround: real
    var totalwait: real
    var totalresponse: real
    var currenttime: int

    ghost function State(): Sched
      reads this, pqueue, pqueue.jobs
    {
      Sched(scheme, P.Infos(pqueue.jobs), currenttime, numarr, numfin, totalturnaround, totalwait, totalresponse)
    }

    /** Every queued job is there once. */
    ghost predicate Valid()
      reads this, pqueue, pqueue.nodes
    {
      pqueue.Valid() && pqueue.cmp == Comparer(scheme) && prempt == Preemptive(scheme) && P.Apart(pqueue.jobs)
    }

    /** What each policy promises of the job that it chooses: the key, and among equal keys the first arrival. */
    ghost predicate ComesFirst(job: Job)
      reads this, pqueue, pqueue.jobs, job
    {
      forall j | j in pqueue.jobs ::
        var i, x := job.info, j.info;
        match scheme
        case FCFS => i.arrive <= x.arrive
        case PPRI => i.priority < x.priority || (i.priority == x.priority && i.arrive <= x.arrive)
        case PRI => i.priority < x.priority || (i.priority == x.priority && i.arrive <= x.arrive)
        case PSRTF => i.remaining < x.remaining || (i.remaining == x.remaining && i.arrive <= x.arrive)
        case RR => i.last < x.last || (i.last == x.last && i.arrive <= x.arrive)
        case SJF => i.running < x.running || (i.running == x.running && i.arrive <= x.arrive)
    }

    lemma TakenComesFirst(job: Job, s: Sched, time: int)
      requires s.scheme == scheme && s.queue != [] && Sorted(Comparer(scheme), s.queue)
      requires Take(s, time) == (s.(queue := P.Infos(pqueue.jobs)), Some(job.info))
      ensures ComesFirst(job)
    {
      HeadIsLeast(scheme, s.queue, time);
      forall j | j in pqueue.jobs ensures Compare(scheme, job.info, j.info) <= 0 {
        var k :| 0 <= k < |pqueue.jobs| && pqueue.jobs[k] == j;
        assert s.queue[1..][k] == j.info && s.queue[k + 1] in s.queue;
      }
    }

    constructor (scheme: Scheme)
      ensures Valid() && State() == StartUp(scheme) && fresh(pqueue) && pqueue.nodes == []
      ensures pqueue.jobs == [] && currenttime == -1 && numarr == 0 && numfin == 0
      ensures totalturnaround == 0.0 && totalwait == 0.0 && totalresponse == 0.0
    {
      this.scheme, prempt := scheme, Preemptive(scheme);
      pqueue := new P.Queue(Comparer(scheme));
      numarr, numfin, totalturnaround, totalwait, totalresponse, currenttime := 0, 0, 0.0, 0.0, 0.0, -1;
    }

    method Enqueue(job: Job, ghost infos: seq<Info>)
      requires Valid() && job !in pqueue.jobs && infos == P.Infos(pqueue.jobs)
      modifies pqueue, pqueue.nodes
      ensures Valid() && P.Infos(pqueue.jobs) == Insert(Comparer(scheme), infos, job.info)
      ensures forall j :: j in pqueue.jobs <==> j in old(pqueue.jobs) || j == job
      ensures forall n | n in pqueue.nodes :: n in old(pqueue.nodes) || fresh(n)
    {
      ghost var jobs := pqueue.jobs;
      var index := pqueue.Offer(job, infos);
      P.Inserted(jobs, pqueue.jobs, index, job, infos);
    }

    /** Queues a job that is not queued yet. */
    method Offer(job: Job, ghost s: Sched, ghost info: Info)
      requires Valid() && job !in pqueue.jobs && s == State() && info == job.info
      modifies pqueue, pqueue.nodes
      ensures Valid() && State() == s.(queue := Insert(Comparer(scheme), s.queue, info))
      ensures forall j :: j in pqueue.jobs <==> j in old(pqueue.jobs) || j == job
      ensures forall n | n in pqueue.nodes :: n in old(pqueue.nodes) || fresh(n)
    {
      Enqueue(job, s.queue);
    }

    /** A change to a job off the queue changes nothing in the queue. */
    method SetInfo(job: Job, info: Info, ghost s: Sched)
      requires Valid() && job !in pqueue.jobs && s == State()
      modifies job
      ensures Valid() && State() == s && job.info == info
    {
      job.info := info;
      assert P.Infos(pqueue.jobs) == s.queue;
    }

    method NewJob(newjob: Job, number: nat, time: real, priority: real, running: real, ghost s: Sched)
      requires Valid() && newjob !in pqueue.jobs && s == State()
      modifies this, newjob, pqueue, pqueue.nodes
      ensures Valid() && State() == SchedModel.NewJob(s, number, priority, running, time)
      ensures var i := newjob.info;
              && i.id == number && i.running == running && i.priority == priority && i.arrive == time
              && i.remaining == running && i.start == 0.0 && i.last == 0.0
      ensures forall j :: j in pqueue.jobs <==> j in old(pqueue.jobs) || j == newjob
      ensures forall n | n in pqueue.nodes :: n in old(pqueue.nodes) || fresh(n)
    {
      ghost var info := NewInfo(number, priority, running, time);
      assert SchedModel.NewJob(s, number, priority, running, time)
          == s.(arrived := s.arrived + 1, queue := Insert(Comparer(scheme), s.queue, info));
      SetInfo(newjob, NewInfo(number, priority, running, time), s);
      numarr := numarr + 1;
      Offer(newjob, s.(arrived := s.arrived + 1), info);
    }

    /** The evicted job pays for its time. */
    method Charge(evicted: P.Job?<Info>, time: int, ghost s: Sched)
      requires Valid() && (evicted != null ==> evicted !in pqueue.jobs) && s == State()
      modifies this, evicted
      ensures Valid() && State() == s.(now := time)
      ensures evicted != null ==> evicted.info == Charged(s, old(evicted.info), time)
    {
      if currenttime != -1 && evicted != null {
        SetInfo(evicted, evicted.info.(remaining := evicted.info.remaining - (time - currenttime) as real), s);
      }
      currenttime := time;
    }

    /** The head of the queue, started if it was not before. */
    method TakeNext(time: int, ghost s: Sched) returns (next: P.Job?<Info>)
      requires Valid() && s == State()
      modifies pqueue, if pqueue.jobs == [] then {} else {pqueue.jobs[0]}
      ensures Valid() && State() == Take(s, time).0
      ensures if s.queue == [] then next == null else next != null && Take(s, time).1 == Some(next.info)
      ensures next != null && Sorted(Comparer(scheme), s.queue) ==> ComesFirst(next)
      ensures if old(pqueue.jobs) == [] then next == null && pqueue.jobs == [] && pqueue.nodes == []
              else && next == old(pqueue.jobs)[0] && next !in pqueue.jobs
                   && pqueue.jobs == old(pqueue.jobs)[1..] && pqueue.nodes == old(pqueue.nodes)[1..]
    {
      next := pqueue.Poll();
      if next != null {
        assert P.Infos(pqueue.jobs) == s.queue[1..];
        if next.info.remaining == next.info.running {
          SetInfo(next, next.info.(start := time as real), State());
        }
        if Sorted(Comparer(scheme), s.queue) { TakenComesFirst(next, s, time); }
      }
    }

    /** The evicted job waits again. */
    method Requeue(evicted: Job, time: int, ghost s: Sched)
      requires Valid() && evicted !in pqueue.jobs && s == State()
      modifies evicted, pqueue, pqueue.nodes
      ensures evicted.info == old(evicted.info).(last := time as real)
      ensures Valid() && State() == s.(queue := Insert(Comparer(scheme), s.queue, evicted.info))
      ensures forall j :: j in pqueue.jobs <==> j in old(pqueue.jobs) || j == evicted
      ensures forall n | n in pqueue.nodes :: n in old(pqueue.nodes) || fresh(n)
    {
      ghost var info := evicted.info.(last := time as real);
      SetInfo(evicted, evicted.info.(last := time as real), s);
      Offer(evicted, s, info);
    }

    /** The evicted job waits, the head of the queue is next. */
    method ChangePlaces(evicted: P.Job?<Info>, time: int, ghost s: Sched)
      returns (next: P.Job?<Info>, ghost ready: Sched)
      requires Valid() && (evicted != null ==> evicted !in pqueue.jobs) && s == State()
      modifies evicted, pqueue, pqueue.nodes, pqueue.jobs
      ensures ready == if evicted == null then s
                       else s.(queue := Insert(Comparer(scheme), s.queue, old(evicted.info).(last := time as real)))
      ensures Valid() && State() == Take(ready, time).0
      ensures Take(ready, time).1 == if next == null then None else Some(next.info)
      ensures next != null ==> next !in pqueue.jobs && (next in old(pqueue.jobs) || next == evicted)
      ensures next == null <==> old(pqueue.jobs) == [] && evicted == null
      ensures next != null && Sorted(Comparer(scheme), s.queue) ==> ComesFirst(next)
      ensures forall j | j in pqueue.jobs :: j in old(pqueue.jobs) || j == evicted
      ensures forall n | n in pqueue.nodes :: n in old(pqueue.nodes) || fresh(n)
    {
      ready := s;
      if evicted != null {
        Requeue(evicted, time, s);
        ready := State();
        if Sorted(Comparer(scheme), s.queue) { InsertJoins(scheme, s.queue, evicted.info); }
      }
      assert pqueue.jobs != [] ==> pqueue.jobs[0] in pqueue.jobs;
      next := TakeNext(time, ready);
    }

    /** The next job, or null. Only the evicted job and the next one change. */
    method QuantumExpired(evicted: P.Job?<Info>, time: int, ghost s: Sched, ghost running: Option<Info>)
      returns (next: P.Job?<Info>)
      requires Valid() && (evicted != null ==> evicted !in pqueue.jobs) && s == State()
      requires running == if evicted == null then None else Some(evicted.info)
      modifies this, pqueue, pqueue.nodes, pqueue.jobs, evicted
      ensures Valid() && (next != null ==> next !in pqueue.jobs && (next in old(pqueue.jobs) || next == evicted))
      ensures forall j | j in pqueue.jobs :: j in old(pqueue.jobs) || j == evicted
      ensures forall n | n in pqueue.nodes :: n in old(pqueue.nodes) || fresh(n)
      ensures State() == Expire(s, running, time).0
      ensures Expire(s, running, time).1 == if next == null then None else Some(next.info)
      ensures next == null <==> old(pqueue.jobs) == [] && evicted == null
      ensures if evicted != null && (scheme == FCFS || scheme == PRI || scheme == SJF) then next == evicted
              else next != null && Sorted(Comparer(scheme), s.queue) ==> ComesFirst(next)
    {
      Charge(evicted, time, s);
      ghost var s' := s.(now := time);
      if evicted != null && !prempt {
        return evicted;
      }
      ghost var ready;
      next, ready := ChangePlaces(evicted, time, s');
      assert Expire(s, running, time) == Take(ready, time);
    }

    method JobFinished(job: Job, time: real)
      requires Valid()
      modifies this
      ensures Valid() && State() == Finish(old(State()), job.info, time)
      ensures numfin == old(numfin) + 1 && totalturnaround == old(totalturnaround) + (time - job.info.arrive)
      ensures totalwait == old(totalwait) + (time - job.info.arrive - job.info.running)
      ensures totalresponse == old(totalresponse) + (job.info.start - job.info.arrive)
    {
      numfin := numfin + 1;
      totalturnaround := totalturnaround + (time - job.info.arrive);
      totalwait := totalwait + (time - job.info.arrive - job.info.running);
      totalresponse := totalresponse + (job.info.start - job.info.arrive);
    }

    method AverageWaitingTime() returns (r: real)
      requires numfin > 0
      ensures r == totalwait / numfin as real
    {
      r := totalwait / numfin as real;
    }

    method AverageTurnaroundTime() returns (r: real)
      requires numfin > 0
      ensures r == totalturnaround / numfin as real
    {
      r := totalturnaround / numfin as real;
    }

    method AverageResponseTime() returns (r: real)
      requires numfin > 0
      ensures r == totalresponse / numfin as real
    {
      r := totalresponse / numfin as real;
    }
  }

  /** The library and the running job are as in `w`. */
  ghost predicate Mirrors(lib: Library, running: P.Job?<Info>, w: World)
    reads lib, lib.pqueue, lib.pqueue.nodes, lib.pqueue.jobs, running
  {
    && lib.Valid() && lib.State() == w.sched
    && if running == null then w.running == None else running !in lib.pqueue.jobs && w.running == Some(running.info)
  }

  ghost function Footprint(lib: Library, running: P.Job?<Info>): set<object>
    reads lib, lib.pqueue
  {
    {lib, lib.pqueue} + (set n: P.Node<Info> | n in lib.pqueue.nodes) + (set j: Job | j in lib.pqueue.jobs)
    + if running == null then {} else {running}
  }

  method PlayArrival(lib: Library, running: P.Job?<Info>, ghost w: World, e: Event)
    requires Mirrors(lib, running, w) && e.Arrive?
    modifies Footprint(lib, running)
    ensures Mirrors(lib, running, Step(w, e))
    ensures forall j | j in lib.pqueue.jobs :: j in old(lib.pqueue.jobs) || fresh(j)
    ensures forall n | n in lib.pqueue.nodes :: n in old(lib.pqueue.nodes) || fresh(n)
  {
    var job := new P.Job(NewInfo(0, 0.0, 0.0, 0.0));
    ghost var w1 := Step(w, e);
    assert w1.running == w.running;
    assert w1.sched == SchedModel.NewJob(w.sched, lib.numarr + 1, e.priority, e.running, e.at);
    lib.NewJob(job, lib.numarr + 1, e.at, e.priority, e.running, w.sched);
  }

  method PlayQuantum(lib: Library, running: P.Job?<Info>, ghost w: World, e: Event) returns (next: P.Job?<Info>)
    requires Mirrors(lib, running, w) && e.Quantum? && Legal(w, e)
    modifies Footprint(lib, running)
    ensures Mirrors(lib, next, Step(w, e))
    ensures next == null || next in old(lib.pqueue.jobs) || next == running
    ensures forall j | j in lib.pqueue.jobs :: j in old(lib.pqueue.jobs) || j == running
    ensures forall n | n in lib.pqueue.nodes :: n in old(lib.pqueue.nodes) || fresh(n)
  {
    ghost var w1 := Step(w, e);
    assert w1.sched == Expire(w.sched, w.running, e.time).0 && w1.running == Expire(w.sched, w.running, e.time).1;
    next := lib.QuantumExpired(running, e.time, w.sched, w.running);
  }

  method PlayEvent(lib: Library, running: P.Job?<Info>, ghost w: World, e: Event) returns (next: P.Job?<Info>)
    requires Mirrors(lib, running, w) && Legal(w, e)
    modifies Footprint(lib, running)
    ensures Mirrors(lib, next, Step(w, e))
    ensures next == null || next in old(lib.pqueue.jobs) || next == running
    ensures forall j | j in lib.pqueue.jobs :: j in old(lib.pqueue.jobs) || j == running || fresh(j)
    ensures forall n | n in lib.pqueue.nodes :: n in old(lib.pqueue.nodes) || fresh(n)
  {
    match e {
      case Arrive(_, _, _) =>
        PlayArrival(lib, running, w, e);
        next := running;
      case Quantum(_) => next := PlayQuantum(lib, running, w, e);
      case Done(end) =>
        lib.JobFinished(running, end);
        next := null;
    }
  }

  method PlayFirst(lib: Library, running: P.Job?<Info>, ghost w: World, e: Event) returns (next: P.Job?<Info>)
    requires Mirrors(lib, running, w) && Legal(w, e)
    modifies Footprint(lib, running)
    ensures Mirrors(lib, next, Step(w, e))
    ensures fresh(Footprint(lib, next) - old(Footprint(lib, running)))
  {
    next := PlayEvent(lib, running, w, e);
  }

  /** What the thread library does with the scheduler: it passes the running job at every quantum, and null
      when there is none. */
  method Play(lib: Library, running: P.Job?<Info>, ghost w: World, es: seq<Event>) returns (order: seq<nat>)
    requires Mirrors(lib, running, w) && LegalRun(w, es)
    modifies Footprint(lib, running)
    ensures lib.Valid() && lib.State() == Run(w, es).sched && order == Dispatches(w, es)
    decreases |es|
  {
    order := [];
    if es != [] {
      var next := PlayFirst(lib, running, w, es[0]);
      var first := if es[0].Quantum? && next != null then [next.info.id] else [];
      var rest := Play(lib, next, Step(w, es[0]), es[1..]);
      order := first + rest;
    }
  }

  /** A whole run of a new scheduler, with the averages that it reports if any job finished. */
  method Simulate(scheme: Scheme, es: seq<Event>)
    returns (order: seq<nat>, finished: nat, wait: real, turnaround: real, response: real)
    requires LegalRun(Start(scheme), es)
    ensures order == Dispatches(Start(scheme), es)
    ensures var past := Run(Start(scheme), es).past;
            && finished == |past|
            && (finished > 0 ==>
                  && turnaround == Turnaround(past) / finished as real
                  && response == Response(past) / finished as real
                  && wait == turnaround - RunningTimes(past) / finished as real)
  {
    var lib := new Library(scheme);
    order := Play(lib, null, Start(scheme), es);
    finished, wait, turnaround, response := lib.numfin, 0.0, 0.0, 0.0;
    StartInv(scheme);
    RunKeeps(Start(scheme), es);
    if finished > 0 {
      AveragesAgree(scheme, es);
      wait := lib.AverageWaitingTime();
      turnaround := lib.AverageTurnaroundTime();
      response := lib.AverageResponseTime();
    }
  }
}
