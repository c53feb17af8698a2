/** The main results about virtual memory: for each process the machine behaves like a flat array of
    bytes that starts at zero, and its frames are never shared. */
module FlatMemory {
  import opened Bytes
  import opened Options
  import opened VmTypes
  import opened Frames
  import opened Mmu
  import opened MmuInvariant
  import opened MmuSteps
  import opened MmuOperations
  import opened MmuProcesses
  import Areas
  import Segments
  import Tlb

  /** The specification: no pages, frames, buffer or swap files, and areas of legal addresses for segments. */
  datatype Flat = Flat(mem: (nat, nat) -> Byte, areas: map<nat, seq<Areas.Area>>)

  function FlatBoot(): Flat { Flat((_, _) => 0, map[]) }

  predicate FlatPermits(f: Flat, p: nat, a: Address, need: Segments.Permission) {
    p in f.areas && Areas.Permitted(f.areas[p], a, need)
  }

  function FlatByte(f: Flat, p: nat, a: Address, i: nat): Byte { f.mem(p, a + i) }

  function FlatBytes(f: Flat, p: nat, a: Address, count: nat): seq<Byte> {
    seq(count, i requires 0 <= i => FlatByte(f, p, a, i))
  }

  function WrittenAt(f: Flat, p: nat, a: Address, data: seq<Byte>, q: nat, b: nat): Byte {
    if q == p && a <= b < a + |data| then data[b - a] else f.mem(q, b)
  }

  function FlatWritten(f: Flat, p: nat, a: Address, data: seq<Byte>): (nat, nat) -> Byte {
    (q: nat, b: nat) => WrittenAt(f, p, a, data, q, b)
  }

  function FlatStep(f: Flat, op: Op): (Flat, Reply) {
    match op
    case Add(p) => (Flat((q: nat, a: nat) => if q == p then 0 else f.mem(q, a), f.areas[p := Areas.NewAreas()]), Done)
    case Remove(p) => (f.(areas := f.areas - {p}), Done)
    case ReadAt(p, a, count) =>
      (f, if FlatPermits(f, p, a, Segments.READ) then Bytes(FlatBytes(f, p, a, count))
          else Segfault)
    case WriteAt(p, a, data) =>
      if FlatPermits(f, p, a, Segments.WRITE)
      then (f.(mem := FlatWritten(f, p, a, data)), Done)
      else (f, Segfault)
    case Resize(p, i, pages, grow) =>
      (if p in f.areas && i < |f.areas[p]|
       then f.(areas := f.areas[p := Areas.Resized(f.areas[p], i, pages, grow)]) else f, Done)
  }

  function FlatReplies(f: Flat, ops: seq<Op>): seq<Reply>
    decreases |ops|
  {
    if ops == [] then [] else var (f', reply) := FlatStep(f, ops[0]); [reply] + FlatReplies(f', ops[1..])
  }

  // ---- Ownership over all runs ----

  lemma BootIsGood(frames: nat)
    ensures Good(Boot(frames), map[]) && SwapOwned(Boot(frames).kernel, map[])
  {
  }

  lemma ResizeKeeps(m: Machine, r: map<nat, Role>, p: nat, i: nat, pages: nat, grow: bool)
    requires Good(m, r) && Live(m, p) && i < Segments.NUM_SEGMENTS
    ensures Good(MoveSegment(m, p, i, pages, grow), r)
    ensures forall q | q in m.dirs :: forall a: Address ::
              PageAt(MoveSegment(m, p, i, pages, grow), q, a) == PageAt(m, q, a)
  {
    var m' := MoveSegment(m, p, i, pages, grow);
    assert forall q, d: nat | q in m.dirs :: Pde(m', q, d) == Pde(m, q, d);
    forall n | n in m'.tlb && n.entry.Some? ensures WalksTo(m', m'.pid, n.base, n.entry.value) {
      assert WalksTo(m, m.pid, n.base, n.entry.value);
    }
  }

  lemma DeadRemoveKeeps(m: Machine, r: map<nat, Role>, p: nat)
    requires Good(m, r) && p !in m.dirs
    ensures Good(RemoveProcess(m, p), r) && RemoveProcess(m, p).kernel == m.kernel
    ensures Changed(m, RemoveProcess(m, p), Same)
  {
    var m' := RemoveProcess(m, p);
    assert m'.kernel.mapping == m.kernel.mapping;
    assert m'.kernel == m.kernel && m'.dirs == m.dirs && m'.segs == m.segs;
    SameTables(m, m', r);
    SameMemory(m, m');
    assert forall n | n in m'.tlb :: n in m.tlb || n == Tlb.Node(0, None);
  }

  /** How many unreserved frames an operation needs: a new process a directory, a table and a page. */
  function Demand(m: Machine, op: Op): nat
    requires Legal(m, op)
  {
    match op
    case Add(_) => 3
    case ReadAt(p, a, _) => AccessDemand(m, p, a)
    case WriteAt(p, a, _) => AccessDemand(m, p, a)
    case Remove(_) => 0
    case Resize(_, _, _, _) => 0
  }

  /** No page of the process was ever swapped out. */
  predicate NeverSwapped(m: Machine, p: nat) {
    p in m.dirs ==>
      forall i, j | 0 <= i < NUM_ENTRIES && 0 <= j < NUM_ENTRIES && Pde(m, p, i).present ::
        Bin(Ref(Pde(m, p, i).frame, j)) !in m.kernel.swap
  }

  lemma NeverSwappedIsClean(m: Machine, r: map<nat, Role>, p: nat)
    requires Owned(m, r) && SwapOwned(m.kernel, r) && p in m.dirs
    ensures NeverSwapped(m, p) <==> forall s | s in m.kernel.swap :: r[s.ref.table].pid != p
  {
    if NeverSwapped(m, p) {
      forall s | s in m.kernel.swap ensures r[s.ref.table].pid != p {
        var role := r[s.ref.table];
        assert role.pid in m.dirs && Pde(m, role.pid, role.slot).present;
      }
    }
  }

  /** Frames run out in exactly one way: too few are left that hold neither a directory nor a table. Swap files
      stay with live tables, but where a process with such files is removed. */
  lemma StepKeeps(m: Machine, r: map<nat, Role>, op: Op) returns (r': map<nat, Role>)
    requires Good(m, r) && Legal(m, op)
    ensures Step(m, op).None? <==> Unreserved(m.kernel) < Demand(m, op)
    ensures Step(m, op).Some? ==>
              && Good(Step(m, op).value.0, r')
              && (SwapOwned(m.kernel, r) && (op.Remove? ==> NeverSwapped(m, op.pid)) ==>
                    SwapOwned(Step(m, op).value.0.kernel, r'))
  {
    r' := r;
    match op
    case Add(p) =>
      var next;
      next, r' := AddProcessKeeps(m, r, p);
      if next.Some? { AddedCoherent(m, next.value, r, r', p); }
    case Remove(p) =>
      if p in m.dirs {
        RemoveKeeps(m, r, p);
        if SwapOwned(m.kernel, r) { NeverSwappedIsClean(m, r, p); }
        r' := Others(r, p);
      } else {
        DeadRemoveKeeps(m, r, p);
      }
    case ReadAt(p, a, count) =>
      var next;
      next, r' := ReadKeeps(m, r, p, a, count);
    case WriteAt(p, a, data) =>
      var next;
      next, r' := WriteKeeps(m, r, p, a, data);
    case Resize(p, i, pages, grow) =>
      ResizeKeeps(m, r, p, i, pages, grow);
  }

  /** Every operation of the run finds the frames it needs. */
  predicate Supplied(m: Machine, ops: seq<Op>)
    requires LegalRun(m, ops)
    decreases |ops|
  {
    ops == []
    || (Unreserved(m.kernel) >= Demand(m, ops[0])
        && match Step(m, ops[0]) case Some((m', _)) => Supplied(m', ops[1..]) case None => true)
  }

  /** In every reachable state frames are owned as they should be and the buffer is coherent; and only a lack
      of unreserved frames ends a run. */
  lemma {:induction false} RunKeeps(m: Machine, r: map<nat, Role>, ops: seq<Op>) returns (r': map<nat, Role>)
    requires Good(m, r) && LegalRun(m, ops)
    ensures Run(m, ops).Some? <==> Supplied(m, ops)
    ensures Run(m, ops).Some? ==> Good(Run(m, ops).value.0, r')
    decreases |ops|
  {
    r' := r;
    if ops != [] {
      var next := Step(m, ops[0]);
      r' := StepKeeps(m, r, ops[0]);
      if next.Some? {
        var (m', reply) := next.value;
        var rest := Run(m', ops[1..]);
        assert rest.None? ==> Run(m, ops).None?;
        assert rest.Some? ==> Run(m, ops) == Some((rest.value.0, [reply] + rest.value.1));
        r' := RunKeeps(m', r', ops[1..]);
      }
    }
  }

  /** A page table in use. */
  ghost predicate LiveTable(m: Machine, t: nat) {
    exists p, i: nat | p in m.dirs && i < NUM_ENTRIES :: Pde(m, p, i).present && Pde(m, p, i).frame == t
  }

  ghost predicate LiveDirectory(m: Machine, f: nat) { exists p | p in m.dirs :: m.dirs[p] == f }

  /** A frame is held for an entry exactly when that is a present entry of a live table naming the frame,
      and reserved exactly when it is a live directory or table. */
  ghost predicate FramesOwned(m: Machine) {
    forall f: nat | f < |m.kernel.mapping| ::
      && (m.kernel.mapping[f] == Reserved <==> LiveDirectory(m, f) || LiveTable(m, f))
      && (forall ref :: m.kernel.mapping[f] == Page(ref) <==>
            LiveTable(m, ref.table) && ref.slot < NUM_ENTRIES
            && EntryAt(m.kernel, ref).present && EntryAt(m.kernel, ref).frame == f)
  }

  lemma GoodOwnsFrames(m: Machine, r: map<nat, Role>)
    requires Good(m, r)
    ensures FramesOwned(m)
  {
    forall f: nat ensures f in r && r[f].Tab? <==> LiveTable(m, f) {
      if f in r && r[f].Tab? {
        assert Pde(m, r[f].pid, r[f].slot).present;
      }
    }
    forall f: nat ensures f in r && r[f].Dir? <==> LiveDirectory(m, f) {
    }
    forall f: nat, ref | f < |m.kernel.mapping|
      ensures m.kernel.mapping[f] == Page(ref) <==>
                LiveTable(m, ref.table) && ref.slot < NUM_ENTRIES
                && EntryAt(m.kernel, ref).present && EntryAt(m.kernel, ref).frame == f
    {
      if LiveTable(m, ref.table) && ref.slot < NUM_ENTRIES && EntryAt(m.kernel, ref).present {
        assert Ref(ref.table, ref.slot) == ref;
      }
    }
  }

  /** So in every state that a run reaches from boot, whatever processes were added, swapped out and
      removed on the way. */
  lemma {:induction false} ReachableStates(frames: nat, ops: seq<Op>)
    requires LegalRun(Boot(frames), ops)
    ensures Run(Boot(frames), ops).Some? <==> Supplied(Boot(frames), ops)
    ensures Run(Boot(frames), ops).Some? ==>
              FramesOwned(Run(Boot(frames), ops).value.0) && Coherent(Run(Boot(frames), ops).value.0)
  {
    BootIsGood(frames);
    var r := RunKeeps(Boot(frames), map[], ops);
    if Run(Boot(frames), ops).Some? { GoodOwnsFrames(Run(Boot(frames), ops).value.0, r); }
  }

  // ---- Refinement ----

  /** Machine and flat memory agree on every byte of every live process. */
  ghost predicate SameBytes(m: Machine, f: Flat) {
    forall p, a: Address | p in m.dirs :: f.mem(p, a) == PageAt(m, p, a)[Offset(a)]
  }

  /** And on the legal addresses. */
  ghost predicate SameAreas(m: Machine, f: Flat) {
    f.areas.Keys == m.segs.Keys && forall p | p in m.segs :: Areas.AreAreas(m.segs[p], f.areas[p])
  }

  ghost predicate Agree(m: Machine, r: map<nat, Role>, f: Flat) {
    Good(m, r) && SameAreas(m, f) && SameBytes(m, f)
  }

  lemma PermitAlike(m: Machine, f: Flat, p: nat, a: Address, need: Segments.Permission)
    requires SameAreas(m, f) && p in m.segs
    ensures FlatPermits(f, p, a, need) <==> Permits(m, p, a, need)
  {
    Areas.PermitAlike(m.segs[p], f.areas[p], a, need);
  }

  /** What the disk holds for the slots of a new table, if there is one: zeros, but perhaps for some slots. */
  predicate ZeroBut(c: Change, slots: set<nat>) {
    c.NewTable? ==> forall j | 0 <= j < NUM_ENTRIES && j !in slots :: FileOf(c.swap, Ref(c.frame, j)) == ZeroPage()
  }

  /** Of a page that a permitted write changes, what the write covers does not matter. */
  predicate CleanWrite(m: Machine, p: nat, a: Address, data: seq<Byte>)
    requires Live(m, p) && Fits(a, |data|)
  {
    var c := AccessChange(m, p, a);
    if !Permits(m, p, a, Segments.WRITE) then ZeroBut(c, {})
    else
      && ZeroBut(c, {TabIndex(a)})
      && (c.NewTable? ==>
            Overlay(FileOf(c.swap, Ref(c.frame, TabIndex(a))), Offset(a), data) == Overlay(ZeroPage(), Offset(a), data))
  }

  /** To be seen before an operation: no page table is about to be put into a frame for which the disk holds
      a page of an earlier table that would become visible. Two pages of a new process are cleared. */
  predicate CleanStep(m: Machine, op: Op)
    requires Legal(m, op)
  {
    match op
    case Add(p) => ZeroBut(AddChange(m, p), {1, 2})
    case ReadAt(p, a, _) => ZeroBut(AccessChange(m, p, a), {})
    case WriteAt(p, a, data) => CleanWrite(m, p, a, data)
    case Remove(_) => true
    case Resize(_, _, _, _) => true
  }

  predicate CleanRun(m: Machine, ops: seq<Op>)
    requires LegalRun(m, ops)
    decreases |ops|
  {
    ops == []
    || match Step(m, ops[0])
       case Some((m', _)) => CleanStep(m, ops[0]) && CleanRun(m', ops[1..])
       case None => true
  }

  /** After every operation of the run machine and flat memory hold the same bytes. */
  ghost predicate SameThroughout(m: Machine, f: Flat, ops: seq<Op>)
    requires LegalRun(m, ops)
    decreases |ops|
  {
    ops == []
    || match Step(m, ops[0])
       case Some((m', _)) =>
         var f' := FlatStep(f, ops[0]).0; SameBytes(m', f') && SameThroughout(m', f', ops[1..])
       case None => true
  }

  /** The address with the given indices and offset. */
  function AddressOf(d: nat, j: nat, o: nat): (a: Address)
    requires d < NUM_ENTRIES && j < NUM_ENTRIES && o < PAGE_SIZE
    ensures DirIndex(a) == d && TabIndex(a) == j && Offset(a) == o
  {
    (d * NUM_ENTRIES + j) * PAGE_SIZE + o
  }

  lemma AddressOfIndices(a: Address)
    ensures DirIndex(a) < NUM_ENTRIES && TabIndex(a) < NUM_ENTRIES
    ensures AddressOf(DirIndex(a), TabIndex(a), Offset(a)) == a
  {
    IndicesOfBase(a);
  }

  /** A page of flat memory. */
  function FlatPage(f: Flat, p: nat, d: nat, j: nat): Page
    requires d < NUM_ENTRIES && j < NUM_ENTRIES
  {
    seq(PAGE_SIZE, o requires 0 <= o < PAGE_SIZE => PageByte(f, p, d, j, o))
  }

  function PageByte(f: Flat, p: nat, d: nat, j: nat, o: nat): Byte
    requires d < NUM_ENTRIES && j < NUM_ENTRIES && o < PAGE_SIZE
  {
    f.mem(p, AddressOf(d, j, o))
  }

  ghost predicate SamePages(m: Machine, f: Flat) {
    forall p, d: nat, j: nat | p in m.dirs && d < NUM_ENTRIES && j < NUM_ENTRIES ::
      Content(m, p, d, j) == FlatPage(f, p, d, j)
  }

  lemma SameByPage(m: Machine, f: Flat)
    ensures SameBytes(m, f) <==> SamePages(m, f)
  {
    if SameBytes(m, f) {
      forall p, d: nat, j: nat | p in m.dirs && d < NUM_ENTRIES && j < NUM_ENTRIES
        ensures Content(m, p, d, j) == FlatPage(f, p, d, j)
      {
        forall o: nat | o < PAGE_SIZE ensures f.mem(p, AddressOf(d, j, o)) == Content(m, p, d, j)[o] {
          assert PageAt(m, p, AddressOf(d, j, o)) == Content(m, p, d, j);
        }
      }
    }
    if SamePages(m, f) {
      forall p, a: Address | p in m.dirs ensures f.mem(p, a) == PageAt(m, p, a)[Offset(a)] {
        AddressOfIndices(a);
        assert Content(m, p, DirIndex(a), TabIndex(a)) == FlatPage(f, p, DirIndex(a), TabIndex(a));
      }
    }
  }

  /** A page table that was brought in shows what flat memory has exactly when it shows zeros. */
  lemma ChangedAgrees(m: Machine, m': Machine, f: Flat, c: Change)
    requires SameBytes(m, f) && Changed(m, m', c)
    requires c.NewTable? ==> c.pid in m.dirs && c.slot < NUM_ENTRIES && !Pde(m, c.pid, c.slot).present
    ensures SameBytes(m', f) <==> ZeroBut(c, {})
  {
    SameByPage(m, f);
    SameByPage(m', f);
    if SamePages(m', f) && c.NewTable? {
      forall j: nat | j < NUM_ENTRIES ensures FileOf(c.swap, Ref(c.frame, j)) == ZeroPage() {
        assert Content(m', c.pid, c.slot, j) == Shown(m, c, c.pid, c.slot, j);
        assert Content(m, c.pid, c.slot, j) == ZeroPage();
      }
    }
  }

  // ---- Reads ----

  lemma FlatBytesOfPage(f: Flat, p: nat, a: Address, count: nat)
    requires Fits(a, count) && DirIndex(a) < NUM_ENTRIES && TabIndex(a) < NUM_ENTRIES
    ensures FlatBytes(f, p, a, count) == FlatPage(f, p, DirIndex(a), TabIndex(a))[Offset(a)..Offset(a) + count]
  {
    AddressOfIndices(a);
    forall i | 0 <= i < count ensures FlatByte(f, p, a, i) == PageByte(f, p, DirIndex(a), TabIndex(a), Offset(a) + i) {
      assert AddressOf(DirIndex(a), TabIndex(a), Offset(a) + i) == a + i;
    }
  }

  /** Where machine and flat memory hold the same bytes. */
  lemma FlatBytesAreStored(m: Machine, f: Flat, p: nat, a: Address, count: nat)
    requires SameBytes(m, f) && p in m.dirs && Fits(a, count)
    ensures FlatBytes(f, p, a, count) == PageAt(m, p, a)[Offset(a)..Offset(a) + count]
  {
    AddressOfIndices(a);
    SameByPage(m, f);
    FlatBytesOfPage(f, p, a, count);
  }

  /** A permitted read that brings a page table in yields bytes other than zero. */
  predicate ShowsStale(m: Machine, op: Op)
    requires Legal(m, op)
  {
    op.ReadAt? && Permits(m, op.pid, op.address, Segments.READ)
    && var c, at := AccessChange(m, op.pid, op.address), Offset(op.address);
       c.NewTable?
       && FileOf(c.swap, Ref(c.frame, TabIndex(op.address)))[at..at + op.count] != ZeroPage()[at..at + op.count]
  }

  lemma ReadAnswers(m: Machine, f: Flat, p: nat, a: Address, count: nat, reply: Reply)
    requires SameBytes(m, f) && SameAreas(m, f) && Live(m, p) && Fits(a, count)
    requires ReadReply(m, AccessChange(m, p, a), p, a, count, reply)
    ensures reply == FlatStep(f, ReadAt(p, a, count)).1 <==> !ShowsStale(m, ReadAt(p, a, count))
  {
    AddressOfIndices(a);
    PermitAlike(m, f, p, a, Segments.READ);
    FlatBytesAreStored(m, f, p, a, count);
  }

  lemma CleanShowsNothing(m: Machine, op: Op)
    requires Legal(m, op) && CleanStep(m, op)
    ensures !ShowsStale(m, op)
  {
    if op.ReadAt? { AddressOfIndices(op.address); }
  }

  lemma AccessAgrees(m: Machine, m': Machine, f: Flat, p: nat, a: Address)
    requires SameBytes(m, f) && Live(m, p) && Changed(m, m', AccessChange(m, p, a))
    ensures SameBytes(m', f) <==> ZeroBut(AccessChange(m, p, a), {})
  {
    AddressOfIndices(a);
    ChangedAgrees(m, m', f, AccessChange(m, p, a));
  }

  lemma ReadAgrees(m: Machine, r: map<nat, Role>, f: Flat, p: nat, a: Address, count: nat)
    returns (next: Next, r': map<nat, Role>)
    requires Agree(m, r, f) && Live(m, p) && Fits(a, count)
    ensures next == Read(m, p, a, count)
    ensures next.Some? ==>
              && Good(next.value.0, r') && SameAreas(next.value.0, f)
              && (SameBytes(next.value.0, f) <==> ZeroBut(AccessChange(m, p, a), {}))
              && (next.value.1 == FlatStep(f, ReadAt(p, a, count)).1 <==> !ShowsStale(m, ReadAt(p, a, count)))
  {
    next, r' := ReadKeeps(m, r, p, a, count);
    if next.Some? {
      AccessAgrees(m, next.value.0, f, p, a);
      ReadAnswers(m, f, p, a, count, next.value.1);
    }
  }

  // ---- Writes ----

  lemma OverlayAt(page: Page, at: nat, data: seq<Byte>, i: nat)
    requires at + |data| <= PAGE_SIZE && i < PAGE_SIZE
    ensures Overlay(page, at, data)[i] == if at <= i < at + |data| then data[i - at] else page[i]
  {
  }

  /** A write stays on its page. */
  lemma WrittenRange(a: Address, count: nat, b: Address)
    requires Fits(a, count)
    ensures a <= b < a + count <==>
            DirIndex(b) == DirIndex(a) && TabIndex(b) == TabIndex(a) && Offset(a) <= Offset(b) < Offset(a) + count
    ensures a <= b < a + count ==> Offset(b) - Offset(a) == b - a
  {
    IndicesOfBase(a);
    IndicesOfBase(b);
    assert a == PageBase(a) + Offset(a) && b == PageBase(b) + Offset(b);
  }

  lemma FlatPageWritten(f: Flat, p: nat, a: Address, data: seq<Byte>, q: nat, d: nat, j: nat)
    requires Fits(a, |data|) && d < NUM_ENTRIES && j < NUM_ENTRIES
    ensures FlatPage(f.(mem := FlatWritten(f, p, a, data)), q, d, j) ==
            if q == p && d == DirIndex(a) && j == TabIndex(a) then Overlay(FlatPage(f, q, d, j), Offset(a), data)
            else FlatPage(f, q, d, j)
  {
    forall o: nat | o < PAGE_SIZE
      ensures WrittenAt(f, p, a, data, q, AddressOf(d, j, o)) ==
              if q == p && d == DirIndex(a) && j == TabIndex(a) then Overlay(FlatPage(f, q, d, j), Offset(a), data)[o]
              else f.mem(q, AddressOf(d, j, o))
    {
      WrittenRange(a, |data|, AddressOf(d, j, o));
      OverlayAt(FlatPage(f, q, d, j), Offset(a), data, o);
    }
  }

  lemma WrittenAgrees(m: Machine, m': Machine, f: Flat, c: Change, p: nat, a: Address, data: seq<Byte>)
    requires SameBytes(m, f) && p in m.dirs && Fits(a, |data|)
    requires c == Same || (c.NewTable? && c.pid == p && c.slot == DirIndex(a) && !Pde(m, p, DirIndex(a)).present)
    requires OnlyPage(m, m', c, p, DirIndex(a), TabIndex(a), Overlay(PageAfter(m, c, p, a), Offset(a), data))
    ensures SameBytes(m', f.(mem := FlatWritten(f, p, a, data))) <==>
            && ZeroBut(c, {TabIndex(a)})
            && Overlay(PageAfter(m, c, p, a), Offset(a), data) == Overlay(PageAt(m, p, a), Offset(a), data)
  {
    var f' := f.(mem := FlatWritten(f, p, a, data));
    AddressOfIndices(a);
    SameByPage(m, f);
    SameByPage(m', f');
    forall q, d: nat, j: nat | q in m.dirs && d < NUM_ENTRIES && j < NUM_ENTRIES
      ensures FlatPage(f', q, d, j) ==
              if q == p && d == DirIndex(a) && j == TabIndex(a) then Overlay(Content(m, q, d, j), Offset(a), data)
              else Content(m, q, d, j)
    {
      FlatPageWritten(f, p, a, data, q, d, j);
    }
    if SamePages(m', f') && c.NewTable? {
      forall j: nat | j < NUM_ENTRIES && j != TabIndex(a) ensures FileOf(c.swap, Ref(c.frame, j)) == ZeroPage() {
        assert Content(m', p, DirIndex(a), j) == Shown(m, c, p, DirIndex(a), j);
        assert Content(m, p, DirIndex(a), j) == ZeroPage();
      }
    }
  }

  lemma FaultedWrite(m: Machine, m': Machine, f: Flat, p: nat, a: Address, data: seq<Byte>)
    requires SameBytes(m, f) && Live(m, p) && Fits(a, |data|) && !Permits(m, p, a, Segments.WRITE)
    requires Changed(m, m', AccessChange(m, p, a))
    ensures SameBytes(m', f) <==> CleanWrite(m, p, a, data)
  {
    AccessAgrees(m, m', f, p, a);
  }

  lemma PermittedWrite(m: Machine, m': Machine, f: Flat, p: nat, a: Address, data: seq<Byte>, c: Change)
    requires SameBytes(m, f) && Live(m, p) && Fits(a, |data|) && Permits(m, p, a, Segments.WRITE)
    requires c == AccessChange(m, p, a)
    requires OnlyPage(m, m', c, p, DirIndex(a), TabIndex(a), Overlay(PageAfter(m, c, p, a), Offset(a), data))
    ensures SameBytes(m', f.(mem := FlatWritten(f, p, a, data))) <==> CleanWrite(m, p, a, data)
  {
    WrittenAgrees(m, m', f, c, p, a, data);
  }

  lemma WroteAgrees(m: Machine, m': Machine, f: Flat, p: nat, a: Address, data: seq<Byte>, reply: Reply)
    requires SameBytes(m, f) && SameAreas(m, f) && Live(m, p) && Fits(a, |data|)
    requires Wrote(m, AccessChange(m, p, a), p, a, data, m', reply)
    ensures reply == FlatStep(f, WriteAt(p, a, data)).1 && SameAreas(m', FlatStep(f, WriteAt(p, a, data)).0)
    ensures SameBytes(m', FlatStep(f, WriteAt(p, a, data)).0) <==> CleanWrite(m, p, a, data)
  {
    PermitAlike(m, f, p, a, Segments.WRITE);
    if Permits(m, p, a, Segments.WRITE) {
      PermittedWrite(m, m', f, p, a, data, AccessChange(m, p, a));
    } else {
      FaultedWrite(m, m', f, p, a, data);
    }
  }

  lemma WriteAgrees(m: Machine, r: map<nat, Role>, f: Flat, p: nat, a: Address, data: seq<Byte>)
    returns (next: Next, r': map<nat, Role>)
    requires Agree(m, r, f) && Live(m, p) && Fits(a, |data|)
    ensures next == Write(m, p, a, data)
    ensures next.Some? ==>
              var (f', reply) := FlatStep(f, WriteAt(p, a, data));
              && Good(next.value.0, r') && SameAreas(next.value.0, f') && next.value.1 == reply
              && (SameBytes(next.value.0, f') <==> CleanWrite(m, p, a, data))
  {
    next, r' := WriteKeeps(m, r, p, a, data);
    if next.Some? { WroteAgrees(m, next.value.0, f, p, a, data, next.value.1); }
  }

  // ---- Processes ----

  lemma FlatPageAdded(f: Flat, p: nat, q: nat, d: nat, j: nat)
    requires d < NUM_ENTRIES && j < NUM_ENTRIES
    ensures FlatPage(FlatStep(f, Add(p)).0, q, d, j) == if q == p then ZeroPage() else FlatPage(f, q, d, j)
  {}

  lemma AddedAgrees(m: Machine, m': Machine, f: Flat, p: nat, c: Change)
    requires SameBytes(m, f) && p !in m.dirs && AddedMemory(m, m', p, c, true)
    requires c.NewTable? ==> c.slot == 0
    ensures SameBytes(m', FlatStep(f, Add(p)).0) <==> ZeroBut(c, {1, 2})
  {
    var f' := FlatStep(f, Add(p)).0;
    SameByPage(m, f);
    SameByPage(m', f');
    forall q, d: nat, j: nat | d < NUM_ENTRIES && j < NUM_ENTRIES { FlatPageAdded(f, p, q, d, j); }
    if SamePages(m', f') && c.NewTable? {
      forall j: nat | j < NUM_ENTRIES && j != 1 && j != 2 ensures FileOf(c.swap, Ref(c.frame, j)) == ZeroPage() {
        assert Content(m', p, 0, j) == NewPage(c, true, 0, j);
      }
    }
  }

  lemma AddedAreas(m: Machine, m': Machine, f: Flat, p: nat)
    requires SameAreas(m, f) && m'.segs == m.segs[p := Segments.Initial()]
    ensures SameAreas(m', FlatStep(f, Add(p)).0)
  {
    Areas.NewSegments();
    var f' := FlatStep(f, Add(p)).0;
    forall q | q in m'.segs ensures q in f'.areas && Areas.AreAreas(m'.segs[q], f'.areas[q]) {
      if q != p { assert Areas.AreAreas(m.segs[q], f.areas[q]); }
    }
  }

  lemma ResizedAreas(m: Machine, m': Machine, f: Flat, p: nat, i: nat, pages: nat, grow: bool)
    requires SameAreas(m, f) && p in m.segs && i < Segments.NUM_SEGMENTS
    requires m'.segs == m.segs[p := Segments.Move(m.segs[p], i, pages, grow)]
    ensures SameAreas(m', FlatStep(f, Resize(p, i, pages, grow)).0)
  {
    Areas.ResizedSegments(m.segs[p], f.areas[p], i, pages, grow);
  }

  lemma ResizedBytes(m: Machine, m': Machine, f: Flat, op: Op)
    requires SameBytes(m, f) && op.Resize? && m'.dirs == m.dirs
    requires forall q | q in m.dirs :: forall a: Address :: PageAt(m', q, a) == PageAt(m, q, a)
    ensures SameBytes(m', FlatStep(f, op).0)
  {}

  lemma AddAgrees(m: Machine, r: map<nat, Role>, f: Flat, p: nat) returns (next: Option<Machine>, r': map<nat, Role>)
    requires Agree(m, r, f) && p !in m.dirs
    ensures next == AddProcess(m, p)
    ensures next.Some? ==>
              && Good(next.value, r') && SameAreas(next.value, FlatStep(f, Add(p)).0)
              && (SameBytes(next.value, FlatStep(f, Add(p)).0) <==> ZeroBut(AddChange(m, p), {1, 2}))
  {
    next, r' := AddProcessKeeps(m, r, p);
    if next.Some? {
      AddedCoherent(m, next.value, r, r', p);
      AddedAgrees(m, next.value, f, p, AddChange(m, p));
      AddedAreas(m, next.value, f, p);
    }
  }

  lemma RemovedAgrees(m: Machine, m': Machine, f: Flat, p: nat)
    requires SameBytes(m, f) && m'.dirs.Keys == m.dirs.Keys - {p}
    requires forall q, d: nat, j: nat | q in m.dirs && q != p :: Content(m', q, d, j) == Content(m, q, d, j)
    ensures SameBytes(m', FlatStep(f, Remove(p)).0)
  {
    forall q, a: Address | q in m'.dirs ensures f.mem(q, a) == PageAt(m', q, a)[Offset(a)] {
      assert PageAt(m', q, a) == PageAt(m, q, a);
    }
  }

  lemma RemoveAgrees(m: Machine, r: map<nat, Role>, f: Flat, p: nat) returns (r': map<nat, Role>)
    requires Agree(m, r, f)
    ensures Agree(RemoveProcess(m, p), r', FlatStep(f, Remove(p)).0)
  {
    if p in m.dirs {
      RemoveKeeps(m, r, p);
      r' := Others(r, p);
      RemovedAgrees(m, RemoveProcess(m, p), f, p);
    } else {
      r' := r;
      DeadRemoveKeeps(m, r, p);
      ChangedAgrees(m, RemoveProcess(m, p), f, Same);
    }
  }

  /** What an operation on an agreeing state comes to: it agrees again exactly when the operation is clean, and
      the reply is the flat memory's unless the operation shows a page of an earlier table. */
  ghost predicate Answers(m: Machine, f: Flat, op: Op, m': Machine, r': map<nat, Role>, reply: Reply)
    requires Legal(m, op)
  {
    && Good(m', r') && SameAreas(m', FlatStep(f, op).0)
    && (SameBytes(m', FlatStep(f, op).0) <==> CleanStep(m, op))
    && (reply == FlatStep(f, op).1 <==> !ShowsStale(m, op))
  }

  lemma AddAnswers(m: Machine, r: map<nat, Role>, f: Flat, p: nat) returns (r': map<nat, Role>)
    requires Agree(m, r, f) && p !in m.dirs
    ensures Step(m, Add(p)).Some? ==> Answers(m, f, Add(p), Step(m, Add(p)).value.0, r', Step(m, Add(p)).value.1)
  {
    var next;
    next, r' := AddAgrees(m, r, f, p);
  }

  lemma RemoveAnswers(m: Machine, r: map<nat, Role>, f: Flat, p: nat) returns (r': map<nat, Role>)
    requires Agree(m, r, f)
    ensures Answers(m, f, Remove(p), RemoveProcess(m, p), r', Done)
  {
    r' := RemoveAgrees(m, r, f, p);
  }

  lemma ResizeAnswers(m: Machine, r: map<nat, Role>, f: Flat, p: nat, i: nat, pages: nat, grow: bool)
    requires Agree(m, r, f) && Live(m, p) && i < Segments.NUM_SEGMENTS
    ensures Answers(m, f, Resize(p, i, pages, grow), MoveSegment(m, p, i, pages, grow), r, Done)
  {
    ResizeKeeps(m, r, p, i, pages, grow);
    ResizedBytes(m, MoveSegment(m, p, i, pages, grow), f, Resize(p, i, pages, grow));
    ResizedAreas(m, MoveSegment(m, p, i, pages, grow), f, p, i, pages, grow);
  }

  lemma ProcessAnswers(m: Machine, r: map<nat, Role>, f: Flat, op: Op) returns (r': map<nat, Role>)
    requires Agree(m, r, f) && Legal(m, op) && (op.Add? || op.Remove? || op.Resize?)
    ensures Step(m, op).Some? ==> Answers(m, f, op, Step(m, op).value.0, r', Step(m, op).value.1)
  {
    match op
    case Add(p) => r' := AddAnswers(m, r, f, p);
    case Remove(p) => r' := RemoveAnswers(m, r, f, p);
    case Resize(p, i, pages, grow) =>
      r' := r;
      ResizeAnswers(m, r, f, p, i, pages, grow);
  }

  lemma AccessAnswers(m: Machine, r: map<nat, Role>, f: Flat, op: Op) returns (r': map<nat, Role>)
    requires Agree(m, r, f) && Legal(m, op) && (op.ReadAt? || op.WriteAt?)
    ensures Step(m, op).Some? ==> Answers(m, f, op, Step(m, op).value.0, r', Step(m, op).value.1)
  {
    var next;
    match op
    case ReadAt(p, a, count) => next, r' := ReadAgrees(m, r, f, p, a, count);
    case WriteAt(p, a, data) => next, r' := WriteAgrees(m, r, f, p, a, data);
  }

  /** From a state that agrees with flat memory, one operation leads to another exactly when it is clean; a
      clean one answers like flat memory. */
  lemma StepAgrees(m: Machine, r: map<nat, Role>, f: Flat, op: Op) returns (r': map<nat, Role>)
    requires Agree(m, r, f) && Legal(m, op)
    ensures Step(m, op).Some? ==> Answers(m, f, op, Step(m, op).value.0, r', Step(m, op).value.1)
  {
    if op.ReadAt? || op.WriteAt? {
      r' := AccessAnswers(m, r, f, op);
    } else {
      r' := ProcessAnswers(m, r, f, op);
    }
    if CleanStep(m, op) { CleanShowsNothing(m, op); }
  }

  /** How many operations are done before one is not clean, or finds no frame. */
  function CleanLength(m: Machine, ops: seq<Op>): nat
    requires LegalRun(m, ops)
    decreases |ops|
  {
    if ops == [] then 0
    else
      match Step(m, ops[0])
      case Some((m', _)) => if CleanStep(m, ops[0]) then 1 + CleanLength(m', ops[1..]) else 0
      case None => 0
  }

  /** Whether the first operation that is not clean shows a page of an earlier table. */
  predicate FirstShowsStale(m: Machine, ops: seq<Op>)
    requires LegalRun(m, ops)
    decreases |ops|
  {
    ops != []
    && match Step(m, ops[0])
       case Some((m', _)) => if CleanStep(m, ops[0]) then FirstShowsStale(m', ops[1..]) else ShowsStale(m, ops[0])
       case None => false
  }

  /** The replies before the first operation that is not clean are the flat memory's; its own reply is not
      exactly when it shows such a page. */
  ghost predicate RepliesAgree(m: Machine, f: Flat, ops: seq<Op>)
    requires LegalRun(m, ops)
  {
    var n, replies, flat := CleanLength(m, ops), Completed(m, ops), FlatReplies(f, ops);
    && n <= |replies| <= |flat| && replies[..n] == flat[..n]
    && (n < |replies| ==> (replies[n] == flat[n] <==> !FirstShowsStale(m, ops)))
    && (CleanRun(m, ops) <==> n == |replies|)
  }

  lemma {:induction false} CleanFirst(m: Machine, ops: seq<Op>, m': Machine, reply: Reply)
    requires ops != [] && LegalRun(m, ops) && Step(m, ops[0]) == Some((m', reply)) && CleanStep(m, ops[0])
    ensures CleanLength(m, ops) == 1 + CleanLength(m', ops[1..])
    ensures Completed(m, ops) == [reply] + Completed(m', ops[1..])
    ensures FirstShowsStale(m, ops) == FirstShowsStale(m', ops[1..]) && CleanRun(m, ops) == CleanRun(m', ops[1..])
  {}

  lemma SamePrefix(reply: Reply, replies: seq<Reply>, flat: seq<Reply>, n: nat)
    requires n <= |replies| <= |flat| && replies[..n] == flat[..n]
    ensures ([reply] + replies)[..n + 1] == ([reply] + flat)[..n + 1]
    ensures n < |replies| ==> ([reply] + replies)[n + 1] == replies[n] && ([reply] + flat)[n + 1] == flat[n]
  {
    assert ([reply] + replies)[..n + 1] == [reply] + replies[..n] && ([reply] + flat)[..n + 1] == [reply] + flat[..n];
  }

  lemma {:induction false} RepliesAgreeNext(m: Machine, f: Flat, ops: seq<Op>, m': Machine, f': Flat, reply: Reply)
    requires ops != [] && LegalRun(m, ops) && Step(m, ops[0]) == Some((m', reply)) && CleanStep(m, ops[0])
    requires f' == FlatStep(f, ops[0]).0 && reply == FlatStep(f, ops[0]).1 && RepliesAgree(m', f', ops[1..])
    ensures RepliesAgree(m, f, ops)
  {
    CleanFirst(m, ops, m', reply);
    SamePrefix(reply, Completed(m', ops[1..]), FlatReplies(f', ops[1..]), CleanLength(m', ops[1..]));
  }

  /** The run ends here, or the next operation is not clean. */
  lemma {:induction false} CleanEnds(m: Machine, ops: seq<Op>)
    requires LegalRun(m, ops) && (ops == [] || Step(m, ops[0]).None?)
    ensures CleanLength(m, ops) == 0 && Completed(m, ops) == [] && CleanRun(m, ops)
  {}

  lemma {:induction false} UncleanFirst(m: Machine, ops: seq<Op>, m': Machine, reply: Reply)
    requires ops != [] && LegalRun(m, ops) && Step(m, ops[0]) == Some((m', reply)) && !CleanStep(m, ops[0])
    ensures CleanLength(m, ops) == 0 && Completed(m, ops) == [reply] + Completed(m', ops[1..])
    ensures FirstShowsStale(m, ops) == ShowsStale(m, ops[0]) && !CleanRun(m, ops)
  {}

  lemma {:induction false} RepliesAgreeUnclean(m: Machine, f: Flat, ops: seq<Op>, m': Machine, reply: Reply)
    requires ops != [] && LegalRun(m, ops) && Step(m, ops[0]) == Some((m', reply)) && !CleanStep(m, ops[0])
    requires reply == FlatStep(f, ops[0]).1 <==> !ShowsStale(m, ops[0])
    ensures RepliesAgree(m, f, ops)
  {
    UncleanFirst(m, ops, m', reply);
    FlatRepliesAll(f, ops);
    CompletedIsRun(m', ops[1..]);
    assert FlatReplies(f, ops)[0] == FlatStep(f, ops[0]).1;
  }

  lemma {:induction false} SameWhileClean(m: Machine, r: map<nat, Role>, f: Flat, ops: seq<Op>)
    requires Agree(m, r, f) && LegalRun(m, ops)
    ensures SameThroughout(m, f, ops) <==> CleanRun(m, ops)
    decreases |ops|
  {
    if ops != [] {
      var next := Step(m, ops[0]);
      var r' := StepAgrees(m, r, f, ops[0]);
      if next.Some? && CleanStep(m, ops[0]) {
        SameWhileClean(next.value.0, r', FlatStep(f, ops[0]).0, ops[1..]);
      }
    }
  }

  lemma {:induction false} RepliesWhileClean(m: Machine, r: map<nat, Role>, f: Flat, ops: seq<Op>)
    requires Agree(m, r, f) && LegalRun(m, ops)
    ensures RepliesAgree(m, f, ops)
    decreases |ops|
  {
    if ops == [] || Step(m, ops[0]).None? {
      CleanEnds(m, ops);
    } else {
      var next, f' := Step(m, ops[0]).value, FlatStep(f, ops[0]).0;
      var r' := StepAgrees(m, r, f, ops[0]);
      if CleanStep(m, ops[0]) {
        CleanShowsNothing(m, ops[0]);
        RepliesWhileClean(next.0, r', f', ops[1..]);
        RepliesAgreeNext(m, f, ops, next.0, f', next.1);
      } else {
        RepliesAgreeUnclean(m, f, ops, next.0, next.1);
      }
    }
  }

  lemma {:induction false} CompletedIsRun(m: Machine, ops: seq<Op>)
    requires LegalRun(m, ops)
    ensures |Completed(m, ops)| <= |ops|
    ensures Run(m, ops).Some? <==> |Completed(m, ops)| == |ops|
    ensures Run(m, ops).Some? ==> Run(m, ops).value.1 == Completed(m, ops)
    decreases |ops|
  {
    if ops != [] && Step(m, ops[0]).Some? { CompletedIsRun(Step(m, ops[0]).value.0, ops[1..]); }
  }

  lemma {:induction false} FlatRepliesAll(f: Flat, ops: seq<Op>)
    ensures |FlatReplies(f, ops)| == |ops|
    decreases |ops|
  {
    if ops != [] { FlatRepliesAll(FlatStep(f, ops[0]).0, ops[1..]); }
  }

  /** In a run from boot, machine and flat memory hold the same bytes after every operation exactly when no
      page table is put into a frame for which the disk holds a page that would show through. As long as that
      does not happen every reply is the flat memory's: a permitted read yields what its process last wrote at
      each address, or zero, whatever was evicted, paged in, found in the buffer or switched to in between.
      Frames may run out on the way. */
  lemma {:induction false} FlatMemoryRefinement(frames: nat, ops: seq<Op>)
    requires LegalRun(Boot(frames), ops)
    ensures SameThroughout(Boot(frames), FlatBoot(), ops) <==> CleanRun(Boot(frames), ops)
    ensures RepliesAgree(Boot(frames), FlatBoot(), ops)
    ensures CleanRun(Boot(frames), ops) ==> Completed(Boot(frames), ops) <= FlatReplies(FlatBoot(), ops)
    ensures CleanRun(Boot(frames), ops) && Run(Boot(frames), ops).Some? ==>
              Run(Boot(frames), ops).value.1 == FlatReplies(FlatBoot(), ops)
  {
    BootIsGood(frames);
    SameWhileClean(Boot(frames), map[], FlatBoot(), ops);
    RepliesWhileClean(Boot(frames), map[], FlatBoot(), ops);
    if CleanRun(Boot(frames), ops) { CleanPrefix(Boot(frames), FlatBoot(), ops); }
  }

  lemma {:induction false} CleanPrefix(m: Machine, f: Flat, ops: seq<Op>)
    requires LegalRun(m, ops) && RepliesAgree(m, f, ops) && CleanRun(m, ops)
    ensures Completed(m, ops) <= FlatReplies(f, ops)
    ensures Run(m, ops).Some? ==> Run(m, ops).value.1 == FlatReplies(f, ops)
  {
    var replies, flat := Completed(m, ops), FlatReplies(f, ops);
    CompletedIsRun(m, ops);
    FlatRepliesAll(f, ops);
    assert replies == replies[..|replies|] == flat[..|replies|];
  }

  // ---- Runs that leave no stale files ----

  /** Processes are removed only while none of their pages was swapped out. */
  predicate SparingRun(m: Machine, ops: seq<Op>)
    requires LegalRun(m, ops)
    decreases |ops|
  {
    ops == []
    || ((ops[0].Remove? ==> NeverSwapped(m, ops[0].pid))
        && match Step(m, ops[0]) case Some((m', _)) => SparingRun(m', ops[1..]) case None => true)
  }

  /** A frame that is not reserved has no files while files belong to live tables. */
  lemma NewFrameIsClean(m: Machine, r: map<nat, Role>, j: nat)
    requires Owned(m, r) && SwapOwned(m.kernel, r) && Unreserved(m.kernel) > 0
    ensures FileOf(m.kernel.swap, Ref(NewFrame(m.kernel), j)) == ZeroPage()
  {
    UnreservedIsRest(m.kernel, r);
    MakeRoomKeeps(m, r, Reserved);
    if Bin(Ref(NewFrame(m.kernel), j)) in m.kernel.swap { assert IsSlot(r, Ref(NewFrame(m.kernel), j)); }
  }

  lemma AccessIsClean(m: Machine, r: map<nat, Role>, p: nat, a: Address)
    requires Owned(m, r) && SwapOwned(m.kernel, r) && Live(m, p) && Unreserved(m.kernel) >= AccessDemand(m, p, a)
    ensures ZeroBut(AccessChange(m, p, a), {})
  {
    if AccessChange(m, p, a).NewTable? {
      forall j: nat | j < NUM_ENTRIES { NewFrameIsClean(m, r, j); }
    }
  }

  lemma AddIsClean(m: Machine, r: map<nat, Role>, p: nat)
    requires Owned(m, r) && SwapOwned(m.kernel, r) && p !in m.dirs && Unreserved(m.kernel) >= 3
    ensures ZeroBut(AddChange(m, p), {1, 2})
  {
    var m1, r1 := AddDirectoryKeeps(m, r, p);
    if m1.Some? {
      UnreservedIsRest(m.kernel, r);
      UnreservedIsRest(m1.value.kernel, r1);
      forall j: nat | j < NUM_ENTRIES { NewFrameIsClean(m1.value, r1, j); }
    }
  }

  lemma SparingStepIsClean(m: Machine, r: map<nat, Role>, op: Op)
    requires Good(m, r) && SwapOwned(m.kernel, r) && Legal(m, op) && Unreserved(m.kernel) >= Demand(m, op)
    ensures CleanStep(m, op)
  {
    match op
    case Add(p) => AddIsClean(m, r, p);
    case ReadAt(p, a, _) => AccessIsClean(m, r, p, a);
    case WriteAt(p, a, _) =>
      AccessIsClean(m, r, p, a);
      AddressOfIndices(a);
    case _ =>
  }

  lemma {:induction false} SparingRunIsClean(m: Machine, r: map<nat, Role>, ops: seq<Op>)
    requires Good(m, r) && SwapOwned(m.kernel, r) && LegalRun(m, ops) && SparingRun(m, ops)
    ensures CleanRun(m, ops)
    decreases |ops|
  {
    if ops != [] {
      var next := Step(m, ops[0]);
      if next.Some? {
        var r' := StepKeeps(m, r, ops[0]);
        SparingStepIsClean(m, r, ops[0]);
        SparingRunIsClean(next.value.0, r', ops[1..]);
      }
    }
  }

  /** So only the removal of a process with pages on disk can make memory and flat memory differ. */
  lemma {:induction false} SparingRunsAgree(frames: nat, ops: seq<Op>)
    requires LegalRun(Boot(frames), ops) && SparingRun(Boot(frames), ops)
    ensures SameThroughout(Boot(frames), FlatBoot(), ops)
    ensures Run(Boot(frames), ops).Some? ==> Run(Boot(frames), ops).value.1 == FlatReplies(FlatBoot(), ops)
  {
    BootIsGood(frames);
    SparingRunIsClean(Boot(frames), map[], ops);
    FlatMemoryRefinement(frames, ops);
  }

  // ---- Faults in numbers ----

  /** Which accesses of a process whose segments were never resized are segmentation faults. */
  lemma NewProcessFaults(m: Machine, r: map<nat, Role>, p: nat, a: Address, count: nat, data: seq<Byte>)
    requires Good(m, r) && Live(m, p) && m.segs[p] == Segments.Initial() && Fits(a, count) && Fits(a, |data|)
    ensures Read(m, p, a, count).Some? ==>
              (Read(m, p, a, count).value.1 != Segfault <==>
                0x1000 <= a <= 0x3000 || 0x0804_8000 <= a <= 0x0807_2000 || a == 0xC07F_E000)
    ensures Write(m, p, a, data).Some? ==>
              (Write(m, p, a, data).value.1 != Segfault <==>
                0x1000 <= a <= 0x3000 || 0x0805_2000 <= a <= 0x0807_2000 || a == 0xC07F_E000)
  {
    var read, r1 := ReadKeeps(m, r, p, a, count);
    var written, r2 := WriteKeeps(m, r, p, a, data);
    Areas.NewReadable(a);
    Areas.NewWritable(a);
  }
}
