/** The memory management unit as a state machine over values: one function for each operation of
    the code, each yielding None where the code would run out of frames. */
module Mmu {
  import opened Bytes
  import opened Options
  import opened VmTypes
  import opened Frames
  import Segments
  import Tlb

  datatype Machine = Machine(
    kernel: Kernel,
    dirs: map<nat, nat>,                       // frame of each live process's page directory
    segs: map<nat, Segments.Segmentation>,
    tlb: seq<Tlb.Node>,
    pid: nat,
    pageFaults: nat,
    segFaults: nat,
    tlbMisses: nat)

  function PageBase(a: Address): nat { a - a % PAGE_SIZE }
  function Offset(a: Address): nat { a % PAGE_SIZE }
  function DirIndex(a: nat): nat { a / (PAGE_SIZE * NUM_ENTRIES) }
  function TabIndex(a: nat): nat { a / PAGE_SIZE % NUM_ENTRIES }

  function Boot(frames: nat): Machine {
    Machine(Kernel(seq(frames, _ => Free), seq(frames, _ => Zeroed), map[]),
            map[], map[], Tlb.Empty(), 0, 0, 0, 0)
  }

  function PdeRef(m: Machine, p: nat, i: nat): Ref
    requires p in m.dirs
  {
    Ref(m.dirs[p], i)
  }

  function Pde(m: Machine, p: nat, i: nat): Entry
    requires p in m.dirs
  {
    EntryAt(m.kernel, PdeRef(m, p, i))
  }

  // ---- Steps of a translation ----

  function SwitchTo(m: Machine, p: nat): Machine {
    if p != m.pid then m.(tlb := Tlb.Empty(), pid := p) else m
  }

  /** Gives directory entry `i` of process `p` a fresh page table. */
  function AttachTable(m: Machine, p: nat, i: nat): (r: Option<Machine>)
    requires p in m.dirs
    ensures r.Some? ==> r.value == m.(kernel := r.value.kernel)
  {
    match Attach(m.kernel, PdeRef(m, p, i), Reserved)
    case Some(k) => Some(m.(kernel := k))
    case None => None
  }

  function NeedTable(m: Machine, p: nat, i: nat): (r: Option<Machine>)
    requires p in m.dirs
    ensures r.Some? ==> r.value == m.(kernel := r.value.kernel, pageFaults := r.value.pageFaults)
  {
    if Pde(m, p, i).present then Some(m)
    else AttachTable(m.(pageFaults := m.pageFaults + 1), p, i)
  }

  /** A walk of the tables, whose result the buffer keeps. */
  function Miss(m: Machine, p: nat, a: Address): Option<(Machine, Ref)>
    requires p in m.dirs
  {
    match NeedTable(m, p, DirIndex(a))
    case None => None
    case Some(m') =>
      var ref := Ref(Pde(m', p, DirIndex(a)).frame, TabIndex(a));
      Some((m'.(tlb := Tlb.Add(m'.tlb, PageBase(a), ref)), ref))
  }

  /** The entry for address `a`: from the buffer or, on a miss, from the tables. */
  function FindEntry(m: Machine, p: nat, a: Address): Option<(Machine, Ref)>
    requires p in m.dirs
  {
    var (tlb, hit) := Tlb.Get(m.tlb, PageBase(a));
    if hit.Some? then Some((m.(tlb := tlb), hit.value))
    else Miss(m.(tlb := tlb, tlbMisses := m.tlbMisses + 1), p, a)
  }

  lemma OnceLookedUp(m: Machine, p: nat, a: Address, m1: Machine, hit: Option<Ref>)
    requires p in m.dirs && m1 == m.(tlb := m1.tlb) && Tlb.Get(m.tlb, PageBase(a)) == (m1.tlb, hit)
    ensures FindEntry(m, p, a) == if hit.Some? then Some((m1, hit.value))
                                  else Miss(m1.(tlbMisses := m1.tlbMisses + 1), p, a)
  {
  }

  function PageIn(m: Machine, ref: Ref): (r: Option<Machine>)
    ensures r.Some? ==> r.value == m.(kernel := r.value.kernel, pageFaults := r.value.pageFaults)
  {
    if EntryAt(m.kernel, ref).present then Some(m)
    else
      match Attach(m.kernel, ref, Page(ref))
      case Some(k) => Some(m.(kernel := ReadPageFromDisk(k, ref), pageFaults := m.pageFaults + 1))
      case None => None
  }

  function Resolve(m: Machine, p: nat, a: Address): Option<(Machine, Ref)>
    requires p in m.dirs
  {
    match FindEntry(m, p, a)
    case None => None
    case Some((m', ref)) =>
      match PageIn(m', ref)
      case None => None
      case Some(m'') => Some((m'', ref))
  }

  // ---- Operations ----

  datatype Reply = Bytes(bytes: seq<Byte>) | Done | Segfault

  predicate Fits(a: Address, count: nat) { count + Offset(a) <= PAGE_SIZE }

  predicate Live(m: Machine, p: nat) { p in m.dirs && p in m.segs }

  function Fault(m: Machine): (Machine, Reply) { (m.(segFaults := m.segFaults + 1), Segfault) }

  /** Permissions are checked only once the page has been brought in. */
  function FinishRead(m: Machine, ref: Ref, s: Segments.Segment, a: Address, count: nat): (Machine, Reply)
    requires Fits(a, count)
  {
    if Segments.READ !in s.permissions then Fault(m)
    else
      var e := EntryAt(m.kernel, ref);
      (m.(kernel := SetEntry(m.kernel, ref, e.(accessed := true))),
       Bytes(BytesAt(m.kernel, e.frame)[Offset(a)..Offset(a) + count]))
  }

  /** A read in segment `s` by the current process. */
  function ReadWithin(m: Machine, p: nat, s: Segments.Segment, a: Address, count: nat): Option<(Machine, Reply)>
    requires p in m.dirs && Fits(a, count)
  {
    match Resolve(m, p, a)
    case None => None
    case Some((m', ref)) => Some(FinishRead(m', ref, s, a, count))
  }

  function Read(m: Machine, p: nat, a: Address, count: nat): Option<(Machine, Reply)>
    requires Live(m, p) && Fits(a, count)
  {
    match Segments.Find(m.segs[p], a)
    case None => Some(Fault(SwitchTo(m, p)))
    case Some(s) => ReadWithin(SwitchTo(m, p), p, s, a, count)
  }

  lemma ReadOnceSwitched(m: Machine, p: nat, a: Address, count: nat, m1: Machine, s: Option<Segments.Segment>)
    requires Live(m, p) && Fits(a, count) && m1 == SwitchTo(m, p) && s == Segments.Find(m.segs[p], a)
    ensures Read(m, p, a, count) == if s.None? then Some(Fault(m1)) else ReadWithin(m1, p, s.value, a, count)
  {
  }

  function Overlay(page: Page, at: nat, data: seq<Byte>): Page
    requires at + |data| <= PAGE_SIZE
  {
    page[..at] + data + page[at + |data|..]
  }

  function FinishWrite(m: Machine, ref: Ref, s: Segments.Segment, a: Address, data: seq<Byte>): (Machine, Reply)
    requires Fits(a, |data|)
  {
    if Segments.WRITE !in s.permissions then Fault(m)
    else
      var e := EntryAt(m.kernel, ref);
      var k := SetBytes(m.kernel, e.frame, Overlay(BytesAt(m.kernel, e.frame), Offset(a), data));
      (m.(kernel := SetEntry(k, ref, e.(accessed := true, dirty := true))), Done)
  }

  function WriteWithin(m: Machine, p: nat, s: Segments.Segment, a: Address, data: seq<Byte>): Option<(Machine, Reply)>
    requires p in m.dirs && Fits(a, |data|)
  {
    match Resolve(m, p, a)
    case None => None
    case Some((m', ref)) => Some(FinishWrite(m', ref, s, a, data))
  }

  function Write(m: Machine, p: nat, a: Address, data: seq<Byte>): Option<(Machine, Reply)>
    requires Live(m, p) && Fits(a, |data|)
  {
    match Segments.Find(m.segs[p], a)
    case None => Some(Fault(SwitchTo(m, p)))
    case Some(s) => WriteWithin(SwitchTo(m, p), p, s, a, data)
  }

  lemma WriteOnceSwitched(m: Machine, p: nat, a: Address, data: seq<Byte>, m1: Machine, s: Option<Segments.Segment>)
    requires Live(m, p) && Fits(a, |data|) && m1 == SwitchTo(m, p) && s == Segments.Find(m.segs[p], a)
    ensures Write(m, p, a, data) == if s.None? then Some(Fault(m1)) else WriteWithin(m1, p, s.value, a, data)
  {
  }

  function AddDirectory(m: Machine, p: nat): (r: Option<Machine>)
    ensures r.Some? ==> p in r.value.dirs
  {
    match Ask(m.kernel, Reserved)
    case Room(k, d) =>
      Some(m.(kernel := k, dirs := m.dirs[p := d], segs := m.segs[p := Segments.Initial()]))
    case NoRoom => None
  }

  /** A cleared page for the entry, without looking for a swap file. */
  function AttachPage(m: Machine, ref: Ref): Option<Machine> {
    match Attach(m.kernel, ref, Page(ref))
    case Some(k) => Some(m.(kernel := k))
    case None => None
  }

  function AttachPages(m: Machine, table: nat): Option<Machine> {
    match AttachPage(m, Ref(table, 1))
    case None => None
    case Some(m') => AttachPage(m', Ref(table, 2))
  }

  /** A directory, one page table, and the two pages of the testing segment. */
  function AddProcess(m: Machine, p: nat): Option<Machine> {
    match AddDirectory(m, p)
    case None => None
    case Some(m1) =>
      match AttachTable(m1, p, 0)
      case None => None
      case Some(m2) => AttachPages(m2, Pde(m2, p, 0).frame)
  }

  /** The frames that the removal of process `p` returns: its pages, its tables, its directory. */
  predicate Returned(m: Machine, p: nat, f: nat)
    requires p in m.dirs
  {
    || f == m.dirs[p]
    || exists i | 0 <= i < NUM_ENTRIES ::
         && Pde(m, p, i).present
         && (f == Pde(m, p, i).frame
             || exists j | 0 <= j < NUM_ENTRIES ::
                  var e := EntryAt(m.kernel, Ref(Pde(m, p, i).frame, j)); e.present && f == e.frame)
  }

  /** The names under which the removal of process `p` deletes swap files: not those they have. */
  function Deleted(m: Machine, p: nat): set<SwapFile>
    requires p in m.dirs
  {
    set i, j | 0 <= i < NUM_ENTRIES && 0 <= j < NUM_ENTRIES && Pde(m, p, i).present :: Plain(Ref(Pde(m, p, i).frame, j))
  }

  function RemoveProcess(m: Machine, p: nat): Machine {
    var mapping := seq(|m.kernel.mapping|, f requires 0 <= f < |m.kernel.mapping| =>
      if p in m.dirs && Returned(m, p, f) then Free else m.kernel.mapping[f]);
    var swap := if p in m.dirs then m.kernel.swap - Deleted(m, p) else m.kernel.swap;
    m.(kernel := m.kernel.(mapping := mapping, swap := swap),
       dirs := m.dirs - {p}, segs := m.segs - {p},
       tlb := if m.pid == p then Tlb.Empty() else m.tlb)
  }

  function MoveSegment(m: Machine, p: nat, i: nat, pages: nat, grow: bool): Machine
    requires p in m.segs && i < Segments.NUM_SEGMENTS
  {
    m.(segs := m.segs[p := Segments.Move(m.segs[p], i, pages, grow)])
  }

  // ---- Runs ----

  datatype Op =
    | Add(pid: nat)
    | Remove(pid: nat)
    | ReadAt(pid: nat, address: Address, count: nat)
    | WriteAt(pid: nat, address: Address, data: seq<Byte>)
    | Resize(pid: nat, segment: nat, pages: nat, grow: bool)

  /** What the code asks of its callers: processes that exist (or, to be added, do not), accesses that
      stay within a page. */
  predicate Legal(m: Machine, op: Op) {
    match op
    case Add(p) => p !in m.dirs
    case Remove(p) => true
    case ReadAt(p, a, count) => Live(m, p) && Fits(a, count)
    case WriteAt(p, a, data) => Live(m, p) && Fits(a, |data|)
    case Resize(p, i, _, _) => Live(m, p) && i < Segments.NUM_SEGMENTS
  }

  function Step(m: Machine, op: Op): Option<(Machine, Reply)>
    requires Legal(m, op)
  {
    match op
    case Add(p) => (match AddProcess(m, p) case Some(m') => Some((m', Done)) case None => None)
    case Remove(p) => Some((RemoveProcess(m, p), Done))
    case ReadAt(p, a, count) => Read(m, p, a, count)
    case WriteAt(p, a, data) => Write(m, p, a, data)
    case Resize(p, i, pages, grow) => Some((MoveSegment(m, p, i, pages, grow), Done))
  }

  /** Every operation of the run is legal when its turn comes. */
  predicate LegalRun(m: Machine, ops: seq<Op>)
    decreases |ops|
  {
    ops == []
    || (Legal(m, ops[0]) && match Step(m, ops[0]) case Some((m', _)) => LegalRun(m', ops[1..]) case None => true)
  }

  /** The machine after a run, with the replies, or None if frames ran out on the way. */
  function Run(m: Machine, ops: seq<Op>): Option<(Machine, seq<Reply>)>
    requires LegalRun(m, ops)
    decreases |ops|
  {
    if ops == [] then Some((m, []))
    else
      match Step(m, ops[0])
      case None => None
      case Some((m', reply)) =>
        match Run(m', ops[1..])
        case None => None
        case Some((m'', replies)) => Some((m'', [reply] + replies))
  }

  /** The replies of a run, as far as frames last. */
  function Completed(m: Machine, ops: seq<Op>): seq<Reply>
    requires LegalRun(m, ops)
    decreases |ops|
  {
    if ops == [] then []
    else
      match Step(m, ops[0])
      case None => []
      case Some((m', reply)) => [reply] + Completed(m', ops[1..])
  }
}
