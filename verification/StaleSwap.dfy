/** Removal deletes swap files under a name they do not have. A run of six operations on four frames in
    which a new process therefore reads what a removed one wrote. */
module StaleSwap {
  import opened Bytes
  import opened Options
  import opened VmTypes
  import opened Frames
  import opened Mmu
  import Areas
  import FlatMemory
  import opened MmuInvariant
  import Segments
  import Tlb

  /** A machine of four frames, all held by process `p`: its directory, its table, and the entries
      `last` (in frame 2) and 2 (in frame 3) of that table. */
  ghost predicate Full(m: Machine, p: nat, last: nat) {
    && m.dirs == map[p := 0] && m.segs == map[p := Segments.Initial()]
    && |m.kernel.memory| == 4
    && m.kernel.mapping == [Reserved, Reserved, Page(Ref(1, last)), Page(Ref(1, 2))]
    && Pde(m, p, 0).present && Pde(m, p, 0).frame == 1
    && EntryAt(m.kernel, Ref(1, last)).present && EntryAt(m.kernel, Ref(1, last)).frame == 2
    && EntryAt(m.kernel, Ref(1, 2)).present && EntryAt(m.kernel, Ref(1, 2)).frame == 3
    && (forall j | 0 <= j < NUM_ENTRIES && j != last && j != 2 :: !EntryAt(m.kernel, Ref(1, j)).present)
  }

  lemma AttachTakes(k: Kernel, ref: Ref, asker: Owner, f: nat)
    requires SameSize(k) && f < |k.mapping| && k.mapping[f] == Free && InTable(k, ref) && ref.table != f
    requires forall j | 0 <= j < f :: k.mapping[j] != Free
    ensures Attach(k, ref, asker) == Some(Link(k, ref, f, asker)) && Linked(k, Link(k, ref, f, asker), ref, f, asker)
  {
    LinkIsLinked(k, ref, f, asker);
    assert FirstFree(k.mapping, 0) == f;
  }

  lemma Adding(m: Machine, p: nat) returns (m': Machine)
    requires |m.kernel.memory| == 4 && m.kernel.mapping == [Free, Free, Free, Free]
    requires m.dirs == map[] && m.segs == map[]
    ensures AddProcess(m, p) == Some(m')
    ensures Full(m', p, 1) && m'.kernel.swap == m.kernel.swap && m'.tlb == m.tlb && m'.pid == m.pid
  {
    var m1 := AddDirectory(m, p).value;
    assert m1.kernel.mapping == [Reserved, Free, Free, Free] && m1.dirs == map[p := 0];
    AttachTakes(m1.kernel, PdeRef(m1, p, 0), Reserved, 1);
    var k2 := Link(m1.kernel, PdeRef(m1, p, 0), 1, Reserved);
    assert k2.mapping == [Reserved, Reserved, Free, Free];
    AttachTakes(k2, Ref(1, 1), Page(Ref(1, 1)), 2);
    var k3 := Link(k2, Ref(1, 1), 2, Page(Ref(1, 1)));
    assert k3.mapping == [Reserved, Reserved, Page(Ref(1, 1)), Free];
    AttachTakes(k3, Ref(1, 2), Page(Ref(1, 2)), 3);
    var k4 := Link(k3, Ref(1, 2), 3, Page(Ref(1, 2)));
    m' := m1.(kernel := k4);
    assert AddProcess(m, p) == Some(m');
  }

  /** Bringing in another page of the table evicts the page in frame 2. */
  lemma PagingIn(m: Machine, p: nat, last: nat, next: nat)
    requires Full(m, p, last) && last != 2 && next < NUM_ENTRIES && next != last && next != 2 && last < NUM_ENTRIES
    ensures PageIn(m, Ref(1, next)).Some?
    ensures var m' := PageIn(m, Ref(1, next)).value;
            && Full(m', p, next) && m'.tlb == m.tlb && m'.pid == m.pid && !m'.kernel.memory[2].Table?
            && m'.kernel.swap == m.kernel.swap[Bin(Ref(1, last)) := BytesAt(m.kernel, 2)]
            && BytesAt(m'.kernel, 2) == if Bin(Ref(1, next)) in m.kernel.swap then m.kernel.swap[Bin(Ref(1, next))]
                                        else ZeroPage()
  {
    var k, ref := m.kernel, Ref(1, next);
    assert FirstFree(k.mapping, 0) == 4;
    assert k.mapping[2] != Reserved && k.mapping[2] != Page(ref);
    assert FirstEvictable(k.mapping, Page(ref), 0) == 2;
    var k1 := Evict(k, 2);
    assert MakeRoom(k, Page(ref)) == Room(k1, 2);
    assert k1.mapping == [Reserved, Reserved, Free, Page(Ref(1, 2))];
    LinkIsLinked(k1, ref, 2, Page(ref));
    var k2 := Link(k1, ref, 2, Page(ref));
    assert Attach(k, ref, Page(ref)) == Some(k2);
  }

  lemma TestingSegment(a: Address)
    requires PAGE_SIZE <= a <= 3 * PAGE_SIZE
    ensures Segments.Find(Segments.Initial(), a) == Some(Segments.Initial()[Segments.TESTING])
  {
    assert Segments.Covers(Segments.Initial()[Segments.TESTING], a);
    assert forall i | 0 <= i < Segments.TESTING :: !Segments.Covers(Segments.Initial()[i], a);
  }

  /** A page that the buffer does not hold is found in the table. */
  lemma Finding(m: Machine, p: nat, last: nat, a: Address)
    requires Full(m, p, last) && DirIndex(a) == 0 && Tlb.Find(m.tlb, PageBase(a)) == |m.tlb|
    ensures FindEntry(m, p, a).Some?
    ensures var (m', ref) := FindEntry(m, p, a).value;
            && ref == Ref(1, TabIndex(a)) && m'.kernel == m.kernel && m'.pid == m.pid && Full(m', p, last)
            && m'.tlb == Tlb.Add(m.tlb, PageBase(a), ref)
  {
    var m1 := m.(tlbMisses := m.tlbMisses + 1);
    OnceLookedUp(m, p, a, m, None);
    assert Pde(m1, p, 0) == Pde(m, p, 0);
    assert NeedTable(m1, p, 0) == Some(m1);
  }

  /** The machine that resolving page `next` leaves, once it evicted page `last`. */
  lemma Resolving(m: Machine, p: nat, last: nat, next: nat, a: Address)
    requires Full(m, p, last) && last < NUM_ENTRIES && last != 2 && p == m.pid
    requires a == next * PAGE_SIZE && next < NUM_ENTRIES && next != last && next != 2
    requires Tlb.Find(m.tlb, a) == |m.tlb|
    ensures Resolve(m, p, a).Some?
    ensures var (m', ref) := Resolve(m, p, a).value;
            && ref == Ref(1, next) && Full(m', p, next) && m'.pid == p && !m'.kernel.memory[2].Table?
            && m'.tlb == Tlb.Add(m.tlb, a, ref)
            && m'.kernel.swap == m.kernel.swap[Bin(Ref(1, last)) := BytesAt(m.kernel, 2)]
            && BytesAt(m'.kernel, 2) == if Bin(ref) in m.kernel.swap then m.kernel.swap[Bin(ref)] else ZeroPage()
  {
    assert DirIndex(a) == 0 && TabIndex(a) == next && PageBase(a) == a;
    Finding(m, p, last, a);
    var (m1, ref) := FindEntry(m, p, a).value;
    PagingIn(m1, p, last, next);
  }

  const PAGE_1: Address := PAGE_SIZE
  const PAGE_3: Address := 3 * PAGE_SIZE

  /** The swap file of entry 3 of the table in frame 1 begins with a seven. */
  ghost predicate SevenSwapped(k: Kernel) { Bin(Ref(1, 3)) in k.swap && k.swap[Bin(Ref(1, 3))][0] == 7 }

  function Tested(): Segments.Segment { Segments.Initial()[Segments.TESTING] }

  lemma WriteOnce(m: Machine, p: nat, a: Address, data: seq<Byte>, m': Machine, ref: Ref)
    requires Live(m, p) && m.segs[p] == Segments.Initial() && PAGE_SIZE <= a <= 3 * PAGE_SIZE && Fits(a, |data|)
    requires var found := Resolve(SwitchTo(m, p), p, a); found.Some? && found.value.0 == m' && found.value.1 == ref
    ensures Write(m, p, a, data) == Some(FinishWrite(m', ref, Tested(), a, data))
  {
    TestingSegment(a);
  }

  lemma ReadOnce(m: Machine, p: nat, a: Address, count: nat, m': Machine, ref: Ref)
    requires Live(m, p) && m.segs[p] == Segments.Initial() && PAGE_SIZE <= a <= 3 * PAGE_SIZE && Fits(a, count)
    requires var found := Resolve(SwitchTo(m, p), p, a); found.Some? && found.value.0 == m' && found.value.1 == ref
    ensures Read(m, p, a, count) == Some(FinishRead(m', ref, Tested(), a, count))
  {
    TestingSegment(a);
  }

  lemma Writing(m: Machine, p: nat, last: nat, a: Address, data: seq<Byte>)
    requires Full(m, p, last) && last < NUM_ENTRIES && Fits(a, |data|)
    requires !m.kernel.memory[2].Table?
    ensures var (m', reply) := FinishWrite(m, Ref(1, last), Tested(), a, data);
            && reply == Done && Full(m', p, last) && m'.tlb == m.tlb && m'.pid == m.pid
            && m'.kernel.swap == m.kernel.swap
            && BytesAt(m'.kernel, 2) == Overlay(BytesAt(m.kernel, 2), Offset(a), data)
  {
    var m' := FinishWrite(m, Ref(1, last), Tested(), a, data).0;
    assert forall o | o != Ref(1, last) && o.table != 2 :: EntryAt(m'.kernel, o) == EntryAt(m.kernel, o);
  }

  lemma Reading(m: Machine, p: nat, last: nat, a: Address, count: nat)
    requires Full(m, p, last) && last < NUM_ENTRIES && Fits(a, count)
    ensures var (m', reply) := FinishRead(m, Ref(1, last), Tested(), a, count);
            && reply == Bytes(BytesAt(m.kernel, 2)[Offset(a)..Offset(a) + count])
            && Full(m', p, last) && m'.pid == m.pid && m'.kernel.swap == m.kernel.swap
  {
    var m' := FinishRead(m, Ref(1, last), Tested(), a, count).0;
    assert forall o | o != Ref(1, last) :: EntryAt(m'.kernel, o) == EntryAt(m.kernel, o);
  }

  /** One byte at the beginning of the page. */
  lemma WritingFirst(m: Machine, p: nat, last: nat, a: Address, b: Byte)
    requires Full(m, p, last) && last < NUM_ENTRIES && Offset(a) == 0 && !m.kernel.memory[2].Table?
    ensures var (m', reply) := FinishWrite(m, Ref(1, last), Tested(), a, [b]);
            && reply == Done && Full(m', p, last) && m'.tlb == m.tlb && m'.pid == m.pid && BytesAt(m'.kernel, 2)[0] == b
  {
    Writing(m, p, last, a, [b]);
    FlatMemory.OverlayAt(BytesAt(m.kernel, 2), 0, [b], 0);
  }

  lemma ReadingFirst(m: Machine, p: nat, last: nat, a: Address)
    requires Full(m, p, last) && last < NUM_ENTRIES && Offset(a) == 0
    ensures FinishRead(m, Ref(1, last), Tested(), a, 1).1 == Bytes([BytesAt(m.kernel, 2)[0]])
  {
    Reading(m, p, last, a, 1);
    var page := BytesAt(m.kernel, 2);
    assert page[0..1] == [page[0]];
  }

  lemma WriteSeven(m: Machine) returns (m': Machine)
    requires Full(m, 0, 1) && m.pid == 0 && m.tlb == Tlb.Empty() && m.kernel.swap == map[]
    ensures Write(m, 0, PAGE_3, [7]) == Some((m', Done))
    ensures Full(m', 0, 3) && m'.pid == 0 && BytesAt(m'.kernel, 2)[0] == 7
    ensures m'.tlb == Tlb.Add(Tlb.Empty(), PAGE_3, Ref(1, 3))
  {
    Resolving(m, 0, 1, 3, PAGE_3);
    var (m1, ref) := Resolve(m, 0, PAGE_3).value;
    WritingFirst(m1, 0, 3, PAGE_3, 7);
    WriteOnce(m, 0, PAGE_3, [7], m1, ref);
    m' := FinishWrite(m1, ref, Tested(), PAGE_3, [7]).0;
  }

  lemma ReadElsewhere(m: Machine) returns (m': Machine, reply: Reply)
    requires Full(m, 0, 3) && m.pid == 0 && BytesAt(m.kernel, 2)[0] == 7
    requires m.tlb == Tlb.Add(Tlb.Empty(), PAGE_3, Ref(1, 3))
    ensures Read(m, 0, PAGE_1, 1) == Some((m', reply))
    ensures Full(m', 0, 1) && m'.pid == 0 && SevenSwapped(m'.kernel)
  {
    Resolving(m, 0, 3, 1, PAGE_1);
    var (m1, ref) := Resolve(m, 0, PAGE_1).value;
    ReadOnce(m, 0, PAGE_1, 1, m1, ref);
    Reading(m1, 0, 1, PAGE_1, 1);
    var read := FinishRead(m1, ref, Tested(), PAGE_1, 1);
    m', reply := read.0, read.1;
  }

  lemma Removing(m: Machine)
    requires Full(m, 0, 1) && m.pid == 0 && SevenSwapped(m.kernel)
    ensures var m' := RemoveProcess(m, 0);
            && |m'.kernel.memory| == 4 && m'.kernel.mapping == [Free, Free, Free, Free]
            && m'.dirs == map[] && m'.segs == map[] && m'.tlb == Tlb.Empty() && m'.pid == 0 && SevenSwapped(m'.kernel)
  {
    assert Returned(m, 0, 0) && Returned(m, 0, 1) && Returned(m, 0, 2) && Returned(m, 0, 3);
  }

  lemma ReadSeven(m: Machine)
    requires Full(m, 1, 1) && m.pid == 0 && SevenSwapped(m.kernel)
    ensures Read(m, 1, PAGE_3, 1).Some? && Read(m, 1, PAGE_3, 1).value.1 == Bytes([7])
  {
    var m0 := SwitchTo(m, 1);
    assert Pde(m0, 1, 0) == Pde(m, 1, 0);
    Resolving(m0, 1, 1, 3, PAGE_3);
    var (m1, ref) := Resolve(m0, 1, PAGE_3).value;
    ReadingFirst(m1, 1, 3, PAGE_3);
    ReadOnce(m, 1, PAGE_3, 1, m1, ref);
  }

  function Ops(): seq<Op> {
    [Add(0), WriteAt(0, PAGE_3, [7]), ReadAt(0, PAGE_1, 1), Remove(0), Add(1), ReadAt(1, PAGE_3, 1)]
  }

  /** The run from operation `i` on completes and its last reply is a seven. */
  ghost predicate EndsInSeven(m: Machine, i: nat) {
    && i < |Ops()| && LegalRun(m, Ops()[i..]) && Run(m, Ops()[i..]).Some?
    && var replies := Run(m, Ops()[i..]).value.1;
       |replies| == |Ops()| - i && replies[|replies| - 1] == Bytes([7])
  }

  lemma Then(m: Machine, i: nat, op: Op, m': Machine, reply: Reply)
    requires i < |Ops()| && op == Ops()[i] && Legal(m, op) && Step(m, op) == Some((m', reply))
    requires EndsInSeven(m', i + 1)
    ensures EndsInSeven(m, i)
  {
    RestOfOps(i);
    RunStep(m, Ops()[i..], m', reply);
    LastReply(reply, Run(m', Ops()[i + 1..]).value.1);
  }

  lemma RestOfOps(i: nat)
    requires i < |Ops()|
    ensures Ops()[i..] != [] && Ops()[i..][0] == Ops()[i] && Ops()[i..][1..] == Ops()[i + 1..]
  {}

  lemma {:induction false} RunStep(m: Machine, ops: seq<Op>, m': Machine, reply: Reply)
    requires ops != [] && Legal(m, ops[0]) && Step(m, ops[0]) == Some((m', reply))
    requires LegalRun(m', ops[1..]) && Run(m', ops[1..]).Some?
    ensures LegalRun(m, ops) && Run(m, ops).Some? && Run(m, ops).value.1 == [reply] + Run(m', ops[1..]).value.1
  {}

  lemma LastReply(first: Reply, rest: seq<Reply>)
    requires rest != []
    ensures |[first] + rest| == |rest| + 1 && ([first] + rest)[|rest|] == rest[|rest| - 1]
  {}

  lemma LastOperation(m: Machine)
    requires Full(m, 1, 1) && m.pid == 0 && SevenSwapped(m.kernel)
    ensures EndsInSeven(m, 5)
  {
    ReadSeven(m);
    var m' := Read(m, 1, PAGE_3, 1).value.0;
    assert Ops()[5..] == [ReadAt(1, PAGE_3, 1)] && Ops()[5..][1..] == [];
    assert Run(m', []) == Some((m', []));
  }

  lemma LastOperations(m: Machine)
    requires |m.kernel.memory| == 4 && m.kernel.mapping == [Free, Free, Free, Free]
    requires m.dirs == map[] && m.segs == map[] && m.tlb == Tlb.Empty() && m.pid == 0 && SevenSwapped(m.kernel)
    ensures EndsInSeven(m, 4)
  {
    var m' := Adding(m, 1);
    LastOperation(m');
    Then(m, 4, Add(1), m', Done);
  }

  lemma FromRemoval(m: Machine)
    requires Full(m, 0, 1) && m.pid == 0 && SevenSwapped(m.kernel)
    ensures EndsInSeven(m, 3)
  {
    Removing(m);
    LastOperations(RemoveProcess(m, 0));
    Then(m, 3, Remove(0), RemoveProcess(m, 0), Done);
  }

  lemma FromReading(m: Machine)
    requires Full(m, 0, 3) && m.pid == 0 && BytesAt(m.kernel, 2)[0] == 7
    requires m.tlb == Tlb.Add(Tlb.Empty(), PAGE_3, Ref(1, 3))
    ensures EndsInSeven(m, 2)
  {
    var m', reply := ReadElsewhere(m);
    FromRemoval(m');
    Then(m, 2, ReadAt(0, PAGE_1, 1), m', reply);
  }

  lemma FromWriting(m: Machine)
    requires Full(m, 0, 1) && m.pid == 0 && m.tlb == Tlb.Empty() && m.kernel.swap == map[]
    ensures EndsInSeven(m, 1)
  {
    var m' := WriteSeven(m);
    FromReading(m');
    Then(m, 1, WriteAt(0, PAGE_3, [7]), m', Done);
  }

  lemma FromAdding(m: Machine)
    requires |m.kernel.memory| == 4 && m.kernel.mapping == [Free, Free, Free, Free] && m.kernel.swap == map[]
    requires m.dirs == map[] && m.segs == map[] && m.tlb == Tlb.Empty() && m.pid == 0
    ensures EndsInSeven(m, 0)
  {
    var m' := Adding(m, 0);
    FromWriting(m');
    Then(m, 0, Add(0), m', Done);
  }

  /** The second process reads a seven that only the first one wrote. */
  lemma RemovalLeaks()
    ensures LegalRun(Boot(4), Ops()) && Run(Boot(4), Ops()).Some?
    ensures |Run(Boot(4), Ops()).value.1| == 6 && Run(Boot(4), Ops()).value.1[5] == Bytes([7])
  {
    assert Boot(4).kernel.mapping == [Free, Free, Free, Free];
    FromAdding(Boot(4));
    assert Ops()[0..] == Ops();
  }

  lemma FlatThen(f: FlatMemory.Flat, i: nat)
    requires i < |Ops()|
    ensures var rest := FlatMemory.FlatReplies(FlatMemory.FlatStep(f, Ops()[i]).0, Ops()[i + 1..]);
            var replies := FlatMemory.FlatReplies(f, Ops()[i..]);
            |replies| == 1 + |rest| && (rest != [] ==> replies[|rest|] == rest[|rest| - 1])
            && (rest == [] ==> replies == [FlatMemory.FlatStep(f, Ops()[i]).1])
  {
    assert Ops()[i..][0] == Ops()[i] && Ops()[i..][1..] == Ops()[i + 1..];
  }

  /** Where flat memory has a zero. */
  lemma FlatReadsZero()
    ensures |FlatMemory.FlatReplies(FlatMemory.FlatBoot(), Ops())| == 6
    ensures FlatMemory.FlatReplies(FlatMemory.FlatBoot(), Ops())[5] == Bytes([0])
  {
    var f0 := FlatMemory.FlatBoot();
    var f1 := FlatMemory.FlatStep(f0, Ops()[0]).0;
    var f2 := FlatMemory.FlatStep(f1, Ops()[1]).0;
    var f3 := FlatMemory.FlatStep(f2, Ops()[2]).0;
    var f4 := FlatMemory.FlatStep(f3, Ops()[3]).0;
    var f5 := FlatMemory.FlatStep(f4, Ops()[4]).0;
    assert Ops()[0..] == Ops() && Ops()[6..] == [];
    FlatThen(f0, 0);
    FlatThen(f1, 1);
    FlatThen(f2, 2);
    FlatThen(f3, 3);
    FlatThen(f4, 4);
    FlatThen(f5, 5);
    LastReadsZero(f4, f5);
  }

  lemma LastReadsZero(f4: FlatMemory.Flat, f5: FlatMemory.Flat)
    requires f5 == FlatMemory.FlatStep(f4, Ops()[4]).0
    ensures FlatMemory.FlatStep(f5, Ops()[5]).1 == Bytes([0])
  {
    Areas.NewPermitted(PAGE_3);
    assert FlatMemory.FlatBytes(f5, 1, PAGE_3, 1) == [0];
  }

  /** So the run is not clean: the first table of the second process was put where the disk held the seven. */
  lemma RunIsUnclean()
    ensures LegalRun(Boot(4), Ops()) && !FlatMemory.CleanRun(Boot(4), Ops())
    ensures !FlatMemory.SameThroughout(Boot(4), FlatMemory.FlatBoot(), Ops())
  {
    RemovalLeaks();
    FlatReadsZero();
    FlatMemory.FlatMemoryRefinement(4, Ops());
  }
}
