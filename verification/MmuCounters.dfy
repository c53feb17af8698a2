/** What the statistics of the machine count, and which flags and pages an operation leaves set. */
module MmuCounters {
  import opened Bytes
  import opened Options
  import opened VmTypes
  import opened Frames
  import opened Mmu
  import opened MmuInvariant
  import opened MmuSteps
  import opened MmuOperations
  import opened MmuProcesses
  import Segments
  import Tlb

  /** The first node for the page holds an entry. */
  predicate Buffered(m: Machine, base: nat) {
    exists i :: 0 <= i < |m.tlb| && m.tlb[i].base == base && m.tlb[i].entry.Some?
                && forall j | 0 <= j < i :: m.tlb[j].base != base
  }

  lemma FindEntryCounts(m: Machine, r: map<nat, Role>, p: nat, a: Address)
    requires Good(m, r) && p in m.dirs && p == m.pid && FindEntry(m, p, a).Some?
    ensures var m' := FindEntry(m, p, a).value.0;
            && m'.segFaults == m.segFaults
            && m'.pageFaults == m.pageFaults + (if Pde(m, p, DirIndex(a)).present then 0 else 1)
            && m'.tlbMisses == m.tlbMisses + if Buffered(m, PageBase(a)) then 0 else 1
  {
    var (tlb, hit) := Tlb.Get(m.tlb, PageBase(a));
    var m1 := m.(tlb := tlb, tlbMisses := if hit.Some? then m.tlbMisses else m.tlbMisses + 1);
    LookedUp(m, p, a, m1, hit);
    LookedUpKeeps(m, m1, r, PageBase(a), hit);
    BufferedIsHit(m, PageBase(a));
    if hit.Some? {
      HitReaches(m, m1, r, p, a, hit.value);
    } else {
      assert Pde(m1, p, DirIndex(a)) == Pde(m, p, DirIndex(a));
    }
  }

  lemma BufferedIsHit(m: Machine, base: nat)
    ensures Tlb.Get(m.tlb, base).1.Some? <==> Buffered(m, base)
  {
    var i := Tlb.Find(m.tlb, base);
  }

  lemma ResolveCounts(m: Machine, r: map<nat, Role>, p: nat, a: Address)
    requires Good(m, r) && p in m.dirs && p == m.pid && Resolve(m, p, a).Some?
    ensures var m' := Resolve(m, p, a).value.0;
            && m'.segFaults == m.segFaults && m'.pageFaults == m.pageFaults + TranslationDemand(m, p, a)
            && m'.tlbMisses == m.tlbMisses + if Buffered(m, PageBase(a)) then 0 else 1
  {
    var found, r' := FindEntryKeeps(m, r, p, a);
    FindEntryCounts(m, r, p, a);
    MissingPage(m, r, p, a, found.value.0, found.value.1, r');
    PageInCounts(found.value.0, found.value.1);
  }

  lemma PageInCounts(m: Machine, ref: Ref)
    requires PageIn(m, ref).Some?
    ensures var m' := PageIn(m, ref).value;
            && m'.segFaults == m.segFaults && m'.tlbMisses == m.tlbMisses
            && m'.pageFaults == m.pageFaults + if EntryAt(m.kernel, ref).present then 0 else 1
  {}

  lemma MissingPage(m: Machine, r: map<nat, Role>, p: nat, a: Address, m1: Machine, ref: Ref, r1: map<nat, Role>)
    requires p in m.dirs && Reached(m, r, p, a, m1, ref, r1) && Untouched(m, p, a, m1, ref)
    ensures TranslationDemand(m, p, a)
         == (if Pde(m, p, DirIndex(a)).present then 0 else 1) + if EntryAt(m1.kernel, ref).present then 0 else 1
  {
    assert Pde(m, p, DirIndex(a)).present ==> ref == Ref(Pde(m, p, DirIndex(a)).frame, TabIndex(a));
  }

  /** The entry that a walk reaches for the address. */
  function Walked(m: Machine, p: nat, a: Address): Entry
    requires p in m.dirs
  {
    EntryAt(m.kernel, Ref(Pde(m, p, a / 0x40_0000).frame, a / 4096 % 1024))
  }

  lemma SwitchedBuffer(m: Machine, p: nat, a: Address)
    ensures Buffered(SwitchTo(m, p), PageBase(a)) <==> p == m.pid && Buffered(m, a - a % 4096)
  {}

  lemma SetFlagsOnly(m: Machine, r: map<nat, Role>, p: nat, a: Address, ref: Ref, e: Entry)
    requires Good(m, r) && WalksTo(m, p, a, ref) && IsSlot(r, ref)
    requires e.present == EntryAt(m.kernel, ref).present && e.frame == EntryAt(m.kernel, ref).frame
    ensures Walked(m.(kernel := SetEntry(m.kernel, ref, e)), p, a) == e
  {
    FlagKeeps(m, r, ref, e);
    assert DirIndex(a) == a / 0x40_0000;
  }

  /** An access in no segment is not translated. Any other counts a page fault for a missing table, another for a
      missing page, and a miss unless the buffer has the page for the current process. Every refused access
      counts as a segmentation fault. */
  lemma ReadCounts(m: Machine, r: map<nat, Role>, p: nat, a: Address, count: nat) returns (m': Machine, reply: Reply)
    requires Good(m, r) && Live(m, p) && Fits(a, count) && Read(m, p, a, count).Some?
    ensures Read(m, p, a, count) == Some((m', reply)) && m'.dirs == m.dirs
    ensures m'.segFaults == m.segFaults + if reply.Segfault? then 1 else 0
    ensures if Segments.Find(m.segs[p], a).None? then m'.pageFaults == m.pageFaults && m'.tlbMisses == m.tlbMisses
            else
              && m'.pageFaults == m.pageFaults + (if !Pde(m, p, a / 0x40_0000).present then 2
                                                  else if !Walked(m, p, a).present then 1 else 0)
              && m'.tlbMisses == m.tlbMisses + if p == m.pid && Buffered(m, a - a % 4096) then 0 else 1
    ensures reply.Bytes? ==> Walked(m', p, a).present && Walked(m', p, a).accessed
  {
    var m1, s := SwitchTo(m, p), Segments.Find(m.segs[p], a);
    m', reply := Read(m, p, a, count).value.0, Read(m, p, a, count).value.1;
    ReadOnceSwitched(m, p, a, count, m1, s);
    SwitchKeeps(m, r, p);
    SwitchedBuffer(m, p, a);
    assert DirIndex(a) == a / 0x40_0000;
    if s.Some? {
      var found, r' := ResolveKeeps(m1, r, p, a);
      ResolveCounts(m1, r, p, a);
      SwitchedDemand(m, m1, p, a);
      if Segments.READ in s.value.permissions { ReadFlags(found.value.0, r', p, a, found.value.1, s.value, count); }
    }
  }

  lemma ReadFlags(m: Machine, r: map<nat, Role>, p: nat, a: Address, ref: Ref, s: Segments.Segment, count: nat)
    requires Good(m, r) && WalksTo(m, p, a, ref) && IsSlot(r, ref) && EntryAt(m.kernel, ref).present
    requires Fits(a, count) && Segments.READ in s.permissions
    ensures var m' := FinishRead(m, ref, s, a, count).0;
            m'.dirs == m.dirs && Walked(m', p, a) == EntryAt(m.kernel, ref).(accessed := true)
  {
    SetFlagsOnly(m, r, p, a, ref, EntryAt(m.kernel, ref).(accessed := true));
  }

  /** The same for a write, which also marks the page as changed. */
  lemma WriteCounts(m: Machine, r: map<nat, Role>, p: nat, a: Address, data: seq<Byte>)
    returns (m': Machine, reply: Reply)
    requires Good(m, r) && Live(m, p) && Fits(a, |data|) && Write(m, p, a, data).Some?
    ensures Write(m, p, a, data) == Some((m', reply)) && m'.dirs == m.dirs
    ensures m'.segFaults == m.segFaults + if reply.Segfault? then 1 else 0
    ensures if Segments.Find(m.segs[p], a).None? then m'.pageFaults == m.pageFaults && m'.tlbMisses == m.tlbMisses
            else
              && m'.pageFaults == m.pageFaults + (if !Pde(m, p, a / 0x40_0000).present then 2
                                                  else if !Walked(m, p, a).present then 1 else 0)
              && m'.tlbMisses == m.tlbMisses + if p == m.pid && Buffered(m, a - a % 4096) then 0 else 1
    ensures reply.Done? ==> Walked(m', p, a).present && Walked(m', p, a).accessed && Walked(m', p, a).dirty
  {
    var m1, s := SwitchTo(m, p), Segments.Find(m.segs[p], a);
    m', reply := Write(m, p, a, data).value.0, Write(m, p, a, data).value.1;
    WriteOnceSwitched(m, p, a, data, m1, s);
    SwitchKeeps(m, r, p);
    SwitchedBuffer(m, p, a);
    assert DirIndex(a) == a / 0x40_0000;
    if s.Some? {
      var found, r' := ResolveKeeps(m1, r, p, a);
      ResolveCounts(m1, r, p, a);
      SwitchedDemand(m, m1, p, a);
      var m2, ref := found.value.0, found.value.1;
      if Segments.WRITE in s.value.permissions { WrittenFlags(m2, r', p, a, ref, s.value, data); }
    }
  }

  lemma WrittenFlags(m: Machine, r: map<nat, Role>, p: nat, a: Address, ref: Ref, s: Segments.Segment, data: seq<Byte>)
    requires Good(m, r) && WalksTo(m, p, a, ref) && IsSlot(r, ref) && EntryAt(m.kernel, ref).present
    requires Fits(a, |data|) && Segments.WRITE in s.permissions
    ensures var m' := FinishWrite(m, ref, s, a, data).0;
            m'.dirs == m.dirs && Walked(m', p, a) == EntryAt(m.kernel, ref).(accessed := true, dirty := true)
  {
    var e := EntryAt(m.kernel, ref);
    var page := Overlay(BytesAt(m.kernel, e.frame), Offset(a), data);
    StoreKeeps(m, r, p, a, ref, page);
    var m1 := m.(kernel := SetBytes(m.kernel, e.frame, page));
    assert Pde(m1, p, DirIndex(a)) == Pde(m, p, DirIndex(a));
    SetFlagsOnly(m1, r, p, a, ref, e.(accessed := true, dirty := true));
  }

  /** No other operation counts anything. */
  lemma OthersCount(m: Machine, op: Op)
    requires Legal(m, op) && (op.Add? || op.Remove? || op.Resize?) && Step(m, op).Some?
    ensures var (m', reply) := Step(m, op).value;
            && reply == Done && m'.segFaults == m.segFaults && m'.pageFaults == m.pageFaults
            && m'.tlbMisses == m.tlbMisses
  {}

  /** A new process has its second page present, and no other of its first table but perhaps the first. */
  lemma AddedPages(m: Machine, r: map<nat, Role>, p: nat) returns (m': Machine)
    requires Owned(m, r) && p !in m.dirs && AddProcess(m, p).Some?
    ensures AddProcess(m, p) == Some(m') && p in m'.dirs && Pde(m', p, 0).present
    ensures EntryAt(m'.kernel, Ref(Pde(m', p, 0).frame, 2)).present
    ensures forall j | 0 <= j < 1024 && EntryAt(m'.kernel, Ref(Pde(m', p, 0).frame, j)).present :: j == 1 || j == 2
  {
    m' := AddProcess(m, p).value;
    var m1, r1 := AddDirectoryKeeps(m, r, p);
    var m2 := AttachTable(m1.value, p, 0).value;
    var r2 := AttachTableKeeps(m1.value, r1, p, 0);
    PagesPresent(m2, r2, p, m');
  }

  lemma PagesPresent(m: Machine, r: map<nat, Role>, p: nat, m': Machine)
    requires Owned(m, r) && p in m.dirs && Pde(m, p, 0).present && AttachPages(m, Pde(m, p, 0).frame) == Some(m')
    requires forall o: Ref | o.table == Pde(m, p, 0).frame :: EntryAt(m.kernel, o) == ZERO_ENTRY
    ensures p in m'.dirs && Pde(m', p, 0) == Pde(m, p, 0)
    ensures EntryAt(m'.kernel, Ref(Pde(m', p, 0).frame, 2)).present
    ensures forall j | 0 <= j < 1024 && EntryAt(m'.kernel, Ref(Pde(m', p, 0).frame, j)).present :: j == 1 || j == 2
  {
    var t := Pde(m, p, 0).frame;
    var m1 := AttachPageKeeps(m, r, Ref(t, 1));
    assert !EntryAt(m1.value.kernel, Ref(t, 2)).present;
    var m2 := AttachPageKeeps(m1.value, r, Ref(t, 2));
    AttachPresent(m1.value, r, Ref(t, 2));
    OnlyTwoPages(m, m1.value, m', r, t);
  }

  lemma OnlyTwoPages(m: Machine, m1: Machine, m': Machine, r: map<nat, Role>, t: nat)
    requires Cleared(m, m1, r, Ref(t, 1)) && Cleared(m1, m', r, Ref(t, 2)) && t in r && r[t].Tab?
    requires forall o: Ref | o.table == t :: EntryAt(m.kernel, o) == ZERO_ENTRY
    ensures forall j | 0 <= j < 1024 && EntryAt(m'.kernel, Ref(t, j)).present :: j == 1 || j == 2
  {
    forall j | 0 <= j < 1024 && j != 1 && j != 2 ensures !EntryAt(m'.kernel, Ref(t, j)).present {
      assert IsSlot(r, Ref(t, j));
    }
  }

  lemma AttachPresent(m: Machine, r: map<nat, Role>, ref: Ref)
    requires Owned(m, r) && IsSlot(r, ref) && !EntryAt(m.kernel, ref).present && AttachPage(m, ref).Some?
    ensures EntryAt(AttachPage(m, ref).value.kernel, ref).present
  {
    MakeRoomKeeps(m, r, Page(ref));
  }
}
