/** The memory management unit as it is stored: process tables, translation buffer and counters,
    updated in place over a shared kernel. */
module MmuDevice {
  import opened Bytes
  import opened Options
  import opened VmTypes
  import FlatMemory
  import opened Frames
  import opened MmuInvariant
  import opened MmuSteps
  import Mmu
  import MmuOperations
  import MmuProcesses
  import PhysicalKernel
  import Segments
  import Tlb
  import TlbList

  class Device {
    const kernel: PhysicalKernel.Memory
    const tlb: TlbList.List
    var dirs: map<nat, nat>
    var segs: map<nat, Segments.Segmentation>
    var pid: nat
    var pageFaults: nat
    var segFaults: nat
    var tlbMisses: nat

    ghost predicate Valid()
      reads this, kernel, tlb, tlb.repr
    {
      kernel.Valid() && tlb.Valid()
    }

    ghost function State(): Mmu.Machine
      requires Valid()
      reads this, kernel, kernel.entryMapping, kernel.frames, tlb, tlb.repr
    {
      Mmu.Machine(kernel.State(), dirs, segs, tlb.View(), pid, pageFaults, segFaults, tlbMisses)
    }

    constructor (frames: nat)
      ensures Sound() && fresh(kernel) && fresh(kernel.entryMapping) && fresh(kernel.frames)
      ensures fresh(tlb) && fresh(tlb.repr) && State() == Mmu.Boot(frames)
    {
      kernel := new PhysicalKernel.Memory(frames);
      tlb := new TlbList.List();
      dirs, segs, pid, pageFaults, segFaults, tlbMisses := map[], map[], 0, 0, 0, 0;
      new;
      assert Good(State(), map[]);
    }

    method SwitchTo(p: nat)
      requires Valid()
      modifies `pid, tlb
      ensures Valid() && State() == Mmu.SwitchTo(old(State()), p)
      ensures fresh(tlb.repr - old(tlb.repr))
    {
      if p != pid {
        tlb.Flush();
        pid := p;
      }
    }

    method AttachTable(p: nat, i: nat, ghost r: map<nat, Role>) returns (ok: bool)
      requires Valid() && PhysicalKernel.ConsistentFor(kernel.State(), r)
      requires p in dirs && dirs[p] in r && i < NUM_ENTRIES
      modifies kernel, kernel.entryMapping, kernel.frames
      ensures Valid() && tlb.repr == old(tlb.repr)
      ensures var next := Mmu.AttachTable(old(State()), p, i);
              ok == next.Some? && (ok ==> State() == next.value)
      ensures ok ==> forall t | t in r :: t < kernel.frames.Length && !kernel.frames[t].Data?
    {
      ok := kernel.AttachFrame(Ref(dirs[p], i), Reserved, r);
    }

    /** Brings in the page table for directory entry `i` if it is missing. */
    method NeedTable(p: nat, i: nat, ghost r: map<nat, Role>) returns (ok: bool)
      requires Valid() && PhysicalKernel.ConsistentFor(kernel.State(), r)
      requires p in dirs && dirs[p] in r && i < NUM_ENTRIES
      modifies this, kernel, kernel.entryMapping, kernel.frames
      ensures Valid() && tlb.repr == old(tlb.repr)
      ensures var next := Mmu.NeedTable(old(State()), p, i);
              ok == next.Some? && (ok ==> State() == next.value)
      ensures ok ==> forall t | t in r :: t < kernel.frames.Length && !kernel.frames[t].Data?
    {
      var pde := kernel.GetEntry(Ref(dirs[p], i));
      if pde.present {
        return true;
      }
      pageFaults := pageFaults + 1;
      ok := AttachTable(p, i, r);
    }

    method Miss(p: nat, a: Address, ghost r: map<nat, Role>) returns (found: Option<Ref>)
      requires Valid() && PhysicalKernel.ConsistentFor(kernel.State(), r) && p in dirs && dirs[p] in r
      modifies this, kernel, kernel.entryMapping, kernel.frames, tlb, tlb.repr
      ensures Valid() && fresh(tlb.repr - old(tlb.repr))
      ensures var next := Mmu.Miss(old(State()), p, a);
              found.Some? == next.Some? && (found.Some? ==> State() == next.value.0 && found.value == next.value.1)
    {
      IndicesOfBase(a);
      var ok := NeedTable(p, Mmu.DirIndex(a), r);
      if !ok {
        return None;
      }
      var pde := kernel.GetEntry(Ref(dirs[p], Mmu.DirIndex(a)));
      var ref := Ref(pde.frame, Mmu.TabIndex(a));
      tlb.AddPte(Mmu.PageBase(a), ref);
      found := Some(ref);
    }

    /** The entry for address `a`: from the buffer, else by a walk whose result the buffer keeps. */
    method FindEntry(p: nat, a: Address, ghost r: map<nat, Role>) returns (found: Option<Ref>)
      requires Valid() && PhysicalKernel.ConsistentFor(kernel.State(), r) && p in dirs && dirs[p] in r
      modifies this, kernel, kernel.entryMapping, kernel.frames, tlb, tlb.repr
      ensures Valid() && fresh(tlb.repr - old(tlb.repr))
      ensures var next := Mmu.FindEntry(old(State()), p, a);
              found.Some? == next.Some? && (found.Some? ==> State() == next.value.0 && found.value == next.value.1)
    {
      ghost var m := State();
      found := tlb.GetPte(Mmu.PageBase(a));
      ghost var m1 := State();
      Mmu.OnceLookedUp(m, p, a, m1, found);
      if found.None? {
        tlbMisses := tlbMisses + 1;
        assert State() == m1.(tlbMisses := m1.tlbMisses + 1);
        found := Miss(p, a, r);
      }
    }

    /** Brings in the page that the entry `ref` names, if it is not present. */
    method PageIn(ref: Ref, ghost r: map<nat, Role>) returns (ok: bool)
      requires Valid() && PhysicalKernel.ConsistentFor(kernel.State(), r) && IsSlot(r, ref)
      modifies this, kernel, kernel.entryMapping, kernel.frames
      ensures Valid() && tlb.repr == old(tlb.repr)
      ensures var next := Mmu.PageIn(old(State()), ref);
              ok == next.Some? && (ok ==> State() == next.value)
    {
      var pte := kernel.GetEntry(ref);
      if pte.present {
        return true;
      }
      pageFaults := pageFaults + 1;
      ok := kernel.AttachFrame(ref, Page(ref), r);
      if ok {
        kernel.ReadFromDisk(ref);
      }
    }

    method Resolve(p: nat, a: Address, ghost r: map<nat, Role>) returns (found: Option<Ref>, ghost r': map<nat, Role>)
      requires Valid() && Good(State(), r) && p in dirs && p == pid
      modifies this, kernel, kernel.entryMapping, kernel.frames, tlb, tlb.repr
      ensures Valid() && fresh(tlb.repr - old(tlb.repr))
      ensures var next := Mmu.Resolve(old(State()), p, a);
              found.Some? == next.Some? && (found.Some? ==> State() == next.value.0 && found.value == next.value.1)
      ensures found.Some? ==> Reached(old(State()), r, p, a, State(), found.value, r')
      ensures found.Some? ==> EntryAt(kernel.State(), found.value).present
    {
      ghost var m, found', next := State(), None, None;
      next, r' := ResolveKeeps(m, r, p, a);
      ghost var r1;
      found', r1 := FindEntryKeeps(m, r, p, a);
      found := FindEntry(p, a, r);
      if found.None? {
        return;
      }
      var ok := PageIn(found.value, r1);
      if !ok {
        found := None;
      }
    }

    ghost predicate Sound()
      reads this, kernel, kernel.entryMapping, kernel.frames, tlb, tlb.repr
    {
      Valid() && SoundMachine(State())
    }

    method RaiseSegmentationFault()
      requires Valid()
      modifies this`segFaults
      ensures Valid() && State() == Mmu.Fault(old(State())).0
    {
      segFaults := segFaults + 1;
    }

    method FinishRead(ref: Ref, s: Segments.Segment, a: Address, count: nat, ghost r: map<nat, Role>)
      returns (reply: Mmu.Reply)
      requires Valid() && PhysicalKernel.ConsistentFor(kernel.State(), r) && IsSlot(r, ref)
      requires EntryAt(kernel.State(), ref).present && Mmu.Fits(a, count)
      modifies this`segFaults, kernel.frames
      ensures Valid()
      ensures State() == Mmu.FinishRead(old(State()), ref, s, a, count).0
      ensures reply == Mmu.FinishRead(old(State()), ref, s, a, count).1
    {
      if Segments.READ !in s.permissions {
        RaiseSegmentationFault();
        return Mmu.Segfault;
      }
      var pte := kernel.GetEntry(ref);
      var page := kernel.GetBytes(pte.frame);
      kernel.PutEntry(ref, pte.(accessed := true));
      reply := Mmu.Bytes(page[Mmu.Offset(a)..Mmu.Offset(a) + count]);
    }

    method ReadWithin(p: nat, s: Segments.Segment, a: Address, count: nat, ghost r: map<nat, Role>)
      returns (reply: Option<Mmu.Reply>)
      requires Valid() && Good(State(), r) && p in dirs && p == pid && Mmu.Fits(a, count)
      modifies this, kernel, kernel.entryMapping, kernel.frames, tlb, tlb.repr
      ensures Valid() && fresh(tlb.repr - old(tlb.repr))
      ensures var next := Mmu.ReadWithin(old(State()), p, s, a, count);
              reply.Some? == next.Some? && (reply.Some? ==> State() == next.value.0 && reply.value == next.value.1)
    {
      var found, r' := Resolve(p, a, r);
      if found.None? {
        return None;
      }
      var answer := FinishRead(found.value, s, a, count, r');
      reply := Some(answer);
    }

    /** The context switch, and the segment that covers the address. */
    method Enter(p: nat, a: Address) returns (s: Option<Segments.Segment>)
      requires Valid() && p in segs
      modifies `pid, tlb
      ensures Valid() && fresh(tlb.repr - old(tlb.repr))
      ensures State() == Mmu.SwitchTo(old(State()), p) && s == Segments.Find(old(segs)[p], a)
    {
      SwitchTo(p);
      s := Segments.FindSegment(segs[p], a);
    }

    method ReadEntered(p: nat, a: Address, count: nat, s: Option<Segments.Segment>, ghost r: map<nat, Role>,
                       ghost m: Mmu.Machine) returns (reply: Option<Mmu.Reply>)
      requires Valid() && m == State() && Good(m, r) && p in dirs && p == pid && Mmu.Fits(a, count)
      modifies this, kernel, kernel.entryMapping, kernel.frames, tlb, tlb.repr
      ensures Valid() && fresh(tlb.repr - old(tlb.repr))
      ensures var next := if s.None? then Some(Mmu.Fault(m)) else Mmu.ReadWithin(m, p, s.value, a, count);
              reply.Some? == next.Some? && (reply.Some? ==> State() == next.value.0 && reply.value == next.value.1)
    {
      if s.None? {
        RaiseSegmentationFault();
        reply := Some(Mmu.Segfault);
      } else {
        reply := ReadWithin(p, s.value, a, count, r);
      }
    }

    method ReadSwitched(p: nat, a: Address, count: nat, ghost r: map<nat, Role>, ghost m: Mmu.Machine)
      returns (reply: Option<Mmu.Reply>)
      requires Valid() && m == State() && Good(Mmu.SwitchTo(m, p), r) && Mmu.Live(m, p) && Mmu.Fits(a, count)
      modifies this, kernel, kernel.entryMapping, kernel.frames, tlb, tlb.repr
      ensures Valid() && fresh(tlb.repr - old(tlb.repr))
      ensures var next := Mmu.Read(m, p, a, count);
              reply.Some? == next.Some? && (reply.Some? ==> State() == next.value.0 && reply.value == next.value.1)
    {
      var s := Enter(p, a);
      ghost var m1 := Mmu.SwitchTo(m, p);
      assert State() == m1;
      Mmu.ReadOnceSwitched(m, p, a, count, m1, s);
      reply := ReadEntered(p, a, count, s, r, m1);
    }

    /** None when frames run out; nothing is claimed of the machine then. */
    method Read(p: nat, a: Address, count: nat) returns (reply: Option<Mmu.Reply>)
      requires Sound() && Mmu.Live(State(), p) && Mmu.Fits(a, count)
      modifies this, kernel, kernel.entryMapping, kernel.frames, tlb, tlb.repr
      ensures Valid() && fresh(tlb.repr - old(tlb.repr))
      ensures var next := Mmu.Read(old(State()), p, a, count);
              reply.Some? == next.Some? && (reply.Some? ==> State() == next.value.0 && reply.value == next.value.1)
      ensures reply.Some? ==> Sound()
    {
      ReadIsSound(State(), p, a, count);
      ghost var r := SwitchedIsGood(State(), p);
      reply := ReadSwitched(p, a, count, r, State());
    }

    method FinishWrite(ref: Ref, s: Segments.Segment, a: Address, data: seq<Byte>, ghost r: map<nat, Role>)
      returns (reply: Mmu.Reply)
      requires Valid() && PhysicalKernel.ConsistentFor(kernel.State(), r) && IsSlot(r, ref)
      requires EntryAt(kernel.State(), ref).present && Mmu.Fits(a, |data|)
      modifies this`segFaults, kernel.frames
      ensures Valid()
      ensures State() == Mmu.FinishWrite(old(State()), ref, s, a, data).0
      ensures reply == Mmu.FinishWrite(old(State()), ref, s, a, data).1
    {
      if Segments.WRITE !in s.permissions {
        RaiseSegmentationFault();
        return Mmu.Segfault;
      }
      var pte := kernel.GetEntry(ref);
      var page := kernel.GetBytes(pte.frame);
      assert pte.frame != ref.table;
      kernel.PutBytes(pte.frame, Mmu.Overlay(page, Mmu.Offset(a), data));
      kernel.PutEntry(ref, pte.(accessed := true, dirty := true));
      reply := Mmu.Done;
    }

    method WriteWithin(p: nat, s: Segments.Segment, a: Address, data: seq<Byte>, ghost r: map<nat, Role>)
      returns (reply: Option<Mmu.Reply>)
      requires Valid() && Good(State(), r) && p in dirs && p == pid && Mmu.Fits(a, |data|)
      modifies this, kernel, kernel.entryMapping, kernel.frames, tlb, tlb.repr
      ensures Valid() && fresh(tlb.repr - old(tlb.repr))
      ensures var next := Mmu.WriteWithin(old(State()), p, s, a, data);
              reply.Some? == next.Some? && (reply.Some? ==> State() == next.value.0 && reply.value == next.value.1)
    {
      var found, r' := Resolve(p, a, r);
      if found.None? {
        return None;
      }
      var answer := FinishWrite(found.value, s, a, data, r');
      reply := Some(answer);
    }

    method WriteEntered(p: nat, a: Address, data: seq<Byte>, s: Option<Segments.Segment>, ghost r: map<nat, Role>,
                       ghost m: Mmu.Machine) returns (reply: Option<Mmu.Reply>)
      requires Valid() && m == State() && Good(m, r) && p in dirs && p == pid && Mmu.Fits(a, |data|)
      modifies this, kernel, kernel.entryMapping, kernel.frames, tlb, tlb.repr
      ensures Valid() && fresh(tlb.repr - old(tlb.repr))
      ensures var next := if s.None? then Some(Mmu.Fault(m)) else Mmu.WriteWithin(m, p, s.value, a, data);
              reply.Some? == next.Some? && (reply.Some? ==> State() == next.value.0 && reply.value == next.value.1)
    {
      if s.None? {
        RaiseSegmentationFault();
        reply := Some(Mmu.Segfault);
      } else {
        reply := WriteWithin(p, s.value, a, data, r);
      }
    }

    method WriteSwitched(p: nat, a: Address, data: seq<Byte>, ghost r: map<nat, Role>, ghost m: Mmu.Machine)
      returns (reply: Option<Mmu.Reply>)
      requires Valid() && m == State() && Good(Mmu.SwitchTo(m, p), r) && Mmu.Live(m, p) && Mmu.Fits(a, |data|)
      modifies this, kernel, kernel.entryMapping, kernel.frames, tlb, tlb.repr
      ensures Valid() && fresh(tlb.repr - old(tlb.repr))
      ensures var next := Mmu.Write(m, p, a, data);
              reply.Some? == next.Some? && (reply.Some? ==> State() == next.value.0 && reply.value == next.value.1)
    {
      var s := Enter(p, a);
      ghost var m1 := Mmu.SwitchTo(m, p);
      assert State() == m1;
      Mmu.WriteOnceSwitched(m, p, a, data, m1, s);
      reply := WriteEntered(p, a, data, s, r, m1);
    }

    method Write(p: nat, a: Address, data: seq<Byte>) returns (reply: Option<Mmu.Reply>)
      requires Sound() && Mmu.Live(State(), p) && Mmu.Fits(a, |data|)
      modifies this, kernel, kernel.entryMapping, kernel.frames, tlb, tlb.repr
      ensures Valid() && fresh(tlb.repr - old(tlb.repr))
      ensures var next := Mmu.Write(old(State()), p, a, data);
              reply.Some? == next.Some? && (reply.Some? ==> State() == next.value.0 && reply.value == next.value.1)
      ensures reply.Some? ==> Sound()
    {
      WriteIsSound(State(), p, a, data);
      ghost var r := SwitchedIsGood(State(), p);
      reply := WriteSwitched(p, a, data, r, State());
    }

    /** Returns the pages of one table, deleting a swap file name for each entry. */
    method FreePages(t: nat)
      requires Valid() && t < kernel.frames.Length && !kernel.frames[t].Data?
      requires forall j | 0 <= j < NUM_ENTRIES && EntryAt(kernel.State(), Ref(t, j)).present ::
                 EntryAt(kernel.State(), Ref(t, j)).frame < kernel.frames.Length
      modifies kernel, kernel.entryMapping
      ensures Valid() && kernel.State() == Freed(old(kernel.State()), t, NUM_ENTRIES)
    {
      ghost var k := kernel.State();
      assert k == Freed(k, t, 0);
      for j := 0 to NUM_ENTRIES
        invariant Valid() && kernel.State() == Freed(k, t, j)
      {
        FreedStep(k, t, j);
        var pte := kernel.GetEntry(Ref(t, j));
        if pte.present {
          kernel.ReturnFrame(pte.frame);
        }
        kernel.RemoveSwap(Ref(t, j));
      }
    }

    /** Returns every page and table of a process, in the order of its directory. */
    method FreeTables(p: nat)
      requires Valid() && p in dirs && Freeable(State(), p)
      modifies kernel, kernel.entryMapping
      ensures Valid() && kernel.State() == FreedTables(old(State()), p, NUM_ENTRIES)
    {
      ghost var m := State();
      assert m.kernel == FreedTables(m, p, 0);
      var pd := dirs[p];
      for i := 0 to NUM_ENTRIES
        invariant Valid() && kernel.State() == FreedTables(m, p, i)
      {
        FreeTable(p, i, pd, m);
      }
    }

    method FreeTable(p: nat, i: nat, pd: nat, ghost m: Mmu.Machine)
      requires Valid() && p in m.dirs && pd == m.dirs[p] && i < NUM_ENTRIES && SameSize(m.kernel) && Freeable(m, p)
      requires kernel.State() == FreedTables(m, p, i)
      modifies kernel, kernel.entryMapping
      ensures Valid() && kernel.State() == FreedTables(m, p, i + 1)
    {
      FreedTablesStep(m, p, i);
      assert EntryAt(kernel.State(), Ref(pd, i)) == Mmu.Pde(m, p, i);
      var pde := kernel.GetEntry(Ref(pd, i));
      if pde.present {
        assert forall j :: EntryAt(kernel.State(), Ref(pde.frame, j)) == EntryAt(m.kernel, Ref(pde.frame, j));
        FreePages(pde.frame);
        kernel.ReturnFrame(pde.frame);
      }
    }

    method FreeProcess(p: nat)
      requires Valid() && p in dirs && Freeable(State(), p)
      modifies kernel, kernel.entryMapping
      ensures Valid() && kernel.State() == Mmu.RemoveProcess(old(State()), p).kernel
    {
      FreedAll(State(), p);
      FreeTables(p);
      kernel.ReturnFrame(dirs[p]);
    }

    method Forget(p: nat)
      requires Valid()
      modifies this, tlb
      ensures Valid() && fresh(tlb.repr - old(tlb.repr))
      ensures State() == old(State()).(dirs := old(dirs) - {p}, segs := old(segs) - {p},
                                       tlb := if old(pid) == p then Tlb.Empty() else old(tlb.View()))
    {
      dirs, segs := dirs - {p}, segs - {p};
      if pid == p {
        tlb.Flush();
      }
    }

    method FreeAndForget(p: nat)
      requires Valid() && (p in dirs ==> Freeable(State(), p))
      modifies this, kernel, kernel.entryMapping, tlb
      ensures Valid() && fresh(tlb.repr - old(tlb.repr))
      ensures State() == Mmu.RemoveProcess(old(State()), p)
    {
      RemoveSplits(State(), p);
      if p in dirs {
        FreeProcess(p);
      }
      Forget(p);
    }

    method RemoveProcess(p: nat)
      requires Sound()
      modifies this, kernel, kernel.entryMapping, tlb
      ensures Sound() && fresh(tlb.repr - old(tlb.repr))
      ensures State() == Mmu.RemoveProcess(old(State()), p)
    {
      RemoveIsSound(State(), p);
      if p in dirs { IsFreeable(State(), p); }
      FreeAndForget(p);
    }

    /** A cleared page for the entry `ref`, without looking for a swap file. */
    method AttachPage(ref: Ref, ghost r: map<nat, Role>) returns (ok: bool)
      requires Valid() && PhysicalKernel.ConsistentFor(kernel.State(), r) && IsSlot(r, ref)
      modifies kernel, kernel.entryMapping, kernel.frames
      ensures Valid()
      ensures var next := Mmu.AttachPage(old(State()), ref); ok == next.Some? && (ok ==> State() == next.value)
    {
      ok := kernel.AttachFrame(ref, Page(ref), r);
    }

    method AddDirectory(p: nat) returns (ok: bool)
      requires Valid() && PhysicalKernel.Consistent(kernel.State())
      modifies this, kernel, kernel.entryMapping, kernel.frames
      ensures Valid() && tlb.repr == old(tlb.repr)
      ensures var next := Mmu.AddDirectory(old(State()), p); ok == next.Some? && (ok ==> State() == next.value)
    {
      var frame := kernel.AskForFrame(Reserved);
      if frame.None? {
        return false;
      }
      dirs := dirs[p := frame.value];
      segs := segs[p := Segments.Initial()];
      ok := true;
    }

    /** The pages of the testing segment. */
    method AttachPages(table: nat, ghost r: map<nat, Role>) returns (ok: bool)
      requires Valid() && TakesPages(State(), r, table)
      modifies kernel, kernel.entryMapping, kernel.frames
      ensures Valid()
      ensures var next := Mmu.AttachPages(old(State()), table); ok == next.Some? && (ok ==> State() == next.value)
    {
      ok := AttachPage(Ref(table, 1), r);
      if ok {
        ok := AttachPage(Ref(table, 2), r);
      }
    }

    method AttachFirstPages(p: nat, ghost r: map<nat, Role>, ghost m: Mmu.Machine) returns (ok: bool)
      requires Valid() && m == State() && p in dirs && TakesPages(m, r, Mmu.Pde(m, p, 0).frame)
      requires dirs[p] < kernel.frames.Length && !kernel.frames[dirs[p]].Data?
      modifies kernel, kernel.entryMapping, kernel.frames
      ensures Valid()
      ensures var next := Mmu.AttachPages(m, Mmu.Pde(m, p, 0).frame); ok == next.Some? && (ok ==> State() == next.value)
    {
      var pde := kernel.GetEntry(Ref(dirs[p], 0));
      ok := AttachPages(pde.frame, r);
    }

    method AttachFirstTable(p: nat, ghost r: map<nat, Role>, ghost r': map<nat, Role>, ghost m: Mmu.Machine)
      returns (ok: bool)
      requires Valid() && m == State() && PhysicalKernel.ConsistentFor(kernel.State(), r) && p in dirs && dirs[p] in r
      requires var next := Mmu.AttachTable(m, p, 0);
               next.Some? ==> TakesPages(next.value, r', Mmu.Pde(next.value, p, 0).frame)
      modifies kernel, kernel.entryMapping, kernel.frames
      ensures Valid()
      ensures var next := Mmu.AttachTable(m, p, 0);
              var last := if next.None? then None else Mmu.AttachPages(next.value, Mmu.Pde(next.value, p, 0).frame);
              ok == last.Some? && (ok ==> State() == last.value)
    {
      ok := AttachTable(p, 0, r);
      if ok {
        ok := AttachFirstPages(p, r', State());
      }
    }

    method AddWith(p: nat, ghost r1: map<nat, Role>, ghost r2: map<nat, Role>, ghost m: Mmu.Machine) returns (ok: bool)
      requires Valid() && PhysicalKernel.Consistent(kernel.State())
      requires m == State() && AddsWith(m, p, r1, r2)
      modifies this, kernel, kernel.entryMapping, kernel.frames
      ensures Valid() && tlb.repr == old(tlb.repr)
      ensures var next := Mmu.AddProcess(m, p); ok == next.Some? && (ok ==> State() == next.value)
    {
      ok := AddDirectory(p);
      if ok {
        ok := AttachFirstTable(p, r1, r2, State());
      }
    }

    /** False when frames run out; nothing is claimed of the machine then. */
    method AddProcess(p: nat) returns (ok: bool)
      requires Sound() && p !in dirs
      modifies this, kernel, kernel.entryMapping, kernel.frames
      ensures Valid() && tlb.repr == old(tlb.repr)
      ensures var next := Mmu.AddProcess(old(State()), p); ok == next.Some? && (ok ==> State() == next.value)
      ensures ok ==> Sound()
    {
      ghost var r, r1, r2 := AddedTables(State(), p);
      AddIsSound(State(), p);
      ok := AddWith(p, r1, r2, State());
    }

    method MoveEnd(p: nat, i: nat, pages: nat, grow: bool)
      requires Valid() && p in segs && i < Segments.NUM_SEGMENTS
      modifies `segs
      ensures Valid() && State() == Mmu.MoveSegment(old(State()), p, i, pages, grow)
    {
      var s := segs[p][i];
      var delta := pages * PAGE_SIZE;
      if s.growsDown == grow {
        s := s.(end := (s.end - delta) % ADDRESS_SPACE);
      } else {
        s := s.(end := (s.end + delta) % ADDRESS_SPACE);
      }
      segs := segs[p := segs[p][i := s]];
    }

    method Resize(p: nat, i: nat, pages: nat, grow: bool)
      requires Sound() && Mmu.Live(State(), p) && i < Segments.NUM_SEGMENTS
      modifies `segs
      ensures Sound() && State() == Mmu.MoveSegment(old(State()), p, i, pages, grow)
    {
      ResizeIsSound(State(), p, i, pages, grow);
      MoveEnd(p, i, pages, grow);
    }
  }

  /** Pages can be attached to the table, one after the other. */
  ghost predicate TakesPages(m: Mmu.Machine, r: map<nat, Role>, table: nat) {
    && PhysicalKernel.ConsistentFor(m.kernel, r) && table in r && r[table].Tab?
    && var next := Mmu.AttachPage(m, Ref(table, 1)); next.Some? ==> PhysicalKernel.ConsistentFor(next.value.kernel, r)
  }

  lemma FreshTakesPages(m: Mmu.Machine, r: map<nat, Role>, table: nat)
    requires Owned(m, r) && table in r && r[table].Tab? && !EntryAt(m.kernel, Ref(table, 1)).present
    ensures TakesPages(m, r, table)
  {
    var next := MmuProcesses.AttachPageKeeps(m, r, Ref(table, 1));
  }

  lemma FirstTableTakesPages(m: Mmu.Machine, r: map<nat, Role>, p: nat) returns (r': map<nat, Role>)
    requires Owned(m, r) && p in m.dirs && !Mmu.Pde(m, p, 0).present
    ensures var next := Mmu.AttachTable(m, p, 0);
            next.Some? ==> TakesPages(next.value, r', Mmu.Pde(next.value, p, 0).frame)
  {
    r' := AttachTableKeeps(m, r, p, 0);
    var next := Mmu.AttachTable(m, p, 0);
    if next.Some? {
      var table := Mmu.Pde(next.value, p, 0).frame;
      assert r'[table] == Tab(p, 0) && Ref(table, 1).table == table;
      FreshTakesPages(next.value, r', table);
    }
  }

  /** The uses of the reserved frames after the directory and after the first table of process `p`. */
  ghost predicate AddsWith(m: Mmu.Machine, p: nat, r1: map<nat, Role>, r2: map<nat, Role>) {
    var d := Mmu.AddDirectory(m, p);
    d.Some? ==>
      && PhysicalKernel.ConsistentFor(d.value.kernel, r1) && d.value.dirs[p] in r1
      && var t := Mmu.AttachTable(d.value, p, 0);
         t.Some? ==> TakesPages(t.value, r2, Mmu.Pde(t.value, p, 0).frame)
  }

  lemma AddedTables(m: Mmu.Machine, p: nat) returns (r: map<nat, Role>, r1: map<nat, Role>, r2: map<nat, Role>)
    requires SoundMachine(m) && p !in m.dirs
    ensures PhysicalKernel.ConsistentFor(m.kernel, r) && AddsWith(m, p, r1, r2)
  {
    r :| Good(m, r);
    var d;
    d, r1 := MmuProcesses.AddDirectoryKeeps(m, r, p);
    r2 := r1;
    if d.Some? {
      assert !Mmu.Pde(d.value, p, 0).present;
      r2 := FirstTableTakesPages(d.value, r1, p);
    }
  }

  lemma AddIsSound(m: Mmu.Machine, p: nat)
    requires SoundMachine(m) && p !in m.dirs
    ensures Mmu.AddProcess(m, p).Some? ==> SoundMachine(Mmu.AddProcess(m, p).value)
  {
    var r :| Good(m, r);
    var next, r' := MmuProcesses.AddProcessKeeps(m, r, p);
    if next.Some? { MmuProcesses.AddedCoherent(m, next.value, r, r', p); }
  }

  lemma ResizeIsSound(m: Mmu.Machine, p: nat, i: nat, pages: nat, grow: bool)
    requires SoundMachine(m) && Mmu.Live(m, p) && i < Segments.NUM_SEGMENTS
    ensures SoundMachine(Mmu.MoveSegment(m, p, i, pages, grow))
  {
    var r :| Good(m, r);
    FlatMemory.ResizeKeeps(m, r, p, i, pages, grow);
  }

  lemma RemoveSplits(m: Mmu.Machine, p: nat)
    ensures Mmu.RemoveProcess(m, p) ==
            m.(kernel := Mmu.RemoveProcess(m, p).kernel, dirs := m.dirs - {p}, segs := m.segs - {p},
               tlb := if m.pid == p then Tlb.Empty() else m.tlb)
    ensures p !in m.dirs ==> Mmu.RemoveProcess(m, p).kernel == m.kernel
  {
    if p !in m.dirs { assert Mmu.RemoveProcess(m, p).kernel.mapping == m.kernel.mapping; }
  }

  /** The tables and pages that a process's directory reaches are frames of the machine, and its tables
      hold entries. */
  ghost predicate Freeable(m: Mmu.Machine, p: nat)
    requires p in m.dirs && SameSize(m.kernel)
  {
    && m.dirs[p] < |m.kernel.memory| && !m.kernel.memory[m.dirs[p]].Data?
    && forall i | 0 <= i < NUM_ENTRIES && Mmu.Pde(m, p, i).present ::
         var t := Mmu.Pde(m, p, i).frame;
         && t < |m.kernel.memory| && !m.kernel.memory[t].Data?
         && forall j | 0 <= j < NUM_ENTRIES && EntryAt(m.kernel, Ref(t, j)).present ::
              EntryAt(m.kernel, Ref(t, j)).frame < |m.kernel.memory|
  }

  lemma IsFreeable(m: Mmu.Machine, p: nat)
    requires SoundMachine(m) && p in m.dirs
    ensures SameSize(m.kernel) && Freeable(m, p)
  {
    var r :| Good(m, r);
  }

  ghost predicate TableBelow(m: Mmu.Machine, p: nat, n: nat, f: nat)
    requires p in m.dirs
  {
    exists i | 0 <= i < n ::
      && Mmu.Pde(m, p, i).present
      && (f == Mmu.Pde(m, p, i).frame || PageBelow(m.kernel, Mmu.Pde(m, p, i).frame, NUM_ENTRIES, f))
  }

  function TablesFiles(m: Mmu.Machine, p: nat, n: nat): set<SwapFile>
    requires p in m.dirs
  {
    set i, j | 0 <= i < n && 0 <= j < NUM_ENTRIES && Mmu.Pde(m, p, i).present :: Plain(Ref(Mmu.Pde(m, p, i).frame, j))
  }

  /** The kernel once the first `n` tables of process `p` are done with. */
  ghost function FreedTables(m: Mmu.Machine, p: nat, n: nat): Kernel
    requires p in m.dirs
  {
    m.kernel.(mapping := seq(|m.kernel.mapping|, f requires 0 <= f < |m.kernel.mapping| =>
                           if TableBelow(m, p, n, f) then Free else m.kernel.mapping[f]),
              swap := m.kernel.swap - TablesFiles(m, p, n))
  }

  lemma FreedTablesStep(m: Mmu.Machine, p: nat, n: nat)
    requires p in m.dirs && n < NUM_ENTRIES && SameSize(m.kernel) && Freeable(m, p)
    ensures var e, k := Mmu.Pde(m, p, n), FreedTables(m, p, n);
            FreedTables(m, p, n + 1) ==
            if e.present then var k' := Freed(k, e.frame, NUM_ENTRIES); k'.(mapping := k'.mapping[e.frame := Free])
            else k
  {
    var e, k := Mmu.Pde(m, p, n), FreedTables(m, p, n);
    var next := FreedTables(m, p, n + 1);
    assert forall o :: EntryAt(k, o) == EntryAt(m.kernel, o);
    forall f: nat | f < |m.kernel.mapping|
      ensures TableBelow(m, p, n + 1, f) <==>
              TableBelow(m, p, n, f) || (e.present && (f == e.frame || PageBelow(k, e.frame, NUM_ENTRIES, f)))
    {
    }
    if e.present {
      var k' := Freed(k, e.frame, NUM_ENTRIES);
      assert next.mapping == k'.mapping[e.frame := Free];
      assert TablesFiles(m, p, n + 1) == TablesFiles(m, p, n) + TableFiles(e.frame, NUM_ENTRIES);
      assert next.swap == k'.swap;
    } else {
      assert next.mapping == k.mapping;
      assert TablesFiles(m, p, n + 1) == TablesFiles(m, p, n);
    }
  }

  lemma FreedAll(m: Mmu.Machine, p: nat)
    requires p in m.dirs && m.dirs[p] < |m.kernel.mapping|
    ensures var k := FreedTables(m, p, NUM_ENTRIES);
            Mmu.RemoveProcess(m, p).kernel == k.(mapping := k.mapping[m.dirs[p] := Free])
  {
    var k, k' := FreedTables(m, p, NUM_ENTRIES), Mmu.RemoveProcess(m, p).kernel;
    forall f: nat | f < |m.kernel.mapping|
      ensures Mmu.Returned(m, p, f) <==> f == m.dirs[p] || TableBelow(m, p, NUM_ENTRIES, f)
    {
    }
    assert k'.mapping == k.mapping[m.dirs[p] := Free];
    assert Mmu.Deleted(m, p) == TablesFiles(m, p, NUM_ENTRIES);
    assert k'.swap == k.swap;
  }

  /** Frame `f` is named by one of the first `n` entries of table `t`. */
  ghost predicate PageBelow(k: Kernel, t: nat, n: nat, f: nat) {
    exists j | 0 <= j < n :: EntryAt(k, Ref(t, j)).present && EntryAt(k, Ref(t, j)).frame == f
  }

  function TableFiles(t: nat, n: nat): set<SwapFile> { set j | 0 <= j < n :: Plain(Ref(t, j)) }

  /** The kernel once the first `n` entries of table `t` are done with. */
  ghost function Freed(k: Kernel, t: nat, n: nat): Kernel {
    k.(mapping := seq(|k.mapping|, f requires 0 <= f < |k.mapping| =>
                    if PageBelow(k, t, n, f) then Free else k.mapping[f]),
       swap := k.swap - TableFiles(t, n))
  }

  lemma FreedStep(k: Kernel, t: nat, n: nat)
    requires var e := EntryAt(k, Ref(t, n)); e.present ==> e.frame < |k.mapping|
    ensures EntryAt(Freed(k, t, n), Ref(t, n)) == EntryAt(k, Ref(t, n))
    ensures var e, k' := EntryAt(k, Ref(t, n)), Freed(k, t, n);
            Freed(k, t, n + 1) ==
            RemoveSwapFile(if e.present then k'.(mapping := k'.mapping[e.frame := Free]) else k', Ref(t, n))
  {
    var e, k' := EntryAt(k, Ref(t, n)), Freed(k, t, n);
    forall f: nat | f < |k.mapping|
      ensures PageBelow(k, t, n + 1, f) <==> PageBelow(k, t, n, f) || (e.present && e.frame == f)
    {
    }
    assert Freed(k, t, n + 1).mapping == if e.present then k'.mapping[e.frame := Free] else k'.mapping;
    assert TableFiles(t, n + 1) == TableFiles(t, n) + {Plain(Ref(t, n))};
    assert Freed(k, t, n + 1).swap == k'.swap - {Plain(Ref(t, n))};
  }

  ghost predicate SoundMachine(m: Mmu.Machine) { exists r :: Good(m, r) }

  lemma SwitchedIsGood(m: Mmu.Machine, p: nat) returns (r: map<nat, Role>)
    requires SoundMachine(m)
    ensures Good(Mmu.SwitchTo(m, p), r)
  {
    r :| Good(m, r);
    MmuOperations.SwitchKeeps(m, r, p);
  }

  lemma ReadIsSound(m: Mmu.Machine, p: nat, a: Address, count: nat)
    requires SoundMachine(m) && Mmu.Live(m, p) && Mmu.Fits(a, count)
    ensures Mmu.Read(m, p, a, count).Some? ==> SoundMachine(Mmu.Read(m, p, a, count).value.0)
  {
    var r :| Good(m, r);
    var next, r' := MmuOperations.ReadKeeps(m, r, p, a, count);
  }

  lemma WriteIsSound(m: Mmu.Machine, p: nat, a: Address, data: seq<Byte>)
    requires SoundMachine(m) && Mmu.Live(m, p) && Mmu.Fits(a, |data|)
    ensures Mmu.Write(m, p, a, data).Some? ==> SoundMachine(Mmu.Write(m, p, a, data).value.0)
  {
    var r :| Good(m, r);
    var next, r' := MmuOperations.WriteKeeps(m, r, p, a, data);
  }

  lemma RemoveIsSound(m: Mmu.Machine, p: nat)
    requires SoundMachine(m)
    ensures SoundMachine(Mmu.RemoveProcess(m, p))
  {
    var r :| Good(m, r);
    if p in m.dirs {
      MmuProcesses.RemoveKeeps(m, r, p);
    } else {
      FlatMemory.DeadRemoveKeeps(m, r, p);
    }
  }
}
