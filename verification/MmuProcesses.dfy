/** The life of a process: what adding and removing one does to the frames and memory of the others. */
module MmuProcesses {
  import opened Options
  import opened VmTypes
  import opened Frames
  import opened Mmu
  import opened MmuInvariant
  import opened MmuSteps
  import Segments
  import Tlb

  /** No entry but `ref` becomes present, and that shows zeros; all others show what they showed. */
  ghost predicate Cleared(m: Machine, m': Machine, r: map<nat, Role>, ref: Ref) {
    && Grows(m, m', r, r)
    && (forall o | IsSlot(r, o) && o != ref && EntryAt(m'.kernel, o).present :: EntryAt(m.kernel, o).present)
    && (SwapOwned(m.kernel, r) ==> SwapOwned(m'.kernel, r))
    && PageOf(m'.kernel, ref) == ZeroPage()
    && forall o | IsSlot(r, o) && o != ref :: PageOf(m'.kernel, o) == PageOf(m.kernel, o)
  }

  /** A cleared page for an entry, for which nothing is read back. */
  lemma AttachPageKeeps(m: Machine, r: map<nat, Role>, ref: Ref) returns (next: Option<Machine>)
    requires Owned(m, r) && IsSlot(r, ref) && !EntryAt(m.kernel, ref).present
    ensures next == AttachPage(m, ref)
    ensures next.None? <==> Exhausted(m.kernel)
    ensures next.Some? ==> Owned(next.value, r) && Cleared(m, next.value, r, ref)
  {
    var room := MakeRoom(m.kernel, Page(ref));
    next := if room.Room? then Some(m.(kernel := Link(room.kernel, ref, room.frame, Page(ref)))) else None;
    assert next == AttachPage(m, ref);
    MakeRoomKeeps(m, r, Page(ref));
    if room.Room? {
      var m1, f := m.(kernel := room.kernel), room.frame;
      ViewExtends(m, m1, r);
      LinkIsLinked(m1.kernel, ref, f, Page(ref));
      LinkedClearPage(m1, next.value, r, ref, f);
      Chained(m, m1, next.value, r, ref);
    }
  }

  lemma LinkedClearViews(k: Kernel, k': Kernel, r: map<nat, Role>, ref: Ref, f: nat)
    requires SameSize(k) && RolesReserved(k, r) && EntriesOwned(k, r)
    requires IsSlot(r, ref) && f < |k.mapping| && k.mapping[f] == Free && Linked(k, k', ref, f, Page(ref))
    ensures PageOf(k', ref) == ZeroPage()
    ensures forall o | IsSlot(r, o) && o != ref :: PageOf(k', o) == PageOf(k, o)
    ensures forall o | IsSlot(r, o) && o != ref :: EntryAt(k', o) == EntryAt(k, o)
  {
    forall o | IsSlot(r, o) && o != ref
      ensures PageOf(k', o) == PageOf(k, o) && EntryAt(k', o) == EntryAt(k, o)
    {
      LinkedView(k, k', r, ref, f, Page(ref), o);
    }
  }

  lemma LinkedClearPage(m: Machine, m': Machine, r: map<nat, Role>, ref: Ref, f: nat)
    requires Owned(m, r) && IsSlot(r, ref) && !EntryAt(m.kernel, ref).present
    requires f < |m.kernel.mapping| && m.kernel.mapping[f] == Free
    requires Linked(m.kernel, m'.kernel, ref, f, Page(ref)) && m' == m.(kernel := m'.kernel)
    ensures Owned(m', r) && Cleared(m, m', r, ref)
  {
    LinkedClearViews(m.kernel, m'.kernel, r, ref, f);
    LinkedClearOwned(m, m', r, ref, f);
  }

  lemma LinkedClearOwned(m: Machine, m': Machine, r: map<nat, Role>, ref: Ref, f: nat)
    requires Owned(m, r) && IsSlot(r, ref) && !EntryAt(m.kernel, ref).present
    requires f < |m.kernel.mapping| && m.kernel.mapping[f] == Free
    requires Linked(m.kernel, m'.kernel, ref, f, Page(ref)) && m' == m.(kernel := m'.kernel)
    ensures Owned(m', r) && Grows(m, m', r, r)
  {
    LinkedPage(m.kernel, m'.kernel, r, ref, f);
    assert forall q, i: nat | q in m.dirs :: Pde(m', q, i) == Pde(m, q, i);
    SameDirectories(m, m', r);
  }

  lemma Chained(m: Machine, m1: Machine, m2: Machine, r: map<nat, Role>, ref: Ref)
    requires Extends(m, m1, r, r, Same) && SameView(m.kernel, m1.kernel, r) && Cleared(m1, m2, r, ref)
    ensures Cleared(m, m2, r, ref)
  {
  }

  /** The first two pages of a table are cleared; all other entries show what they showed. */
  ghost predicate TwoCleared(m: Machine, m': Machine, r: map<nat, Role>, table: nat) {
    && Grows(m, m', r, r) && (SwapOwned(m.kernel, r) ==> SwapOwned(m'.kernel, r))
    && PageOf(m'.kernel, Ref(table, 1)) == ZeroPage() && PageOf(m'.kernel, Ref(table, 2)) == ZeroPage()
    && forall o | IsSlot(r, o) && o != Ref(table, 1) && o != Ref(table, 2) ::
         PageOf(m'.kernel, o) == PageOf(m.kernel, o)
  }

  lemma SecondPageKeeps(m: Machine, m1: Machine, r: map<nat, Role>, table: nat) returns (next: Option<Machine>)
    requires Owned(m1, r) && table in r && r[table].Tab? && Cleared(m, m1, r, Ref(table, 1))
    requires !EntryAt(m.kernel, Ref(table, 2)).present
    ensures next == AttachPage(m1, Ref(table, 2))
    ensures next.None? <==> Exhausted(m1.kernel)
    ensures next.Some? ==> Owned(next.value, r) && TwoCleared(m, next.value, r, table)
  {
    assert !EntryAt(m1.kernel, Ref(table, 2)).present;
    next := AttachPageKeeps(m1, r, Ref(table, 2));
    if next.Some? { BothCleared(m, m1, next.value, r, table); }
  }

  lemma AttachPagesKeeps(m: Machine, r: map<nat, Role>, table: nat) returns (next: Option<Machine>)
    requires Owned(m, r) && table in r && r[table].Tab?
    requires forall o: Ref | o.table == table && o.slot < NUM_ENTRIES :: !EntryAt(m.kernel, o).present
    ensures next == AttachPages(m, table)
    ensures next.None? <==> Exhausted(m.kernel)
    ensures next.Some? ==> Owned(next.value, r) && TwoCleared(m, next.value, r, table)
  {
    next := AttachPageKeeps(m, r, Ref(table, 1));
    if next.Some? {
      StillRoom(m, next.value, r, Ref(table, 1));
      next := SecondPageKeeps(m, next.value, r, table);
    }
  }

  lemma BothCleared(m: Machine, m1: Machine, m2: Machine, r: map<nat, Role>, table: nat)
    requires table in r && r[table].Tab? && Cleared(m, m1, r, Ref(table, 1)) && Cleared(m1, m2, r, Ref(table, 2))
    ensures TwoCleared(m, m2, r, table)
  {
    assert IsSlot(r, Ref(table, 1));
  }

  /** Pages take no frame from those that are reserved. */
  lemma StillRoom(m: Machine, m': Machine, r: map<nat, Role>, ref: Ref)
    requires Owned(m, r) && Owned(m', r) && |m'.kernel.mapping| == |m.kernel.mapping|
    ensures Exhausted(m'.kernel) <==> Exhausted(m.kernel)
  {
  }

  /** What a new process sees: zeros, but where its first page table was put into a frame of an earlier table. */
  function NewPage(c: Change, cleared: bool, d: nat, j: nat): Page {
    if c.NewTable? && d == c.slot && !(cleared && (j == 1 || j == 2)) then FileOf(c.swap, Ref(c.frame, j))
    else ZeroPage()
  }

  /** The new process sees its new pages; the others see what they saw. */
  ghost predicate AddedMemory(m: Machine, m': Machine, p: nat, c: Change, cleared: bool) {
    && m'.dirs.Keys == m.dirs.Keys + {p}
    && (forall d: nat, j: nat | d < NUM_ENTRIES && j < NUM_ENTRIES :: Content(m', p, d, j) == NewPage(c, cleared, d, j))
    && (forall q, d: nat, j: nat | q in m.dirs && d < NUM_ENTRIES && j < NUM_ENTRIES ::
          Content(m', q, d, j) == Content(m, q, d, j))
  }

  /** A process was added. */
  ghost predicate Added(m: Machine, m': Machine, r: map<nat, Role>, r': map<nat, Role>, p: nat, c: Change,
                        cleared: bool)
  {
    && AddedMemory(m, m', p, c, cleared) && m'.segs == m.segs[p := Segments.Initial()]
    && m'.pid == m.pid && m'.tlb == m.tlb
    && Owned(m', r')
    && (forall q, i: nat | q in m.dirs && Pde(m, q, i).present :: Pde(m', q, i) == Pde(m, q, i))
    && (forall q | q in m.dirs :: m'.dirs[q] == m.dirs[q])
    && (SwapOwned(m.kernel, r) ==> SwapOwned(m'.kernel, r'))
  }

  lemma ClaimedOwned(m1: Machine, m2: Machine, r: map<nat, Role>, p: nat, f: nat)
    requires Owned(m1, r) && p !in m1.dirs && f < |m1.kernel.mapping| && m1.kernel.mapping[f] == Free
    requires m2.kernel == Claim(m1.kernel, f, Reserved)
    requires m2.dirs == m1.dirs[p := f] && m2.segs == m1.segs[p := Segments.Initial()]
    ensures Owned(m2, r[f := Dir(p)]) && (SwapOwned(m1.kernel, r) ==> SwapOwned(m2.kernel, r[f := Dir(p)]))
    ensures (forall i: nat :: Pde(m2, p, i) == ZERO_ENTRY) && |r[f := Dir(p)]| == |r| + 1
    ensures forall q, i: nat | q in m1.dirs :: Pde(m2, q, i) == Pde(m1, q, i)
  {
    ClaimIsClaimedDir(m1.kernel, r, p, f);
    LinkedDir(m1, m2, r, p, f);
  }

  lemma ClaimedMemory(m1: Machine, m2: Machine, r: map<nat, Role>, p: nat, f: nat)
    requires EntriesOwned(m1.kernel, r) && DirectoriesRoled(m1, r) && ClaimedDir(m1.kernel, m2.kernel, r, p, f)
    requires m2.dirs.Keys == m1.dirs.Keys + {p} && forall q, i: nat | q in m1.dirs :: Pde(m2, q, i) == Pde(m1, q, i)
    ensures forall q, d: nat, j: nat | q in m1.dirs && d < NUM_ENTRIES && j < NUM_ENTRIES ::
              Content(m2, q, d, j) == Content(m1, q, d, j)
  {
    forall q, d: nat, j: nat | q in m1.dirs && d < NUM_ENTRIES && j < NUM_ENTRIES {
      LinkedDirContent(m1, m2, r, p, f, q, d, j);
    }
  }

  lemma MemoryAfterRoom(m: Machine, m1: Machine, m2: Machine, p: nat)
    requires Changed(m, m1, Same) && p !in m.dirs && m2.dirs.Keys == m.dirs.Keys + {p}
    requires forall i: nat :: Pde(m2, p, i) == ZERO_ENTRY
    requires forall q, d: nat, j: nat | q in m.dirs && d < NUM_ENTRIES && j < NUM_ENTRIES ::
               Content(m2, q, d, j) == Content(m1, q, d, j)
    ensures AddedMemory(m, m2, p, Same, false)
  {
    forall q, d: nat, j: nat | q in m.dirs && d < NUM_ENTRIES && j < NUM_ENTRIES
      ensures Content(m2, q, d, j) == Content(m, q, d, j)
    {
      assert Content(m1, q, d, j) == Shown(m, Same, q, d, j);
    }
  }

  lemma DirectoryMemory(m: Machine, m1: Machine, m2: Machine, r: map<nat, Role>, p: nat, f: nat)
    requires Owned(m1, r) && Changed(m, m1, Same) && p !in m1.dirs
    requires f < |m1.kernel.mapping| && m1.kernel.mapping[f] == Free && m2.kernel == Claim(m1.kernel, f, Reserved)
    requires m2.dirs == m1.dirs[p := f] && m2.segs == m1.segs[p := Segments.Initial()]
    ensures AddedMemory(m, m2, p, Same, false)
  {
    ClaimIsClaimedDir(m1.kernel, r, p, f);
    LinkedDirRoles(m1, m2, r, p, f);
    ClaimedMemory(m1, m2, r, p, f);
    MemoryAfterRoom(m, m1, m2, p);
  }

  lemma DirectoryAfterRoom(m: Machine, m1: Machine, m2: Machine, r: map<nat, Role>, p: nat, f: nat)
    requires Changed(m, m1, Same) && m1.dirs == m.dirs && Owned(m1, r)
    requires SwapOwned(m.kernel, r) ==> SwapOwned(m1.kernel, r)
    requires forall q, i: nat | q in m.dirs :: Pde(m1, q, i) == Pde(m, q, i)
    requires p !in m.dirs && f < |m1.kernel.mapping| && m1.kernel.mapping[f] == Free
    requires m2.kernel == Claim(m1.kernel, f, Reserved) && m2.pid == m.pid && m2.tlb == m.tlb
    requires m2.dirs == m1.dirs[p := f] && m2.segs == m1.segs[p := Segments.Initial()]
    ensures Added(m, m2, r, r[f := Dir(p)], p, Same, false)
    ensures forall i: nat :: Pde(m2, p, i) == ZERO_ENTRY
    ensures |r[f := Dir(p)]| == |r| + 1
  {
    DirectoryMemory(m, m1, m2, r, p, f);
    ClaimedOwned(m1, m2, r, p, f);
  }

  lemma AddDirectoryKeeps(m: Machine, r: map<nat, Role>, p: nat) returns (next: Option<Machine>, r': map<nat, Role>)
    requires Owned(m, r) && p !in m.dirs
    ensures next == AddDirectory(m, p)
    ensures next.None? <==> Exhausted(m.kernel)
    ensures next.Some? ==>
              && Added(m, next.value, r, r', p, Same, false) && (forall i: nat :: Pde(next.value, p, i) == ZERO_ENTRY)
              && |r'| == |r| + 1 && |next.value.kernel.mapping| == |m.kernel.mapping|
  {
    var room := MakeRoom(m.kernel, Reserved);
    next := AddDirectory(m, p);
    r' := r;
    MakeRoomKeeps(m, r, Reserved);
    if room.Room? {
      r' := r[room.frame := Dir(p)];
      ViewExtends(m, m.(kernel := room.kernel), r);
      DirectoryAfterRoom(m, m.(kernel := room.kernel), next.value, r, p, room.frame);
    }
  }

  lemma MemoryExtends(m: Machine, m1: Machine, m2: Machine, p: nat, c: Change)
    requires AddedMemory(m, m1, p, Same, false) && p !in m.dirs && Changed(m1, m2, c) && (c.NewTable? ==> c.pid == p)
    ensures AddedMemory(m, m2, p, c, false)
  {
    forall q, d: nat, j: nat | q in m1.dirs && d < NUM_ENTRIES && j < NUM_ENTRIES
      ensures Content(m2, q, d, j) == if q == p then NewPage(c, false, d, j) else Content(m, q, d, j)
    {
      assert Content(m2, q, d, j) == Shown(m1, c, q, d, j);
    }
  }

  /** The first page table of the new process. */
  lemma AddedExtends(m: Machine, m1: Machine, m2: Machine, r: map<nat, Role>, r1: map<nat, Role>,
                     r2: map<nat, Role>, p: nat, c: Change)
    requires Added(m, m1, r, r1, p, Same, false) && Owned(m2, r2) && m2.tlb == m1.tlb && p !in m.dirs
    requires Extends(m1, m2, r1, r2, c) && (c.NewTable? ==> c.pid == p)
    ensures Added(m, m2, r, r2, p, c, false)
  {
    MemoryExtends(m, m1, m2, p, c);
  }

  lemma MemoryGrows(m: Machine, m1: Machine, m2: Machine, p: nat, c: Change)
    requires AddedMemory(m, m1, p, c, false) && m2.dirs == m1.dirs && c.NewTable? && c.slot == 0 && p !in m.dirs
    requires forall q, d: nat, j: nat | q in m1.dirs && d < NUM_ENTRIES && j < NUM_ENTRIES ::
               Content(m2, q, d, j) ==
               if q == p && d == 0 && (j == 1 || j == 2) then ZeroPage() else Content(m1, q, d, j)
    ensures AddedMemory(m, m2, p, c, true)
  {
    forall d: nat, j: nat | d < NUM_ENTRIES && j < NUM_ENTRIES
      ensures Content(m2, p, d, j) == NewPage(c, true, d, j)
    {
      assert Content(m1, p, d, j) == NewPage(c, false, d, j);
    }
  }

  lemma AddedGrows(m: Machine, m1: Machine, m2: Machine, r: map<nat, Role>, r1: map<nat, Role>, p: nat, c: Change)
    requires Added(m, m1, r, r1, p, c, false) && Owned(m2, r1) && m2.tlb == m1.tlb && Grows(m1, m2, r1, r1)
    requires SwapOwned(m1.kernel, r1) ==> SwapOwned(m2.kernel, r1)
    requires AddedMemory(m, m2, p, c, true) && c.NewTable? && c.slot == 0 && p !in m.dirs
    ensures Added(m, m2, r, r1, p, c, true)
  {
  }

  /** The two cleared pages are those of the process; no other process has that table. */
  lemma ClearedContent(m: Machine, m': Machine, r: map<nat, Role>, p: nat, q: nat, d: nat, j: nat)
    requires Owned(m, r) && Owned(m', r) && p in m.dirs && q in m.dirs && Pde(m, p, 0).present
    requires TwoCleared(m, m', r, Pde(m, p, 0).frame) && d < NUM_ENTRIES && j < NUM_ENTRIES
    ensures Content(m', q, d, j) == if q == p && d == 0 && (j == 1 || j == 2) then ZeroPage() else Content(m, q, d, j)
  {
    if Pde(m, q, d).present {
      assert IsSlot(r, Ref(Pde(m, q, d).frame, j));
    }
  }

  lemma AddPagesKeeps(m: Machine, m2: Machine, r: map<nat, Role>, r': map<nat, Role>, p: nat, c: Change)
    returns (next: Option<Machine>)
    requires Added(m, m2, r, r', p, c, false) && Pde(m2, p, 0).present && c.NewTable? && c.slot == 0 && p !in m.dirs
    requires forall o: Ref | o.table == Pde(m2, p, 0).frame :: EntryAt(m2.kernel, o) == ZERO_ENTRY
    ensures next == AttachPages(m2, Pde(m2, p, 0).frame)
    ensures next.None? <==> Exhausted(m2.kernel)
    ensures next.Some? ==> Added(m, next.value, r, r', p, c, true)
  {
    next := AttachPagesKeeps(m2, r', Pde(m2, p, 0).frame);
    if next.Some? {
      forall q, d: nat, j: nat | q in m2.dirs && d < NUM_ENTRIES && j < NUM_ENTRIES {
        ClearedContent(m2, next.value, r', p, q, d, j);
      }
      MemoryGrows(m, m2, next.value, p, c);
      AddedGrows(m, m2, next.value, r, r', p, c);
    }
  }

  /** Where the first page table of process `p` goes, and what is on disk then. */
  function AddChange(m: Machine, p: nat): Change {
    match AddDirectory(m, p)
    case Some(m1) => NewTable(p, 0, NewFrame(m1.kernel), m1.kernel.swap)
    case None => Same
  }

  lemma AddProcessKeeps(m: Machine, r: map<nat, Role>, p: nat) returns (next: Option<Machine>, r': map<nat, Role>)
    requires Owned(m, r) && p !in m.dirs
    ensures next == AddProcess(m, p)
    ensures next.None? <==> Unreserved(m.kernel) < 3
    ensures next.Some? ==> Added(m, next.value, r, r', p, AddChange(m, p), true)
  {
    var m1 := AddDirectory(m, p);
    var m2 := if m1.Some? then AttachTable(m1.value, p, 0) else None;
    next := if m2.Some? then AttachPages(m2.value, Pde(m2.value, p, 0).frame) else None;
    assert next == AddProcess(m, p);
    m1, r' := AddDirectoryKeeps(m, r, p);
    UnreservedIsRest(m.kernel, r);
    if m1.Some? {
      var r1 := r';
      UnreservedIsRest(m1.value.kernel, r1);
      assert !Pde(m1.value, p, 0).present;
      assert AddChange(m, p) == TableChange(m1.value, p, 0);
      r' := AttachTableKeeps(m1.value, r1, p, 0);
      if m2.Some? {
        UnreservedIsRest(m2.value.kernel, r');
        AddedExtends(m, m1.value, m2.value, r, r1, r', p, AddChange(m, p));
        next := AddPagesKeeps(m, m2.value, r, r', p, AddChange(m, p));
      }
    }
  }

  lemma AddedCoherent(m: Machine, m': Machine, r: map<nat, Role>, r': map<nat, Role>, p: nat)
    requires Good(m, r) && p !in m.dirs && Added(m, m', r, r', p, AddChange(m, p), true)
    ensures Good(m', r')
  {
    forall n | n in m'.tlb && n.entry.Some? ensures WalksTo(m', m'.pid, n.base, n.entry.value) {
      assert WalksTo(m, m.pid, n.base, n.entry.value);
    }
  }

  // ---- Removal ----

  /** The reserved frames of the other processes. */
  function Others(r: map<nat, Role>, p: nat): map<nat, Role> { map f | f in r && r[f].pid != p :: r[f] }

  /** What removal returns is exactly what the process owns. */
  lemma ReturnedIsOwned(m: Machine, r: map<nat, Role>, p: nat, f: nat)
    requires Owned(m, r) && p in m.dirs && f < |m.kernel.mapping|
    ensures Returned(m, p, f) <==>
              match m.kernel.mapping[f]
              case Free => false
              case Reserved => r[f].pid == p
              case Page(ref) => r[ref.table].pid == p
  {
    if m.kernel.mapping[f].Page? {
      var ref := m.kernel.mapping[f].ref;
      var role := r[ref.table];
      if role.pid == p {
        assert Pde(m, p, role.slot).present && EntryAt(m.kernel, Ref(Pde(m, p, role.slot).frame, ref.slot)).present;
      }
    } else if m.kernel.mapping[f] == Reserved && r[f].pid == p && r[f].Tab? {
      assert Pde(m, p, r[f].slot).present;
    }
  }

  /** Removal as seen frame by frame. */
  ghost predicate Removed(m: Machine, m': Machine, r: map<nat, Role>, p: nat)
    requires SameSize(m.kernel)
  {
    && |m'.kernel.mapping| == |m.kernel.mapping| && m'.kernel.memory == m.kernel.memory
    && m'.dirs == m.dirs - {p} && m'.segs == m.segs - {p}
    && (forall f: nat | f < |m.kernel.mapping| ::
          match m.kernel.mapping[f]
          case Free => m'.kernel.mapping[f] == Free
          case Reserved => f in r && m'.kernel.mapping[f] == if r[f].pid == p then Free else Reserved
          case Page(ref) => ref.table in r && m'.kernel.mapping[f] == if r[ref.table].pid == p then Free else Page(ref))
    && (forall s | s in m.kernel.swap && s.Bin? :: s in m'.kernel.swap && m'.kernel.swap[s] == m.kernel.swap[s])
    && (forall s | s in m'.kernel.swap :: s in m.kernel.swap)
  }

  lemma RemoveIsRemoved(m: Machine, r: map<nat, Role>, p: nat)
    requires Owned(m, r) && p in m.dirs
    ensures Removed(m, RemoveProcess(m, p), r, p)
  {
    forall f: nat | f < |m.kernel.mapping|
      ensures RemoveProcess(m, p).kernel.mapping[f] == if Returned(m, p, f) then Free else m.kernel.mapping[f]
    {
      ReturnedIsOwned(m, r, p, f);
    }
    forall f: nat | f < |m.kernel.mapping| { ReturnedIsOwned(m, r, p, f); }
  }

  lemma RemovedReserved(m: Machine, m': Machine, r: map<nat, Role>, p: nat)
    requires Owned(m, r) && Removed(m, m', r, p)
    ensures RolesReserved(m'.kernel, Others(r, p))
  {
  }

  lemma RemovedMapped(m: Machine, m': Machine, r: map<nat, Role>, p: nat)
    requires Owned(m, r) && Removed(m, m', r, p)
    ensures PagesMapped(m'.kernel, Others(r, p))
  {
    assert forall o :: EntryAt(m'.kernel, o) == EntryAt(m.kernel, o);
  }

  lemma RemovedEntries(m: Machine, m': Machine, r: map<nat, Role>, p: nat)
    requires Owned(m, r) && Removed(m, m', r, p)
    ensures EntriesOwned(m'.kernel, Others(r, p))
  {
    assert forall o :: EntryAt(m'.kernel, o) == EntryAt(m.kernel, o);
  }

  lemma RemovedDirectories(m: Machine, m': Machine, r: map<nat, Role>, p: nat)
    requires RolesNamed(m, r) && DirectoriesRoled(m, r) && m'.dirs == m.dirs - {p}
    requires m'.kernel.memory == m.kernel.memory
    ensures RolesNamed(m', Others(r, p)) && DirectoriesRoled(m', Others(r, p))
    ensures forall q, i: nat | q in m'.dirs :: Pde(m', q, i) == Pde(m, q, i)
  {
    assert forall o :: EntryAt(m'.kernel, o) == EntryAt(m.kernel, o);
    assert forall q, i: nat | q in m'.dirs :: Pde(m', q, i) == Pde(m, q, i);
  }

  lemma RemovedContent(m: Machine, m': Machine, r: map<nat, Role>, p: nat, q: nat, d: nat, j: nat)
    requires Owned(m, r) && Removed(m, m', r, p) && q in m'.dirs
    ensures Content(m', q, d, j) == Content(m, q, d, j)
  {
    assert forall o :: EntryAt(m'.kernel, o) == EntryAt(m.kernel, o);
    assert Pde(m', q, d) == Pde(m, q, d);
  }

  lemma RemovedSwap(k: Kernel, k': Kernel, r: map<nat, Role>, p: nat)
    requires SwapOwned(k, r) && k'.swap.Keys <= k.swap.Keys && forall s | s in k.swap && s.Bin? :: s in k'.swap
    ensures SwapOwned(k', Others(r, p)) <==> forall s | s in k.swap :: r[s.ref.table].pid != p
  {
    assert forall s | s in k.swap :: s.Bin? && s in k'.swap && s.ref.table in r;
    if SwapOwned(k', Others(r, p)) {
      forall s | s in k.swap ensures r[s.ref.table].pid != p {
        assert IsSlot(Others(r, p), s.ref);
      }
    }
  }

  /** Removal returns exactly the process's frames and leaves every other process its memory. The swap
      files of the process's own pages stay behind, so each swap file belongs to a live table
      afterwards exactly when no page of the process was ever swapped out. */
  lemma RemoveKeeps(m: Machine, r: map<nat, Role>, p: nat)
    requires Good(m, r) && p in m.dirs
    ensures Removed(m, RemoveProcess(m, p), r, p)
    ensures Good(RemoveProcess(m, p), Others(r, p))
    ensures forall q, d: nat, j: nat | q in m.dirs && q != p ::
              Content(RemoveProcess(m, p), q, d, j) == Content(m, q, d, j)
    ensures SwapOwned(m.kernel, r) ==>
              (SwapOwned(RemoveProcess(m, p).kernel, Others(r, p)) <==>
               forall s | s in m.kernel.swap :: r[s.ref.table].pid != p)
  {
    var m' := RemoveProcess(m, p);
    assert m'.tlb == (if m.pid == p then Tlb.Empty() else m.tlb) && m'.pid == m.pid;
    RemoveIsRemoved(m, r, p);
    RemovedKeeps(m, m', r, p);
    if SwapOwned(m.kernel, r) { RemovedSwap(m.kernel, m'.kernel, r, p); }
    forall q, d: nat, j: nat | q in m.dirs && q != p { RemovedContent(m, m', r, p, q, d, j); }
  }

  lemma RemovedKeeps(m: Machine, m': Machine, r: map<nat, Role>, p: nat)
    requires Good(m, r) && Removed(m, m', r, p)
    requires m'.pid == m.pid && m'.tlb == if m.pid == p then Tlb.Empty() else m.tlb
    ensures Good(m', Others(r, p))
  {
    RemovedReserved(m, m', r, p);
    RemovedMapped(m, m', r, p);
    RemovedEntries(m, m', r, p);
    RemovedDirectories(m, m', r, p);
    forall n | n in m'.tlb && n.entry.Some? ensures WalksTo(m', m'.pid, n.base, n.entry.value) {
      assert WalksTo(m, m.pid, n.base, n.entry.value);
    }
  }
}
