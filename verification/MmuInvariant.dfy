/** What every operation of the machine keeps: who owns each frame, and what the translation buffer
    may hold. */
module MmuInvariant {
  import opened VmTypes
  import opened Frames
  import opened Mmu

  /** The use of a reserved frame: the directory of a process, or the page table that slot `slot` of
      its directory names. */
  datatype Role = Dir(pid: nat) | Tab(pid: nat, slot: nat)

  /** An entry of a page table in use. */
  ghost predicate IsSlot(r: map<nat, Role>, ref: Ref) {
    ref.table in r && r[ref.table].Tab? && ref.slot < NUM_ENTRIES
  }

  ghost predicate SameSize(k: Kernel) { |k.mapping| == |k.memory| }

  /** A frame that is a page holds no table, and the entry it is mapped to names it. */
  ghost predicate PagesMapped(k: Kernel, r: map<nat, Role>)
    requires SameSize(k)
  {
    forall f | 0 <= f < |k.mapping| && k.mapping[f].Page? ::
      var ref := k.mapping[f].ref;
      && !k.memory[f].Table?
      && IsSlot(r, ref)
      && EntryAt(k, ref).present && EntryAt(k, ref).frame == f
  }

  ghost predicate EntriesOwned(k: Kernel, r: map<nat, Role>) {
    forall t, j | t in r && r[t].Tab? && 0 <= j < NUM_ENTRIES && EntryAt(k, Ref(t, j)).present ::
      var f := EntryAt(k, Ref(t, j)).frame; f < |k.mapping| && k.mapping[f] == Page(Ref(t, j))
  }

  ghost predicate RolesReserved(k: Kernel, r: map<nat, Role>)
    requires SameSize(k)
  {
    && (forall f: nat :: f in r <==> f < |k.mapping| && k.mapping[f] == Reserved)
    && (forall f | f in r :: !k.memory[f].Data?)
  }

  ghost predicate RolesNamed(m: Machine, r: map<nat, Role>) {
    && (forall f | f in r && r[f].Dir? :: r[f].pid in m.dirs && m.dirs[r[f].pid] == f)
    && (forall f | f in r && r[f].Tab? ::
          && r[f].pid in m.dirs && r[f].slot < NUM_ENTRIES
          && Pde(m, r[f].pid, r[f].slot).present && Pde(m, r[f].pid, r[f].slot).frame == f)
  }

  ghost predicate DirectoriesRoled(m: Machine, r: map<nat, Role>) {
    && (forall p | p in m.dirs :: m.dirs[p] in r && r[m.dirs[p]] == Dir(p))
    && (forall p, i | p in m.dirs && 0 <= i < NUM_ENTRIES && Pde(m, p, i).present ::
          Pde(m, p, i).frame in r && r[Pde(m, p, i).frame] == Tab(p, i))
  }

  /** Frame ownership, with `r` the use of each reserved frame. */
  ghost predicate Owned(m: Machine, r: map<nat, Role>) {
    && SameSize(m.kernel)
    && m.dirs.Keys == m.segs.Keys
    && RolesReserved(m.kernel, r)
    && PagesMapped(m.kernel, r)
    && EntriesOwned(m.kernel, r)
    && RolesNamed(m, r)
    && DirectoriesRoled(m, r)
  }

  /** The page on disk for an entry: its swap file, or zeros. */
  function FileOf(swap: map<SwapFile, Page>, ref: Ref): Page {
    if Bin(ref) in swap then swap[Bin(ref)] else ZeroPage()
  }

  /** What an address with the entry `ref` would see: the page that the entry names, else the one on disk. */
  function PageOf(k: Kernel, ref: Ref): Page {
    if EntryAt(k, ref).present then BytesAt(k, EntryAt(k, ref).frame) else FileOf(k.swap, ref)
  }

  function Content(m: Machine, p: nat, i: nat, j: nat): Page
    requires p in m.dirs
  {
    if Pde(m, p, i).present then PageOf(m.kernel, Ref(Pde(m, p, i).frame, j)) else ZeroPage()
  }

  /** How the visible memory may change: not at all, or by a page table that was put into a frame for which
      the disk holds files of an earlier table. */
  datatype Change = Same | NewTable(pid: nat, slot: nat, frame: nat, swap: map<SwapFile, Page>)

  function Shown(m: Machine, c: Change, q: nat, d: nat, j: nat): Page
    requires q in m.dirs
  {
    if c.NewTable? && q == c.pid && d == c.slot then FileOf(c.swap, Ref(c.frame, j)) else Content(m, q, d, j)
  }

  ghost predicate Changed(m: Machine, m': Machine, c: Change) {
    && m'.dirs == m.dirs && m'.segs == m.segs
    && forall q, d: nat, j: nat | q in m.dirs && d < NUM_ENTRIES && j < NUM_ENTRIES ::
         Content(m', q, d, j) == Shown(m, c, q, d, j)
  }

  // ---- Allocation ----

  /** The machine's swap files all belong to entries of live page tables. */
  ghost predicate SwapOwned(k: Kernel, r: map<nat, Role>) {
    forall s | s in k.swap :: s.Bin? && IsSlot(r, s.ref)
  }

  /** An asker that holds no frame yet. */
  ghost predicate FreshAsker(k: Kernel, r: map<nat, Role>, asker: Owner) {
    match asker
    case Free => false
    case Reserved => true
    case Page(ref) => IsSlot(r, ref) && !EntryAt(k, ref).present
  }

  /** What making room leaves alone. */
  ghost predicate SameView(k: Kernel, k': Kernel, r: map<nat, Role>) {
    && |k'.mapping| == |k.mapping|
    && (forall ref :: PageOf(k', ref) == PageOf(k, ref))
    && (forall ref: Ref :: ref.table in r && r[ref.table].Dir? ==> EntryAt(k', ref) == EntryAt(k, ref))
    && (forall ref :: EntryAt(k', ref).present ==> EntryAt(k', ref) == EntryAt(k, ref))
    && (forall ref :: EntryAt(k', ref).dirty == EntryAt(k, ref).dirty)
    && (SwapOwned(k, r) <==> SwapOwned(k', r))
  }

  lemma EvictKeepsOwners(k: Kernel, r: map<nat, Role>, v: nat)
    requires SameSize(k) && RolesReserved(k, r) && PagesMapped(k, r) && EntriesOwned(k, r)
    requires v < |k.mapping| && k.mapping[v].Page?
    ensures var k' := Evict(k, v);
            && SameSize(k') && RolesReserved(k', r) && PagesMapped(k', r) && EntriesOwned(k', r)
  {
    var k', ref := Evict(k, v), k.mapping[v].ref;
    assert InTable(k, ref);
    assert forall o | o != ref :: EntryAt(k', o) == EntryAt(k, o);
  }

  lemma EvictKeepsView(k: Kernel, r: map<nat, Role>, v: nat)
    requires SameSize(k) && RolesReserved(k, r) && PagesMapped(k, r) && EntriesOwned(k, r)
    requires v < |k.mapping| && k.mapping[v].Page?
    ensures SameView(k, Evict(k, v), r)
  {
    var k', ref := Evict(k, v), k.mapping[v].ref;
    assert InTable(k, ref);
    assert forall o | o != ref :: EntryAt(k', o) == EntryAt(k, o);
    assert EntryAt(k', ref) == EntryAt(k, ref).(present := false, frame := 0);
  }

  lemma SameDirectories(m: Machine, m': Machine, r: map<nat, Role>)
    requires RolesNamed(m, r) && DirectoriesRoled(m, r) && m'.dirs == m.dirs
    requires forall p, i: nat | p in m.dirs :: Pde(m', p, i) == Pde(m, p, i)
    ensures RolesNamed(m', r) && DirectoriesRoled(m', r)
  {
  }

  lemma EvictKeeps(m: Machine, r: map<nat, Role>, v: nat)
    requires Owned(m, r) && v < |m.kernel.mapping| && m.kernel.mapping[v].Page?
    ensures Owned(m.(kernel := Evict(m.kernel, v)), r)
    ensures SameView(m.kernel, Evict(m.kernel, v), r)
  {
    EvictKeepsOwners(m.kernel, r, v);
    EvictKeepsView(m.kernel, r, v);
    SameDirectories(m, m.(kernel := Evict(m.kernel, v)), r);
  }

  lemma MakeRoomKeeps(m: Machine, r: map<nat, Role>, asker: Owner)
    requires Owned(m, r) && FreshAsker(m.kernel, r, asker)
    ensures var room := MakeRoom(m.kernel, asker);
            && (room.NoRoom? <==> forall f | 0 <= f < |m.kernel.mapping| :: m.kernel.mapping[f] == Reserved)
            && (room.Room? ==>
                  && room.frame < |m.kernel.mapping| && room.kernel.mapping[room.frame] == Free
                  && Owned(m.(kernel := room.kernel), r)
                  && SameView(m.kernel, room.kernel, r))
  {
    var k, room := m.kernel, MakeRoom(m.kernel, asker);
    assert m.(kernel := k) == m;
    if FirstFree(k.mapping, 0) == |k.mapping| {
      var v := FirstEvictable(k.mapping, asker, 0);
      assert forall f | 0 <= f < |k.mapping| :: k.mapping[f] != asker || asker == Reserved;
      if v < |k.mapping| {
        assert room == Room(Evict(k, v), v);
        EvictKeeps(m, r, v);
      }
    } else {
      assert room == Room(k, FirstFree(k.mapping, 0));
    }
  }

  /** An eviction writes a file for an entry of a live table, not for one of the frame that it frees. */
  lemma MakeRoomKeepsFiles(k: Kernel, r: map<nat, Role>, asker: Owner)
    requires SameSize(k) && RolesReserved(k, r) && PagesMapped(k, r)
    ensures var room := MakeRoom(k, asker);
            room.Room? ==>
              forall j :: FileOf(room.kernel.swap, Ref(room.frame, j)) == FileOf(k.swap, Ref(room.frame, j))
  {
    var v := FirstEvictable(k.mapping, asker, 0);
    if FirstFree(k.mapping, 0) == |k.mapping| && v < |k.mapping| {
      var ref := k.mapping[v].ref;
      assert IsSlot(r, ref) && ref.table != v;
      assert Evict(k, v).swap == k.swap[Bin(ref) := BytesAt(k, EntryAt(k, ref).frame)];
    }
  }

  /** The kernel once a cleared frame `f` is claimed for `asker` and named by the entry `ref`. */
  function Link(k: Kernel, ref: Ref, f: nat, asker: Owner): Kernel {
    var k' := Claim(k, f, asker); SetEntry(k', ref, Map(EntryAt(k', ref), f))
  }

  /** What linking does, entry by entry and frame by frame. */
  ghost predicate Linked(k: Kernel, k': Kernel, ref: Ref, f: nat, asker: Owner)
    requires SameSize(k) && f < |k.memory| && ref.table < |k.memory|
  {
    && SameSize(k') && k'.mapping == k.mapping[f := asker] && k'.swap == k.swap
    && (forall o | o != ref && o.table != f :: EntryAt(k', o) == EntryAt(k, o))
    && (forall o: Ref | o.table == f :: EntryAt(k', o) == ZERO_ENTRY)
    && EntryAt(k', ref) == Map(EntryAt(k, ref), f)
    && k'.memory[f] == Zeroed && k'.memory[ref.table].Table?
    && (forall g | 0 <= g < |k.memory| && g != f && g != ref.table :: k'.memory[g] == k.memory[g])
  }

  lemma LinkIsLinked(k: Kernel, ref: Ref, f: nat, asker: Owner)
    requires SameSize(k) && f < |k.memory| && InTable(k, ref) && ref.table != f
    ensures Linked(k, Link(k, ref, f, asker), ref, f, asker)
  {
  }

  lemma LinkedTableOwners(k: Kernel, k': Kernel, r: map<nat, Role>, ref: Ref, f: nat, role: Role)
    requires SameSize(k) && RolesReserved(k, r) && PagesMapped(k, r) && EntriesOwned(k, r)
    requires ref.table in r && r[ref.table].Dir? && role.Tab?
    requires f < |k.mapping| && k.mapping[f] == Free && Linked(k, k', ref, f, Reserved)
    ensures RolesReserved(k', r[f := role])
    ensures PagesMapped(k', r[f := role])
    ensures EntriesOwned(k', r[f := role])
  {
  }

  lemma LinkedTableDirs(m: Machine, m': Machine, r: map<nat, Role>, p: nat, i: nat, f: nat)
    requires RolesNamed(m, r) && DirectoriesRoled(m, r) && f !in r
    requires p in m.dirs && i < NUM_ENTRIES && !Pde(m, p, i).present && m'.dirs == m.dirs
    requires forall q, j: nat | q in m.dirs && (q != p || j != i) :: Pde(m', q, j) == Pde(m, q, j)
    requires Pde(m', p, i).present && Pde(m', p, i).frame == f
    ensures RolesNamed(m', r[f := Tab(p, i)])
    ensures DirectoriesRoled(m', r[f := Tab(p, i)])
  {
    assert forall g | g in r && r[g].Tab? :: r[g].pid != p || r[g].slot != i;
  }

  lemma LinkedTable(m: Machine, m': Machine, r: map<nat, Role>, p: nat, i: nat, f: nat)
    requires Owned(m, r) && p in m.dirs && i < NUM_ENTRIES && !Pde(m, p, i).present
    requires f < |m.kernel.mapping| && m.kernel.mapping[f] == Free
    requires Linked(m.kernel, m'.kernel, PdeRef(m, p, i), f, Reserved) && m' == m.(kernel := m'.kernel)
    ensures Owned(m', r[f := Tab(p, i)])
    ensures forall q, j: nat | q in m.dirs && (q != p || j != i) :: Pde(m', q, j) == Pde(m, q, j)
  {
    assert forall q, j: nat | q in m.dirs && (q != p || j != i) :: Pde(m', q, j) == Pde(m, q, j);
    LinkedTableOwners(m.kernel, m'.kernel, r, PdeRef(m, p, i), f, Tab(p, i));
    LinkedTableDirs(m, m', r, p, i, f);
  }

  /** Linking changes what no other entry of a page table sees. */
  lemma LinkedView(k: Kernel, k': Kernel, r: map<nat, Role>, ref: Ref, f: nat, asker: Owner, o: Ref)
    requires SameSize(k) && RolesReserved(k, r) && EntriesOwned(k, r)
    requires ref.table in r && f < |k.mapping| && k.mapping[f] == Free && Linked(k, k', ref, f, asker)
    requires IsSlot(r, o) && o != ref
    ensures EntryAt(k', o) == EntryAt(k, o) && PageOf(k', o) == PageOf(k, o)
  {
  }

  /** The pages of a table that was just linked are the ones on disk, if an earlier table left files there. */
  lemma LinkedTableReads(k: Kernel, k': Kernel, ref: Ref, f: nat, j: nat)
    requires SameSize(k) && ref.table < |k.memory| && f < |k.memory| && ref.table != f
    requires Linked(k, k', ref, f, Reserved)
    ensures PageOf(k', Ref(f, j)) == FileOf(k.swap, Ref(f, j))
  {
    assert EntryAt(k', Ref(f, j)) == ZERO_ENTRY;
  }

  lemma LinkedTableContent(m: Machine, m': Machine, r: map<nat, Role>, p: nat, i: nat, f: nat)
    requires Owned(m, r) && p in m.dirs && i < NUM_ENTRIES && !Pde(m, p, i).present
    requires f < |m.kernel.mapping| && m.kernel.mapping[f] == Free
    requires Linked(m.kernel, m'.kernel, PdeRef(m, p, i), f, Reserved) && m' == m.(kernel := m'.kernel)
    ensures Changed(m, m', NewTable(p, i, f, m.kernel.swap))
  {
    forall q, d: nat, j: nat | q in m.dirs && d < NUM_ENTRIES && j < NUM_ENTRIES
      ensures Content(m', q, d, j) == Shown(m, NewTable(p, i, f, m.kernel.swap), q, d, j)
    {
      if q == p && d == i {
        LinkedTableReads(m.kernel, m'.kernel, PdeRef(m, p, i), f, j);
      } else {
        assert Pde(m', q, d) == Pde(m, q, d);
        if Pde(m, q, d).present {
          LinkedView(m.kernel, m'.kernel, r, PdeRef(m, p, i), f, Reserved, Ref(Pde(m, q, d).frame, j));
        }
      }
    }
  }

  lemma LinkedPage(k: Kernel, k': Kernel, r: map<nat, Role>, ref: Ref, f: nat)
    requires SameSize(k) && RolesReserved(k, r) && PagesMapped(k, r) && EntriesOwned(k, r)
    requires IsSlot(r, ref) && !EntryAt(k, ref).present
    requires f < |k.mapping| && k.mapping[f] == Free && Linked(k, k', ref, f, Page(ref))
    ensures RolesReserved(k', r)
    ensures PagesMapped(k', r)
    ensures EntriesOwned(k', r)
  {
  }

  /** Changing the bytes of a page of a live entry. */
  lemma SetBytesKeeps(k: Kernel, r: map<nat, Role>, ref: Ref, bytes: Page)
    requires SameSize(k) && RolesReserved(k, r) && PagesMapped(k, r) && EntriesOwned(k, r)
    requires IsSlot(r, ref) && EntryAt(k, ref).present
    ensures var k' := SetBytes(k, EntryAt(k, ref).frame, bytes);
            && SameSize(k') && RolesReserved(k', r) && PagesMapped(k', r) && EntriesOwned(k', r)
            && (forall o: Ref | o.table in r :: EntryAt(k', o) == EntryAt(k, o))
            && PageOf(k', ref) == bytes
            && (forall o | IsSlot(r, o) && o != ref ::
                  PageOf(k', o) == PageOf(k, o))
  {
    var k' := SetBytes(k, EntryAt(k, ref).frame, bytes);
    assert forall o: Ref | o.table in r :: EntryAt(k', o) == EntryAt(k, o);
  }

  ghost predicate ClaimedDir(k: Kernel, k': Kernel, r: map<nat, Role>, p: nat, f: nat) {
    && SameSize(k') && k'.swap == k.swap
    && RolesReserved(k', r[f := Dir(p)]) && PagesMapped(k', r[f := Dir(p)]) && EntriesOwned(k', r[f := Dir(p)])
    && (forall o: Ref | o.table != f :: EntryAt(k', o) == EntryAt(k, o))
    && (forall o: Ref | o.table == f :: EntryAt(k', o) == ZERO_ENTRY)
    && (forall o | IsSlot(r, o) :: PageOf(k', o) == PageOf(k, o))
  }

  lemma ClaimIsClaimedDir(k: Kernel, r: map<nat, Role>, p: nat, f: nat)
    requires SameSize(k) && RolesReserved(k, r) && PagesMapped(k, r) && EntriesOwned(k, r)
    requires f < |k.mapping| && k.mapping[f] == Free
    ensures ClaimedDir(k, Claim(k, f, Reserved), r, p, f)
  {
    assert forall o: Ref | o.table != f :: EntryAt(Claim(k, f, Reserved), o) == EntryAt(k, o);
  }

  lemma LinkedDirRoles(m: Machine, m': Machine, r: map<nat, Role>, p: nat, f: nat)
    requires RolesNamed(m, r) && DirectoriesRoled(m, r) && p !in m.dirs && f !in r && m'.dirs == m.dirs[p := f]
    requires forall o: Ref | o.table != f :: EntryAt(m'.kernel, o) == EntryAt(m.kernel, o)
    requires forall o: Ref | o.table == f :: EntryAt(m'.kernel, o) == ZERO_ENTRY
    ensures RolesNamed(m', r[f := Dir(p)]) && DirectoriesRoled(m', r[f := Dir(p)])
    ensures forall q, i: nat | q in m.dirs :: Pde(m', q, i) == Pde(m, q, i)
    ensures forall i: nat :: Pde(m', p, i) == ZERO_ENTRY
  {
    assert forall q, i: nat | q in m.dirs :: Pde(m', q, i) == Pde(m, q, i);
  }

  lemma LinkedDirContent(m: Machine, m': Machine, r: map<nat, Role>, p: nat, f: nat, q: nat, d: nat, j: nat)
    requires EntriesOwned(m.kernel, r) && DirectoriesRoled(m, r) && ClaimedDir(m.kernel, m'.kernel, r, p, f)
    requires q in m.dirs && q in m'.dirs && Pde(m', q, d) == Pde(m, q, d) && d < NUM_ENTRIES && j < NUM_ENTRIES
    ensures Content(m', q, d, j) == Content(m, q, d, j)
  {
    if Pde(m, q, d).present { assert IsSlot(r, Ref(Pde(m, q, d).frame, j)); }
  }

  /** A new process: a cleared directory, and nothing else changed. */
  lemma LinkedDir(m: Machine, m': Machine, r: map<nat, Role>, p: nat, f: nat)
    requires Owned(m, r) && p !in m.dirs && f !in r
    requires ClaimedDir(m.kernel, m'.kernel, r, p, f)
    requires m'.dirs == m.dirs[p := f] && m'.segs.Keys == m.segs.Keys + {p}
    ensures Owned(m', r[f := Dir(p)])
    ensures SwapOwned(m.kernel, r) ==> SwapOwned(m'.kernel, r[f := Dir(p)])
    ensures forall i: nat :: Pde(m', p, i) == ZERO_ENTRY
    ensures forall q, i: nat | q in m.dirs :: Pde(m', q, i) == Pde(m, q, i)
  {
    LinkedDirRoles(m, m', r, p, f);
  }
}
