/** Every step of a translation keeps frame ownership and the coherence of the translation buffer,
    and changes the memory of processes only by the page table that it may bring in. */
module MmuSteps {
  import opened Options
  import opened VmTypes
  import opened Frames
  import opened Mmu
  import opened MmuInvariant
  import Tlb

  lemma IndicesOfBase(a: Address)
    ensures DirIndex(PageBase(a)) == DirIndex(a) < NUM_ENTRIES
    ensures TabIndex(PageBase(a)) == TabIndex(a) < NUM_ENTRIES
    ensures PageBase(a) == (DirIndex(a) * NUM_ENTRIES + TabIndex(a)) * PAGE_SIZE
  {
    var page := a / PAGE_SIZE;
    assert a == page * PAGE_SIZE + a % PAGE_SIZE && page < NUM_ENTRIES * NUM_ENTRIES;
    assert DirIndex(a) == page / NUM_ENTRIES;
    assert page == page / NUM_ENTRIES * NUM_ENTRIES + page % NUM_ENTRIES;
  }

  /** A walk of process `p`'s two levels of tables reaches the entry `ref` for the page at `base`. */
  ghost predicate WalksTo(m: Machine, p: nat, base: nat, ref: Ref) {
    && p in m.dirs && DirIndex(base) < NUM_ENTRIES
    && Pde(m, p, DirIndex(base)).present
    && ref == Ref(Pde(m, p, DirIndex(base)).frame, TabIndex(base))
  }

  /** Each node but the initial one holds the entry that a walk for the current process reaches. */
  ghost predicate Coherent(m: Machine) {
    && 1 <= |m.tlb| <= Tlb.MAX_NODES
    && forall n | n in m.tlb ::
         match n.entry
         case Some(ref) => WalksTo(m, m.pid, n.base, ref)
         case None => n.base == 0
  }

  ghost predicate Good(m: Machine, r: map<nat, Role>) { Owned(m, r) && Coherent(m) }

  /** Later tables extend earlier ones. */
  ghost predicate Grows(m: Machine, m': Machine, r: map<nat, Role>, r': map<nat, Role>) {
    && m'.dirs == m.dirs && m'.segs == m.segs && m'.pid == m.pid
    && |m'.kernel.mapping| == |m.kernel.mapping|
    && (forall f | f in r :: f in r' && r'[f] == r[f])
    && (forall q, i: nat | q in m.dirs && Pde(m, q, i).present :: Pde(m', q, i) == Pde(m, q, i))
  }

  /** And show every process the memory it had, but for the change `c`. */
  ghost predicate Extends(m: Machine, m': Machine, r: map<nat, Role>, r': map<nat, Role>, c: Change) {
    && Grows(m, m', r, r') && Changed(m, m', c)
    && |r'| == |r| + Taken(c)
    && (SwapOwned(m.kernel, r) ==> SwapOwned(m'.kernel, r'))
  }

  /** The frames that a change takes for page tables. */
  function Taken(c: Change): nat { if c.NewTable? then 1 else 0 }

  /** The frame that the next directory or page table gets. */
  function NewFrame(k: Kernel): nat { match MakeRoom(k, Reserved) case Room(_, f) => f case NoRoom => 0 }

  /** What making sure of a page table changes. */
  function TableChange(m: Machine, p: nat, i: nat): Change
    requires p in m.dirs
  {
    if Pde(m, p, i).present then Same else NewTable(p, i, NewFrame(m.kernel), m.kernel.swap)
  }

  lemma CoherenceExtends(m: Machine, m': Machine, r: map<nat, Role>, r': map<nat, Role>, c: Change)
    requires Coherent(m) && Extends(m, m', r, r', c) && m'.tlb == m.tlb
    ensures Coherent(m')
  {
    forall n | n in m'.tlb && n.entry.Some? ensures WalksTo(m', m'.pid, n.base, n.entry.value) {
      assert WalksTo(m, m.pid, n.base, n.entry.value);
    }
  }

  lemma ExtendsTransitive(m: Machine, m1: Machine, m2: Machine, r: map<nat, Role>, r1: map<nat, Role>,
                          r2: map<nat, Role>, c1: Change, c2: Change)
    requires Extends(m, m1, r, r1, c1) && Extends(m1, m2, r1, r2, c2) && (c1 == Same || c2 == Same)
    ensures Extends(m, m2, r, r2, if c1 == Same then c2 else c1)
  {
    ChangedThen(m, m1, m2, c1, c2);
  }

  lemma ChangedThen(m: Machine, m1: Machine, m2: Machine, c1: Change, c2: Change)
    requires Changed(m, m1, c1) && Changed(m1, m2, c2) && (c1 == Same || c2 == Same)
    ensures Changed(m, m2, if c1 == Same then c2 else c1)
  {
    var c := if c1 == Same then c2 else c1;
    forall q, d: nat, j: nat | q in m.dirs && d < NUM_ENTRIES && j < NUM_ENTRIES
      ensures Content(m2, q, d, j) == Shown(m, c, q, d, j)
    {
      assert Content(m1, q, d, j) == Shown(m, c1, q, d, j);
    }
  }

  lemma ChangedAlike(m: Machine, m': Machine, c: Change, swap: map<SwapFile, Page>)
    requires c.NewTable? && Changed(m, m', c)
    requires forall j :: FileOf(c.swap, Ref(c.frame, j)) == FileOf(swap, Ref(c.frame, j))
    ensures Changed(m, m', c.(swap := swap))
  {
    forall q, d: nat, j: nat | q in m.dirs && d < NUM_ENTRIES && j < NUM_ENTRIES
      ensures Shown(m, c.(swap := swap), q, d, j) == Shown(m, c, q, d, j)
    {
    }
  }

  lemma ViewExtends(m: Machine, m': Machine, r: map<nat, Role>)
    requires Owned(m, r) && SameView(m.kernel, m'.kernel, r) && m' == m.(kernel := m'.kernel)
    ensures Extends(m, m', r, r, Same)
    ensures forall q, i: nat | q in m.dirs :: Pde(m', q, i) == Pde(m, q, i)
  {
    assert forall q, i: nat | q in m.dirs :: Pde(m', q, i) == Pde(m, q, i);
  }

  ghost predicate Exhausted(k: Kernel) { forall f | 0 <= f < |k.mapping| :: k.mapping[f] == Reserved }

  /** How many frames could be given to a directory or table. */
  function Unreserved(k: Kernel): nat { |set f | 0 <= f < |k.mapping| && k.mapping[f] != Reserved| }

  lemma UnreservedIsRest(k: Kernel, r: map<nat, Role>)
    requires SameSize(k) && RolesReserved(k, r)
    ensures Unreserved(k) == |k.mapping| - |r|
    ensures Exhausted(k) <==> Unreserved(k) == 0
  {
    var free := set f | 0 <= f < |k.mapping| && k.mapping[f] != Reserved;
    assert r.Keys + free == Below(|k.mapping|);
    assert r.Keys !! free;
    if free != {} {
      var f :| f in free;
    }
    assert forall f | 0 <= f < |k.mapping| :: f in free || k.mapping[f] == Reserved;
  }

  ghost function Below(n: nat): (s: set<nat>)
    ensures |s| == n && forall i: nat :: i in s <==> i < n
  {
    if n == 0 then {} else Below(n - 1) + {n - 1}
  }

  lemma LinkedTableExtends(m: Machine, m': Machine, r: map<nat, Role>, p: nat, i: nat, f: nat)
    requires Owned(m, r) && p in m.dirs && i < NUM_ENTRIES && !Pde(m, p, i).present
    requires f < |m.kernel.mapping| && m.kernel.mapping[f] == Free
    requires Linked(m.kernel, m'.kernel, PdeRef(m, p, i), f, Reserved) && m' == m.(kernel := m'.kernel)
    ensures Owned(m', r[f := Tab(p, i)])
    ensures Extends(m, m', r, r[f := Tab(p, i)], NewTable(p, i, f, m.kernel.swap))
  {
    LinkedTable(m, m', r, p, i, f);
    LinkedTableContent(m, m', r, p, i, f);
  }

  lemma AttachTableKeeps(m: Machine, r: map<nat, Role>, p: nat, i: nat) returns (r': map<nat, Role>)
    requires Owned(m, r) && p in m.dirs && i < NUM_ENTRIES && !Pde(m, p, i).present
    ensures AttachTable(m, p, i).None? <==> Exhausted(m.kernel)
    ensures AttachTable(m, p, i).Some? ==>
              var m' := AttachTable(m, p, i).value;
              && Owned(m', r') && Extends(m, m', r, r', TableChange(m, p, i))
              && Pde(m', p, i).present && Pde(m', p, i).frame == NewFrame(m.kernel)
              && forall o: Ref | o.table == Pde(m', p, i).frame :: EntryAt(m'.kernel, o) == ZERO_ENTRY
  {
    MakeRoomKeeps(m, r, Reserved);
    r' := r;
    var room := MakeRoom(m.kernel, Reserved);
    if room.Room? {
      r' := r[room.frame := Tab(p, i)];
      ViewExtends(m, m.(kernel := room.kernel), r);
      MakeRoomKeepsFiles(m.kernel, r, Reserved);
      TableAfterRoom(m, m.(kernel := room.kernel), AttachTable(m, p, i).value, r, p, i, room.frame);
    }
  }

  lemma TableAfterRoom(m: Machine, m1: Machine, m': Machine, r: map<nat, Role>, p: nat, i: nat, f: nat)
    requires Owned(m1, r) && Extends(m, m1, r, r, Same) && m1 == m.(kernel := m1.kernel)
    requires p in m.dirs && i < NUM_ENTRIES && !Pde(m1, p, i).present
    requires f < |m1.kernel.mapping| && m1.kernel.mapping[f] == Free
    requires m' == m1.(kernel := Link(m1.kernel, PdeRef(m1, p, i), f, Reserved))
    requires forall j :: FileOf(m1.kernel.swap, Ref(f, j)) == FileOf(m.kernel.swap, Ref(f, j))
    ensures Owned(m', r[f := Tab(p, i)]) && Extends(m, m', r, r[f := Tab(p, i)], NewTable(p, i, f, m.kernel.swap))
    ensures Pde(m', p, i).present && Pde(m', p, i).frame == f
    ensures forall o: Ref | o.table == f :: EntryAt(m'.kernel, o) == ZERO_ENTRY
  {
    LinkIsLinked(m1.kernel, PdeRef(m1, p, i), f, Reserved);
    LinkedTableExtends(m1, m', r, p, i, f);
    ExtendsTransitive(m, m1, m', r, r, r[f := Tab(p, i)], Same, NewTable(p, i, f, m1.kernel.swap));
    ChangedAlike(m, m', NewTable(p, i, f, m1.kernel.swap), m.kernel.swap);
  }

  /** A page that was just linked and read back from its swap file shows what its entry showed. */
  lemma ReadBack(k: Kernel, k1: Kernel, r: map<nat, Role>, ref: Ref, f: nat)
    requires SameSize(k) && RolesReserved(k, r) && PagesMapped(k, r) && EntriesOwned(k, r)
    requires IsSlot(r, ref) && !EntryAt(k, ref).present
    requires f < |k.mapping| && k.mapping[f] == Free && Linked(k, k1, ref, f, Page(ref))
    ensures var k2 := ReadPageFromDisk(k1, ref);
            && SameSize(k2) && RolesReserved(k2, r) && PagesMapped(k2, r) && EntriesOwned(k2, r)
            && k2.swap == k.swap
            && (forall o: Ref | o.table in r && o != ref :: EntryAt(k2, o) == EntryAt(k, o))
            && EntryAt(k2, ref) == Map(EntryAt(k, ref), f)
            && (forall o | IsSlot(r, o) :: PageOf(k2, o) == PageOf(k, o))
  {
    LinkedPage(k, k1, r, ref, f);
    forall o | IsSlot(r, o) && o != ref ensures PageOf(k1, o) == PageOf(k, o) {
      LinkedView(k, k1, r, ref, f, Page(ref), o);
    }
    if Bin(ref) in k1.swap {
      SetBytesKeeps(k1, r, ref, k1.swap[Bin(ref)]);
    }
  }

  /** A kernel that differs only in what entries of page tables hold, not in what they show. */
  lemma SamePagesExtend(m: Machine, m': Machine, r: map<nat, Role>)
    requires Owned(m, r) && m' == m.(kernel := m'.kernel, pageFaults := m'.pageFaults)
    requires var k' := m'.kernel;
            && SameSize(k') && RolesReserved(k', r) && PagesMapped(k', r) && EntriesOwned(k', r)
            && |k'.mapping| == |m.kernel.mapping| && k'.swap == m.kernel.swap
            && (forall o: Ref | o.table in r && r[o.table].Dir? :: EntryAt(k', o) == EntryAt(m.kernel, o))
            && (forall o | IsSlot(r, o) :: PageOf(k', o) == PageOf(m.kernel, o))
    ensures Owned(m', r) && Extends(m, m', r, r, Same)
  {
    assert forall q, i: nat | q in m.dirs :: Pde(m', q, i) == Pde(m, q, i);
    SameDirectories(m, m', r);
    forall q, d: nat, j: nat | q in m.dirs && d < NUM_ENTRIES && j < NUM_ENTRIES
      ensures Content(m', q, d, j) == Content(m, q, d, j)
    {
      if Pde(m, q, d).present { assert IsSlot(r, Ref(Pde(m, q, d).frame, j)); }
    }
  }

  lemma PagedIn(m: Machine, m': Machine, r: map<nat, Role>, ref: Ref, f: nat)
    requires Owned(m, r) && IsSlot(r, ref) && !EntryAt(m.kernel, ref).present
    requires f < |m.kernel.mapping| && m.kernel.mapping[f] == Free
    requires m'.kernel == ReadPageFromDisk(Link(m.kernel, ref, f, Page(ref)), ref)
    requires m' == m.(kernel := m'.kernel, pageFaults := m'.pageFaults)
    ensures Owned(m', r) && Extends(m, m', r, r, Same) && EntryAt(m'.kernel, ref).present
  {
    LinkIsLinked(m.kernel, ref, f, Page(ref));
    ReadBack(m.kernel, Link(m.kernel, ref, f, Page(ref)), r, ref, f);
    SamePagesExtend(m, m', r);
  }

  lemma PageInKeeps(m: Machine, r: map<nat, Role>, ref: Ref)
    requires Owned(m, r) && IsSlot(r, ref)
    ensures PageIn(m, ref).None? <==> !EntryAt(m.kernel, ref).present && Exhausted(m.kernel)
    ensures PageIn(m, ref).Some? ==>
              var m' := PageIn(m, ref).value;
              Owned(m', r) && Extends(m, m', r, r, Same) && EntryAt(m'.kernel, ref).present
  {
    if !EntryAt(m.kernel, ref).present {
      MakeRoomKeeps(m, r, Page(ref));
      var room := MakeRoom(m.kernel, Page(ref));
      if room.Room? {
        var m1, f := m.(kernel := room.kernel), room.frame;
        var m' := PageIn(m, ref).value;
        ViewExtends(m, m1, r);
        PagedIn(m1, m', r, ref, f);
        ExtendsTransitive(m, m1, m', r, r, r, Same, Same);
      }
    }
  }

  /** Counters and the buffer itself play no part in ownership or in walks. */
  lemma SameTables(m: Machine, m': Machine, r: map<nat, Role>)
    requires m'.kernel == m.kernel && m'.dirs == m.dirs && m'.segs == m.segs
    ensures Owned(m, r) ==> Owned(m', r)
    ensures m'.pid == m.pid ==> Extends(m, m', r, r, Same)
    ensures forall p, i: nat | p in m.dirs :: TableChange(m', p, i) == TableChange(m, p, i)
    ensures forall p, base, ref :: WalksTo(m', p, base, ref) <==> WalksTo(m, p, base, ref)
  {
    assert forall q, d: nat | q in m.dirs :: Pde(m', q, d) == Pde(m, q, d);
  }

  lemma NeedTableKeeps(m: Machine, r: map<nat, Role>, p: nat, i: nat)
    returns (next: Option<Machine>, r': map<nat, Role>)
    requires Owned(m, r) && p in m.dirs && i < NUM_ENTRIES
    ensures next == NeedTable(m, p, i)
    ensures next.None? <==> !Pde(m, p, i).present && Exhausted(m.kernel)
    ensures next.Some? ==>
              && Owned(next.value, r') && Extends(m, next.value, r, r', TableChange(m, p, i))
              && Pde(next.value, p, i).present
              && (Pde(m, p, i).present ==> next.value == m)
              && (!Pde(m, p, i).present ==>
                    forall o: Ref | o.table == Pde(next.value, p, i).frame ::
                      EntryAt(next.value.kernel, o) == ZERO_ENTRY)
  {
    next := NeedTable(m, p, i);
    if Pde(m, p, i).present {
      SameTables(m, m, r);
      r' := r;
    } else {
      var m1 := m.(pageFaults := m.pageFaults + 1);
      assert next == AttachTable(m1, p, i);
      SameTables(m, m1, r);
      assert Pde(m1, p, i) == Pde(m, p, i);
      r' := AttachTableKeeps(m1, r, p, i);
      if next.Some? { ExtendsTransitive(m, m1, next.value, r, r, r', Same, TableChange(m, p, i)); }
    }
  }

  lemma TlbGetCoherent(m: Machine, base: nat)
    requires Coherent(m)
    ensures var (tlb, hit) := Tlb.Get(m.tlb, base);
            && 1 <= |tlb| <= Tlb.MAX_NODES
            && (forall n | n in tlb :: n in m.tlb)
            && (hit.Some? ==> WalksTo(m, m.pid, base, hit.value))
  {
    var i := Tlb.Find(m.tlb, base);
    if i < |m.tlb| { assert m.tlb[i] in m.tlb; }
  }

  lemma CoherentSubset(m: Machine, m': Machine)
    requires Coherent(m) && m'.pid == m.pid && 1 <= |m'.tlb| <= Tlb.MAX_NODES
    requires forall n | n in m'.tlb :: n in m.tlb
    requires forall base, ref | WalksTo(m, m.pid, base, ref) :: WalksTo(m', m.pid, base, ref)
    ensures Coherent(m')
  {
  }

  lemma TlbAddCoherent(m: Machine, m': Machine, base: nat, ref: Ref)
    requires Coherent(m) && WalksTo(m, m.pid, base, ref) && m' == m.(tlb := Tlb.Add(m.tlb, base, ref))
    ensures Coherent(m')
  {
    SameTables(m, m', map[]);
    assert forall n | n in m'.tlb :: n in m.tlb || n == Tlb.Node(base, Some(ref));
  }

  /** The machine and entry after a translation step, or None where frames run out. */
  type Found = Option<(Machine, Ref)>

  ghost predicate Reached(m: Machine, r: map<nat, Role>, p: nat, a: nat, m': Machine, ref: Ref, r': map<nat, Role>)
    requires p in m.dirs
  {
    && Good(m', r') && Extends(m, m', r, r', TableChange(m, p, DirIndex(a)))
    && WalksTo(m', p, a, ref) && IsSlot(r', ref)
  }

  /** The entry is the one the tables had, or one of a new table. */
  ghost predicate Untouched(m: Machine, p: nat, a: nat, m': Machine, ref: Ref)
    requires p in m.dirs
  {
    if Pde(m, p, DirIndex(a)).present then m'.kernel == m.kernel else !EntryAt(m'.kernel, ref).present
  }

  lemma MissKeeps(m: Machine, r: map<nat, Role>, p: nat, a: Address) returns (next: Found, r': map<nat, Role>)
    requires Good(m, r) && p in m.dirs && p == m.pid
    ensures next == Miss(m, p, a)
    ensures next.None? <==> !Pde(m, p, DirIndex(a)).present && Exhausted(m.kernel)
    ensures next.Some? ==>
              && Reached(m, r, p, a, next.value.0, next.value.1, r')
              && Untouched(m, p, a, next.value.0, next.value.1)
  {
    IndicesOfBase(a);
    var need;
    need, r' := NeedTableKeeps(m, r, p, DirIndex(a));
    next := Miss(m, p, a);
    if need.Some? {
      var m2 := need.value;
      CoherenceExtends(m, m2, r, r', TableChange(m, p, DirIndex(a)));
      var ref := Ref(Pde(m2, p, DirIndex(a)).frame, TabIndex(a));
      var m' := m2.(tlb := Tlb.Add(m2.tlb, PageBase(a), ref));
      assert WalksTo(m2, p, a, ref);
      TlbAddCoherent(m2, m', PageBase(a), ref);
      SameTables(m2, m', r');
      ExtendsTransitive(m, m2, m', r, r', r', TableChange(m, p, DirIndex(a)), Same);
      next := Some((m', ref));
    }
  }

  /** A lookup changes the order of the buffer at most; what it finds is what a walk reaches. */
  lemma LookedUpKeeps(m: Machine, m1: Machine, r: map<nat, Role>, base: nat, hit: Option<Ref>)
    requires Good(m, r) && Tlb.Get(m.tlb, base) == (m1.tlb, hit) && m1 == m.(tlb := m1.tlb, tlbMisses := m1.tlbMisses)
    ensures Good(m1, r) && Extends(m, m1, r, r, Same)
    ensures hit.Some? ==> WalksTo(m1, m.pid, base, hit.value)
  {
    TlbGetCoherent(m, base);
    SameTables(m, m1, r);
    CoherentSubset(m, m1);
  }

  lemma LookedUp(m: Machine, p: nat, a: Address, m1: Machine, hit: Option<Ref>)
    requires p in m.dirs && Tlb.Get(m.tlb, PageBase(a)) == (m1.tlb, hit)
    requires m1 == m.(tlb := m1.tlb, tlbMisses := if hit.Some? then m.tlbMisses else m.tlbMisses + 1)
    ensures FindEntry(m, p, a) == if hit.Some? then Some((m1, hit.value)) else Miss(m1, p, a)
  {}

  lemma HitReaches(m: Machine, m1: Machine, r: map<nat, Role>, p: nat, a: Address, ref: Ref)
    requires Good(m1, r) && p in m.dirs && Extends(m, m1, r, r, Same) && m1.kernel == m.kernel
    requires WalksTo(m1, p, PageBase(a), ref)
    ensures Pde(m, p, DirIndex(a)).present && Reached(m, r, p, a, m1, ref, r) && Untouched(m, p, a, m1, ref)
  {
    IndicesOfBase(a);
    assert Pde(m1, p, DirIndex(a)) == Pde(m, p, DirIndex(a));
  }

  lemma MissReaches(m: Machine, m1: Machine, m2: Machine, r: map<nat, Role>, r': map<nat, Role>, p: nat, a: Address,
                    ref: Ref)
    requires p in m.dirs && m1.kernel == m.kernel && m1.dirs == m.dirs && Extends(m, m1, r, r, Same)
    requires Reached(m1, r, p, a, m2, ref, r') && Untouched(m1, p, a, m2, ref)
    ensures Reached(m, r, p, a, m2, ref, r') && Untouched(m, p, a, m2, ref)
  {
    assert Pde(m1, p, DirIndex(a)) == Pde(m, p, DirIndex(a));
    ExtendsTransitive(m, m1, m2, r, r, r', Same, TableChange(m, p, DirIndex(a)));
  }

  /** The entry found for an address is the one its tables hold, whether the buffer hit or missed. */
  lemma FindEntryKeeps(m: Machine, r: map<nat, Role>, p: nat, a: Address) returns (next: Found, r': map<nat, Role>)
    requires Good(m, r) && p in m.dirs && p == m.pid
    ensures next == FindEntry(m, p, a)
    ensures next.None? <==> !Pde(m, p, DirIndex(a)).present && Exhausted(m.kernel)
    ensures next.Some? ==>
              && Reached(m, r, p, a, next.value.0, next.value.1, r')
              && Untouched(m, p, a, next.value.0, next.value.1)
  {
    var (tlb, hit) := Tlb.Get(m.tlb, PageBase(a));
    var m1 := m.(tlb := tlb, tlbMisses := if hit.Some? then m.tlbMisses else m.tlbMisses + 1);
    next := FindEntry(m, p, a);
    LookedUp(m, p, a, m1, hit);
    LookedUpKeeps(m, m1, r, PageBase(a), hit);
    if hit.Some? {
      r' := r;
      HitReaches(m, m1, r, p, a, hit.value);
    } else {
      var missed;
      missed, r' := MissKeeps(m1, r, p, a);
      assert Pde(m1, p, DirIndex(a)) == Pde(m, p, DirIndex(a));
      if next.Some? { MissReaches(m, m1, next.value.0, r, r', p, a, next.value.1); }
    }
  }

  lemma WalkExtends(m: Machine, m': Machine, r: map<nat, Role>, r': map<nat, Role>, p: nat, a: nat, ref: Ref,
                    c: Change)
    requires WalksTo(m, p, a, ref) && Extends(m, m', r, r', c)
    ensures WalksTo(m', p, a, ref)
  {
  }

  lemma PagedReached(m: Machine, m1: Machine, m2: Machine, r: map<nat, Role>, r': map<nat, Role>, p: nat, a: nat,
                     ref: Ref)
    requires p in m.dirs && Reached(m, r, p, a, m1, ref, r') && PageIn(m1, ref) == Some(m2)
    ensures Reached(m, r, p, a, m2, ref, r') && EntryAt(m2.kernel, ref).present
  {
    PageInKeeps(m1, r', ref);
    CoherenceExtends(m1, m2, r', r', Same);
    WalkExtends(m1, m2, r', r', p, a, ref, Same);
    ExtendsTransitive(m, m1, m2, r, r', r', TableChange(m, p, DirIndex(a)), Same);
  }

  /** How many unreserved frames a translation needs: one for a missing table, one for a missing page. */
  function TranslationDemand(m: Machine, p: nat, a: Address): nat
    requires p in m.dirs
  {
    var e := Pde(m, p, DirIndex(a));
    if !e.present then 2 else if !EntryAt(m.kernel, Ref(e.frame, TabIndex(a))).present then 1 else 0
  }

  /** A page is missing frames exactly when the whole translation is. */
  lemma PageDemand(m: Machine, r: map<nat, Role>, p: nat, a: Address, m1: Machine, ref: Ref, r1: map<nat, Role>)
    requires Owned(m, r) && p in m.dirs && Reached(m, r, p, a, m1, ref, r1) && Untouched(m, p, a, m1, ref)
    ensures PageIn(m1, ref).None? <==> Unreserved(m.kernel) < TranslationDemand(m, p, a)
  {
    UnreservedIsRest(m.kernel, r);
    UnreservedIsRest(m1.kernel, r1);
    PageInKeeps(m1, r1, ref);
    assert Pde(m, p, DirIndex(a)).present ==> ref == Ref(Pde(m, p, DirIndex(a)).frame, TabIndex(a));
  }

  lemma ResolveKeeps(m: Machine, r: map<nat, Role>, p: nat, a: Address) returns (next: Found, r': map<nat, Role>)
    requires Good(m, r) && p in m.dirs && p == m.pid
    ensures next == Resolve(m, p, a)
    ensures next.None? <==> Unreserved(m.kernel) < TranslationDemand(m, p, a)
    ensures next.Some? ==>
              && Reached(m, r, p, a, next.value.0, next.value.1, r')
              && EntryAt(next.value.0.kernel, next.value.1).present
  {
    var found := FindEntry(m, p, a);
    var paged := if found.Some? then PageIn(found.value.0, found.value.1) else None;
    next := if paged.Some? then Some((paged.value, found.value.1)) else None;
    assert next == Resolve(m, p, a);
    found, r' := FindEntryKeeps(m, r, p, a);
    UnreservedIsRest(m.kernel, r);
    if found.Some? { PageDemand(m, r, p, a, found.value.0, found.value.1, r'); }
    if next.Some? {
      PagedReached(m, found.value.0, paged.value, r, r', p, a, found.value.1);
    }
  }
}
