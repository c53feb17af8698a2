/** What each operation of the machine does to frame ownership, to the translation buffer and to the
    memory of each process. */
module MmuOperations {
  import opened Bytes
  import opened Options
  import opened VmTypes
  import opened Frames
  import opened Mmu
  import opened MmuInvariant
  import opened MmuSteps
  import Segments

  /** The page that holds address `a` of process `p`. */
  function PageAt(m: Machine, p: nat, a: Address): Page
    requires p in m.dirs
  {
    Content(m, p, DirIndex(a), TabIndex(a))
  }

  lemma SwitchKeeps(m: Machine, r: map<nat, Role>, p: nat)
    requires Good(m, r)
    ensures var m' := SwitchTo(m, p);
            && Good(m', r) && m'.pid == p && m'.kernel == m.kernel && m'.dirs == m.dirs && m'.segs == m.segs
            && Changed(m, m', Same)
            && forall q, i: nat | q in m.dirs :: TableChange(m', q, i) == TableChange(m, q, i)
  {
    SameTables(m, SwitchTo(m, p), r);
    SameMemory(m, SwitchTo(m, p));
  }

  lemma SameMemory(m: Machine, m': Machine)
    requires m'.kernel == m.kernel && m'.dirs == m.dirs && m'.segs == m.segs
    ensures Changed(m, m', Same)
  {
    assert forall q, d: nat | q in m.dirs :: Pde(m', q, d) == Pde(m, q, d);
  }

  /** Setting flags of an entry disturbs nothing. */
  ghost predicate Flagged(k: Kernel, k': Kernel, ref: Ref)
    requires SameSize(k) && InTable(k, ref)
  {
    && SameSize(k') && k'.mapping == k.mapping && k'.swap == k.swap
    && (forall o | o != ref :: EntryAt(k', o) == EntryAt(k, o))
    && EntryAt(k', ref).present == EntryAt(k, ref).present && EntryAt(k', ref).frame == EntryAt(k, ref).frame
    && k'.memory[ref.table].Table?
    && (forall g | 0 <= g < |k.memory| && g != ref.table :: k'.memory[g] == k.memory[g])
  }

  lemma SetFlags(k: Kernel, ref: Ref, e: Entry)
    requires SameSize(k) && InTable(k, ref)
    requires e.present == EntryAt(k, ref).present && e.frame == EntryAt(k, ref).frame
    ensures Flagged(k, SetEntry(k, ref, e), ref)
  {
  }

  lemma FlaggedOwners(k: Kernel, k': Kernel, r: map<nat, Role>, ref: Ref)
    requires SameSize(k) && RolesReserved(k, r) && PagesMapped(k, r) && EntriesOwned(k, r)
    requires IsSlot(r, ref) && Flagged(k, k', ref)
    ensures RolesReserved(k', r) && PagesMapped(k', r) && EntriesOwned(k', r)
    ensures forall o | IsSlot(r, o) :: PageOf(k', o) == PageOf(k, o)
  {
  }

  /** Marking an entry accessed or dirty. */
  lemma FlagKeeps(m: Machine, r: map<nat, Role>, ref: Ref, e: Entry)
    requires Good(m, r) && IsSlot(r, ref)
    requires e.present == EntryAt(m.kernel, ref).present && e.frame == EntryAt(m.kernel, ref).frame
    ensures var m' := m.(kernel := SetEntry(m.kernel, ref, e)); Good(m', r) && Extends(m, m', r, r, Same)
  {
    var m' := m.(kernel := SetEntry(m.kernel, ref, e));
    SetFlags(m.kernel, ref, e);
    FlaggedOwners(m.kernel, m'.kernel, r, ref);
    SamePagesExtend(m, m', r);
    CoherenceExtends(m, m', r, r, Same);
  }

  /** Of all pages of all processes, only the given one becomes another one than the change `c` makes it. */
  ghost predicate OnlyPage(m: Machine, m': Machine, c: Change, p: nat, d: nat, j: nat, page: Page) {
    && m'.dirs == m.dirs && m'.segs == m.segs && p in m.dirs
    && Content(m', p, d, j) == page
    && forall q, d': nat, j': nat | q in m.dirs && d' < NUM_ENTRIES && j' < NUM_ENTRIES
         && (q != p || d' != d || j' != j) :: Content(m', q, d', j') == Shown(m, c, q, d', j')
  }

  lemma StoreKeeps(m: Machine, r: map<nat, Role>, p: nat, a: Address, ref: Ref, bytes: Page)
    requires Good(m, r) && WalksTo(m, p, a, ref) && IsSlot(r, ref) && EntryAt(m.kernel, ref).present
    ensures var m' := m.(kernel := SetBytes(m.kernel, EntryAt(m.kernel, ref).frame, bytes));
            && Good(m', r) && (SwapOwned(m.kernel, r) ==> SwapOwned(m'.kernel, r))
            && EntryAt(m'.kernel, ref) == EntryAt(m.kernel, ref)
            && OnlyPage(m, m', Same, p, DirIndex(a), TabIndex(a), bytes)
  {
    var k' := SetBytes(m.kernel, EntryAt(m.kernel, ref).frame, bytes);
    var m' := m.(kernel := k');
    SetBytesKeeps(m.kernel, r, ref, bytes);
    assert k'.swap == m.kernel.swap;
    assert StoredIn(m, m', r, ref, bytes);
    StoredGood(m, m', r, ref, bytes);
    StoredContent(m, m', r, p, a, ref, bytes);
  }

  /** What bytes stored in the page of `ref` leave alone. */
  ghost predicate StoredIn(m: Machine, m': Machine, r: map<nat, Role>, ref: Ref, bytes: Page) {
    var k' := m'.kernel;
    && m' == m.(kernel := k')
    && SameSize(k') && RolesReserved(k', r) && PagesMapped(k', r) && EntriesOwned(k', r)
    && (forall o: Ref | o.table in r :: EntryAt(k', o) == EntryAt(m.kernel, o))
    && PageOf(k', ref) == bytes
    && (forall o | IsSlot(r, o) && o != ref :: PageOf(k', o) == PageOf(m.kernel, o))
  }

  lemma StoredGood(m: Machine, m': Machine, r: map<nat, Role>, ref: Ref, bytes: Page)
    requires Good(m, r) && StoredIn(m, m', r, ref, bytes)
    ensures Good(m', r)
  {
    assert forall q, i: nat | q in m.dirs :: Pde(m', q, i) == Pde(m, q, i);
    SameDirectories(m, m', r);
    forall n | n in m'.tlb && n.entry.Some? ensures WalksTo(m', m'.pid, n.base, n.entry.value) {
      assert WalksTo(m, m.pid, n.base, n.entry.value);
    }
  }

  lemma StoredContent(m: Machine, m': Machine, r: map<nat, Role>, p: nat, a: Address, ref: Ref, bytes: Page)
    requires DirectoriesRoled(m, r) && WalksTo(m, p, a, ref) && IsSlot(r, ref) && StoredIn(m, m', r, ref, bytes)
    ensures OnlyPage(m, m', Same, p, DirIndex(a), TabIndex(a), bytes)
  {
    assert forall q, i: nat | q in m.dirs :: Pde(m', q, i) == Pde(m, q, i);
    forall q, d: nat, j: nat | q in m.dirs && d < NUM_ENTRIES && j < NUM_ENTRIES
      && (q != p || d != DirIndex(a) || j != TabIndex(a))
      ensures Content(m', q, d, j) == Shown(m, Same, q, d, j)
    {
      if Pde(m, q, d).present {
        var o := Ref(Pde(m, q, d).frame, j);
        assert IsSlot(r, o);
        assert o != ref;
      }
    }
  }

  /** What a permitted access finds, once resolved. */
  lemma ResolvedPage(m: Machine, p: nat, a: Address, ref: Ref)
    requires WalksTo(m, p, a, ref) && EntryAt(m.kernel, ref).present
    ensures BytesAt(m.kernel, EntryAt(m.kernel, ref).frame) == PageAt(m, p, a)
  {
  }

  type Next = Option<(Machine, Reply)>

  predicate Permits(m: Machine, p: nat, a: Address, need: Segments.Permission)
    requires p in m.segs
  {
    var s := Segments.Find(m.segs[p], a); s.Some? && need in s.value.permissions
  }

  /** Whether an access brings a page table in, decided by the segments and the directory alone. */
  function AccessChange(m: Machine, p: nat, a: Address): Change
    requires Live(m, p)
  {
    if Segments.Find(m.segs[p], a).Some? then TableChange(m, p, DirIndex(a)) else Same
  }

  /** An address in no segment is not translated. */
  function AccessDemand(m: Machine, p: nat, a: Address): nat
    requires Live(m, p)
  {
    if Segments.Find(m.segs[p], a).Some? then TranslationDemand(m, p, a) else 0
  }

  /** Switching plays no part in what an access needs. */
  lemma SwitchedDemand(m: Machine, m1: Machine, p: nat, a: Address)
    requires m1.kernel == m.kernel && m1.dirs == m.dirs && p in m.dirs
    ensures TranslationDemand(m1, p, a) == TranslationDemand(m, p, a)
  {
    assert Pde(m1, p, DirIndex(a)) == Pde(m, p, DirIndex(a));
  }

  /** The page that holds address `a` once the change `c` is made. */
  function PageAfter(m: Machine, c: Change, p: nat, a: Address): Page
    requires p in m.dirs
  {
    Shown(m, c, p, DirIndex(a), TabIndex(a))
  }

  ghost predicate Unchanged(m: Machine, m': Machine, r: map<nat, Role>, r': map<nat, Role>, c: Change) {
    && Good(m', r') && Changed(m, m', c)
    && (SwapOwned(m.kernel, r) ==> SwapOwned(m'.kernel, r'))
  }

  lemma FaultKeeps(m: Machine, r: map<nat, Role>)
    requires Good(m, r)
    ensures Unchanged(m, Fault(m).0, r, r, Same)
  {
    SameTables(m, Fault(m).0, r);
  }

  lemma FlaggedKeeps(m: Machine, r: map<nat, Role>, ref: Ref, e: Entry)
    requires Good(m, r) && IsSlot(r, ref)
    requires e.present == EntryAt(m.kernel, ref).present && e.frame == EntryAt(m.kernel, ref).frame
    ensures Unchanged(m, m.(kernel := SetEntry(m.kernel, ref, e)), r, r, Same)
  {
    FlagKeeps(m, r, ref, e);
  }

  lemma FinishReadKeeps(m: Machine, r: map<nat, Role>, p: nat, a: Address, ref: Ref, s: Segments.Segment, count: nat)
    requires Good(m, r) && WalksTo(m, p, a, ref) && IsSlot(r, ref) && EntryAt(m.kernel, ref).present
    requires Fits(a, count)
    ensures var (m', reply) := FinishRead(m, ref, s, a, count);
            && Unchanged(m, m', r, r, Same)
            && reply == if Segments.READ in s.permissions
                        then Bytes(PageAt(m, p, a)[Offset(a)..Offset(a) + count]) else Segfault
  {
    ResolvedPage(m, p, a, ref);
    if Segments.READ !in s.permissions {
      FaultKeeps(m, r);
    } else {
      FlaggedKeeps(m, r, ref, EntryAt(m.kernel, ref).(accessed := true));
    }
  }

  /** Permission to access is decided by the segments alone. */
  ghost predicate ReadReply(m: Machine, c: Change, p: nat, a: Address, count: nat, reply: Reply)
    requires Live(m, p) && Fits(a, count)
  {
    && reply.Segfault? == !Permits(m, p, a, Segments.READ)
    && (!reply.Segfault? ==> reply == Bytes(PageAfter(m, c, p, a)[Offset(a)..Offset(a) + count]))
  }

  lemma ReadWithinKeeps(m: Machine, r: map<nat, Role>, p: nat, s: Segments.Segment, a: Address, count: nat)
    returns (next: Next, r': map<nat, Role>)
    requires Good(m, r) && Live(m, p) && p == m.pid && Fits(a, count) && Segments.Find(m.segs[p], a) == Some(s)
    ensures next == ReadWithin(m, p, s, a, count)
    ensures next.None? <==> Unreserved(m.kernel) < TranslationDemand(m, p, a)
    ensures next.Some? ==>
              var c := TableChange(m, p, DirIndex(a));
              Unchanged(m, next.value.0, r, r', c) && ReadReply(m, c, p, a, count, next.value.1)
  {
    var found := Resolve(m, p, a);
    next := if found.None? then None else Some(FinishRead(found.value.0, found.value.1, s, a, count));
    assert next == ReadWithin(m, p, s, a, count);
    found, r' := ResolveKeeps(m, r, p, a);
    if found.Some? {
      FinishReadKeeps(found.value.0, r', p, a, found.value.1, s, count);
      UnchangedThen(m, found.value.0, next.value.0, r, r', p, a, TableChange(m, p, DirIndex(a)));
    }
  }

  lemma UnchangedThen(m: Machine, m1: Machine, m2: Machine, r: map<nat, Role>, r': map<nat, Role>, p: nat, a: Address,
                      c: Change)
    requires Extends(m, m1, r, r', c) && Unchanged(m1, m2, r', r', Same) && p in m.dirs
    ensures Unchanged(m, m2, r, r', c)
    ensures PageAt(m1, p, a) == PageAfter(m, c, p, a)
  {
    IndicesOfBase(a);
    ChangedThen(m, m1, m2, c, Same);
  }

  lemma SwitchedFault(m: Machine, m1: Machine, r: map<nat, Role>)
    requires m1.kernel == m.kernel && Good(m1, r) && Changed(m, m1, Same)
    ensures Unchanged(m, Fault(m1).0, r, r, Same)
  {
    FaultKeeps(m1, r);
    ChangedThen(m, m1, Fault(m1).0, Same, Same);
  }

  /** A read faults exactly when the segments forbid it; otherwise it yields the bytes of the process's
      memory, which a read changes only by bringing in a page table. */
  lemma ReadKeeps(m: Machine, r: map<nat, Role>, p: nat, a: Address, count: nat)
    returns (next: Next, r': map<nat, Role>)
    requires Good(m, r) && Live(m, p) && Fits(a, count)
    ensures next == Read(m, p, a, count)
    ensures next.None? <==> Unreserved(m.kernel) < AccessDemand(m, p, a)
    ensures next.Some? ==>
              var c := AccessChange(m, p, a);
              Unchanged(m, next.value.0, r, r', c) && ReadReply(m, c, p, a, count, next.value.1)
  {
    var m1, s := SwitchTo(m, p), Segments.Find(m.segs[p], a);
    next := if s.None? then Some(Fault(m1)) else ReadWithin(m1, p, s.value, a, count);
    ReadOnceSwitched(m, p, a, count, m1, s);
    SwitchKeeps(m, r, p);
    SwitchedDemand(m, m1, p, a);
    if s.None? {
      r' := r;
      SwitchedFault(m, m1, r);
    } else {
      var within;
      within, r' := ReadWithinKeeps(m1, r, p, s.value, a, count);
      if next.Some? { SwitchedRead(m, m1, r, p, a, count, next.value.0, r', next.value.1); }
    }
  }

  lemma SwitchedRead(m: Machine, m1: Machine, r: map<nat, Role>, p: nat, a: Address, count: nat, m2: Machine,
                     r': map<nat, Role>, reply: Reply)
    requires m1.kernel == m.kernel && m1.segs == m.segs && Changed(m, m1, Same) && Live(m, p) && Fits(a, count)
    requires Unchanged(m1, m2, r, r', TableChange(m, p, DirIndex(a)))
    requires ReadReply(m1, TableChange(m, p, DirIndex(a)), p, a, count, reply)
    ensures Unchanged(m, m2, r, r', TableChange(m, p, DirIndex(a)))
    ensures ReadReply(m, TableChange(m, p, DirIndex(a)), p, a, count, reply)
  {
    IndicesOfBase(a);
    ChangedThen(m, m1, m2, Same, TableChange(m, p, DirIndex(a)));
    assert Content(m1, p, DirIndex(a), TabIndex(a)) == Content(m, p, DirIndex(a), TabIndex(a));
  }

  /** A write that faults changes no memory but by bringing in a page table; any other changes in addition
      exactly the bytes it covers. */
  ghost predicate Wrote(m: Machine, c: Change, p: nat, a: Address, data: seq<Byte>, m': Machine, reply: Reply)
    requires Live(m, p) && Fits(a, |data|)
  {
    && reply == (if Permits(m, p, a, Segments.WRITE) then Done else Segfault)
    && if reply.Segfault? then Changed(m, m', c)
       else OnlyPage(m, m', c, p, DirIndex(a), TabIndex(a), Overlay(PageAfter(m, c, p, a), Offset(a), data))
  }

  ghost predicate WriteEffect(m: Machine, r: map<nat, Role>, c: Change, p: nat, a: Address, data: seq<Byte>,
                              m': Machine, r': map<nat, Role>, reply: Reply)
    requires Live(m, p) && Fits(a, |data|)
  {
    && Good(m', r') && Wrote(m, c, p, a, data, m', reply)
    && (SwapOwned(m.kernel, r) ==> SwapOwned(m'.kernel, r'))
  }

  lemma StoreAndFlag(m: Machine, r: map<nat, Role>, p: nat, a: Address, ref: Ref, page: Page, e: Entry)
    requires Good(m, r) && WalksTo(m, p, a, ref) && IsSlot(r, ref) && EntryAt(m.kernel, ref).present
    requires e.present && e.frame == EntryAt(m.kernel, ref).frame
    ensures var m' := m.(kernel := SetEntry(SetBytes(m.kernel, e.frame, page), ref, e));
            && Good(m', r) && (SwapOwned(m.kernel, r) ==> SwapOwned(m'.kernel, r))
            && OnlyPage(m, m', Same, p, DirIndex(a), TabIndex(a), page)
  {
    var m1 := m.(kernel := SetBytes(m.kernel, e.frame, page));
    StoreKeeps(m, r, p, a, ref, page);
    FlagKeeps(m1, r, ref, e);
    OnlyPageThen(m, m1, m1.(kernel := SetEntry(m1.kernel, ref, e)), r, p, a, page);
  }

  lemma FinishWriteKeeps(m: Machine, r: map<nat, Role>, p: nat, a: Address, ref: Ref, s: Segments.Segment,
                         data: seq<Byte>)
    requires Good(m, r) && WalksTo(m, p, a, ref) && IsSlot(r, ref) && EntryAt(m.kernel, ref).present
    requires Live(m, p) && Fits(a, |data|) && Segments.Find(m.segs[p], a) == Some(s)
    ensures var (m', reply) := FinishWrite(m, ref, s, a, data); WriteEffect(m, r, Same, p, a, data, m', r, reply)
  {
    if Segments.WRITE !in s.permissions {
      SameTables(m, Fault(m).0, r);
    } else {
      var m' := PermittedWriteKeeps(m, r, p, a, ref, s, data);
    }
  }

  lemma PermittedWriteKeeps(m: Machine, r: map<nat, Role>, p: nat, a: Address, ref: Ref, s: Segments.Segment,
                            data: seq<Byte>) returns (m': Machine)
    requires Good(m, r) && WalksTo(m, p, a, ref) && IsSlot(r, ref) && EntryAt(m.kernel, ref).present
    requires Live(m, p) && Fits(a, |data|) && Segments.Find(m.segs[p], a) == Some(s)
    requires Segments.WRITE in s.permissions
    ensures FinishWrite(m, ref, s, a, data) == (m', Done)
    ensures WriteEffect(m, r, Same, p, a, data, m', r, Done)
  {
    var e := EntryAt(m.kernel, ref).(accessed := true, dirty := true);
    var page := Overlay(PageAfter(m, Same, p, a), Offset(a), data);
    assert PageAfter(m, Same, p, a) == PageAt(m, p, a);
    ResolvedPage(m, p, a, ref);
    StoreAndFlag(m, r, p, a, ref, page, e);
    m' := m.(kernel := SetEntry(SetBytes(m.kernel, e.frame, page), ref, e));
  }

  lemma OnlyPageThen(m: Machine, m1: Machine, m2: Machine, r: map<nat, Role>, p: nat, a: Address, page: Page)
    requires OnlyPage(m, m1, Same, p, DirIndex(a), TabIndex(a), page) && Extends(m1, m2, r, r, Same)
    ensures OnlyPage(m, m2, Same, p, DirIndex(a), TabIndex(a), page)
  {
    IndicesOfBase(a);
  }

  lemma WriteWithinKeeps(m: Machine, r: map<nat, Role>, p: nat, s: Segments.Segment, a: Address, data: seq<Byte>)
    returns (next: Next, r': map<nat, Role>)
    requires Good(m, r) && Live(m, p) && p == m.pid && Fits(a, |data|) && Segments.Find(m.segs[p], a) == Some(s)
    ensures next == WriteWithin(m, p, s, a, data)
    ensures next.None? <==> Unreserved(m.kernel) < TranslationDemand(m, p, a)
    ensures next.Some? ==> WriteEffect(m, r, TableChange(m, p, DirIndex(a)), p, a, data, next.value.0, r', next.value.1)
  {
    var found := Resolve(m, p, a);
    next := if found.None? then None else Some(FinishWrite(found.value.0, found.value.1, s, a, data));
    assert next == WriteWithin(m, p, s, a, data);
    found, r' := ResolveKeeps(m, r, p, a);
    if found.Some? {
      FinishWriteKeeps(found.value.0, r', p, a, found.value.1, s, data);
      EffectThen(m, found.value.0, next.value.0, r, r', TableChange(m, p, DirIndex(a)), p, a, data, next.value.1);
    }
  }

  /** A change followed by a write. */
  lemma EffectThen(m: Machine, m1: Machine, m2: Machine, r: map<nat, Role>, r': map<nat, Role>, c: Change,
                   p: nat, a: Address, data: seq<Byte>, reply: Reply)
    requires Extends(m, m1, r, r', c) && Live(m, p) && Fits(a, |data|)
    requires WriteEffect(m1, r', Same, p, a, data, m2, r', reply)
    ensures WriteEffect(m, r, c, p, a, data, m2, r', reply)
  {
    IndicesOfBase(a);
    assert PageAfter(m1, Same, p, a) == PageAfter(m, c, p, a);
    if reply.Segfault? { ChangedThen(m, m1, m2, c, Same); }
  }

  lemma WriteKeeps(m: Machine, r: map<nat, Role>, p: nat, a: Address, data: seq<Byte>)
    returns (next: Next, r': map<nat, Role>)
    requires Good(m, r) && Live(m, p) && Fits(a, |data|)
    ensures next == Write(m, p, a, data)
    ensures next.None? <==> Unreserved(m.kernel) < AccessDemand(m, p, a)
    ensures next.Some? ==> WriteEffect(m, r, AccessChange(m, p, a), p, a, data, next.value.0, r', next.value.1)
  {
    var m1, s := SwitchTo(m, p), Segments.Find(m.segs[p], a);
    next := if s.None? then Some(Fault(m1)) else WriteWithin(m1, p, s.value, a, data);
    WriteOnceSwitched(m, p, a, data, m1, s);
    SwitchKeeps(m, r, p);
    SwitchedDemand(m, m1, p, a);
    if s.None? {
      r' := r;
      SwitchedFault(m, m1, r);
    } else {
      var within;
      within, r' := WriteWithinKeeps(m1, r, p, s.value, a, data);
      if next.Some? { SwitchedWrite(m, m1, r, p, a, data, next.value.0, r', next.value.1); }
    }
  }

  lemma SwitchedWrite(m: Machine, m1: Machine, r: map<nat, Role>, p: nat, a: Address, data: seq<Byte>, m2: Machine,
                      r': map<nat, Role>, reply: Reply)
    requires m1.kernel == m.kernel && m1.segs == m.segs && Changed(m, m1, Same) && Live(m, p) && Fits(a, |data|)
    requires WriteEffect(m1, r, TableChange(m, p, DirIndex(a)), p, a, data, m2, r', reply)
    ensures WriteEffect(m, r, TableChange(m, p, DirIndex(a)), p, a, data, m2, r', reply)
  {
    var c := TableChange(m, p, DirIndex(a));
    IndicesOfBase(a);
    assert PageAfter(m1, c, p, a) == PageAfter(m, c, p, a);
    if reply.Segfault? { ChangedThen(m, m1, m2, Same, c); }
  }
}
