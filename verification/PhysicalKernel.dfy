/** The kernel's state as it is stored: the owner of each frame, the frames, and the swap directory,
    all updated in place. */
module PhysicalKernel {
  import opened Options
  import opened VmTypes
  import opened Frames
  import opened MmuInvariant

  /** The page tables and the frames they name agree, for some use of the reserved frames. */
  ghost predicate Consistent(k: Kernel) { exists r :: ConsistentFor(k, r) }

  ghost predicate ConsistentFor(k: Kernel, r: map<nat, Role>) {
    SameSize(k) && RolesReserved(k, r) && PagesMapped(k, r) && EntriesOwned(k, r)
  }

  class Memory {
    const entryMapping: array<Owner>
    const frames: array<Frame>
    var swap: map<SwapFile, Page>

    ghost predicate Valid()
      reads this
    {
      entryMapping.Length == frames.Length
    }

    ghost function State(): Kernel
      reads this, entryMapping, frames
    {
      Kernel(entryMapping[..], frames[..], swap)
    }

    constructor (count: nat)
      ensures Valid() && fresh(entryMapping) && fresh(frames)
      ensures State() == Kernel(seq(count, _ => Free), seq(count, _ => Zeroed), map[])
    {
      entryMapping := new Owner[count](_ => Free);
      frames := new Frame[count](_ => Zeroed);
      swap := map[];
    }

    /** An entry is read and written only in frames that hold tables. */
    method GetEntry(ref: Ref) returns (e: Entry)
      requires Valid() && InTable(State(), ref) && !frames[ref.table].Data?
      ensures e == EntryAt(State(), ref)
    {
      e := match frames[ref.table] case Zeroed => ZERO_ENTRY case Table(entries) => entries[ref.slot];
    }

    method PutEntry(ref: Ref, e: Entry)
      requires Valid() && InTable(State(), ref) && !frames[ref.table].Data?
      modifies frames
      ensures State() == SetEntry(old(State()), ref, e)
    {
      var entries := if frames[ref.table].Table? then frames[ref.table].entries else ZeroTable();
      frames[ref.table] := Table(entries[ref.slot := e]);
    }

    /** Bytes are read and written only in frames that hold no table. */
    method GetBytes(frame: nat) returns (bytes: Page)
      requires Valid() && frame < frames.Length && !frames[frame].Table?
      ensures bytes == BytesAt(State(), frame)
    {
      bytes := if frames[frame].Data? then frames[frame].bytes else ZeroPage();
    }

    method PutBytes(frame: nat, bytes: Page)
      requires Valid() && frame < frames.Length && !frames[frame].Table?
      modifies frames
      ensures State() == SetBytes(old(State()), frame, bytes)
    {
      frames[frame] := Data(bytes);
    }

    method WriteToDisk(ref: Ref)
      requires Valid() && InTable(State(), ref) && !frames[ref.table].Data?
      requires EntryAt(State(), ref).frame < frames.Length && !frames[EntryAt(State(), ref).frame].Table?
      modifies this
      ensures State() == WritePageToDisk(old(State()), ref)
    {
      var e := GetEntry(ref);
      var bytes := GetBytes(e.frame);
      swap := swap[Bin(ref) := bytes];
    }

    method ReadFromDisk(ref: Ref)
      requires Valid() && InTable(State(), ref) && !frames[ref.table].Data?
      requires EntryAt(State(), ref).frame < frames.Length && !frames[EntryAt(State(), ref).frame].Table?
      modifies frames
      ensures State() == ReadPageFromDisk(old(State()), ref)
    {
      if Bin(ref) in swap {
        var e := GetEntry(ref);
        PutBytes(e.frame, swap[Bin(ref)]);
      }
    }

    /** Frees the page of frame `v` by writing it to disk. */
    method PageOut(v: nat)
      requires Valid() && Consistent(State()) && v < entryMapping.Length && entryMapping[v].Page?
      modifies this, entryMapping, frames
      ensures Valid() && State() == Evict(old(State()), v) && Consistent(State())
    {
      ghost var r :| ConsistentFor(State(), r);
      EvictKeepsOwners(State(), r, v);
      var evictee := entryMapping[v].ref;
      WriteToDisk(evictee);
      var e := GetEntry(evictee);
      PutEntry(evictee, e.(present := false, frame := 0));
      entryMapping[v] := Free;
      assert State() == Evict(old(State()), v) && ConsistentFor(State(), r);
    }

    method FindFree() returns (i: nat)
      ensures i == FirstFree(entryMapping[..], 0) <= entryMapping.Length
      ensures (i < entryMapping.Length ==> entryMapping[i] == Free) && forall j | 0 <= j < i :: entryMapping[j] != Free
    {
      i := 0;
      while i < entryMapping.Length && entryMapping[i] != Free
        invariant i <= entryMapping.Length
        invariant forall j | 0 <= j < i :: entryMapping[j] != Free
      {
        i := i + 1;
      }
    }

    method FindEvictable(asker: Owner) returns (i: nat)
      ensures i == FirstEvictable(entryMapping[..], asker, 0) <= entryMapping.Length
      ensures i < entryMapping.Length ==> entryMapping[i] != Reserved && entryMapping[i] != asker
      ensures forall j | 0 <= j < i :: entryMapping[j] == Reserved || entryMapping[j] == asker
    {
      i := 0;
      while i < entryMapping.Length && (entryMapping[i] == Reserved || entryMapping[i] == asker)
        invariant i <= entryMapping.Length
        invariant forall j | 0 <= j < i :: !Evictable(entryMapping[j], asker)
      {
        i := i + 1;
      }
    }

    method ClaimFrame(i: nat, asker: Owner)
      requires Valid() && i < entryMapping.Length
      modifies entryMapping, frames
      ensures State() == Claim(old(State()), i, asker)
    {
      entryMapping[i] := asker;
      frames[i] := Zeroed;
    }

    /** The first free frame, cleared and claimed for the asker; with none free, the first page that is
        not the asker's is paged out and the search repeated. */
    method AskForFrame(asker: Owner) returns (frame: Option<nat>)
      requires Valid() && Consistent(State()) && asker != Free
      modifies this, entryMapping, frames
      ensures Valid()
      ensures match Ask(old(State()), asker)
              case Room(k, f) => frame == Some(f) && State() == k
              case NoRoom => frame == None && State() == old(State())
      decreases if FirstFree(entryMapping[..], 0) < entryMapping.Length then 0 else 1
    {
      var i := FindFree();
      if i < entryMapping.Length {
        ClaimFrame(i, asker);
        return Some(i);
      }
      i := FindEvictable(asker);
      if i < entryMapping.Length {
        EvictedIsFirstFree(State(), i);
        PageOut(i);
        frame := AskForFrame(asker);
      } else {
        frame := None;
      }
    }

    /** Gives the table slot `ref` a frame of its own. */
    method AttachFrame(ref: Ref, asker: Owner, ghost r: map<nat, Role>) returns (ok: bool)
      requires Valid() && ConsistentFor(State(), r) && ref.table in r && ref.slot < NUM_ENTRIES && asker != Free
      modifies this, entryMapping, frames
      ensures Valid()
      ensures var next := Attach(old(State()), ref, asker); ok == next.Some? && (ok ==> State() == next.value)
      ensures ok ==> var e := EntryAt(State(), ref); e.present && e.readWrite && e.userSupervisor
      ensures ok ==>
                && (forall t | t in r :: t < frames.Length && !frames[t].Data?)
                && EntryAt(State(), ref).frame < frames.Length && !frames[EntryAt(State(), ref).frame].Table?
    {
      AskLeavesTables(State(), r, asker);
      var frame := AskForFrame(asker);
      if frame.None? {
        return false;
      }
      var e := GetEntry(ref);
      PutEntry(ref, Map(e, frame.value));
      ok := true;
    }

    method ReturnFrame(frame: nat)
      requires Valid() && frame < entryMapping.Length
      modifies entryMapping
      ensures State() == old(State()).(mapping := old(State()).mapping[frame := Free])
    {
      entryMapping[frame] := Free;
    }

    method RemoveSwap(ref: Ref)
      modifies this
      ensures State() == RemoveSwapFile(old(State()), ref)
    {
      swap := swap - {Plain(ref)};
    }
  }

  /** Once a page is out, its frame is the one the repeated search finds. */
  lemma EvictedIsFirstFree(k: Kernel, v: nat)
    requires FirstFree(k.mapping, 0) == |k.mapping| && v < |k.mapping| && k.mapping[v].Page?
    ensures FirstFree(Evict(k, v).mapping, 0) == v
  {
    var m := Evict(k, v).mapping;
    assert m == k.mapping[v := Free];
    assert m[v] == Free && forall j | 0 <= j < |m| && j != v :: m[j] == k.mapping[j] != Free;
  }

  /** No allocation takes a frame that holds a directory or a page table. */
  lemma AskLeavesTables(k: Kernel, r: map<nat, Role>, asker: Owner)
    requires ConsistentFor(k, r) && asker != Free
    ensures match Ask(k, asker)
            case Room(k', f) => SameSize(k') && f !in r && forall t | t in r :: t < |k'.memory| && !k'.memory[t].Data?
            case NoRoom => true
  {
    var v := FirstEvictable(k.mapping, asker, 0);
    if FirstFree(k.mapping, 0) == |k.mapping| && v < |k.mapping| {
      EvictKeepsOwners(k, r, v);
    }
  }
}
