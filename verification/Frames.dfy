/** The kernel's frame allocator, as functions on values: who owns each frame, what each frame
    holds, and the swap directory. */
module Frames {
  import opened Options
  import opened VmTypes

  /** `entry_mapping`: NULL, the RESERVED marker, or the page table entry the frame belongs to. */
  datatype Owner = Free | Reserved | Page(ref: Ref)

  /** A frame that was just cleared reads as zero bytes or as absent entries; after that it is used
      as one kind only. */
  datatype Frame = Zeroed | Data(bytes: Page) | Table(entries: Entries)

  /** Swap files are stored as "<entry>.bin", but removed as "<entry>". */
  datatype SwapFile = Bin(ref: Ref) | Plain(ref: Ref)

  datatype Kernel = Kernel(mapping: seq<Owner>, memory: seq<Frame>, swap: map<SwapFile, Page>)

  function AsBytes(f: Frame): Page { if f.Data? then f.bytes else ZeroPage() }
  function AsTable(f: Frame): Entries { if f.Table? then f.entries else ZeroTable() }

  predicate InTable(k: Kernel, ref: Ref) { ref.table < |k.memory| && ref.slot < NUM_ENTRIES }

  function EntryAt(k: Kernel, ref: Ref): Entry {
    if InTable(k, ref) then AsTable(k.memory[ref.table])[ref.slot] else ZERO_ENTRY
  }

  function SetEntry(k: Kernel, ref: Ref, e: Entry): Kernel {
    if InTable(k, ref)
    then k.(memory := k.memory[ref.table := Table(AsTable(k.memory[ref.table])[ref.slot := e])])
    else k
  }

  function BytesAt(k: Kernel, frame: nat): Page {
    if frame < |k.memory| then AsBytes(k.memory[frame]) else ZeroPage()
  }

  function SetBytes(k: Kernel, frame: nat, bytes: Page): Kernel {
    if frame < |k.memory| then k.(memory := k.memory[frame := Data(bytes)]) else k
  }

  // ---- Swapping ----

  function WritePageToDisk(k: Kernel, ref: Ref): Kernel {
    k.(swap := k.swap[Bin(ref) := BytesAt(k, EntryAt(k, ref).frame)])
  }

  function ReadPageFromDisk(k: Kernel, ref: Ref): Kernel {
    if Bin(ref) in k.swap then SetBytes(k, EntryAt(k, ref).frame, k.swap[Bin(ref)]) else k
  }

  function RemoveSwapFile(k: Kernel, ref: Ref): Kernel { k.(swap := k.swap - {Plain(ref)}) }

  // ---- Allocation ----

  function FirstFree(m: seq<Owner>, i: nat): (r: nat)
    requires i <= |m|
    ensures i <= r <= |m| && (forall j | i <= j < r :: m[j] != Free) && (r < |m| ==> m[r] == Free)
    decreases |m| - i
  {
    if i == |m| || m[i] == Free then i else FirstFree(m, i + 1)
  }

  predicate Evictable(o: Owner, asker: Owner) { o != Reserved && o != asker }

  function FirstEvictable(m: seq<Owner>, asker: Owner, i: nat): (r: nat)
    requires i <= |m|
    ensures i <= r <= |m| && (forall j | i <= j < r :: !Evictable(m[j], asker))
    ensures r < |m| ==> Evictable(m[r], asker)
    decreases |m| - i
  {
    if i == |m| || Evictable(m[i], asker) then i else FirstEvictable(m, asker, i + 1)
  }

  function Evict(k: Kernel, v: nat): Kernel
    requires v < |k.mapping| && k.mapping[v].Page?
  {
    var ref := k.mapping[v].ref;
    var k' := WritePageToDisk(k, ref);
    SetEntry(k', ref, EntryAt(k', ref).(present := false, frame := 0)).(mapping := k.mapping[v := Free])
  }

  datatype Room = Room(kernel: Kernel, frame: nat) | NoRoom

  /** A free frame, made by paging out the first page that does not belong to the asker if there is
      none. */
  function MakeRoom(k: Kernel, asker: Owner): (r: Room) {
    var f := FirstFree(k.mapping, 0);
    if f < |k.mapping| then Room(k, f)
    else
      var v := FirstEvictable(k.mapping, asker, 0);
      if v < |k.mapping| then Room(Evict(k, v), v) else NoRoom
  }

  function Claim(k: Kernel, f: nat, o: Owner): Kernel {
    if f < |k.mapping| && f < |k.memory|
    then k.(mapping := k.mapping[f := o], memory := k.memory[f := Zeroed])
    else k
  }

  /** ask_kernel_for_frame: the asker is Reserved for NULL. */
  function Ask(k: Kernel, asker: Owner): Room {
    match MakeRoom(k, asker)
    case Room(k', f) => Room(Claim(k', f, asker), f)
    case NoRoom => NoRoom
  }

  function Map(e: Entry, f: nat): Entry {
    e.(frame := f, present := true, readWrite := true, userSupervisor := true)
  }

  /** Asks for a frame for the entry `ref` and makes the entry name it. */
  function Attach(k: Kernel, ref: Ref, asker: Owner): Option<Kernel> {
    match Ask(k, asker)
    case Room(k', f) => Some(SetEntry(k', ref, Map(EntryAt(k', ref), f)))
    case NoRoom => None
  }
}
