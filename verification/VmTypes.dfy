/** Types shared by the virtual memory model: pages of bytes, page table entries and the
    addresses by which the rest of the machine refers to them. */
module VmTypes {
  import opened Bytes

  const PAGE_SIZE := 4096
  const NUM_ENTRIES := 1024
  const ADDRESS_SPACE := 0x1_0000_0000

  type Page = s: seq<Byte> | |s| == PAGE_SIZE witness seq(PAGE_SIZE, _ => 0)
  type Address = a: int | 0 <= a < ADDRESS_SPACE

  function ZeroPage(): Page { seq(PAGE_SIZE, _ => 0) }

  /** Both kinds of entry: directory entries never use the last two flags. */
  datatype Entry = Entry(frame: nat, present: bool, readWrite: bool, userSupervisor: bool,
                         accessed: bool, dirty: bool)

  type Entries = s: seq<Entry> | |s| == NUM_ENTRIES
    witness seq(NUM_ENTRIES, _ => Entry(0, false, false, false, false, false))

  const ZERO_ENTRY := Entry(0, false, false, false, false, false)
  function ZeroTable(): Entries { seq(NUM_ENTRIES, _ => ZERO_ENTRY) }

  /** A page table entry as code names it: by its address, which is the frame that holds its
      table and the slot within that table. */
  datatype Ref = Ref(table: nat, slot: nat)
}
