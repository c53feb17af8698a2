/** Data blocks of the file system, and the block numbers stored in an indirect block. */
module MinixBlocks {
  import opened Bytes

  const BLOCK_SIZE := 16384
  const NUM_DIRECT := 11
  const NUM_ENTRIES := 4096
  const UNASSIGNED := -1

  type Block = seq<Byte>

  /** A block number fits the signed 32-bit integer of the disk format. */
  predicate Number(v: int) { -0x8000_0000 <= v < 0x8000_0000 }

  /** Two's complement, little endian. */
  function Encode(v: int): (bytes: seq<Byte>)
    requires Number(v)
    ensures |bytes| == 4
  {
    var u := if v < 0 then v + 0x1_0000_0000 else v;
    [(u % 256) as Byte, (u / 256 % 256) as Byte, (u / 65536 % 256) as Byte, (u / 16777216) as Byte]
  }

  function Decode(b0: Byte, b1: Byte, b2: Byte, b3: Byte): (v: int)
    ensures Number(v)
  {
    var u := b0 as int + 256 * b1 as int + 65536 * b2 as int + 16777216 * b3 as int;
    if u >= 0x8000_0000 then u - 0x1_0000_0000 else u
  }

  lemma DecodeEncode(v: int)
    requires Number(v)
    ensures var e := Encode(v);
            && Decode(e[0], e[1], e[2], e[3]) == v && (v == -1 ==> e == [255, 255, 255, 255])
            && (v >= 0 ==> && e[0] as int == v % 0x100 && e[1] as int == v / 0x100 % 0x100
                           && e[2] as int == v / 0x1_0000 % 0x100 && e[3] as int == v / 0x100_0000)
  {
    BytesOfWord(if v < 0 then v + 0x1_0000_0000 else v);
  }

  lemma BytesOfWord(u: int)
    requires 0 <= u < 0x1_0000_0000
    ensures u == u % 256 + 256 * (u / 256 % 256) + 65536 * (u / 65536 % 256) + 16777216 * (u / 16777216)
    ensures 0 <= u / 16777216 < 256
  {
    assert u / 65536 == u / 256 / 256 && u / 16777216 == u / 65536 / 256;
  }

  function Splice(s: seq<Byte>, at: nat, bytes: seq<Byte>): (r: seq<Byte>)
    requires at + |bytes| <= |s|
    ensures |r| == |s|
    ensures forall p | 0 <= p < |s| :: r[p] == if at <= p < at + |bytes| then bytes[p - at] else s[p]
  {
    s[..at] + bytes + s[at + |bytes|..]
  }

  /** The `n`-th block number in an indirect block. */
  function GetEntry(block: Block, n: nat): (v: int)
    requires |block| == BLOCK_SIZE && n < NUM_ENTRIES
    ensures Number(v)
  {
    Decode(block[4 * n], block[4 * n + 1], block[4 * n + 2], block[4 * n + 3])
  }

  function SetEntry(block: Block, n: nat, v: int): (r: Block)
    requires |block| == BLOCK_SIZE && n < NUM_ENTRIES && Number(v)
    ensures |r| == BLOCK_SIZE
  {
    Splice(block, 4 * n, Encode(v))
  }

  /** A block number written to an entry is read back from it, and every other entry keeps its number. */
  lemma EntryRoundTrip(block: Block, n: nat, v: int, m: nat)
    requires |block| == BLOCK_SIZE && n < NUM_ENTRIES && m < NUM_ENTRIES && Number(v)
    ensures GetEntry(SetEntry(block, n, v), m) == if m == n then v else GetEntry(block, m)
    ensures SetEntry(block, n, v)[4 * n..4 * n + 4] == Encode(v)
  {
    DecodeEncode(v);
  }

  /** Every entry of the block is unassigned. */
  ghost predicate Cleared(block: Block) {
    |block| == BLOCK_SIZE && forall n: nat | n < NUM_ENTRIES :: GetEntry(block, n) == UNASSIGNED
  }
}
