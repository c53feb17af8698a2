/** What a file contains, and how allocating and writing one block change it. */
module MinixContent {
  import opened Bytes
  import opened MinixBlocks
  import opened MinixDisk

  /** A write ends below the limit; the slots themselves could hold more. */
  const MAX_FILE_SIZE := DATA_SLOTS * BLOCK_SIZE
  const CAPACITY := INDIRECT_SLOT * BLOCK_SIZE

  /** The bytes of the block in slot `s`, or nothing. */
  ghost function DataAt(d: Disk, i: nat, s: nat): Block
    requires Shaped(d) && i < |d.inodes| && s <= INDIRECT_SLOT
  {
    var b := BlockAt(d, i, s);
    if 0 <= b < |d.blocks| then d.blocks[b] else []
  }

  ghost function ByteAt(d: Disk, i: nat, p: nat): Byte
    requires Shaped(d) && i < |d.inodes| && p < CAPACITY
  {
    var data := DataAt(d, i, p / BLOCK_SIZE);
    if data == [] then 0 else data[p % BLOCK_SIZE]
  }

  /** The first `n` slots have blocks and no other slot has one. */
  ghost predicate PackedTo(d: Disk, i: nat, n: nat)
    requires Shaped(d) && i < |d.inodes|
  {
    n <= INDIRECT_SLOT && forall s: nat | s < INDIRECT_SLOT :: BlockAt(d, i, s) != UNASSIGNED <==> s < n
  }

  ghost predicate Packed(d: Disk, i: nat)
    requires Shaped(d) && i < |d.inodes|
  {
    exists n: nat :: PackedTo(d, i, n)
  }

  ghost function Blocks(d: Disk, i: nat): nat
    requires Shaped(d) && i < |d.inodes| && Packed(d, i)
  {
    var n: nat :| PackedTo(d, i, n);
    n
  }

  lemma PackedOnce(d: Disk, i: nat, n: nat)
    requires Shaped(d) && i < |d.inodes| && PackedTo(d, i, n)
    ensures Packed(d, i) && Blocks(d, i) == n
  {
    var m := Blocks(d, i);
    assert PackedTo(d, i, m);
    assert m < INDIRECT_SLOT ==> (BlockAt(d, i, m) != UNASSIGNED <==> m < n);
    assert n < INDIRECT_SLOT ==> (BlockAt(d, i, n) != UNASSIGNED <==> n < m);
  }

  /** The documented layout: the blocks of the file are contiguous and cover its size. */
  ghost predicate Covered(d: Disk, i: nat)
    requires Shaped(d) && i < |d.inodes|
  {
    Packed(d, i) && d.inodes[i].size <= Blocks(d, i) * BLOCK_SIZE
  }

  /** The bytes of the file from `a` to `b`. */
  ghost function Stored(d: Disk, i: nat, a: nat, b: nat): (c: seq<Byte>)
    requires Shaped(d) && i < |d.inodes| && a <= b <= CAPACITY
    ensures |c| == b - a && forall p | 0 <= p < b - a :: c[p] == ByteAt(d, i, a + p)
  {
    seq(b - a, p requires 0 <= p < b - a => ByteAt(d, i, a + p))
  }

  ghost function Content(d: Disk, i: nat): seq<Byte>
    requires Shaped(d) && i < |d.inodes| && Covered(d, i)
  {
    Stored(d, i, 0, d.inodes[i].size)
  }

  /** The file begins with `data`, all of it in blocks that the file has. After a write that filled the disk
      the size may promise more. */
  ghost predicate Knows(d: Disk, i: nat, data: seq<Byte>)
    requires Shaped(d) && i < |d.inodes|
  {
    && Packed(d, i) && |data| <= d.inodes[i].size && |data| <= Blocks(d, i) * BLOCK_SIZE
    && forall p: nat | p < |data| :: ByteAt(d, i, p) == data[p]
  }

  lemma CoveredKnows(d: Disk, i: nat, data: seq<Byte>)
    requires Shaped(d) && i < |d.inodes|
    ensures Knows(d, i, data) && |data| == d.inodes[i].size <==> Covered(d, i) && Content(d, i) == data
  {
    if Covered(d, i) && Content(d, i) == data {
      forall p: nat | p < |data| ensures ByteAt(d, i, p) == data[p] {
        assert ByteAt(d, i, 0 + p) == Stored(d, i, 0, d.inodes[i].size)[p];
      }
    }
  }

  /** A plain byte sequence after `buf` was written at `off`. */
  function Overwrite(before: seq<Byte>, off: nat, buf: seq<Byte>): (r: seq<Byte>)
    requires off <= |before|
    ensures |r| == if off + |buf| < |before| then |before| else off + |buf|
    ensures forall p | 0 <= p < |r| :: r[p] == if off <= p < off + |buf| then buf[p - off] else before[p]
  {
    before[..off] + buf + if off + |buf| < |before| then before[off + |buf|..] else []
  }

  // ---- Frames ----

  ghost predicate KeepsSlot(d: Disk, d': Disk, i: nat, s: nat)
    requires Shaped(d) && Shaped(d') && i < |d.inodes| == |d'.inodes| && s <= INDIRECT_SLOT
  {
    BlockAt(d', i, s) == BlockAt(d, i, s) && (s < INDIRECT_SLOT ==> DataAt(d', i, s) == DataAt(d, i, s))
  }

  /** No live file but `i` changed in any way. */
  ghost predicate OthersUntouched(d: Disk, d': Disk, i: nat) {
    && Shaped(d) && Shaped(d') && |d.inodes| == |d'.inodes|
    && (forall j: nat | j < |d.inodes| && j != i :: d'.inodes[j] == d.inodes[j])
    && (forall j: nat, s: nat | j < |d.inodes| && j != i && s <= INDIRECT_SLOT && Live(d, j) :: KeepsSlot(d, d', j, s))
  }

  lemma UntouchedContent(d: Disk, d': Disk, i: nat, j: nat)
    requires OthersUntouched(d, d', i) && j < |d.inodes| && j != i && Live(d, j) && Packed(d, j)
    ensures d'.inodes[j] == d.inodes[j] && Packed(d', j) && Blocks(d', j) == Blocks(d, j)
    ensures forall data :: Knows(d, j, data) ==> Knows(d', j, data)
  {
    var n := Blocks(d, j);
    assert PackedTo(d, j, n);
    forall s: nat | s < INDIRECT_SLOT ensures BlockAt(d', j, s) == BlockAt(d, j, s) {
      assert KeepsSlot(d, d', j, s);
    }
    PackedOnce(d', j, n);
    forall p: nat | p < CAPACITY ensures ByteAt(d', j, p) == ByteAt(d, j, p) {
      assert KeepsSlot(d, d', j, p / BLOCK_SIZE);
    }
  }

  lemma UntouchedThen(d: Disk, d1: Disk, d2: Disk, i: nat)
    requires OthersUntouched(d, d1, i) && OthersUntouched(d1, d2, i)
    ensures OthersUntouched(d, d2, i)
  {
    forall j: nat, s: nat | j < |d.inodes| && j != i && s <= INDIRECT_SLOT && Live(d, j)
      ensures KeepsSlot(d, d2, j, s)
    {
      assert KeepsSlot(d, d1, j, s) && KeepsSlot(d1, d2, j, s);
    }
  }

  /** File `i` may have got blocks, but no block that it had changed. */
  ghost predicate Extended(d: Disk, d': Disk, i: nat) {
    && OthersUntouched(d, d', i) && i < |d.inodes| && d'.inodes[i].size == d.inodes[i].size
    && (Live(d, i) <==> Live(d', i))
    && forall s: nat | s <= INDIRECT_SLOT && BlockAt(d, i, s) != UNASSIGNED :: KeepsSlot(d, d', i, s)
  }

  lemma ExtendedThen(d: Disk, d1: Disk, d2: Disk, i: nat)
    requires Extended(d, d1, i) && Extended(d1, d2, i)
    ensures Extended(d, d2, i)
  {
    UntouchedThen(d, d1, d2, i);
    forall s: nat | s <= INDIRECT_SLOT && BlockAt(d, i, s) != UNASSIGNED ensures KeepsSlot(d, d2, i, s) {
      assert KeepsSlot(d, d1, i, s) && KeepsSlot(d1, d2, i, s);
    }
  }

  lemma AssignedExtends(d: Disk, d': Disk, o: seq<Owner>, i: nat, s: nat, b: nat)
    requires Owned(d, o) && Assigned(d, d', o, i, s, b) && !d.used[b] && Live(d, i)
    requires BlockAt(d, i, s) == UNASSIGNED
    ensures Extended(d, d', i)
  {
    forall j: nat, t: nat | j < |d.inodes| && t <= INDIRECT_SLOT && Live(d, j)
      && (j != i || BlockAt(d, j, t) != UNASSIGNED)
      ensures KeepsSlot(d, d', j, t)
    {
      var c := BlockAt(d, j, t);
      if c != UNASSIGNED { assert o[c] == Own(j, t); }
    }
  }

  // ---- Counting free blocks ----

  ghost function FreeSet(used: seq<bool>): set<int> { set b | 0 <= b < |used| && !used[b] }

  ghost function Free(d: Disk): nat { |FreeSet(d.used)| }

  lemma OccupyTakesOne(used: seq<bool>, b: nat)
    requires b < |used| && !used[b]
    ensures |FreeSet(used[b := true])| == |FreeSet(used)| - 1
  {
    assert FreeSet(used[b := true]) == FreeSet(used) - {b};
  }

  lemma NoneFree(used: seq<bool>)
    ensures |FreeSet(used)| == 0 <==> forall b | 0 <= b < |used| :: used[b]
  {
    if FreeSet(used) == {} {
      forall b | 0 <= b < |used| ensures used[b] {
        assert b !in FreeSet(used);
      }
    } else {
      var b :| b in FreeSet(used);
    }
  }

  /** How many blocks a file of `end` bytes occupies. */
  function BlocksFor(end: nat): nat { (end + BLOCK_SIZE - 1) / BLOCK_SIZE }

  function Max(a: nat, b: nat): nat { if a < b then b else a }

  function Min(a: nat, b: nat): nat { if a < b then a else b }

  /** How many more blocks a file with `n` blocks needs before it can hold `end` bytes. */
  function MoreFor(n: nat, indirect: bool, end: nat): nat {
    (if BlocksFor(end) > n then BlocksFor(end) - n else 0) + if BlocksFor(end) > NUM_DIRECT && !indirect then 1 else 0
  }

  /** How many blocks a file gets to when it takes all of `free`: one goes to the indirect block. */
  function Reach(n: nat, indirect: bool, free: nat): int {
    if indirect || n + free <= NUM_DIRECT then n + free else n + free - 1
  }

  ghost predicate HasIndirect(d: Disk, i: nat)
    requires i < |d.inodes|
  {
    d.inodes[i].indirect != UNASSIGNED
  }

  /** How many blocks file `i` holds. */
  ghost function Held(d: Disk, i: nat): nat
    requires Shaped(d) && i < |d.inodes| && Packed(d, i)
  {
    Blocks(d, i) + if HasIndirect(d, i) then 1 else 0
  }

  /** How many blocks must be allocated before file `i` can hold `end` bytes. */
  ghost function Needed(d: Disk, i: nat, end: nat): nat
    requires Shaped(d) && i < |d.inodes| && Packed(d, i)
  {
    MoreFor(Blocks(d, i), HasIndirect(d, i), end)
  }

  /** Only an indirect block lists blocks beyond the direct ones. */
  lemma ListedByIndirect(d: Disk, i: nat)
    requires Shaped(d) && i < |d.inodes| && Packed(d, i)
    ensures Blocks(d, i) > NUM_DIRECT ==> HasIndirect(d, i)
  {
    assert PackedTo(d, i, Blocks(d, i));
    assert !HasIndirect(d, i) ==> BlockAt(d, i, NUM_DIRECT) == UNASSIGNED;
  }

  /** A new block in the next slot: one more is held, one less is free. */
  lemma NextBlock(d: Disk, d': Disk, o: seq<Owner>, i: nat, s: nat, b: nat)
    requires Owned(d, o) && Assigned(d, d', o, i, s, b) && !d.used[b] && Live(d, i) && Packed(d, i)
    requires s == Blocks(d, i) < INDIRECT_SLOT
    ensures Packed(d', i) && Blocks(d', i) == Blocks(d, i) + 1 && (HasIndirect(d', i) <==> HasIndirect(d, i))
    ensures Free(d') == Free(d) - 1
  {
    var n := Blocks(d, i);
    assert PackedTo(d, i, n);
    PackedOnce(d', i, n + 1);
    OccupyTakesOne(d.used, b);
    assert BlockAt(d', i, INDIRECT_SLOT) == BlockAt(d, i, INDIRECT_SLOT);
  }

  /** The same for a new indirect block. */
  lemma FirstIndirect(d: Disk, d': Disk, o: seq<Owner>, i: nat, b: nat)
    requires Owned(d, o) && Assigned(d, d', o, i, INDIRECT_SLOT, b) && !d.used[b] && Live(d, i) && Packed(d, i)
    requires BlockAt(d, i, INDIRECT_SLOT) == UNASSIGNED
    ensures Packed(d', i) && Blocks(d', i) == Blocks(d, i) && HasIndirect(d', i) && !HasIndirect(d, i)
    ensures Free(d') == Free(d) - 1
  {
    var n := Blocks(d, i);
    assert PackedTo(d, i, n);
    PackedOnce(d', i, n);
    OccupyTakesOne(d.used, b);
    assert BlockAt(d', i, INDIRECT_SLOT) == b;
  }

  // ---- Counting blocks in use ----

  lemma {:induction false} AllFree(used: seq<bool>)
    requires forall b | 0 <= b < |used| :: !used[b]
    ensures |FreeSet(used)| == |used|
  {
    if used != [] {
      var init := used[..|used| - 1];
      AllFree(init);
      assert FreeSet(used) == FreeSet(init) + {|used| - 1};
    }
  }

  /** The blocks listed in the first `n` slots, the indirect block being in the last one. */
  ghost function Listed(d: Disk, i: nat, n: nat): set<int>
    requires Shaped(d) && i < |d.inodes| && n <= INDIRECT_SLOT + 1
  {
    set s: nat | s < n && BlockAt(d, i, s) != UNASSIGNED :: BlockAt(d, i, s)
  }

  lemma ListedNext(d: Disk, i: nat, n: nat)
    requires Shaped(d) && i < |d.inodes| && 0 < n <= INDIRECT_SLOT
    ensures var b := BlockAt(d, i, n - 1);
            Listed(d, i, n) == Listed(d, i, n - 1) + if b == UNASSIGNED then {} else {b}
  {}

  lemma {:induction false} CountListed(d: Disk, o: seq<Owner>, i: nat, n: nat)
    requires Owned(d, o) && i < |d.inodes| && Live(d, i) && Packed(d, i) && n <= INDIRECT_SLOT
    ensures |Listed(d, i, n)| == if n < Blocks(d, i) then n else Blocks(d, i)
  {
    assert PackedTo(d, i, Blocks(d, i));
    if n > 0 {
      CountListed(d, o, i, n - 1);
      ListedNext(d, i, n);
      var b := BlockAt(d, i, n - 1);
      assert b != UNASSIGNED ==> o[b] == Own(i, n - 1) && b !in Listed(d, i, n - 1);
    }
  }

  ghost function OwnedBy(o: seq<Owner>, i: nat): set<int> { set b | 0 <= b < |o| && o[b].Own? && o[b].inode == i }

  /** A live file owns exactly the blocks that it holds. */
  lemma CountHeld(d: Disk, o: seq<Owner>, i: nat)
    requires Owned(d, o) && i < |d.inodes| && Live(d, i) && Packed(d, i)
    ensures |OwnedBy(o, i)| == Held(d, i)
  {
    var b := BlockAt(d, i, INDIRECT_SLOT);
    CountListed(d, o, i, INDIRECT_SLOT);
    assert OwnedBy(o, i) == Listed(d, i, INDIRECT_SLOT) + if b == UNASSIGNED then {} else {b};
    assert b != UNASSIGNED ==> o[b] == Own(i, INDIRECT_SLOT);
  }

  ghost predicate AllPacked(d: Disk)
    requires Shaped(d)
  {
    forall i: nat | i < |d.inodes| && Live(d, i) :: Packed(d, i)
  }

  /** The blocks held by the live files below number `n`. */
  ghost function HeldBelow(d: Disk, n: nat): nat
    requires Shaped(d) && AllPacked(d) && n <= |d.inodes|
  {
    if n == 0 then 0 else HeldBelow(d, n - 1) + if Live(d, n - 1) then Held(d, n - 1) else 0
  }

  ghost function OwnedBelow(o: seq<Owner>, n: nat): set<int> { set b | 0 <= b < |o| && o[b].Own? && o[b].inode < n }

  lemma {:induction false} CountOwned(d: Disk, o: seq<Owner>, n: nat)
    requires Owned(d, o) && AllPacked(d) && n <= |d.inodes|
    ensures |OwnedBelow(o, n)| == HeldBelow(d, n)
  {
    if n > 0 {
      CountOwned(d, o, n - 1);
      assert OwnedBelow(o, n) == OwnedBelow(o, n - 1) + OwnedBy(o, n - 1);
      if Live(d, n - 1) {
        CountHeld(d, o, n - 1);
      } else {
        assert OwnedBy(o, n - 1) == {};
      }
    }
  }

  /** Every block is free or held by one live file. */
  lemma FreeAndHeld(d: Disk, o: seq<Owner>)
    requires Owned(d, o) && AllPacked(d)
    ensures Free(d) + HeldBelow(d, |d.inodes|) == |d.used|
  {
    var all := seq(|d.used|, _ => false);
    AllFree(all);
    CountOwned(d, o, |d.inodes|);
    assert FreeSet(all) == FreeSet(d.used) + OwnedBelow(o, |d.inodes|);
  }

  // ---- Writing into a block ----

  /** Bytes go into slot `s` of file `i`; nothing else changes. */
  lemma PutContent(d: Disk, o: seq<Owner>, i: nat, s: nat, b: nat, at: nat, bytes: seq<Byte>)
    requires Owned(d, o) && b < |d.blocks| && o[b] == Own(i, s) && s < INDIRECT_SLOT
    requires at + |bytes| <= BLOCK_SIZE
    ensures var d' := WithBlock(d, b, Splice(d.blocks[b], at, bytes));
            && Owned(d', o) && OthersUntouched(d, d', i) && d'.inodes == d.inodes && d'.used == d.used
            && (forall t: nat | t <= INDIRECT_SLOT :: BlockAt(d', i, t) == BlockAt(d, i, t))
            && (forall p: nat | p < CAPACITY ::
                  ByteAt(d', i, p) == if p / BLOCK_SIZE == s && at <= p % BLOCK_SIZE < at + |bytes|
                    then bytes[p % BLOCK_SIZE - at] else ByteAt(d, i, p))
  {
    var d' := WithBlock(d, b, Splice(d.blocks[b], at, bytes));
    PutKeeps(d, o, b, Splice(d.blocks[b], at, bytes));
    assert Live(d, i) && BlockAt(d, i, s) == b;
    forall j: nat, t: nat | j < |d.inodes| && t < INDIRECT_SLOT && Live(d, j) && !(j == i && t == s)
      ensures DataAt(d', j, t) == DataAt(d, j, t)
    {
      var c := BlockAt(d, j, t);
      if c != UNASSIGNED { assert o[c] == Own(j, t); }
    }
  }
}
