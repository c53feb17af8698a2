/** The file system as its functions change it in place. */
module MinixFs {
  import opened Bytes
  import opened MinixBlocks
  import opened MinixDisk
  import opened MinixContent

  /** The first unassigned position, or the length. */
  function FirstUnassigned(s: seq<int>): (k: nat)
    ensures k <= |s| && (k < |s| ==> s[k] == UNASSIGNED) && forall n | 0 <= n < k :: s[n] != UNASSIGNED
  {
    if s == [] || s[0] == UNASSIGNED then 0 else 1 + FirstUnassigned(s[1..])
  }

  /** What looking for (or allocating) a block for slot `k` does, `b` being the block or -1. If the file is
      packed up to the slot, the block is the one in that slot, the file stays packed, and what it gains is
      what the disk loses. */
  ghost predicate Fetched(d: Disk, d': Disk, o': seq<Owner>, i: nat, k: nat, b: int) {
    && Owned(d', o') && Extended(d, d', i) && (AllTidy(d) ==> AllTidy(d'))
    && (b == -1 ==> Free(d') == 0)
    && (b != -1 ==> 0 <= b < |o'| && o'[b].Own? && o'[b].inode == i && o'[b].slot < DATA_SLOTS)
    && (Packed(d, i) && k <= Blocks(d, i) ==>
          && Packed(d', i) && Free(d') + Held(d', i) == Free(d) + Held(d, i)
          && (HasIndirect(d, i) ==> HasIndirect(d', i))
          && (HasIndirect(d', i) ==> HasIndirect(d, i) || k >= NUM_DIRECT)
          && if b == -1 then Blocks(d', i) == Blocks(d, i) == k
             else o'[b] == Own(i, k) && Blocks(d', i) == if k == Blocks(d, i) then k + 1 else Blocks(d, i))
  }

  lemma FoundFetches(d: Disk, o: seq<Owner>, i: nat, k: nat, b: nat)
    requires Owned(d, o) && i < |d.inodes| && Live(d, i) && k < DATA_SLOTS && BlockAt(d, i, k) == b
    ensures Fetched(d, d, o, i, k, b)
  {
    if Packed(d, i) { assert PackedTo(d, i, Blocks(d, i)); }
  }

  lemma FullFetches(d: Disk, o: seq<Owner>, i: nat, k: nat)
    requires Owned(d, o) && i < |d.inodes| && Live(d, i) && k < DATA_SLOTS && BlockAt(d, i, k) == UNASSIGNED
    requires Free(d) == 0
    ensures Fetched(d, d, o, i, k, -1)
  {
    if Packed(d, i) { assert PackedTo(d, i, Blocks(d, i)); }
  }

  /** The first empty slot `s` of the right kind got a block. */
  lemma NewFetches(d: Disk, d': Disk, o: seq<Owner>, o': seq<Owner>, i: nat, s: nat, b: nat, k: nat)
    requires Owned(d, o) && Assigned(d, d', o, i, s, b) && !d.used[b] && Live(d, i) && s <= k < DATA_SLOTS
    requires BlockAt(d, i, s) == UNASSIGNED && BlockAt(d, i, k) == UNASSIGNED
    requires Owned(d', o') && o'[b] == Own(i, s)
    ensures Fetched(d, d', o', i, k, b)
  {
    AssignedExtends(d, d', o, i, s, b);
    if AllTidy(d) { AssignedTidy(d, d', o, i, s, b); }
    if Packed(d, i) && k <= Blocks(d, i) {
      assert PackedTo(d, i, Blocks(d, i));
      NextBlock(d, d', o, i, k, b);
    }
  }

  // ---- The loop of a write ----

  /** The disk in the middle of a write to a file that began with `data`: the bytes before `o` are written. */
  ghost predicate Writing(d0: Disk, d: Disk, i: nat, data: seq<Byte>, off: nat, buf: seq<Byte>, o: nat) {
    && Shaped(d0) && Shaped(d) && i < |d0.inodes| == |d.inodes| && Packed(d0, i) && Packed(d, i)
    && off <= |data| <= Blocks(d0, i) * BLOCK_SIZE && off <= o <= off + |buf| <= MAX_FILE_SIZE
    && Blocks(d0, i) <= Blocks(d, i) <= Max(Blocks(d0, i), BlocksFor(off + |buf|)) && o <= Blocks(d, i) * BLOCK_SIZE
    && Free(d) + Held(d, i) == Free(d0) + Held(d0, i)
    && (HasIndirect(d0, i) ==> HasIndirect(d, i))
    && (HasIndirect(d, i) ==>
          HasIndirect(d0, i) || (NUM_DIRECT * BLOCK_SIZE <= o && NUM_DIRECT * BLOCK_SIZE < off + |buf|))
    && forall p: nat | p < Max(|data|, o) :: ByteAt(d, i, p) == if off <= p < o then buf[p - off] else data[p]
  }

  /** The size is set before anything is written. */
  function Resize(d: Disk, i: nat, size: nat): Disk
    requires i < |d.inodes|
  {
    WithInode(d, i, d.inodes[i].(size := size))
  }

  lemma ResizeKeeps(d: Disk, o: seq<Owner>, i: nat, size: nat)
    requires Owned(d, o) && i < |d.inodes|
    ensures Owned(Resize(d, i, size), o) && OthersUntouched(d, Resize(d, i, size), i)
    ensures AllTidy(d) ==> AllTidy(Resize(d, i, size))
    ensures forall s: nat | s <= INDIRECT_SLOT :: BlockAt(Resize(d, i, size), i, s) == BlockAt(d, i, s)
  {
    var d' := Resize(d, i, size);
    assert forall j: nat, s: nat | j < |d.inodes| && s <= INDIRECT_SLOT :: BlockAt(d', j, s) == BlockAt(d, j, s);
    if AllTidy(d) {
      forall j: nat | j < |d.inodes| && Live(d', j) ensures Tidy(d', j) {
        assert Tidy(d, j);
      }
    }
  }

  lemma SameSlots(d: Disk, d': Disk, i: nat)
    requires Shaped(d) && Shaped(d') && i < |d.inodes| == |d'.inodes| && Packed(d, i)
    requires forall s: nat | s <= INDIRECT_SLOT :: BlockAt(d', i, s) == BlockAt(d, i, s)
    ensures Packed(d', i) && Blocks(d', i) == Blocks(d, i) && (HasIndirect(d', i) <==> HasIndirect(d, i))
  {
    assert PackedTo(d, i, Blocks(d, i));
    PackedOnce(d', i, Blocks(d, i));
    assert BlockAt(d', i, INDIRECT_SLOT) == BlockAt(d, i, INDIRECT_SLOT);
  }

  lemma WritingStarts(d: Disk, o: seq<Owner>, i: nat, data: seq<Byte>, off: nat, buf: seq<Byte>, size: nat)
    requires Owned(d, o) && i < |d.inodes| && Knows(d, i, data) && off <= |data| && off + |buf| <= MAX_FILE_SIZE
    ensures Writing(d, Resize(d, i, size), i, data, off, buf, off)
  {
    ResizeKeeps(d, o, i, size);
    SameSlots(d, Resize(d, i, size), i);
  }

  lemma FetchKeepsWriting(d0: Disk, d: Disk, d': Disk, o': seq<Owner>, i: nat, data: seq<Byte>, off: nat,
                          buf: seq<Byte>, o: nat, b: int)
    requires Writing(d0, d, i, data, off, buf, o) && o < off + |buf| && Fetched(d, d', o', i, o / BLOCK_SIZE, b)
    ensures Writing(d0, d', i, data, off, buf, o)
    ensures if b == -1 then o / BLOCK_SIZE == Blocks(d', i)
            else o / BLOCK_SIZE < Blocks(d', i) && o'[b] == Own(i, o / BLOCK_SIZE)
  {
    var n := Blocks(d, i);
    assert PackedTo(d, i, n);
    forall p: nat | p < Max(|data|, o) ensures ByteAt(d', i, p) == ByteAt(d, i, p) {
      assert p / BLOCK_SIZE < n;
      assert KeepsSlot(d, d', i, p / BLOCK_SIZE);
    }
  }

  lemma FetchedInWriting(d0: Disk, d: Disk, d': Disk, o': seq<Owner>, i: nat, data: seq<Byte>, off: nat,
                         buf: seq<Byte>, o: nat, b: int)
    requires off <= o < off + |buf| && Fetched(d, d', o', i, o / BLOCK_SIZE, b)
    requires OthersUntouched(d0, d, i) && i < |d0.inodes| && Live(d, i)
    ensures OthersUntouched(d0, d', i) && Live(d', i) && d'.inodes[i].size == d.inodes[i].size
    ensures AllTidy(d) ==> AllTidy(d')
    ensures b == -1 ==> Free(d') == 0
    ensures b != -1 ==> 0 <= b < |o'| && o'[b].Own? && o'[b].inode == i && o'[b].slot < INDIRECT_SLOT
    ensures Writing(d0, d, i, data, off, buf, o) ==>
              && Writing(d0, d', i, data, off, buf, o)
              && if b == -1 then o / BLOCK_SIZE == Blocks(d', i)
                 else o / BLOCK_SIZE < Blocks(d', i) && o'[b] == Own(i, o / BLOCK_SIZE)
  {
    UntouchedThen(d0, d, d', i);
    if Writing(d0, d, i, data, off, buf, o) { FetchKeepsWriting(d0, d, d', o', i, data, off, buf, o, b); }
  }

  lemma PutTidy(d: Disk, d': Disk)
    requires Shaped(d) && Shaped(d') && d'.inodes == d.inodes
    requires forall j: nat, t: nat | j < |d.inodes| && t <= INDIRECT_SLOT && Live(d, j) ::
               BlockAt(d', j, t) == BlockAt(d, j, t)
    ensures AllTidy(d) ==> AllTidy(d')
  {
    if AllTidy(d) {
      forall j: nat | j < |d.inodes| && Live(d', j) ensures Tidy(d', j) {
        assert Tidy(d, j);
      }
    }
  }

  /** One block's share of the bytes. */
  lemma PutKeepsWriting(d0: Disk, d: Disk, o': seq<Owner>, i: nat, data: seq<Byte>, off: nat, buf: seq<Byte>,
                        o: nat, b: nat, len: nat)
    requires Owned(d, o') && Writing(d0, d, i, data, off, buf, o) && o / BLOCK_SIZE < Blocks(d, i)
    requires b < |o'| && o'[b] == Own(i, o / BLOCK_SIZE)
    requires o % BLOCK_SIZE + len <= BLOCK_SIZE && o + len <= off + |buf|
    ensures var d' := WithBlock(d, b, Splice(d.blocks[b], o % BLOCK_SIZE, buf[o - off..o - off + len]));
            Writing(d0, d', i, data, off, buf, o + len)
  {
    var bytes := buf[o - off..o - off + len];
    var d' := WithBlock(d, b, Splice(d.blocks[b], o % BLOCK_SIZE, bytes));
    PutContent(d, o', i, o / BLOCK_SIZE, b, o % BLOCK_SIZE, bytes);
    SameSlots(d, d', i);
    PutBytes(d0, d, d', i, data, off, buf, o, len);
  }

  lemma PutBytes(d0: Disk, d: Disk, d': Disk, i: nat, data: seq<Byte>, off: nat, buf: seq<Byte>, o: nat, len: nat)
    requires Writing(d0, d, i, data, off, buf, o) && o + len <= off + |buf| && o % BLOCK_SIZE + len <= BLOCK_SIZE
    requires Shaped(d') && |d'.inodes| == |d.inodes|
    requires forall p: nat | p < CAPACITY ::
               ByteAt(d', i, p) == if p / BLOCK_SIZE == o / BLOCK_SIZE
                                      && o % BLOCK_SIZE <= p % BLOCK_SIZE < o % BLOCK_SIZE + len
                 then buf[o - off..o - off + len][p % BLOCK_SIZE - o % BLOCK_SIZE] else ByteAt(d, i, p)
    ensures forall p: nat | p < Max(|data|, o + len) ::
              ByteAt(d', i, p) == if off <= p < o + len then buf[p - off] else data[p]
  {
    forall p: nat | p < Max(|data|, o + len)
      ensures ByteAt(d', i, p) == if off <= p < o + len then buf[p - off] else data[p]
    {
      InChunk(o, len, p);
    }
  }

  lemma InChunk(o: nat, len: nat, p: nat)
    requires o % BLOCK_SIZE + len <= BLOCK_SIZE
    ensures p / BLOCK_SIZE == o / BLOCK_SIZE && o % BLOCK_SIZE <= p % BLOCK_SIZE < o % BLOCK_SIZE + len
            <==> o <= p < o + len
    ensures o <= p < o + len ==> p % BLOCK_SIZE - o % BLOCK_SIZE == p - o
  {}

  /** A write to a file that began with `data` succeeds exactly when enough blocks are free; otherwise it takes
      them all and fills them. */
  ghost predicate Wrote(d0: Disk, d: Disk, i: nat, data: seq<Byte>, off: nat, buf: seq<Byte>, written: int, off': nat)
    requires Shaped(d0) && Shaped(d) && i < |d0.inodes| == |d.inodes| && Packed(d0, i)
  {
    && Packed(d, i) && off <= |data| && off <= off' <= off + |buf|
    && d.inodes[i].size == Max(d0.inodes[i].size, off + |buf|)
    && Free(d) + Held(d, i) == Free(d0) + Held(d0, i)
    && if Needed(d0, i, off + |buf|) <= Free(d0) then
         && written == |buf| && off' == off + |buf| && Knows(d, i, Overwrite(data, off, buf))
         && Blocks(d, i) == Max(Blocks(d0, i), BlocksFor(off + |buf|))
         && (HasIndirect(d, i) <==> HasIndirect(d0, i) || BlocksFor(off + |buf|) > NUM_DIRECT)
       else
         && written == -1 && off' == Blocks(d, i) * BLOCK_SIZE < off + |buf|
         && Knows(d, i, data[..off] + buf[..off' - off])
         && Blocks(d, i) == Reach(Blocks(d0, i), HasIndirect(d0, i), Free(d0))
         && (HasIndirect(d, i) <==> HasIndirect(d0, i) || Blocks(d0, i) + Free(d0) > NUM_DIRECT)
  }

  lemma WritingEnds(d0: Disk, d: Disk, i: nat, data: seq<Byte>, off: nat, buf: seq<Byte>)
    requires Writing(d0, d, i, data, off, buf, off + |buf|) && |data| <= d0.inodes[i].size
    requires d.inodes[i].size == Max(d0.inodes[i].size, off + |buf|)
    ensures Wrote(d0, d, i, data, off, buf, |buf|, off + |buf|)
  {
    ListedByIndirect(d, i);
    ListedByIndirect(d0, i);
    var c := Overwrite(data, off, buf);
    forall p: nat | p < |c| ensures ByteAt(d, i, p) == c[p] {}
  }

  /** The disk is full: the size claims more than the blocks can hold. */
  lemma WritingFails(d0: Disk, d: Disk, i: nat, data: seq<Byte>, off: nat, buf: seq<Byte>, o: nat)
    requires Writing(d0, d, i, data, off, buf, o) && o < off + |buf| && o / BLOCK_SIZE == Blocks(d, i) && Free(d) == 0
    requires |data| <= d0.inodes[i].size && d.inodes[i].size == Max(d0.inodes[i].size, off + |buf|)
    ensures Wrote(d0, d, i, data, off, buf, -1, o)
  {
    ListedByIndirect(d, i);
    ListedByIndirect(d0, i);
    assert o == Blocks(d, i) * BLOCK_SIZE;
    var c := data[..off] + buf[..o - off];
    forall p: nat | p < |c| ensures ByteAt(d, i, p) == c[p] {}
  }

  /** The loop stops at the end, or because no block is free. */
  lemma WritingStops(d0: Disk, d: Disk, i: nat, data: seq<Byte>, off: nat, buf: seq<Byte>, o: nat)
    requires Writing(d0, d, i, data, off, buf, o) && |data| <= d0.inodes[i].size
    requires d.inodes[i].size == Max(d0.inodes[i].size, off + |buf|)
    requires o < off + |buf| ==> Free(d) == 0 && o / BLOCK_SIZE == Blocks(d, i)
    ensures Wrote(d0, d, i, data, off, buf, if o < off + |buf| then -1 else |buf|, o)
  {
    if o < off + |buf| {
      WritingFails(d0, d, i, data, off, buf, o);
    } else {
      WritingEnds(d0, d, i, data, off, buf);
    }
  }

  /** For a file whose blocks cover its size: they still do exactly when the write succeeded. */
  lemma CoveredWrote(d0: Disk, d: Disk, i: nat, off: nat, buf: seq<Byte>, written: int, off': nat)
    requires Shaped(d0) && Shaped(d) && i < |d0.inodes| == |d.inodes| && Covered(d0, i)
    requires Wrote(d0, d, i, Content(d0, i), off, buf, written, off')
    ensures Covered(d, i) <==> written == |buf|
    ensures Covered(d, i) ==> Content(d, i) == Overwrite(Content(d0, i), off, buf)
  {
    CoveredKnows(d, i, Overwrite(Content(d0, i), off, buf));
  }

  // ---- Reading, initialising and freeing ----

  lemma BytesInBlock(d: Disk, i: nat, p: nat, len: nat, b: int)
    requires Shaped(d) && i < |d.inodes| && p + len <= CAPACITY && p % BLOCK_SIZE + len <= BLOCK_SIZE && 0 < len
    requires b == BlockAt(d, i, p / BLOCK_SIZE) && 0 <= b < |d.blocks|
    ensures d.blocks[b][p % BLOCK_SIZE..p % BLOCK_SIZE + len] == Stored(d, i, p, p + len)
  {
    var c := Stored(d, i, p, p + len);
    forall q | 0 <= q < len ensures c[q] == d.blocks[b][p % BLOCK_SIZE + q] {
      InChunk(p, len, p + q);
    }
  }

  lemma KnownStored(d: Disk, i: nat, data: seq<Byte>, a: nat, b: nat)
    requires Shaped(d) && i < |d.inodes| && Knows(d, i, data) && a <= b <= |data| && |data| <= CAPACITY
    ensures Stored(d, i, a, b) == data[a..b]
  {}

  lemma InitKeeps(d: Disk, d': Disk, o: seq<Owner>, i: nat)
    requires Owned(d, o) && i < |d.inodes| && !Live(d, i)
    requires d' == WithInode(d, i, EmptyInode(1))
    ensures Owned(d', o) && OthersUntouched(d, d', i) && (AllTidy(d) ==> AllTidy(d'))
    ensures Knows(d', i, []) && Covered(d', i) && Blocks(d', i) == 0
  {
    assert forall s: nat | s <= INDIRECT_SLOT :: BlockAt(d', i, s) == UNASSIGNED;
    PackedOnce(d', i, 0);
    assert forall j: nat, s: nat | j < |d.inodes| && j != i && s <= INDIRECT_SLOT ::
        BlockAt(d', j, s) == BlockAt(d, j, s);
    if AllTidy(d) {
      forall j: nat | j < |d.inodes| && Live(d', j) ensures Tidy(d', j) {
        if j != i { assert Tidy(d, j); }
      }
    }
  }

  /** The used-map after the blocks in the first `k` slots, and perhaps the indirect block, are given back. */
  ghost function GivenBack(d: Disk, i: nat, k: nat, indirect: bool): seq<bool>
    requires Shaped(d) && i < |d.inodes| && k <= INDIRECT_SLOT
  {
    seq(|d.used|, b requires 0 <= b < |d.used| =>
      d.used[b] && !exists s: nat :: (s < k || (indirect && s == INDIRECT_SLOT)) && BlockAt(d, i, s) == b)
  }

  /** What `set_data_used` makes of a map when it is told that block `b` is free. */
  function Clear(used: seq<bool>, b: int): seq<bool> { if 0 <= b < |used| then used[b := false] else used }

  lemma GiveBackNext(d: Disk, i: nat, k: nat)
    requires Shaped(d) && i < |d.inodes| && k < INDIRECT_SLOT
    ensures GivenBack(d, i, k + 1, false) == Clear(GivenBack(d, i, k, false), BlockAt(d, i, k))
  {}

  lemma AllGivenBack(d: Disk, i: nat)
    requires Shaped(d) && i < |d.inodes|
    ensures Released(d, i) == Clear(GivenBack(d, i, DATA_SLOTS, false), BlockAt(d, i, INDIRECT_SLOT))
  {}

  function ZeroBlock(): (block: Block)
    ensures |block| == 16384 && forall k | 0 <= k < 16384 :: block[k] == 0
  {
    seq(BLOCK_SIZE, _ => 0)
  }

  function EmptyInode(nlink: nat): Inode { Inode(nlink, 0, seq(NUM_DIRECT, _ => UNASSIGNED), UNASSIGNED) }

  lemma NewBlock(d: Disk, d': Disk, o: seq<Owner>, i: nat, s: nat, b: nat)
    requires Owned(d, o) && Assigned(d, d', o, i, s, b) && !d.used[b] && Live(d, i)
    requires PackedTo(d, i, s) && s < INDIRECT_SLOT
    ensures Extended(d, d', i) && PackedTo(d', i, s + 1) && BlockAt(d', i, s) == b
    ensures AllTidy(d) && s < DATA_SLOTS ==> AllTidy(d')
  {
    assert BlockAt(d, i, s) == UNASSIGNED;
    AssignedExtends(d, d', o, i, s, b);
    if AllTidy(d) && s < DATA_SLOTS { AssignedTidy(d, d', o, i, s, b); }
  }

  /** The new block is cleared. */
  lemma ZeroedNew(d: Disk, d1: Disk, d2: Disk, o: seq<Owner>, i: nat, s: nat, b: nat)
    requires Extended(d, d1, i) && Owned(d1, o) && b < |o| && o[b] == Own(i, s) && s < INDIRECT_SLOT
    requires BlockAt(d, i, s) == UNASSIGNED && PackedTo(d1, i, s + 1)
    requires d2 == WithBlock(d1, b, Splice(d1.blocks[b], 0, ZeroBlock()))
    ensures Extended(d, d2, i) && PackedTo(d2, i, s + 1) && DataAt(d2, i, s) == ZeroBlock()
  {
    assert Live(d1, i) && BlockAt(d1, i, s) == b;
    PutContent(d1, o, i, s, b, 0, ZeroBlock());
    UntouchedThen(d, d1, d2, i);
    forall t: nat | t <= INDIRECT_SLOT && BlockAt(d, i, t) != UNASSIGNED ensures KeepsSlot(d, d2, i, t) {
      assert KeepsSlot(d, d1, i, t);
      if t < INDIRECT_SLOT { assert o[BlockAt(d1, i, t)] == Own(i, t); }
    }
    assert Splice(d1.blocks[b], 0, ZeroBlock()) == ZeroBlock();
  }

  /** File `i`, which had `n0` blocks, has at least `k` now; the new ones are cleared. */
  ghost predicate Grown(d0: Disk, d: Disk, i: nat, n0: nat, k: nat) {
    && Extended(d0, d, i) && PackedTo(d0, i, n0) && k <= INDIRECT_SLOT && PackedTo(d, i, Max(n0, k))
    && forall s: nat | n0 <= s < k :: DataAt(d, i, s) == ZeroBlock()
  }

  lemma GrownNext(d0: Disk, d: Disk, d': Disk, i: nat, n0: nat, k: nat)
    requires Grown(d0, d, i, n0, k) && k < INDIRECT_SLOT && BlockAt(d, i, k) == UNASSIGNED
    requires Extended(d, d', i) && PackedTo(d', i, k + 1) && DataAt(d', i, k) == ZeroBlock()
    ensures Grown(d0, d', i, n0, k + 1)
  {
    ExtendedThen(d0, d, d', i);
    forall s: nat | n0 <= s < k ensures DataAt(d', i, s) == ZeroBlock() {
      assert KeepsSlot(d, d', i, s);
    }
  }

  lemma GrownSkip(d0: Disk, d: Disk, i: nat, n0: nat, k: nat)
    requires Grown(d0, d, i, n0, k) && k < INDIRECT_SLOT && BlockAt(d, i, k) != UNASSIGNED
    ensures Grown(d0, d, i, n0, k + 1)
  {
    assert k < Max(n0, k);
  }

  lemma GrownIndirect(d0: Disk, d: Disk, d': Disk, o: seq<Owner>, i: nat, n0: nat, k: nat, b: nat)
    requires Grown(d0, d, i, n0, k) && Extended(d, d', i) && Assigned(d, d', o, i, INDIRECT_SLOT, b) && Live(d, i)
    ensures Grown(d0, d', i, n0, k)
  {
    ExtendedThen(d0, d, d', i);
    forall s: nat | n0 <= s < k ensures DataAt(d', i, s) == ZeroBlock() {
      assert BlockAt(d, i, s) != UNASSIGNED && KeepsSlot(d, d', i, s);
    }
  }

  /** Allocating ahead changes no content. */
  lemma GrownContent(d0: Disk, d: Disk, i: nat, n0: nat, k: nat, data: seq<Byte>)
    requires Grown(d0, d, i, n0, k) && Knows(d0, i, data)
    ensures Knows(d, i, data) && Blocks(d, i) == Max(n0, k)
    ensures Covered(d0, i) ==> Covered(d, i)
  {
    PackedOnce(d0, i, n0);
    PackedOnce(d, i, Max(n0, k));
    forall p: nat | p < |data| ensures ByteAt(d, i, p) == ByteAt(d0, i, p) {
      assert KeepsSlot(d0, d, i, p / BLOCK_SIZE);
    }
  }

  class FileSystem {
    const used: array<bool>
    const inodes: array<Inode>
    const blocks: array<Block>
    ghost var owner: seq<Owner>

    ghost function State(): Disk
      reads this, used, inodes, blocks
    {
      Disk(used[..], inodes[..], blocks[..])
    }

    ghost predicate Valid()
      reads this, used, inodes, blocks
    {
      Owned(State(), owner)
    }

    /** A new disk: everything is free and cleared. */
    constructor (nodes: nat, size: nat)
      requires size <= 0x7FFF_FFFF
      ensures fresh(used) && fresh(inodes) && fresh(blocks)
      ensures inodes.Length == nodes && blocks.Length == size
      ensures Valid() && AllTidy(State()) && Free(State()) == size
      ensures forall i | 0 <= i < nodes :: inodes[i].nlink == 0
    {
      used := new bool[size](_ => false);
      inodes := new Inode[nodes](_ => EmptyInode(0));
      blocks := new Block[size](_ => ZeroBlock());
      owner := seq(size, _ => Nobody);
      new;
      AllFree(used[..]);
    }

    /** -1 exactly when every block is used, and any free block otherwise. */
    method FirstUnusedData() returns (b: int)
      requires Valid()
      ensures b == -1 <==> Free(State()) == 0
      ensures b != -1 ==> 0 <= b < blocks.Length && !State().used[b]
    {
      var filled := 0;
      for i := 0 to used.Length
        invariant 0 <= filled <= i
        invariant filled == i <==> forall c | 0 <= c < i :: used[c]
      {
        if used[i] { filled := filled + 1; }
      }
      NoneFree(used[..]);
      if filled < used.Length {
        b :| 0 <= b < used.Length && !used[b];
      } else {
        b := -1;
      }
    }

    method SetDataUsed(b: int, value: bool)
      modifies used
      ensures used[..] == if 0 <= b < used.Length then old(used[..])[b := value] else old(used[..])
    {
      if b < 0 || b >= used.Length {
        return;
      }
      used[b] := value;
    }

    /** Fills the first empty direct slot. Returns 0 when there is none, -1 when the disk is full. */
    method AddDataBlockToInode(i: nat) returns (b: int)
      requires Valid() && i < inodes.Length && Live(State(), i)
      modifies this, used, inodes
      ensures Valid()
      ensures var s := FirstUnassigned(old(inodes[i]).direct);
              if s == NUM_DIRECT then b == 0 && State() == old(State())
              else if b == -1 then Free(State()) == 0 && State() == old(State())
              else && 0 <= b < blocks.Length && !old(State()).used[b] && owner[b] == Own(i, s)
                   && Assigned(old(State()), State(), old(owner), i, s, b)
    {
      for k := 0 to NUM_DIRECT
        invariant State() == old(State()) && Valid()
        invariant forall n | 0 <= n < k :: inodes[i].direct[n] != UNASSIGNED
      {
        if inodes[i].direct[k] == UNASSIGNED {
          b := FirstUnusedData();
          if b == -1 {
            return;
          }
          ghost var d := State();
          inodes[i] := inodes[i].(direct := inodes[i].direct[k := b]);
          SetDataUsed(b, true);
          assert State() == AddDirect(d, i, k, b);
          AddDirectAssigns(d, owner, i, k, b);
          AssignedKeeps(d, State(), owner, i, k, b);
          owner := owner[b := Own(i, k)];
          return;
        }
      }
      b := 0;
    }

    /** Entry `n` of the block that starts an indirect list. */
    method LoadEntry(at: nat, n: nat) returns (v: int)
      requires Valid() && at < blocks.Length && n < NUM_ENTRIES
      ensures v == GetEntry(blocks[at], n)
    {
      var block := blocks[at];
      v := Decode(block[4 * n], block[4 * n + 1], block[4 * n + 2], block[4 * n + 3]);
    }

    ghost predicate FirstEmptyEntry(block: Block, n: nat) {
      && |block| == BLOCK_SIZE && n <= NUM_ENTRIES && (n < NUM_ENTRIES ==> GetEntry(block, n) == UNASSIGNED)
      && forall m: nat | m < n :: GetEntry(block, m) != UNASSIGNED
    }

    method FillEntry(i: nat, n: nat) returns (b: int)
      requires Valid() && i < inodes.Length && Live(State(), i) && inodes[i].indirect != UNASSIGNED
      requires n < NUM_ENTRIES && GetEntry(blocks[inodes[i].indirect], n) == UNASSIGNED
      modifies this, used, blocks
      ensures Valid() && inodes[..] == old(inodes[..])
      ensures if b == -1 then Free(State()) == 0 && State() == old(State())
              else && 0 <= b < blocks.Length && !old(State()).used[b] && owner[b] == Own(i, NUM_DIRECT + n)
                   && Assigned(old(State()), State(), old(owner), i, NUM_DIRECT + n, b)
    {
      b := FirstUnusedData();
      if b == -1 {
        return;
      }
      ghost var d, at := State(), inodes[i].indirect;
      blocks[inodes[i].indirect] := SetEntry(blocks[inodes[i].indirect], n, b);
      SetDataUsed(b, true);
      assert State() == AddEntry(d, i, n, b);
      AddEntryAssigns(d, owner, i, n, b);
      AssignedKeeps(d, State(), owner, i, NUM_DIRECT + n, b);
      owner := owner[b := Own(i, NUM_DIRECT + n)];
    }

    /** Fills the first empty entry of the indirect block. */
    method AddDataBlockToIndirectBlock(i: nat) returns (b: int, ghost n: nat)
      requires Valid() && i < inodes.Length && Live(State(), i) && inodes[i].indirect != UNASSIGNED
      modifies this, used, blocks
      ensures Valid() && inodes[..] == old(inodes[..])
      ensures FirstEmptyEntry(old(blocks[inodes[i].indirect]), n)
      ensures if n == NUM_ENTRIES then b == 0 && State() == old(State())
              else if b == -1 then Free(State()) == 0 && State() == old(State())
              else && 0 <= b < blocks.Length && !old(State()).used[b] && owner[b] == Own(i, NUM_DIRECT + n)
                   && Assigned(old(State()), State(), old(owner), i, NUM_DIRECT + n, b)
    {
      var at := inodes[i].indirect;
      for k := 0 to NUM_ENTRIES
        invariant State() == old(State()) && Valid()
        invariant forall m: nat | m < k :: GetEntry(blocks[at], m) != UNASSIGNED
      {
        var v := LoadEntry(at, k);
        if v == UNASSIGNED {
          n := k;
          b := FillEntry(i, k);
          return;
        }
      }
      n := NUM_ENTRIES;
      b := 0;
    }

    /** Gives the inode an indirect block without entries, unless it has one. */
    method AddSingleIndirectBlock(i: nat) returns (r: int)
      requires Valid() && i < inodes.Length && Live(State(), i)
      modifies this, used, inodes, blocks
      ensures Valid() && (r == 0 || r == -1)
      ensures old(inodes[i]).indirect != UNASSIGNED ==> r == 0 && State() == old(State())
      ensures r == -1 ==> Free(State()) == 0 && State() == old(State())
      ensures r == 0 && old(inodes[i]).indirect == UNASSIGNED ==>
                && inodes[i].nlink == 1 && inodes[i].indirect != UNASSIGNED && !old(State()).used[inodes[i].indirect]
                && Assigned(old(State()), State(), old(owner), i, INDIRECT_SLOT, inodes[i].indirect)
    {
      if inodes[i].indirect != UNASSIGNED {
        return 0;
      }
      var b := FirstUnusedData();
      if b == -1 {
        return -1;
      }
      ghost var d := State();
      inodes[i] := inodes[i].(indirect := b);
      SetDataUsed(b, true);
      inodes[i] := inodes[i].(nlink := 1);
      var block := blocks[b];
      for k := 0 to NUM_ENTRIES
        invariant |block| == BLOCK_SIZE
        invariant forall m: nat | m < k :: GetEntry(block, m) == UNASSIGNED
      {
        forall m: nat | m <= k ensures GetEntry(SetEntry(block, k, UNASSIGNED), m) == UNASSIGNED {
          EntryRoundTrip(block, k, UNASSIGNED, m);
        }
        block := SetEntry(block, k, UNASSIGNED);
      }
      blocks[b] := block;
      assert State() == AddIndirect(d, i, b, block);
      AddIndirectAssigns(d, owner, i, b, block);
      AssignedKeeps(d, State(), owner, i, INDIRECT_SLOT, b);
      owner := owner[b := Own(i, INDIRECT_SLOT)];
      r := 0;
    }

    method DirectBlock(i: nat, k: nat) returns (b: int)
      requires Valid() && i < inodes.Length && Live(State(), i) && k < NUM_DIRECT
      modifies this, used, inodes
      ensures Valid() && Fetched(old(State()), State(), owner, i, k, b)
    {
      ghost var d, o := State(), owner;
      assert BlockAt(d, i, k) == inodes[i].direct[k];
      if inodes[i].direct[k] == UNASSIGNED {
        ghost var s := FirstUnassigned(inodes[i].direct);
        assert BlockAt(d, i, s) == UNASSIGNED;
        b := AddDataBlockToInode(i);
        if b == -1 {
          FullFetches(d, o, i, k);
        } else {
          NewFetches(d, State(), o, owner, i, s, b, k);
        }
      } else {
        b := inodes[i].direct[k];
        FoundFetches(d, o, i, k, b);
      }
    }

    /** The `n`-th block that the indirect block lists, or -1. */
    method GetNthIndirectBlock(i: nat, n: nat) returns (b: int)
      requires Valid() && i < inodes.Length && inodes[i].indirect != UNASSIGNED && n < NUM_ENTRIES
      ensures b == BlockAt(State(), i, NUM_DIRECT + n)
    {
      b := LoadEntry(inodes[i].indirect, n);
    }

    /** As `DirectBlock`, once there is an indirect block. */
    method ListedBlock(i: nat, k: nat) returns (b: int)
      requires Valid() && i < inodes.Length && Live(State(), i) && NUM_DIRECT <= k < DATA_SLOTS
      requires inodes[i].indirect != UNASSIGNED
      modifies this, used, blocks
      ensures Valid() && Fetched(old(State()), State(), owner, i, k, b)
    {
      ghost var d, o := State(), owner;
      b := GetNthIndirectBlock(i, k - NUM_DIRECT);
      if b == UNASSIGNED {
        ghost var n;
        b, n := AddDataBlockToIndirectBlock(i);
        assert BlockAt(d, i, NUM_DIRECT + n) == UNASSIGNED;
        if b == -1 {
          FullFetches(d, o, i, k);
        } else {
          NewFetches(d, State(), o, owner, i, NUM_DIRECT + n, b, k);
        }
      } else {
        FoundFetches(d, o, i, k, b);
      }
    }

    method IndirectBlock(i: nat, k: nat) returns (b: int)
      requires Valid() && i < inodes.Length && Live(State(), i) && NUM_DIRECT <= k < DATA_SLOTS
      modifies this, used, inodes, blocks
      ensures Valid() && Fetched(old(State()), State(), owner, i, k, b)
    {
      ghost var d, o := State(), owner;
      if inodes[i].indirect == UNASSIGNED {
        var res := AddSingleIndirectBlock(i);
        if res == -1 {
          assert BlockAt(d, i, k) == UNASSIGNED;
          if Packed(d, i) { assert PackedTo(d, i, Blocks(d, i)); }
          return -1;
        }
        ghost var at := inodes[i].indirect;
        AssignedExtends(d, State(), o, i, INDIRECT_SLOT, at);
        if AllTidy(d) { AssignedTidy(d, State(), o, i, INDIRECT_SLOT, at); }
        if Packed(d, i) { FirstIndirect(d, State(), o, i, at); }
      }
      ghost var d1 := State();
      b := ListedBlock(i, k);
      ExtendedThen(d, d1, State(), i);
    }

    /** Writes `buf` at `off`; returns how much was written, or -1, and the new offset. For a file that begins
        with `data`, in which the write starts or at whose end, it succeeds exactly when its end is below the
        limit and enough blocks are free; when the disk becomes full on the way, the size stays raised and
        the blocks that were left are filled. In all cases every block keeps exactly one owner and no other
        file changes. */
    method Write(i: nat, buf: seq<Byte>, off: nat, ghost data: seq<Byte>) returns (written: int, off': nat)
      requires Valid() && i < inodes.Length && Live(State(), i)
      modifies this, used, inodes, blocks
      ensures Valid() && Live(State(), i) && OthersUntouched(old(State()), State(), i)
      ensures AllTidy(old(State())) ==> AllTidy(State())
      ensures (written == |buf| && off' == off + |buf|) || written == -1
      ensures off + |buf| > 360448 ==> written == -1 && off' == off && State() == old(State())
      ensures Knows(old(State()), i, data) && off <= |data| && off + |buf| <= 360448 ==>
                Wrote(old(State()), State(), i, data, off, buf, written, off')
    {
      ghost var d0, o0 := State(), owner;
      ghost var good := Knows(d0, i, data) && off <= |data|;
      if off + |buf| > MAX_FILE_SIZE {
        return -1, off;
      }
      RaiseSize(i, off + |buf|);
      if good { WritingStarts(d0, o0, i, data, off, buf, inodes[i].size); }
      off' := WriteLoop(i, buf, off, d0, data);
      written := if off' < off + |buf| then -1 else |buf|;
      if good { WritingStops(d0, State(), i, data, off, buf, off'); }
    }

    method RaiseSize(i: nat, end: nat)
      requires Valid() && i < inodes.Length && Live(State(), i)
      modifies inodes
      ensures State() == Resize(old(State()), i, Max(old(inodes[i]).size, end))
      ensures Valid() && Live(State(), i) && OthersUntouched(old(State()), State(), i)
      ensures AllTidy(old(State())) ==> AllTidy(State())
    {
      ghost var d := State();
      ghost var size := Max(inodes[i].size, end);
      if end > inodes[i].size {
        inodes[i] := inodes[i].(size := end);
      }
      assert State() == Resize(d, i, size);
      ResizeKeeps(d, owner, i, size);
    }

    /** The loop of a write. It stops before the end only when the disk is full. */
    method WriteLoop(i: nat, buf: seq<Byte>, off: nat, ghost d0: Disk, ghost data: seq<Byte>) returns (o: nat)
      requires Valid() && i < inodes.Length && Live(State(), i) && OthersUntouched(d0, State(), i)
      requires off + |buf| <= MAX_FILE_SIZE
      modifies this, used, inodes, blocks
      ensures Valid() && Live(State(), i) && OthersUntouched(d0, State(), i)
      ensures AllTidy(old(State())) ==> AllTidy(State())
      ensures inodes[i].size == old(inodes[i]).size
      ensures off <= o <= off + |buf| && (o < off + |buf| ==> Free(State()) == 0)
      ensures Writing(d0, old(State()), i, data, off, buf, off) ==>
                Writing(d0, State(), i, data, off, buf, o) && (o < off + |buf| ==> o / BLOCK_SIZE == Blocks(State(), i))
    {
      o := off;
      while o < off + |buf|
        invariant Valid() && Live(State(), i) && OthersUntouched(d0, State(), i)
        invariant AllTidy(old(State())) ==> AllTidy(State())
        invariant off <= o <= off + |buf| && inodes[i].size == old(inodes[i]).size
        invariant Writing(d0, old(State()), i, data, off, buf, off) ==> Writing(d0, State(), i, data, off, buf, o)
      {
        var b, len := WriteSome(i, buf, off, o, d0, data);
        if b == -1 {
          return;
        }
        o := o + len;
      }
    }

    /** What one round of the loop writes: at most the rest of one block. */
    method WriteSome(i: nat, buf: seq<Byte>, off: nat, o: nat, ghost d0: Disk, ghost data: seq<Byte>)
      returns (b: int, len: nat)
      requires Valid() && i < inodes.Length && Live(State(), i) && OthersUntouched(d0, State(), i)
      requires off <= o < off + |buf| <= MAX_FILE_SIZE
      modifies this, used, inodes, blocks
      ensures Valid() && Live(State(), i) && OthersUntouched(d0, State(), i)
      ensures AllTidy(old(State())) ==> AllTidy(State())
      ensures inodes[i].size == old(inodes[i]).size
      ensures b == -1 ==> Free(State()) == 0
      ensures b != -1 ==> 0 < len && o + len <= off + |buf|
      ensures Writing(d0, old(State()), i, data, off, buf, o) ==>
                if b == -1 then Writing(d0, State(), i, data, off, buf, o) && o / BLOCK_SIZE == Blocks(State(), i)
                else Writing(d0, State(), i, data, off, buf, o + len)
    {
      var left := off + |buf| - o;
      var at := o % BLOCK_SIZE;
      len := if at + left > BLOCK_SIZE then BLOCK_SIZE - at else left;
      b := FetchBlock(i, buf, off, o, d0, data);
      if b == -1 {
        return;
      }
      ghost var d := State();
      if Writing(d0, d, i, data, off, buf, o) && o / BLOCK_SIZE < Blocks(d, i) && owner[b] == Own(i, o / BLOCK_SIZE) {
        PutKeepsWriting(d0, d, owner, i, data, off, buf, o, b, len);
      }
      Put(i, b, at, buf[o - off..o - off + len]);
      UntouchedThen(d0, d, State(), i);
    }

    /** The block for offset `o`. */
    method FetchBlock(i: nat, buf: seq<Byte>, off: nat, o: nat, ghost d0: Disk, ghost data: seq<Byte>) returns (b: int)
      requires Valid() && i < inodes.Length && Live(State(), i) && OthersUntouched(d0, State(), i)
      requires off <= o < off + |buf| <= MAX_FILE_SIZE
      modifies this, used, inodes, blocks
      ensures Valid() && Live(State(), i) && OthersUntouched(d0, State(), i)
      ensures AllTidy(old(State())) ==> AllTidy(State())
      ensures inodes[i].size == old(inodes[i]).size
      ensures b == -1 ==> Free(State()) == 0
      ensures b != -1 ==> 0 <= b < |owner| && owner[b].Own? && owner[b].inode == i && owner[b].slot < INDIRECT_SLOT
      ensures Writing(d0, old(State()), i, data, off, buf, o) ==>
                && Writing(d0, State(), i, data, off, buf, o)
                && if b == -1 then o / BLOCK_SIZE == Blocks(State(), i)
                   else o / BLOCK_SIZE < Blocks(State(), i) && owner[b] == Own(i, o / BLOCK_SIZE)
    {
      ghost var d := State();
      b := BlockFor(i, o / BLOCK_SIZE);
      FetchedInWriting(d0, d, State(), owner, i, data, off, buf, o, b);
    }

    method BlockFor(i: nat, k: nat) returns (b: int)
      requires Valid() && i < inodes.Length && Live(State(), i) && k < DATA_SLOTS
      modifies this, used, inodes, blocks
      ensures Valid() && Fetched(old(State()), State(), owner, i, k, b)
    {
      if k >= NUM_DIRECT {
        b := IndirectBlock(i, k);
      } else {
        b := DirectBlock(i, k);
      }
    }

    method Put(i: nat, b: nat, at: nat, bytes: seq<Byte>)
      requires Valid() && b < |owner| && owner[b].Own? && owner[b].inode == i && owner[b].slot < INDIRECT_SLOT
      requires at + |bytes| <= BLOCK_SIZE && i < inodes.Length && Live(State(), i)
      modifies blocks
      ensures State() == WithBlock(old(State()), b, Splice(old(State()).blocks[b], at, bytes))
      ensures Valid() && Live(State(), i) && OthersUntouched(old(State()), State(), i)
      ensures AllTidy(old(State())) ==> AllTidy(State())
    {
      ghost var d := State();
      PutContent(d, owner, i, owner[b].slot, b, at, bytes);
      PutKeeps(d, owner, b, Splice(d.blocks[b], at, bytes));
      PutTidy(d, WithBlock(d, b, Splice(d.blocks[b], at, bytes)));
      blocks[b] := Splice(blocks[b], at, bytes);
      assert State() == WithBlock(d, b, Splice(d.blocks[b], at, bytes));
    }

    /** Reads at most `count` bytes at `off`, up to the size, and moves the offset past them. The blocks that
        hold them must exist. */
    method Read(i: nat, count: nat, off: nat) returns (data: seq<Byte>, off': nat)
      requires Valid() && i < inodes.Length && Live(State(), i) && Packed(State(), i)
      requires off < inodes[i].size ==> Min(off + count, inodes[i].size) <= Blocks(State(), i) * BLOCK_SIZE
      ensures off' == if off >= inodes[i].size then off else Min(off + count, inodes[i].size)
      ensures off <= off'
      ensures if off' == off then data == [] else off' <= CAPACITY && data == Stored(State(), i, off, off')
    {
      data, off' := [], off;
      if off >= inodes[i].size {
        return;
      }
      var remain := count;
      if off + remain > inodes[i].size {
        remain := inodes[i].size - off;
      }
      ghost var end := off + remain;
      while remain > 0
        invariant off <= off' <= end && remain == end - off'
        invariant if off' == off then data == [] else off' <= CAPACITY && data == Stored(State(), i, off, off')
      {
        var bytes := ReadSome(i, off', remain);
        data := data + bytes;
        off' := off' + |bytes|;
        remain := remain - |bytes|;
      }
    }

    /** What one round of the loop reads: at most the rest of one block. */
    method ReadSome(i: nat, o: nat, remain: nat) returns (bytes: seq<Byte>)
      requires Valid() && i < inodes.Length && Live(State(), i) && Packed(State(), i)
      requires 0 < remain && o + remain <= Blocks(State(), i) * BLOCK_SIZE
      ensures 0 < |bytes| <= remain && o + |bytes| <= CAPACITY && bytes == Stored(State(), i, o, o + |bytes|)
    {
      var k, at := o / BLOCK_SIZE, o % BLOCK_SIZE;
      var b := FindBlock(i, k);
      var len := BLOCK_SIZE - at;
      if len > remain {
        len := remain;
      }
      assert PackedTo(State(), i, Blocks(State(), i));
      BytesInBlock(State(), i, o, len, b);
      bytes := blocks[b][at..at + len];
    }

    method FindBlock(i: nat, k: nat) returns (b: int)
      requires Valid() && i < inodes.Length && Live(State(), i) && Packed(State(), i)
      requires k < Blocks(State(), i)
      ensures b == BlockAt(State(), i, k) && 0 <= b < blocks.Length
    {
      assert PackedTo(State(), i, Blocks(State(), i));
      assert BlockAt(State(), i, k) != UNASSIGNED;
      if k >= NUM_DIRECT {
        b := GetNthIndirectBlock(i, k - NUM_DIRECT);
      } else {
        b := inodes[i].direct[k];
      }
    }

    // ---- Inodes ----

    /** The first inode after the root that is not in use, or -1. */
    method FirstUnusedInode() returns (i: int)
      ensures i == -1 <==> forall j | 1 <= j < inodes.Length :: inodes[j].nlink != 0
      ensures i != -1 ==>
                1 <= i < inodes.Length && inodes[i].nlink == 0 && forall j | 1 <= j < i :: inodes[j].nlink != 0
    {
      var k := 1;
      while k < inodes.Length
        invariant 1 <= k && forall j | 1 <= j < k && j < inodes.Length :: inodes[j].nlink != 0
      {
        if inodes[k].nlink == 0 {
          return k;
        }
        k := k + 1;
      }
      i := -1;
    }

    /** An unused inode becomes an empty file. */
    method InitInode(i: nat)
      requires Valid() && i < inodes.Length && inodes[i].nlink == 0
      modifies inodes
      ensures Valid() && Live(State(), i) && OthersUntouched(old(State()), State(), i)
      ensures AllTidy(old(State())) ==> AllTidy(State())
      ensures Knows(State(), i, []) && Covered(State(), i) && inodes[i].size == 0 && Free(State()) == Free(old(State()))
      ensures Blocks(State(), i) == 0 && !HasIndirect(State(), i)
    {
      ghost var d := State();
      inodes[i] := EmptyInode(1);
      assert State() == WithInode(d, i, EmptyInode(1));
      InitKeeps(d, State(), owner, i);
    }

    method FreeDataBlock(b: int)
      modifies used
      ensures used[..] == Clear(old(used[..]), b)
    {
      SetDataUsed(b, false);
    }

    method FreeDirect(i: nat)
      requires Shaped(State()) && i < inodes.Length
      modifies used
      ensures used[..] == GivenBack(old(State()), i, NUM_DIRECT, false)
    {
      ghost var d := State();
      assert used[..] == GivenBack(d, i, 0, false);
      for k := 0 to NUM_DIRECT
        invariant used[..] == GivenBack(d, i, k, false)
      {
        GiveBackNext(d, i, k);
        if inodes[i].direct[k] != UNASSIGNED {
          FreeDataBlock(inodes[i].direct[k]);
        }
      }
    }

    method FreeListed(i: nat, ghost d: Disk)
      requires Shaped(d) && inodes[..] == d.inodes && blocks[..] == d.blocks && i < inodes.Length
      requires inodes[i].indirect != UNASSIGNED && used[..] == GivenBack(d, i, NUM_DIRECT, false)
      modifies used
      ensures used[..] == GivenBack(d, i, DATA_SLOTS, false)
    {
      var block := blocks[inodes[i].indirect];
      assert block == d.blocks[d.inodes[i].indirect];
      for k := 0 to NUM_DIRECT
        invariant used[..] == GivenBack(d, i, NUM_DIRECT + k, false)
      {
        GiveBackNext(d, i, NUM_DIRECT + k);
        var b := Decode(block[4 * k], block[4 * k + 1], block[4 * k + 2], block[4 * k + 3]);
        if b != UNASSIGNED {
          FreeDataBlock(b);
        }
      }
    }

    /** Gives the blocks of a file back, as far as the loops look. */
    method FreeInode(i: nat)
      requires Valid() && i < inodes.Length && Live(State(), i)
      modifies this, used, inodes
      ensures State() == Freed(old(State()), i)
      ensures Tidy(old(State()), i) ==> Valid() && owner == Disowned(old(owner), i)
    {
      ghost var d := State();
      FreeDirect(i);
      if inodes[i].indirect != UNASSIGNED {
        FreeListed(i, d);
      }
      assert used[..] == GivenBack(d, i, DATA_SLOTS, false);
      FreeDataBlock(inodes[i].indirect);
      AllGivenBack(d, i);
      assert used[..] == Released(d, i);
      inodes[i] := inodes[i].(nlink := 0);
      assert State() == Freed(d, i);
      if Tidy(d, i) {
        FreedKeeps(d, owner, i);
        owner := Disowned(owner, i);
      }
    }

    // ---- Allocating ahead ----

    method ZeroedDirect(i: nat, k: nat) returns (ok: bool)
      requires Valid() && i < inodes.Length && Live(State(), i) && PackedTo(State(), i, k) && k < NUM_DIRECT
      modifies this, used, inodes, blocks
      ensures Valid() && Extended(old(State()), State(), i) && (AllTidy(old(State())) ==> AllTidy(State()))
      ensures ok ==> PackedTo(State(), i, k + 1) && DataAt(State(), i, k) == ZeroBlock()
      ensures !ok ==> Free(State()) == 0 && State() == old(State())
    {
      ghost var d, o := State(), owner;
      assert BlockAt(d, i, k) == inodes[i].direct[k];
      ghost var s := FirstUnassigned(inodes[i].direct);
      assert s < NUM_DIRECT ==> (BlockAt(d, i, s) != UNASSIGNED <==> s < k);
      var b := AddDataBlockToInode(i);
      if b == -1 {
        return false;
      }
      NewBlock(d, State(), o, i, k, b);
      b := inodes[i].direct[k];
      assert BlockAt(State(), i, k) == b;
      ghost var d1 := State();
      Put(i, b, 0, ZeroBlock());
      ZeroedNew(d, d1, State(), owner, i, k, b);
      ok := true;
    }

    method ZeroedListed(i: nat, k: nat) returns (ok: bool)
      requires Valid() && i < inodes.Length && Live(State(), i) && PackedTo(State(), i, k)
      requires NUM_DIRECT <= k < INDIRECT_SLOT && inodes[i].indirect != UNASSIGNED
      modifies this, used, blocks
      ensures Valid() && Extended(old(State()), State(), i)
      ensures AllTidy(old(State())) && k < DATA_SLOTS ==> AllTidy(State())
      ensures ok ==> PackedTo(State(), i, k + 1) && DataAt(State(), i, k) == ZeroBlock()
      ensures !ok ==> Free(State()) == 0 && State() == old(State())
    {
      ghost var d, o := State(), owner;
      var b, n := AddDataBlockToIndirectBlock(i);
      assert n < NUM_ENTRIES ==> (BlockAt(d, i, n + NUM_DIRECT) != UNASSIGNED <==> n + NUM_DIRECT < k);
      assert BlockAt(d, i, k) == GetEntry(d.blocks[d.inodes[i].indirect], k - NUM_DIRECT) == UNASSIGNED;
      if b == -1 {
        return false;
      }
      NewBlock(d, State(), o, i, k, b);
      b := GetNthIndirectBlock(i, k - NUM_DIRECT);
      ghost var d1 := State();
      Put(i, b, 0, ZeroBlock());
      ZeroedNew(d, d1, State(), owner, i, k, b);
      ok := true;
    }

    method MinDirect(i: nat, count: nat, ghost d0: Disk, ghost n0: nat) returns (ok: bool)
      requires Valid() && i < inodes.Length && Grown(d0, State(), i, n0, 0) && Live(d0, i) && count <= NUM_DIRECT
      modifies this, used, inodes, blocks
      ensures Valid() && (AllTidy(old(State())) ==> AllTidy(State()))
      ensures exists k: nat :: k <= count && Grown(d0, State(), i, n0, k)
      ensures if ok then Grown(d0, State(), i, n0, count) else Free(State()) == 0
    {
      for k := 0 to count
        invariant Valid() && Grown(d0, State(), i, n0, k) && (AllTidy(old(State())) ==> AllTidy(State()))
      {
        ghost var d := State();
        assert BlockAt(d, i, k) == inodes[i].direct[k];
        if inodes[i].direct[k] == UNASSIGNED {
          ok := ZeroedDirect(i, k);
          if !ok {
            return;
          }
          GrownNext(d0, d, State(), i, n0, k);
        } else {
          GrownSkip(d0, d, i, n0, k);
        }
      }
      ok := true;
    }

    method MinListed(i: nat, count: nat, ghost d0: Disk, ghost n0: nat) returns (ok: bool)
      requires Valid() && i < inodes.Length && Grown(d0, State(), i, n0, NUM_DIRECT) && Live(d0, i)
      requires NUM_DIRECT <= count <= INDIRECT_SLOT && inodes[i].indirect != UNASSIGNED
      modifies this, used, blocks
      ensures Valid() && (AllTidy(old(State())) && count <= DATA_SLOTS ==> AllTidy(State()))
      ensures exists k: nat :: k <= count && Grown(d0, State(), i, n0, k)
      ensures if ok then Grown(d0, State(), i, n0, count) else Free(State()) == 0
      ensures inodes[i].indirect != UNASSIGNED
    {
      for k := NUM_DIRECT to count
        invariant Valid() && Grown(d0, State(), i, n0, k) && inodes[i].indirect != UNASSIGNED
        invariant AllTidy(old(State())) && count <= DATA_SLOTS ==> AllTidy(State())
      {
        ghost var d := State();
        var b := GetNthIndirectBlock(i, k - NUM_DIRECT);
        if b == UNASSIGNED {
          ok := ZeroedListed(i, k);
          assert KeepsSlot(d, State(), i, INDIRECT_SLOT) by { assert BlockAt(d, i, INDIRECT_SLOT) != UNASSIGNED; }
          if !ok {
            return;
          }
          GrownNext(d0, d, State(), i, n0, k);
        } else {
          GrownSkip(d0, d, i, n0, k);
        }
      }
      ok := true;
    }

    /** Makes sure that the file has `count` blocks, the new ones cleared. Returns -1 when the disk is full. */
    method MinBlockcount(i: nat, count: nat) returns (r: int)
      requires Valid() && i < inodes.Length && Live(State(), i) && Packed(State(), i) && count <= INDIRECT_SLOT
      modifies this, used, inodes, blocks
      ensures Valid() && (r == 0 || r == -1) && (AllTidy(old(State())) && count <= DATA_SLOTS ==> AllTidy(State()))
      ensures exists k: nat :: k <= count && Grown(old(State()), State(), i, Blocks(old(State()), i), k)
      ensures if r == 0 then Grown(old(State()), State(), i, Blocks(old(State()), i), count) else Free(State()) == 0
    {
      ghost var d0, n0 := State(), Blocks(State(), i);
      assert PackedTo(d0, i, n0);
      var ok: bool;
      if count < NUM_DIRECT {
        ok := MinDirect(i, count, d0, n0);
      } else {
        ok := MinDirect(i, NUM_DIRECT, d0, n0);
        if ok {
          ghost var d, o := State(), owner;
          var err := AddSingleIndirectBlock(i);
          if err == -1 {
            return -1;
          }
          if d.inodes[i].indirect == UNASSIGNED {
            AssignedExtends(d, State(), o, i, INDIRECT_SLOT, inodes[i].indirect);
            if AllTidy(d) { AssignedTidy(d, State(), o, i, INDIRECT_SLOT, inodes[i].indirect); }
            GrownIndirect(d0, d, State(), o, i, n0, NUM_DIRECT, inodes[i].indirect);
          }
          ok := MinListed(i, count, d0, n0);
        }
      }
      r := if ok then 0 else -1;
    }
  }
}
