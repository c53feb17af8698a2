/** The disk as a value: the used-map, the inodes and the data blocks, and who owns which block. */
module MinixDisk {
  import opened MinixBlocks

  /** `direct` lists the first blocks of the file; `indirect` names the block that lists the others. */
  datatype Inode = Inode(nlink: nat, size: nat, direct: seq<int>, indirect: int)

  datatype Disk = Disk(used: seq<bool>, inodes: seq<Inode>, blocks: seq<Block>)

  /** Slots 0 to 10 are the direct blocks, the following ones the entries of the indirect block, and the
      last one is the indirect block itself. Reading and writing stop at slot 22. */
  const INDIRECT_SLOT := NUM_DIRECT + NUM_ENTRIES
  const DATA_SLOTS := NUM_DIRECT + NUM_DIRECT

  ghost predicate Shaped(d: Disk) {
    && |d.used| == |d.blocks| <= 0x7FFF_FFFF
    && (forall b | 0 <= b < |d.blocks| :: |d.blocks[b]| == BLOCK_SIZE)
    && (forall i | 0 <= i < |d.inodes| ::
          |d.inodes[i].direct| == NUM_DIRECT && UNASSIGNED <= d.inodes[i].indirect < |d.blocks|)
  }

  /** The block number in slot `s` of inode `i`. */
  ghost function BlockAt(d: Disk, i: nat, s: nat): int
    requires Shaped(d) && i < |d.inodes| && s <= INDIRECT_SLOT
  {
    var node := d.inodes[i];
    if s < NUM_DIRECT then node.direct[s]
    else if s == INDIRECT_SLOT || node.indirect == UNASSIGNED then
      if s == INDIRECT_SLOT then node.indirect else UNASSIGNED
    else GetEntry(d.blocks[node.indirect], s - NUM_DIRECT)
  }

  predicate Live(d: Disk, i: nat)
    requires i < |d.inodes|
  {
    d.inodes[i].nlink > 0
  }

  /** The indirect block lists nothing beyond the entries that a write can reach. */
  ghost predicate Tidy(d: Disk, i: nat)
    requires Shaped(d) && i < |d.inodes|
  {
    forall s: nat | DATA_SLOTS <= s < INDIRECT_SLOT :: BlockAt(d, i, s) == UNASSIGNED
  }

  ghost predicate AllTidy(d: Disk)
    requires Shaped(d)
  {
    forall i: nat | i < |d.inodes| && Live(d, i) :: Tidy(d, i)
  }

  datatype Owner = Nobody | Own(inode: nat, slot: nat)

  /** `o` tells who owns each block: the used-map is exactly the union of what the live inodes list. */
  ghost predicate Owned(d: Disk, o: seq<Owner>) {
    && Shaped(d) && |o| == |d.blocks|
    && (forall b | 0 <= b < |o| :: d.used[b] <==> o[b].Own?)
    && (forall i: nat, s: nat | i < |d.inodes| && s <= INDIRECT_SLOT && Live(d, i) && BlockAt(d, i, s) != UNASSIGNED ::
          0 <= BlockAt(d, i, s) < |o| && o[BlockAt(d, i, s)] == Own(i, s))
    && (forall b | 0 <= b < |o| && o[b].Own? ::
          && o[b].inode < |d.inodes| && Live(d, o[b].inode) && o[b].slot <= INDIRECT_SLOT
          && BlockAt(d, o[b].inode, o[b].slot) == b)
  }

  ghost predicate Lists(d: Disk, i: nat, s: nat, b: int)
    requires Shaped(d)
  {
    i < |d.inodes| && s <= INDIRECT_SLOT && Live(d, i) && BlockAt(d, i, s) == b
  }

  /** A block is used exactly when a live inode lists it, and then only one does, in one place. */
  lemma UsedIsDisjointUnion(d: Disk, o: seq<Owner>)
    requires Owned(d, o)
    ensures forall b | 0 <= b < |d.used| :: d.used[b] <==> exists i, s :: Lists(d, i, s, b)
    ensures forall b, i, s, j, t | 0 <= b < |d.used| && Lists(d, i, s, b) && Lists(d, j, t, b) :: i == j && s == t
  {
    forall b | 0 <= b < |d.used| && d.used[b] ensures exists i, s :: Lists(d, i, s, b) {
      assert Lists(d, o[b].inode, o[b].slot, b);
    }
  }

  lemma Lister(d: Disk, o: seq<Owner>, b: nat) returns (i: nat, s: nat)
    requires Owned(d, o) && b < |d.used| && d.used[b]
    ensures Lists(d, i, s, b)
  {
    i, s := o[b].inode, o[b].slot;
  }

  // ---- What an allocation does to ownership ----

  /** `d'` is `d`, except that slot `s` of inode `i`, which was empty, got the free block `b`. Of the blocks
      in use, only indirect ones may change. */
  ghost predicate Assigned(d: Disk, d': Disk, o: seq<Owner>, i: nat, s: nat, b: nat) {
    && Shaped(d) && Shaped(d') && |d'.inodes| == |d.inodes| && |d'.blocks| == |d.blocks|
    && i < |d.inodes| && s <= INDIRECT_SLOT && b < |d.blocks| == |o|
    && d'.inodes[i].size == d.inodes[i].size
    && (forall j: nat | j < |d.inodes| && j != i :: d'.inodes[j] == d.inodes[j])
    && (forall c | 0 <= c < |o| && o[c].Own? && o[c].slot != INDIRECT_SLOT :: d'.blocks[c] == d.blocks[c])
    && d'.used == d.used[b := true]
    && (forall j: nat | j < |d.inodes| :: Live(d', j) <==> Live(d, j))
    && (forall j: nat, t: nat | j < |d.inodes| && t <= INDIRECT_SLOT && Live(d, j) ::
          BlockAt(d', j, t) == if j == i && t == s then b else BlockAt(d, j, t))
  }

  lemma AssignedKeeps(d: Disk, d': Disk, o: seq<Owner>, i: nat, s: nat, b: nat)
    requires Owned(d, o) && Assigned(d, d', o, i, s, b) && !d.used[b] && Live(d, i)
    requires BlockAt(d, i, s) == UNASSIGNED
    ensures Owned(d', o[b := Own(i, s)])
  {
    var o' := o[b := Own(i, s)];
    forall j: nat, t: nat | j < |d'.inodes| && t <= INDIRECT_SLOT && Live(d', j) && BlockAt(d', j, t) != UNASSIGNED
      ensures 0 <= BlockAt(d', j, t) < |o'| && o'[BlockAt(d', j, t)] == Own(j, t)
    {
      if !(j == i && t == s) { assert o[BlockAt(d, j, t)] == Own(j, t); }
    }
    forall c | 0 <= c < |o'| && o'[c].Own?
      ensures o'[c].inode < |d'.inodes| && Live(d', o'[c].inode) && o'[c].slot <= INDIRECT_SLOT
      ensures BlockAt(d', o'[c].inode, o'[c].slot) == c
    {
      if c != b { assert BlockAt(d, o[c].inode, o[c].slot) == c; }
    }
  }

  lemma AssignedTidy(d: Disk, d': Disk, o: seq<Owner>, i: nat, s: nat, b: nat)
    requires Assigned(d, d', o, i, s, b) && AllTidy(d) && (s < DATA_SLOTS || s == INDIRECT_SLOT)
    ensures AllTidy(d')
  {
    forall j: nat | j < |d.inodes| && Live(d, j) ensures Tidy(d', j) {
      assert Tidy(d, j);
    }
  }

  function WithInode(d: Disk, i: nat, node: Inode): Disk
    requires i < |d.inodes|
  {
    d.(inodes := d.inodes[i := node])
  }

  function Occupy(d: Disk, b: nat): Disk
    requires b < |d.used|
  {
    d.(used := d.used[b := true])
  }

  function WithBlock(d: Disk, b: nat, block: Block): Disk
    requires b < |d.blocks|
  {
    d.(blocks := d.blocks[b := block])
  }

  /** A free block becomes direct block `s`. */
  function AddDirect(d: Disk, i: nat, s: nat, b: nat): Disk
    requires i < |d.inodes| && s < |d.inodes[i].direct| && b < |d.used|
  {
    var node := d.inodes[i];
    WithInode(Occupy(d, b), i, node.(direct := node.direct[s := b]))
  }

  lemma AddDirectAssigns(d: Disk, o: seq<Owner>, i: nat, s: nat, b: nat)
    requires Owned(d, o) && i < |d.inodes| && s < NUM_DIRECT && b < |d.blocks|
    ensures Assigned(d, AddDirect(d, i, s, b), o, i, s, b)
  {}

  /** A free block becomes the indirect block, with no entry assigned; the link count is set to 1. */
  function AddIndirect(d: Disk, i: nat, b: nat, block: Block): Disk
    requires i < |d.inodes| && b < |d.used| == |d.blocks|
  {
    WithBlock(WithInode(Occupy(d, b), i, d.inodes[i].(indirect := b, nlink := 1)), b, block)
  }

  lemma AddIndirectAssigns(d: Disk, o: seq<Owner>, i: nat, b: nat, block: Block)
    requires Owned(d, o) && i < |d.inodes| && b < |d.blocks| && !d.used[b] && Live(d, i)
    requires BlockAt(d, i, INDIRECT_SLOT) == UNASSIGNED && Cleared(block)
    ensures Assigned(d, AddIndirect(d, i, b, block), o, i, INDIRECT_SLOT, b)
  {
    forall j: nat | j < |d.inodes| && Live(d, j) ensures d.inodes[j].indirect != b {
      assert BlockAt(d, j, INDIRECT_SLOT) == d.inodes[j].indirect;
    }
  }

  /** A free block becomes entry `n` of the indirect block. */
  function AddEntry(d: Disk, i: nat, n: nat, b: nat): Disk
    requires Shaped(d) && i < |d.inodes| && d.inodes[i].indirect != UNASSIGNED && n < NUM_ENTRIES && b < |d.used|
  {
    var at := d.inodes[i].indirect;
    WithBlock(Occupy(d, b), at, SetEntry(d.blocks[at], n, b))
  }

  lemma OtherIndirect(d: Disk, o: seq<Owner>, i: nat, j: nat)
    requires Owned(d, o) && i < |d.inodes| && j < |d.inodes| && Live(d, i) && Live(d, j) && i != j
    requires d.inodes[i].indirect != UNASSIGNED
    ensures d.inodes[j].indirect != d.inodes[i].indirect
  {
    assert BlockAt(d, i, INDIRECT_SLOT) == d.inodes[i].indirect;
    assert BlockAt(d, j, INDIRECT_SLOT) == d.inodes[j].indirect;
  }

  lemma AddEntryAssigns(d: Disk, o: seq<Owner>, i: nat, n: nat, b: nat)
    requires Owned(d, o) && i < |d.inodes| && n < NUM_ENTRIES && b < |d.blocks| && !d.used[b] && Live(d, i)
    requires d.inodes[i].indirect != UNASSIGNED
    ensures Assigned(d, AddEntry(d, i, n, b), o, i, NUM_DIRECT + n, b)
  {
    var d', at := AddEntry(d, i, n, b), d.inodes[i].indirect;
    assert BlockAt(d, i, INDIRECT_SLOT) == at;
    forall m: nat | m < NUM_ENTRIES
      ensures GetEntry(d'.blocks[at], m) == if m == n then b else GetEntry(d.blocks[at], m)
    {
      EntryRoundTrip(d.blocks[at], n, b, m);
    }
    forall j: nat | j < |d.inodes| && Live(d, j) && j != i
      ensures forall t: nat | t <= INDIRECT_SLOT :: BlockAt(d', j, t) == BlockAt(d, j, t)
    {
      OtherIndirect(d, o, i, j);
    }
  }

  /** Data bytes never reach a block that lists other blocks. */
  lemma PutKeeps(d: Disk, o: seq<Owner>, b: nat, block: Block)
    requires Owned(d, o) && b < |d.blocks| && |block| == BLOCK_SIZE && o[b].Own? && o[b].slot < INDIRECT_SLOT
    ensures Owned(WithBlock(d, b, block), o)
    ensures var d' := WithBlock(d, b, block);
            forall j: nat, t: nat | j < |d.inodes| && t <= INDIRECT_SLOT && Live(d, j) ::
              BlockAt(d', j, t) == BlockAt(d, j, t)
  {
    var d' := WithBlock(d, b, block);
    forall j: nat | j < |d.inodes| && Live(d, j) ensures d.inodes[j].indirect != b {
      assert BlockAt(d, j, INDIRECT_SLOT) == d.inodes[j].indirect;
    }
    assert forall j: nat, t: nat | j < |d.inodes| && t <= INDIRECT_SLOT && Live(d, j) ::
        BlockAt(d', j, t) == BlockAt(d, j, t);
  }

  // ---- Freeing ----

  /** The used-map once every block that `free_inode` looks at is given back: the direct blocks, the first
      entries of the indirect block, and the indirect block. */
  ghost function Released(d: Disk, i: nat): seq<bool>
    requires Shaped(d) && i < |d.inodes|
  {
    seq(|d.used|, b requires 0 <= b < |d.used| =>
      d.used[b] && !exists s: nat :: (s < DATA_SLOTS || s == INDIRECT_SLOT) && BlockAt(d, i, s) == b)
  }

  ghost function Freed(d: Disk, i: nat): Disk
    requires Shaped(d) && i < |d.inodes|
  {
    WithInode(d.(used := Released(d, i)), i, d.inodes[i].(nlink := 0))
  }

  ghost function Disowned(o: seq<Owner>, i: nat): seq<Owner> {
    seq(|o|, b requires 0 <= b < |o| => if o[b].Own? && o[b].inode == i then Nobody else o[b])
  }

  lemma FreedSlots(d: Disk, i: nat)
    requires Shaped(d) && i < |d.inodes|
    ensures var d' := Freed(d, i);
            forall j: nat, t: nat | j < |d.inodes| && t <= INDIRECT_SLOT :: BlockAt(d', j, t) == BlockAt(d, j, t)
  {}

  lemma FreedKeeps(d: Disk, o: seq<Owner>, i: nat)
    requires Owned(d, o) && i < |d.inodes| && Live(d, i) && Tidy(d, i)
    ensures Owned(Freed(d, i), Disowned(o, i))
    ensures forall b | 0 <= b < |d.used| :: Freed(d, i).used[b] <==> d.used[b] && o[b].inode != i
  {
    var d', o' := Freed(d, i), Disowned(o, i);
    FreedSlots(d, i);
    forall b | 0 <= b < |o| ensures d'.used[b] <==> o'[b].Own? {
      if d.used[b] && o[b].inode == i {
        assert BlockAt(d, i, o[b].slot) == b;
        assert o[b].slot < DATA_SLOTS || o[b].slot == INDIRECT_SLOT;
      }
    }
  }

  /** Freeing an inode leaks nothing exactly when its indirect block lists at most eleven blocks. */
  lemma FreeLeaksNothingIff(d: Disk, o: seq<Owner>, i: nat)
    requires Owned(d, o) && i < |d.inodes| && Live(d, i)
    ensures (exists o' :: Owned(Freed(d, i), o')) <==> Tidy(d, i)
  {
    var d' := Freed(d, i);
    if Tidy(d, i) {
      FreedKeeps(d, o, i);
    } else {
      var s: nat :| DATA_SLOTS <= s < INDIRECT_SLOT && BlockAt(d, i, s) != UNASSIGNED;
      var c := BlockAt(d, i, s);
      FreedSlots(d, i);
      assert o[c] == Own(i, s) && d'.used[c];
      forall o': seq<Owner> | Owned(d', o') ensures false {
        var j, t := Lister(d', o', c);
      }
    }
  }
}
