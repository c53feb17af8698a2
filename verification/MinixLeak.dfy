/** Freeing stops at the twenty-second block of a file, allocating ahead does not: blocks that stay marked used
    although no inode lists them. */
module MinixLeak {
  import opened MinixBlocks
  import opened MinixDisk
  import opened MinixContent
  import opened MinixFs
  import opened MinixFiles
  import opened Bytes

  /** The blocks that freeing looks at. */
  ghost function GivenUp(d: Disk, i: nat): set<int>
    requires Shaped(d) && i < |d.inodes|
  {
    Listed(d, i, DATA_SLOTS) + if HasIndirect(d, i) then {d.inodes[i].indirect} else {}
  }

  lemma GivenUpIff(d: Disk, i: nat, b: int)
    requires Shaped(d) && i < |d.inodes| && 0 <= b < |d.used|
    ensures b in GivenUp(d, i) <==> exists s: nat :: (s < DATA_SLOTS || s == INDIRECT_SLOT) && BlockAt(d, i, s) == b
  {
    if b in GivenUp(d, i) {
      if b in Listed(d, i, DATA_SLOTS) {
        var s: nat :| s < DATA_SLOTS && BlockAt(d, i, s) == b;
      } else {
        assert BlockAt(d, i, INDIRECT_SLOT) == b;
      }
    }
  }

  lemma GivenUpOwned(d: Disk, o: seq<Owner>, i: nat)
    requires Owned(d, o) && i < |d.inodes| && Live(d, i) && Packed(d, i)
    ensures forall b | b in GivenUp(d, i) :: 0 <= b < |d.used| && d.used[b]
    ensures |GivenUp(d, i)| == Min(Blocks(d, i), DATA_SLOTS) + if HasIndirect(d, i) then 1 else 0
  {
    CountListed(d, o, i, DATA_SLOTS);
    var b := BlockAt(d, i, INDIRECT_SLOT);
    assert b != UNASSIGNED ==> o[b] == Own(i, INDIRECT_SLOT);
    assert b !in Listed(d, i, DATA_SLOTS);
  }

  lemma FreedCount(d: Disk, o: seq<Owner>, i: nat)
    requires Owned(d, o) && i < |d.inodes| && Live(d, i) && Packed(d, i)
    ensures Free(Freed(d, i)) == Free(d) + Min(Blocks(d, i), DATA_SLOTS) + if HasIndirect(d, i) then 1 else 0
  {
    GivenUpOwned(d, o, i);
    forall b | 0 <= b < |d.used| ensures Freed(d, i).used[b] <==> d.used[b] && b !in GivenUp(d, i) {
      GivenUpIff(d, i, b);
    }
    FreeAgain(d.used, Freed(d, i).used, GivenUp(d, i));
  }

  /** Freeing file `i` leaves the block in slot `s` marked used. */
  ghost predicate Kept(d: Disk, i: nat, s: nat)
    requires Shaped(d) && i < |d.inodes|
  {
    s <= INDIRECT_SLOT && 0 <= BlockAt(d, i, s) < |d.used| && Freed(d, i).used[BlockAt(d, i, s)]
  }

  /** The limit of a write is the length up to which freeing gives back every block of a file. */
  lemma LimitIsFreed(d: Disk, o: seq<Owner>, i: nat, end: nat)
    requires Owned(d, o) && i < |d.inodes| && Live(d, i) && Packed(d, i) && Blocks(d, i) == (end + 16383) / 16384
    ensures end > 360448 <==> exists s: nat :: Kept(d, i, s)
  {
    assert PackedTo(d, i, Blocks(d, i));
    forall s: nat | s <= INDIRECT_SLOT && BlockAt(d, i, s) != UNASSIGNED
      ensures Kept(d, i, s) <==> 22 <= s < INDIRECT_SLOT
    {
      var b := BlockAt(d, i, s);
      assert o[b] == Own(i, s) && d.used[b];
    }
    if end > 360448 { assert Kept(d, i, 22); }
  }

  /** A write whose blocks are there is refused exactly when a packed file that long would list a block that freeing
      does not give back. */
  lemma RefusedWhenKept(f: File, free: nat, off: nat, buf: seq<Byte>, d: Disk, o: seq<Owner>, i: nat)
    requires off <= |f.data| && MoreFor(BlocksFor(|f.data|), f.indirect, off + |buf|) <= free
    requires Owned(d, o) && i < |d.inodes| && Live(d, i) && Packed(d, i)
    requires Blocks(d, i) == (off + |buf| + 16383) / 16384
    ensures Rewrite(f, free, off, buf).1 == Written(-1, off) <==> exists s: nat :: Kept(d, i, s)
  {
    LimitIsFreed(d, o, i, off + |buf|);
  }

  lemma FreeAgain(used: seq<bool>, used': seq<bool>, freed: set<int>)
    requires |used'| == |used| && forall b | 0 <= b < |used| :: used'[b] <==> used[b] && b !in freed
    requires forall b | b in freed :: 0 <= b < |used| && used[b]
    ensures |FreeSet(used')| == |FreeSet(used)| + |freed|
  {
    assert FreeSet(used') == FreeSet(used) + freed;
  }

  /** All blocks but those of the only file are free. */
  lemma OnlyFile(d: Disk, o: seq<Owner>)
    requires Owned(d, o) && |d.inodes| == 2 && Live(d, 1) && Packed(d, 1) && !Live(d, 0)
    ensures Free(d) + Held(d, 1) == |d.used|
  {
    FreeAndHeld(d, o);
    assert HeldBelow(d, 1) == 0;
  }

  /** The only file grows to the full `count`: there is room for its blocks and the indirect block. */
  lemma Grew(d0: Disk, d: Disk, o: seq<Owner>, count: nat, r: int)
    requires Owned(d, o) && |d.inodes| == 2 && Live(d, 1) && !Live(d, 0)
    requires DATA_SLOTS < count <= INDIRECT_SLOT && count + 1 <= |d.used|
    requires exists k: nat :: k <= count && Grown(d0, d, 1, 0, k)
    requires if r == 0 then Grown(d0, d, 1, 0, count) else Free(d) == 0
    ensures Packed(d, 1) && Blocks(d, 1) == count && HasIndirect(d, 1) && Free(d) == |d.used| - count - 1
  {
    var k: nat :| k <= count && Grown(d0, d, 1, 0, k);
    PackedOnce(d, 1, k);
    if r == 0 { PackedOnce(d, 1, count); }
    OnlyFile(d, o);
    ListedByIndirect(d, 1);
  }

  /** A file is made `count` blocks long and deleted: those beyond the twenty-second remain marked used, although
      no inode is in use. */
  method Leak(size: nat, count: nat) returns (used: seq<bool>, inodes: seq<Inode>)
    requires 22 < count <= 4107 && count + 1 <= size <= 0x7FFF_FFFF
    ensures forall i | 0 <= i < |inodes| :: inodes[i].nlink == 0
    ensures |used| == size && |FreeSet(used)| == size - (count - 22)
  {
    var fs := new FileSystem(2, size);
    ghost var d0 := fs.State();
    fs.InitInode(1);
    ghost var d1 := fs.State();
    var r := fs.MinBlockcount(1, count);
    ghost var d := fs.State();
    Grew(d1, d, fs.owner, count, r);
    FreedCount(d, fs.owner, 1);
    fs.FreeInode(1);
    used, inodes := fs.used[..], fs.inodes[..];
  }
}
