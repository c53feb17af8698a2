/** Whole runs of the file system in place: every reply is the one that the files as byte sequences give,
    and the blocks in use are those that the files hold. */
module MinixStore {
  import opened Bytes
  import opened MinixDisk
  import opened MinixContent
  import opened MinixFs
  import opened MinixFiles

  /** Inode `i` is the file `f`. */
  ghost predicate Keeps(d: Disk, i: nat, f: File)
    requires Shaped(d) && i < |d.inodes|
  {
    && Knows(d, i, f.data) && d.inodes[i].size == f.size
    && Blocks(d, i) == BlocksFor(|f.data|) && (HasIndirect(d, i) <==> f.indirect)
  }

  /** The live files of the disk are exactly those of `s`. */
  ghost predicate Holds(d: Disk, s: Store) {
    && Shaped(d) && AllTidy(d) && |d.inodes| == s.nodes && |d.used| == s.blocks
    && (forall i | i in s.files :: 1 <= i < s.nodes)
    && (forall i: nat | i < |d.inodes| :: Live(d, i) <==> i in s.files)
    && (forall i | i in s.files :: Keeps(d, i, s.files[i]))
  }

  /** Only file `i` differs. */
  lemma HoldsAfter(d: Disk, d': Disk, s: Store, s': Store, i: nat)
    requires Holds(d, s) && OthersUntouched(d, d', i) && 1 <= i < |d.inodes| && AllTidy(d') && |d'.used| == |d.used|
    requires s'.nodes == s.nodes && s'.blocks == s.blocks
    requires forall j: nat | j != i :: (j in s'.files <==> j in s.files) && (j in s.files ==> s'.files[j] == s.files[j])
    requires Live(d', i) <==> i in s'.files
    requires i in s'.files ==> Keeps(d', i, s'.files[i])
    ensures Holds(d', s')
  {
    forall j: nat | j in s'.files && j != i ensures Keeps(d', j, s'.files[j]) {
      assert Keeps(d, j, s.files[j]);
      UntouchedContent(d, d', i, j);
    }
  }

  // ---- Blocks in use ----

  lemma {:induction false} HeldAlike(d: Disk, s: Store, n: nat)
    requires Holds(d, s) && AllPacked(d) && n <= |d.inodes|
    ensures HeldBelow(d, n) == Holdings(s.files, n)
  {
    if n > 0 {
      HeldAlike(d, s, n - 1);
      if n - 1 in s.files { assert Keeps(d, n - 1, s.files[n - 1]); }
    }
  }

  /** Nothing leaks: each block is free or held by one of the files. */
  lemma FreeIsRoom(d: Disk, o: seq<Owner>, s: Store)
    requires Owned(d, o) && Holds(d, s)
    ensures Free(d) + Holdings(s.files, s.nodes) == s.blocks
    ensures Free(d) == Room(s)
  {
    forall i: nat | i < |d.inodes| && Live(d, i) ensures Packed(d, i) {
      assert Keeps(d, i, s.files[i]);
    }
    HeldAlike(d, s, |d.inodes|);
    FreeAndHeld(d, o);
  }

  lemma {:induction false} NoneHeld(n: nat)
    ensures Holdings(map[], n) == 0
  {
    if n > 0 { NoneHeld(n - 1); }
  }

  /** Without files every block is free. */
  lemma NoFilesNoBlocks(d: Disk, o: seq<Owner>, s: Store)
    requires Owned(d, o) && Holds(d, s) && s.files == map[]
    ensures forall b | 0 <= b < |d.used| :: !d.used[b]
  {
    UsedIsDisjointUnion(d, o);
    forall b | 0 <= b < |d.used| ensures !d.used[b] {
      assert forall i, t :: !Lists(d, i, t, b);
    }
  }

  // ---- Operations ----

  method CreateFile(fs: FileSystem, ghost s: Store) returns (i: nat)
    requires fs.Valid() && Holds(fs.State(), s) && Legal(s, Create)
    modifies fs.inodes
    ensures fs.Valid() && Holds(fs.State(), Apply(s, Create).0) && Apply(s, Create).1 == Created(i)
  {
    ghost var d := fs.State();
    assert forall j: nat | 1 <= j < fs.inodes.Length :: Live(d, j) <==> fs.inodes[j].nlink != 0;
    var k := fs.FirstUnusedInode();
    assert k == FirstUnnamed(s.files.Keys, s.nodes, 1);
    i := k;
    fs.InitInode(i);
    HoldsAfter(d, fs.State(), s, Apply(s, Create).0, i);
  }

  /** The blocks of a disk decide about a write exactly as the number of free blocks does. */
  lemma WroteIsWrite(d0: Disk, d: Disk, i: nat, f: File, off: nat, buf: seq<Byte>, written: int, off': nat)
    requires Shaped(d0) && Shaped(d) && i < |d0.inodes| == |d.inodes| && Keeps(d0, i, f)
    requires off <= |f.data| && off + |buf| <= MAX_FILE_SIZE && Wrote(d0, d, i, f.data, off, buf, written, off')
    ensures var (f', reply) := Rewrite(f, Free(d0), off, buf); Keeps(d, i, f') && reply == Written(written, off')
  {
    assert |Overwrite(f.data, off, buf)| == Max(|f.data|, off + |buf|);
  }

  method WriteFile(fs: FileSystem, ghost s: Store, i: nat, off: nat, buf: seq<Byte>) returns (written: int, off': nat)
    requires fs.Valid() && Holds(fs.State(), s) && Legal(s, WriteAt(i, off, buf))
    modifies fs, fs.used, fs.inodes, fs.blocks
    ensures fs.Valid() && Holds(fs.State(), Apply(s, WriteAt(i, off, buf)).0)
    ensures Apply(s, WriteAt(i, off, buf)).1 == Written(written, off')
    ensures off + |buf| > 360448 ==> written == -1 && off' == off
  {
    ghost var d, f := fs.State(), s.files[i];
    FreeIsRoom(d, fs.owner, s);
    assert Keeps(d, i, f);
    written, off' := fs.Write(i, buf, off, f.data);
    if off + |buf| <= MAX_FILE_SIZE {
      WroteIsWrite(d, fs.State(), i, f, off, buf, written, off');
      HoldsAfter(d, fs.State(), s, Apply(s, WriteAt(i, off, buf)).0, i);
    } else {
      assert s.files[i := f] == s.files;
    }
  }

  method ReadFile(fs: FileSystem, ghost s: Store, i: nat, off: nat, count: nat) returns (bytes: seq<Byte>, off': nat)
    requires fs.Valid() && Holds(fs.State(), s) && Legal(s, ReadAt(i, off, count))
    ensures Apply(s, ReadAt(i, off, count)).1 == Data(bytes, off')
  {
    ghost var f := s.files[i];
    assert Keeps(fs.State(), i, f);
    bytes, off' := fs.Read(i, count, off);
    if off' != off { KnownStored(fs.State(), i, f.data, off, off'); }
  }

  lemma FreedOthers(d: Disk, i: nat)
    requires Shaped(d) && i < |d.inodes|
    ensures OthersUntouched(d, Freed(d, i), i) && !Live(Freed(d, i), i)
  {
    FreedSlots(d, i);
  }

  lemma TidyAfterFree(d: Disk, i: nat)
    requires Shaped(d) && i < |d.inodes| && AllTidy(d)
    ensures AllTidy(Freed(d, i))
  {
    FreedSlots(d, i);
    forall j: nat | j < |d.inodes| && Live(Freed(d, i), j) ensures Tidy(Freed(d, i), j) {
      assert Tidy(d, j);
    }
  }

  method DeleteFile(fs: FileSystem, ghost s: Store, i: nat)
    requires fs.Valid() && Holds(fs.State(), s) && i in s.files
    modifies fs, fs.used, fs.inodes
    ensures fs.Valid() && Holds(fs.State(), s.(files := s.files - {i}))
  {
    ghost var d := fs.State();
    assert Tidy(d, i);
    fs.FreeInode(i);
    FreedOthers(d, i);
    TidyAfterFree(d, i);
    HoldsAfter(d, fs.State(), s, s.(files := s.files - {i}), i);
  }

  // ---- Runs ----

  method Perform(fs: FileSystem, ghost s: Store, op: Op) returns (reply: Reply)
    requires fs.Valid() && Holds(fs.State(), s) && Legal(s, op)
    modifies fs, fs.used, fs.inodes, fs.blocks
    ensures fs.Valid() && Holds(fs.State(), Apply(s, op).0) && reply == Apply(s, op).1
  {
    match op {
      case Create =>
        var i := CreateFile(fs, s);
        reply := Created(i);
      case WriteAt(i, off, buf) =>
        var written, off' := WriteFile(fs, s, i, off, buf);
        reply := Written(written, off');
      case ReadAt(i, off, count) =>
        var bytes, off' := ReadFile(fs, s, i, off, count);
        reply := Data(bytes, off');
      case Delete(i) =>
        DeleteFile(fs, s, i);
        reply := Deleted;
    }
  }

  /** The rest of a run, on a disk that holds the files of `s`. */
  method Continue(fs: FileSystem, ghost s: Store, ops: seq<Op>) returns (replies: seq<Reply>)
    requires fs.Valid() && Holds(fs.State(), s) && LegalRun(s, ops)
    modifies fs, fs.used, fs.inodes, fs.blocks
    ensures fs.Valid() && Holds(fs.State(), Final(s, ops)) && replies == Replies(s, ops)
    decreases |ops|
  {
    replies := [];
    if ops != [] {
      var reply := Perform(fs, s, ops[0]);
      var rest := Continue(fs, Apply(s, ops[0]).0, ops[1..]);
      replies := [reply] + rest;
    }
  }

  /** Every run on a new disk, whether or not it fills the disk: the replies are those of the files as byte
      sequences, they are those of plain files exactly when these always fit, and the blocks in use
      afterwards are those that the files hold. */
  method Run(nodes: nat, size: nat, ops: seq<Op>) returns (replies: seq<Reply>, used: seq<bool>)
    requires size <= 0x7FFF_FFFF && LegalRun(NewStore(nodes, size), ops)
    ensures replies == Replies(NewStore(nodes, size), ops)
    ensures PlainLegalRun(map[], nodes, ops) ==>
              (replies == PlainReplies(map[], nodes, ops) <==> Fits(map[], nodes, size, ops))
    ensures |used| == size
    ensures |FreeSet(used)| + Holdings(Final(NewStore(nodes, size), ops).files, nodes) == size
    ensures Final(NewStore(nodes, size), ops).files == map[] ==> forall b | 0 <= b < size :: !used[b]
  {
    var fs := new FileSystem(nodes, size);
    ghost var s := NewStore(nodes, size);
    replies := Continue(fs, s, ops);
    used := fs.used[..];
    FinalSame(s, ops);
    FreeIsRoom(fs.State(), fs.owner, Final(s, ops));
    if Final(s, ops).files == map[] { NoFilesNoBlocks(fs.State(), fs.owner, Final(s, ops)); }
    if PlainLegalRun(map[], nodes, ops) { FitsFromEmpty(nodes, size, ops); }
  }

  lemma {:induction false} FinalSame(s: Store, ops: seq<Op>)
    requires LegalRun(s, ops)
    ensures Final(s, ops).nodes == s.nodes && Final(s, ops).blocks == s.blocks
    decreases |ops|
  {
    if ops != [] { FinalSame(Apply(s, ops[0]).0, ops[1..]); }
  }

  lemma FitsFromEmpty(nodes: nat, size: nat, ops: seq<Op>)
    requires PlainLegalRun(map[], nodes, ops)
    ensures var s := NewStore(nodes, size);
            Fits(map[], nodes, size, ops) <==> LegalRun(s, ops) && Replies(s, ops) == PlainReplies(map[], nodes, ops)
  {
    var none: Plain := map[];
    assert OnDisk(none, nodes, size).files == map[];
    HeldIsOccupied(none, nodes, size, nodes);
    NoneHeld(nodes);
    FitsExactly(none, nodes, size, ops);
  }

  // ---- Chunks ----

  function Sum(counts: seq<nat>): nat {
    if counts == [] then 0 else counts[0] + Sum(counts[1..])
  }

  lemma OverwriteTwice(c: seq<Byte>, off: nat, a: seq<Byte>, b: seq<Byte>)
    requires off <= |c|
    ensures Overwrite(Overwrite(c, off, a), off + |a|, b) == Overwrite(c, off, a + b)
  {}

  lemma SliceTwice(c: seq<Byte>, off: nat, m: nat, n: nat)
    ensures var first := Slice(c, off, m); first + Slice(c, off + |first|, n) == Slice(c, off, m + n)
  {}

  lemma NextWritten(c: seq<Byte>, off: nat, chunks: seq<seq<Byte>>, target: seq<Byte>) returns (c': seq<Byte>)
    requires chunks != [] && off <= |c| && target == Overwrite(c, off, Concat(chunks))
    ensures |Concat(chunks)| == |chunks[0]| + |Concat(chunks[1..])|
    ensures c' == Overwrite(c, off, chunks[0]) && |c'| >= off + |chunks[0]|
    ensures target == Overwrite(c', off + |chunks[0]|, Concat(chunks[1..]))
  {
    c' := Overwrite(c, off, chunks[0]);
    OverwriteTwice(c, off, chunks[0], Concat(chunks[1..]));
  }

  lemma NextChunk(c: seq<Byte>, off: nat, counts: seq<nat>, first: seq<Byte>, rest: seq<Byte>)
    requires counts != [] && first == Slice(c, off, counts[0])
    requires rest == Slice(c, off + |first|, Sum(counts[1..]))
    ensures first + rest == Slice(c, off, Sum(counts))
  {
    SliceTwice(c, off, counts[0], Sum(counts[1..]));
  }

  /** After a write that succeeded, a longer file fits exactly when it would have fitted before. */
  lemma RoomLeft(d0: Disk, d: Disk, i: nat, data: seq<Byte>, off: nat, buf: seq<Byte>, end: nat)
    requires Shaped(d0) && Shaped(d) && i < |d0.inodes| == |d.inodes| && Knows(d0, i, data) && off + |buf| <= end
    requires Wrote(d0, d, i, data, off, buf, |buf|, off + |buf|)
    ensures Needed(d, i, end) <= Free(d) <==> Needed(d0, i, end) <= Free(d0)
  {
    ListedByIndirect(d0, i);
    ListedByIndirect(d, i);
  }

  /** One write, which makes `data` into `data'`, after which there is still room for a file of `end` bytes. */
  method WriteChunk(fs: FileSystem, i: nat, chunk: seq<Byte>, off: nat, ghost data: seq<Byte>, ghost data': seq<Byte>,
                    ghost end: nat) returns (off': nat)
    requires fs.Valid() && i < fs.inodes.Length && Live(fs.State(), i) && Knows(fs.State(), i, data)
    requires off <= |data| && off + |chunk| <= end <= MAX_FILE_SIZE && data' == Overwrite(data, off, chunk)
    requires Needed(fs.State(), i, end) <= Free(fs.State())
    modifies fs, fs.used, fs.inodes, fs.blocks
    ensures fs.Valid() && Live(fs.State(), i) && off' == off + |chunk|
    ensures fs.inodes[i].size == Max(old(fs.inodes[i].size), off')
    ensures Knows(fs.State(), i, data')
    ensures Needed(fs.State(), i, end) <= Free(fs.State())
  {
    ghost var d := fs.State();
    NeededGrows(d, i, off + |chunk|, end);
    var written;
    written, off' := fs.Write(i, chunk, off, data);
    RoomLeft(d, fs.State(), i, data, off, chunk, end);
  }

  lemma NeededGrows(d: Disk, i: nat, a: nat, b: nat)
    requires Shaped(d) && i < |d.inodes| && Packed(d, i) && a <= b
    ensures Needed(d, i, a) <= Needed(d, i, b)
  {}

  /** The file begins with `data`, in which `off` lies, and there is room to write up to `end`. */
  ghost predicate Writable(d: Disk, i: nat, data: seq<Byte>, off: nat, end: nat) {
    && Shaped(d) && i < |d.inodes| && Live(d, i) && Knows(d, i, data) && off <= |data| && off <= end <= MAX_FILE_SIZE
    && Needed(d, i, end) <= Free(d)
  }

  method WriteFirst(fs: FileSystem, i: nat, chunks: seq<seq<Byte>>, off: nat, ghost data: seq<Byte>,
                    ghost target: seq<Byte>) returns (off': nat, ghost data': seq<Byte>)
    requires fs.Valid() && Writable(fs.State(), i, data, off, off + |Concat(chunks)|)
    requires chunks != [] && target == Overwrite(data, off, Concat(chunks))
    modifies fs, fs.used, fs.inodes, fs.blocks
    ensures fs.Valid() && Writable(fs.State(), i, data', off', off' + |Concat(chunks[1..])|)
    ensures off' == off + |chunks[0]| && fs.inodes[i].size == Max(old(fs.inodes[i].size), off')
    ensures target == Overwrite(data', off', Concat(chunks[1..]))
  {
    data' := NextWritten(data, off, chunks, target);
    off' := WriteChunk(fs, i, chunks[0], off, data, data', off + |Concat(chunks)|);
  }

  /** Consecutive writes through the offset that each write returns. */
  method WriteChunks(fs: FileSystem, i: nat, chunks: seq<seq<Byte>>, off: nat, ghost data: seq<Byte>,
                     ghost target: seq<Byte>) returns (off': nat)
    requires fs.Valid() && Writable(fs.State(), i, data, off, off + |Concat(chunks)|)
    requires target == Overwrite(data, off, Concat(chunks))
    modifies fs, fs.used, fs.inodes, fs.blocks
    ensures fs.Valid() && i < fs.inodes.Length && Live(fs.State(), i) && off' == off + |Concat(chunks)|
    ensures fs.inodes[i].size == Max(old(fs.inodes[i].size), off')
    ensures Knows(fs.State(), i, target)
    decreases |chunks|
  {
    off' := off;
    if chunks != [] {
      ghost var data';
      off', data' := WriteFirst(fs, i, chunks, off, data, target);
      off' := WriteChunks(fs, i, chunks[1..], off', data', target);
    }
  }

  method ReadChunk(fs: FileSystem, i: nat, count: nat, off: nat, ghost data: seq<Byte>)
    returns (bytes: seq<Byte>, off': nat)
    requires fs.Valid() && i < fs.inodes.Length && Live(fs.State(), i)
    requires Knows(fs.State(), i, data) && |data| == fs.inodes[i].size
    ensures bytes == Slice(data, off, count) && off' == off + |bytes|
  {
    bytes, off' := fs.Read(i, count, off);
    if off' != off { KnownStored(fs.State(), i, data, off, off'); }
  }

  method ReadChunks(fs: FileSystem, i: nat, counts: seq<nat>, off: nat, ghost data: seq<Byte>)
    returns (bytes: seq<Byte>)
    requires fs.Valid() && i < fs.inodes.Length && Live(fs.State(), i)
    requires Knows(fs.State(), i, data) && |data| == fs.inodes[i].size
    ensures bytes == Slice(data, off, Sum(counts))
    decreases |counts|
  {
    bytes := [];
    if counts != [] {
      var first, off' := ReadChunk(fs, i, counts[0], off, data);
      var rest := ReadChunks(fs, i, counts[1..], off', data);
      NextChunk(data, off, counts, first, rest);
      bytes := first + rest;
    }
  }

  /** Any chunking of the writes followed by any chunking of the reads gives back the bytes, also across
      blocks and across the border between direct and listed blocks, if the disk is large enough. */
  method RoundTrip(size: nat, chunks: seq<seq<Byte>>, counts: seq<nat>) returns (bytes: seq<Byte>)
    requires size <= 0x7FFF_FFFF && |Concat(chunks)| <= 360448
    requires (|Concat(chunks)| + 16383) / 16384 + (if |Concat(chunks)| > 180224 then 1 else 0) <= size
    ensures bytes == if Sum(counts) >= |Concat(chunks)| then Concat(chunks) else Concat(chunks)[..Sum(counts)]
  {
    var fs := new FileSystem(2, size);
    fs.InitInode(1);
    var end := WriteChunks(fs, 1, chunks, 0, [], Concat(chunks));
    bytes := ReadChunks(fs, 1, counts, 0, Concat(chunks));
  }

  lemma LargestWrote(d0: Disk, d: Disk, size: nat, data: seq<Byte>, written: int, off': nat)
    requires Shaped(d0) && Shaped(d) && |d0.inodes| == |d.inodes| == 2 && Packed(d0, 1) && |data| == 360448
    requires Wrote(d0, d, 1, [], 0, data, written, off')
    requires Blocks(d0, 1) == 0 && !HasIndirect(d0, 1) && Free(d0) == size
    ensures if size >= 23 then written == 360448 && off' == 360448
            else written == -1 && off' == if size <= 11 then 16384 * size else 16384 * (size - 1)
    ensures Knows(d, 1, data[..off'])
  {
    assert data[..360448] == data && Overwrite([], 0, data) == data && [] + data[..off'] == data[..off'];
  }

  /** In numbers: a new file takes 360448 bytes if the disk has 23 blocks, otherwise it fills the disk, of which one
      block lists others if there are more than eleven. One byte more is refused on any disk. */
  method LargestFile(size: nat, data: seq<Byte>, longer: seq<Byte>)
    returns (refused: int, written: int, off': nat, bytes: seq<Byte>)
    requires size <= 0x7FFF_FFFF && |data| == 360448 && |longer| == 360449
    ensures refused == -1
    ensures if size >= 23 then written == 360448 && off' == 360448
            else written == -1 && off' == if size <= 11 then 16384 * size else 16384 * (size - 1)
    ensures bytes == data[..off']
  {
    var fs := new FileSystem(2, size);
    fs.InitInode(1);
    var o;
    refused, o := fs.Write(1, longer, 0, []);
    ghost var d := fs.State();
    written, off' := fs.Write(1, data, 0, []);
    LargestWrote(d, fs.State(), size, data, written, off');
    bytes, o := fs.Read(1, off', 0);
    if off' > 0 { KnownStored(fs.State(), 1, data[..off'], 0, off'); }
  }
}
