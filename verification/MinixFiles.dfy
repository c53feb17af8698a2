/** What the file system promises, without blocks: files as byte sequences, the number of blocks that they
    hold, and the replies to every run, also of runs that fill the disk. */
module MinixFiles {
  import opened Bytes
  import opened MinixBlocks
  import opened MinixContent

  /** `data` is what can be read back. A write that filled the disk leaves a size beyond it, and perhaps an
      indirect block that lists nothing. */
  datatype FileState = FileState(data: seq<Byte>, size: nat, indirect: bool)

  type File = f: FileState | |f.data| <= f.size && (BlocksFor(|f.data|) > NUM_DIRECT ==> f.indirect)
    witness FileState([], 0, false)

  const EMPTY_FILE: File := FileState([], 0, false)

  function Holding(f: File): nat { BlocksFor(|f.data|) + if f.indirect then 1 else 0 }

  datatype Store = Store(nodes: nat, blocks: nat, files: map<nat, File>)

  function NewStore(nodes: nat, blocks: nat): Store { Store(nodes, blocks, map[]) }

  function Holdings(files: map<nat, File>, n: nat): nat {
    if n == 0 then 0 else Holdings(files, n - 1) + if n - 1 in files then Holding(files[n - 1]) else 0
  }

  /** The blocks that no file holds. */
  function Room(s: Store): nat {
    var held := Holdings(s.files, s.nodes);
    if held < s.blocks then s.blocks - held else 0
  }

  datatype Op =
    | Create
    | WriteAt(i: nat, off: nat, buf: seq<Byte>)
    | ReadAt(i: nat, off: nat, count: nat)
    | Delete(i: nat)

  /** What an operation returns; a count of -1 stands for failure. */
  datatype Reply = Created(inode: nat) | Written(count: int, off: nat) | Data(bytes: seq<Byte>, off: nat) | Deleted

  /** The first number from `k` on that names no file, or -1. */
  function FirstUnnamed(names: set<nat>, nodes: nat, k: nat): (i: int)
    ensures i == -1 <==> forall j | k <= j < nodes :: j in names
    ensures i != -1 ==> k <= i < nodes && i !in names && forall j | k <= j < i :: j in names
    decreases nodes - k
  {
    if k >= nodes then -1 else if k !in names then k else FirstUnnamed(names, nodes, k + 1)
  }

  /** A file that lacks blocks is filled up to its last block. */
  lemma ReachFallsShort(f: File, free: nat, off: nat, end: nat)
    requires off <= |f.data| && MoreFor(BlocksFor(|f.data|), f.indirect, end) > free
    ensures off <= Reach(BlocksFor(|f.data|), f.indirect, free) * BLOCK_SIZE < end
  {}

  function Rewrite(f: File, free: nat, off: nat, buf: seq<Byte>): (File, Reply)
    requires off <= |f.data|
  {
    var n, end := BlocksFor(|f.data|), off + |buf|;
    if end > MAX_FILE_SIZE then (f, Written(-1, off))
    else if MoreFor(n, f.indirect, end) <= free then
      (FileState(Overwrite(f.data, off, buf), Max(f.size, end), f.indirect || BlocksFor(end) > NUM_DIRECT),
       Written(|buf|, end))
    else
      ReachFallsShort(f, free, off, end);
      var full := Reach(n, f.indirect, free) * BLOCK_SIZE;
      (FileState(f.data[..off] + buf[..full - off], Max(f.size, end), f.indirect || n + free > NUM_DIRECT),
       Written(-1, full))
  }

  /** Where a read ends. */
  function ReadEnd(f: File, off: nat, count: nat): (end: nat)
    ensures off <= end
  {
    if off >= f.size then off else Min(off + count, f.size)
  }

  /** A file is created only while an inode is unused, because the code takes inode -1 otherwise. Accesses are
      to files that exist; writes start inside the data or at its end, reads stay inside. */
  predicate Legal(s: Store, op: Op) {
    match op
    case Create => FirstUnnamed(s.files.Keys, s.nodes, 1) != -1
    case WriteAt(i, off, _) => i in s.files && off <= |s.files[i].data|
    case ReadAt(i, off, count) =>
      i in s.files && (off >= s.files[i].size || ReadEnd(s.files[i], off, count) <= |s.files[i].data|)
    case Delete(i) => i in s.files
  }

  function Apply(s: Store, op: Op): (Store, Reply)
    requires Legal(s, op)
  {
    match op
    case Create =>
      var i := FirstUnnamed(s.files.Keys, s.nodes, 1);
      (s.(files := s.files[i := EMPTY_FILE]), Created(i))
    case WriteAt(i, off, buf) =>
      var (f, reply) := Rewrite(s.files[i], Room(s), off, buf);
      (s.(files := s.files[i := f]), reply)
    case ReadAt(i, off, count) =>
      var end := ReadEnd(s.files[i], off, count);
      (s, Data(if end == off then [] else s.files[i].data[off..end], end))
    case Delete(i) => (s.(files := s.files - {i}), Deleted)
  }

  predicate LegalRun(s: Store, ops: seq<Op>)
    decreases |ops|
  {
    ops == [] || (Legal(s, ops[0]) && LegalRun(Apply(s, ops[0]).0, ops[1..]))
  }

  function Final(s: Store, ops: seq<Op>): Store
    requires LegalRun(s, ops)
    decreases |ops|
  {
    if ops == [] then s else Final(Apply(s, ops[0]).0, ops[1..])
  }

  function Replies(s: Store, ops: seq<Op>): seq<Reply>
    requires LegalRun(s, ops)
    decreases |ops|
  {
    if ops == [] then [] else [Apply(s, ops[0]).1] + Replies(Apply(s, ops[0]).0, ops[1..])
  }

  // ---- Plain files ----

  /** No blocks at all: a write fails only beyond the limit. */
  type Plain = map<nat, seq<Byte>>

  function Slice(c: seq<Byte>, off: nat, count: nat): (r: seq<Byte>)
    ensures |r| == if off >= |c| then 0 else if off + count > |c| then |c| - off else count
    ensures forall p | 0 <= p < |r| :: r[p] == c[off + p]
  {
    if off >= |c| then [] else if off + count > |c| then c[off..] else c[off..off + count]
  }

  predicate PlainLegal(p: Plain, nodes: nat, op: Op) {
    match op
    case Create => FirstUnnamed(p.Keys, nodes, 1) != -1
    case WriteAt(i, off, _) => i in p && off <= |p[i]|
    case ReadAt(i, _, _) => i in p
    case Delete(i) => i in p
  }

  function PlainApply(p: Plain, nodes: nat, op: Op): (Plain, Reply)
    requires PlainLegal(p, nodes, op)
  {
    match op
    case Create =>
      var i := FirstUnnamed(p.Keys, nodes, 1);
      (p[i := []], Created(i))
    case WriteAt(i, off, buf) =>
      if off + |buf| > MAX_FILE_SIZE then (p, Written(-1, off))
      else (p[i := Overwrite(p[i], off, buf)], Written(|buf|, off + |buf|))
    case ReadAt(i, off, count) => (p, Data(Slice(p[i], off, count), off + |Slice(p[i], off, count)|))
    case Delete(i) => (p - {i}, Deleted)
  }

  predicate PlainLegalRun(p: Plain, nodes: nat, ops: seq<Op>)
    decreases |ops|
  {
    ops == [] || (PlainLegal(p, nodes, ops[0]) && PlainLegalRun(PlainApply(p, nodes, ops[0]).0, nodes, ops[1..]))
  }

  function PlainReplies(p: Plain, nodes: nat, ops: seq<Op>): seq<Reply>
    requires PlainLegalRun(p, nodes, ops)
    decreases |ops|
  {
    if ops == [] then []
    else [PlainApply(p, nodes, ops[0]).1] + PlainReplies(PlainApply(p, nodes, ops[0]).0, nodes, ops[1..])
  }

  /** The blocks that a file of these bytes needs: those for the bytes and, beyond eleven, one to list them. */
  function Occupied(c: seq<Byte>): nat { BlocksFor(|c|) + if BlocksFor(|c|) > NUM_DIRECT then 1 else 0 }

  function OccupiedBelow(p: Plain, n: nat): nat {
    if n == 0 then 0 else OccupiedBelow(p, n - 1) + if n - 1 in p then Occupied(p[n - 1]) else 0
  }

  /** After every operation of the run the plain files would fit on the disk. */
  predicate Fits(p: Plain, nodes: nat, blocks: nat, ops: seq<Op>)
    requires PlainLegalRun(p, nodes, ops)
    decreases |ops|
  {
    ops == []
    || var p' := PlainApply(p, nodes, ops[0]).0;
       OccupiedBelow(p', nodes) <= blocks && Fits(p', nodes, blocks, ops[1..])
  }

  function Filed(c: seq<Byte>): File { FileState(c, |c|, BlocksFor(|c|) > NUM_DIRECT) }

  function OnDisk(p: Plain, nodes: nat, blocks: nat): Store {
    Store(nodes, blocks, map i | i in p :: Filed(p[i]))
  }

  lemma {:induction false} HeldIsOccupied(p: Plain, nodes: nat, blocks: nat, n: nat)
    ensures Holdings(OnDisk(p, nodes, blocks).files, n) == OccupiedBelow(p, n)
  {
    if n > 0 { HeldIsOccupied(p, nodes, blocks, n - 1); }
  }

  /** One file more or less, or another one. */
  lemma {:induction false} OccupiedAfter(p: Plain, p': Plain, i: nat, n: nat)
    requires forall j: nat | j != i :: (j in p' <==> j in p) && (j in p ==> p'[j] == p[j])
    ensures OccupiedBelow(p', n) + (if i < n && i in p then Occupied(p[i]) else 0)
         == OccupiedBelow(p, n) + if i < n && i in p' then Occupied(p'[i]) else 0
  {
    if n > 0 { OccupiedAfter(p, p', i, n - 1); }
  }

  lemma OverwriteOccupies(c: seq<Byte>, off: nat, buf: seq<Byte>)
    requires off <= |c|
    ensures Occupied(Overwrite(c, off, buf))
         == Occupied(c) + MoreFor(BlocksFor(|c|), BlocksFor(|c|) > NUM_DIRECT, off + |buf|)
  {
    assert |Overwrite(c, off, buf)| == Max(|c|, off + |buf|);
  }

  ghost predicate Named(p: Plain, nodes: nat) { forall i | i in p :: 1 <= i < nodes }

  /** On the disk the operation answers as for plain files exactly when its result fits. */
  ghost predicate AlikeIfFits(p: Plain, nodes: nat, blocks: nat, op: Op)
    requires PlainLegal(p, nodes, op)
  {
    var s, p' := OnDisk(p, nodes, blocks), PlainApply(p, nodes, op).0;
    && Legal(s, op) && Named(p', nodes)
    && (OccupiedBelow(p', nodes) <= blocks <==> Apply(s, op).1 == PlainApply(p, nodes, op).1)
    && (OccupiedBelow(p', nodes) <= blocks ==> Apply(s, op).0 == OnDisk(p', nodes, blocks))
  }

  lemma StoredWith(p: Plain, nodes: nat, blocks: nat, i: nat, c: seq<Byte>)
    ensures OnDisk(p[i := c], nodes, blocks).files == OnDisk(p, nodes, blocks).files[i := Filed(c)]
  {}

  lemma FiledWrite(c: seq<Byte>, free: nat, off: nat, buf: seq<Byte>)
    requires off <= |c| && off + |buf| <= MAX_FILE_SIZE
    ensures var c' := Overwrite(c, off, buf);
            var (f, reply) := Rewrite(Filed(c), free, off, buf);
            && (Occupied(c') <= Occupied(c) + free <==> reply == Written(|buf|, off + |buf|))
            && (Occupied(c') <= Occupied(c) + free ==> f == Filed(c'))
  {
    OverwriteOccupies(c, off, buf);
    assert |Overwrite(c, off, buf)| == Max(|c|, off + |buf|);
  }

  lemma WriteFits(p: Plain, nodes: nat, blocks: nat, i: nat, off: nat, buf: seq<Byte>)
    requires Named(p, nodes) && OccupiedBelow(p, nodes) <= blocks && i in p && off <= |p[i]|
    ensures AlikeIfFits(p, nodes, blocks, WriteAt(i, off, buf))
  {
    var s := OnDisk(p, nodes, blocks);
    HeldIsOccupied(p, nodes, blocks, nodes);
    if off + |buf| > MAX_FILE_SIZE {
      assert s.files[i := s.files[i]] == s.files;
    } else {
      var c := Overwrite(p[i], off, buf);
      OccupiedAfter(p, p[i := c], i, nodes);
      FiledWrite(p[i], Room(s), off, buf);
      StoredWith(p, nodes, blocks, i, c);
    }
  }

  lemma CreateFits(p: Plain, nodes: nat, blocks: nat)
    requires Named(p, nodes) && OccupiedBelow(p, nodes) <= blocks && PlainLegal(p, nodes, Create)
    ensures AlikeIfFits(p, nodes, blocks, Create)
  {
    var s, i := OnDisk(p, nodes, blocks), FirstUnnamed(p.Keys, nodes, 1);
    assert s.files.Keys == p.Keys;
    OccupiedAfter(p, p[i := []], i, nodes);
    assert Filed([]) == EMPTY_FILE;
    StoredWith(p, nodes, blocks, i, []);
  }

  lemma DeleteFits(p: Plain, nodes: nat, blocks: nat, i: nat)
    requires Named(p, nodes) && OccupiedBelow(p, nodes) <= blocks && i in p
    ensures AlikeIfFits(p, nodes, blocks, Delete(i))
  {
    var s := OnDisk(p, nodes, blocks);
    OccupiedAfter(p, p - {i}, i, nodes);
    assert s.files - {i} == OnDisk(p - {i}, nodes, blocks).files;
  }

  lemma ReadFits(p: Plain, nodes: nat, blocks: nat, i: nat, off: nat, count: nat)
    requires Named(p, nodes) && OccupiedBelow(p, nodes) <= blocks && i in p
    ensures AlikeIfFits(p, nodes, blocks, ReadAt(i, off, count))
  {
    var f := OnDisk(p, nodes, blocks).files[i];
    assert ReadEnd(f, off, count) == off + |Slice(p[i], off, count)|;
  }

  lemma StepFits(p: Plain, nodes: nat, blocks: nat, op: Op)
    requires Named(p, nodes) && OccupiedBelow(p, nodes) <= blocks && PlainLegal(p, nodes, op)
    ensures AlikeIfFits(p, nodes, blocks, op)
  {
    match op
    case Create => CreateFits(p, nodes, blocks);
    case WriteAt(i, off, buf) => WriteFits(p, nodes, blocks, i, off, buf);
    case ReadAt(i, off, count) => ReadFits(p, nodes, blocks, i, off, count);
    case Delete(i) => DeleteFits(p, nodes, blocks, i);
  }

  lemma {:induction false} Begins(a: Reply, x: seq<Reply>, b: Reply, y: seq<Reply>)
    ensures [a] + x == [b] + y <==> a == b && x == y
  {
    if [a] + x == [b] + y {
      assert ([a] + x)[0] == a && ([a] + x)[1..] == x;
      assert ([b] + y)[0] == b && ([b] + y)[1..] == y;
    }
  }

  /** A run on the disk goes like one on plain files exactly when these would always fit. */
  lemma {:induction false} FitsExactly(p: Plain, nodes: nat, blocks: nat, ops: seq<Op>)
    requires Named(p, nodes) && OccupiedBelow(p, nodes) <= blocks && PlainLegalRun(p, nodes, ops)
    ensures var s := OnDisk(p, nodes, blocks);
            Fits(p, nodes, blocks, ops) <==> LegalRun(s, ops) && Replies(s, ops) == PlainReplies(p, nodes, ops)
    decreases |ops|
  {
    if ops != [] {
      StepFits(p, nodes, blocks, ops[0]);
      var s, p' := OnDisk(p, nodes, blocks), PlainApply(p, nodes, ops[0]).0;
      if OccupiedBelow(p', nodes) <= blocks { FitsExactly(p', nodes, blocks, ops[1..]); }
      if LegalRun(s, ops) {
        Begins(Apply(s, ops[0]).1, Replies(Apply(s, ops[0]).0, ops[1..]),
               PlainApply(p, nodes, ops[0]).1, PlainReplies(p', nodes, ops[1..]));
      }
    }
  }
}
