/** A directory that lives in one block, as creation, removal and search change and read it in place. */
module MinixDirectory {
  import opened Bytes
  import opened MinixBlocks
  import opened MinixEntries

  /** The terminator of the last number must fall into the block, so the last slot stays empty. */
  const CAPACITY := 63

  class Directory {
    const block: array<Byte>
    var size: nat
    ghost var entries: seq<Entry>

    ghost predicate Valid()
      reads this, block
    {
      size == ENTRY * |entries| && |entries| <= CAPACITY && Prints(block[..], entries) && Unique(entries)
    }

    /** A directory whose block holds anything, with no entry yet. */
    constructor (bytes: Block)
      requires |bytes| == BLOCK_SIZE
      ensures Valid() && entries == [] && fresh(block)
    {
      block := new Byte[BLOCK_SIZE](k requires 0 <= k < BLOCK_SIZE => bytes[k]);
      size, entries := 0, [];
    }

    method Copy(at: nat, bytes: seq<Byte>)
      requires at + |bytes| <= block.Length
      modifies block
      ensures block[..] == Splice(old(block[..]), at, bytes)
    {
      for k := 0 to |bytes|
        invariant block[..] == Splice(old(block[..]), at, bytes[..k])
      {
        block[at + k] := bytes[k];
      }
      assert bytes[..|bytes|] == bytes;
    }

    /** Writes the name, padded, and the number with its terminator. */
    method PrintEntry(at: nat, e: Entry)
      requires IsEntry(e) && at + ENTRY < block.Length
      modifies block
      ensures block[..] == Splice(old(block[..]), at, Slot(e) + [0])
      ensures var s := block[at..at + 257];
              s[..|e.name|] == e.name && (forall k | |e.name| <= k < 248 :: s[k] == 0) && s[256] == 0
      ensures var s, hex := block[at + 248..at + 256], "0123456789abcdef";
              && s[7] as char == hex[e.ino % 16] && s[6] as char == hex[e.ino / 0x10 % 16]
              && s[5] as char == hex[e.ino / 0x100 % 16] && s[4] as char == hex[e.ino / 0x1000 % 16]
              && s[3] as char == hex[e.ino / 0x1_0000 % 16] && s[2] as char == hex[e.ino / 0x10_0000 % 16]
              && s[1] as char == hex[e.ino / 0x100_0000 % 16] && s[0] as char == hex[e.ino / 0x1000_0000 % 16]
      ensures forall k | 0 <= k < block.Length && !(at <= k <= at + 256) :: block[k] == old(block[k])
    {
      Copy(at, Padded(e.name));
      Copy(at + NAME_LENGTH, Digits(e.ino, DIGITS) + [0]);
      SlotBytes(e);
      assert block[at..at + 257] == Slot(e) + [0];
      assert block[at + 248..at + 256] == block[at..at + 257][248..256];
      PrintedDigits(e.ino);
    }

    /** A number of 0 counts as a failure. */
    method ParseEntry(at: nat) returns (ok: bool, e: Entry)
      requires at + ENTRY <= block.Length
      ensures e == Entry(CString(block[at..]), ParseHex(block[at + NAME_LENGTH..at + ENTRY]))
      ensures ok <==> e.ino != 0
    {
      e := Entry(CString(block[at..]), ParseHex(block[at + NAME_LENGTH..at + ENTRY]));
      ok := e.ino != 0;
    }

    method EntryAt(k: nat) returns (ok: bool, e: Entry)
      requires Valid() && k < |entries|
      ensures ok && e == entries[k]
    {
      ok, e := ParseEntry(ENTRY * k);
      SlotRoundTrip(block[..], entries, k);
      assert block[..][ENTRY * k..] == block[ENTRY * k..];
      assert block[..][ENTRY * k + NAME_LENGTH..ENTRY * k + ENTRY] == block[ENTRY * k + NAME_LENGTH..ENTRY * k + ENTRY];
    }

    /** The inode that the directory binds the name to, or -1. */
    method FindInodeNamed(name: seq<Byte>) returns (ino: int)
      requires Valid()
      ensures ino == if name in Bindings(entries) then Bindings(entries)[name] else -1
    {
      var left, at := size, 0;
      var node := Entry([], 0);
      while left > 0 && at < BLOCK_SIZE
        invariant at + left == size && at % ENTRY == 0 && 0 <= at / ENTRY <= |entries|
        invariant forall k: nat | k < at / ENTRY :: entries[k].name != name
      {
        var ok, e := EntryAt(at / ENTRY);
        if ok {
          node := e;
        }
        if name == node.name {
          FoundBinding(entries, at / ENTRY);
          return node.ino;
        }
        at := at + ENTRY;
        left := left - ENTRY;
      }
      NoBinding(entries, name);
      ino := -1;
    }

    /** Adds a binding, unless the name is bound. */
    method Create(name: seq<Byte>, ino: nat) returns (ok: bool)
      requires 0 < |name| < 248 && (forall k | 0 <= k < |name| :: name[k] != 0) && 0 < ino < 0x8000_0000
      requires Valid() && |entries| < 63
      requires forall e | e in entries :: e.ino != ino
      modifies this, block
      ensures Valid() && (ok <==> name !in Bindings(old(entries)))
      ensures entries == if ok then old(entries) + [Entry(name, ino)] else old(entries)
      ensures ok ==> Bindings(entries) == Bindings(old(entries))[name := ino]
    {
      var found := FindInodeNamed(name);
      if found != -1 {
        return false;
      }
      AppendBinding(entries, Entry(name, ino));
      Append(Entry(name, ino));
      ok := true;
    }

    method Append(e: Entry)
      requires Valid() && IsEntry(e) && |entries| < CAPACITY && Unique(entries + [e])
      modifies this, block
      ensures Valid() && entries == old(entries) + [e]
    {
      AppendPrints(block[..], entries, e);
      PrintEntry(size, e);
      size := size + ENTRY;
      entries := entries + [e];
    }

    method MoveDown(t: nat)
      requires ENTRY * (t + 1) <= block.Length == BLOCK_SIZE
      modifies block
      ensures block[..] == MovedDown(old(block[..]), t)
    {
      for k := ENTRY * t to BLOCK_SIZE - ENTRY
        invariant forall j | 0 <= j < BLOCK_SIZE :: block[j] == old(block[if ENTRY * t <= j < k then j + ENTRY else j])
      {
        block[k] := block[k + ENTRY];
      }
    }

    /** Removes the entry of inode `ino`, which entry `t` is; the others keep their order. */
    method RemoveInode(ino: nat, ghost t: nat)
      requires Valid() && t < |entries| && entries[t].ino == ino
      modifies this, block
      ensures Valid() && entries == Without(old(entries), t)
    {
      var k := FindInode(ino, t);
      MovePrints(block[..], entries, t);
      WithoutElements(entries, t);
      MoveDown(k);
      size := size - ENTRY;
      entries := Without(entries, t);
    }

    /** The place of the first entry with the inode. */
    method FindInode(ino: nat, ghost t: nat) returns (k: nat)
      requires Valid() && t < |entries| && entries[t].ino == ino
      ensures k == t
    {
      k := 0;
      while ENTRY * k < BLOCK_SIZE && ENTRY * k < size
        invariant 0 <= k <= t
      {
        var ok, e := EntryAt(k);
        if e.ino == ino {
          break;
        }
        k := k + 1;
      }
    }

    /** Finds the inode of the name and removes its entry. */
    method Unlink(name: seq<Byte>) returns (ok: bool)
      requires Valid()
      modifies this, block
      ensures Valid() && (ok <==> name in Bindings(old(entries)))
      ensures if ok then exists t: nat :: t < |old(entries)| && old(entries)[t].name == name
                                          && entries == Without(old(entries), t)
              else entries == old(entries)
      ensures Bindings(entries) == Bindings(old(entries)) - {name}
    {
      var ino := FindInodeNamed(name);
      if ino == -1 {
        return false;
      }
      BindingsAreEntries(entries);
      assert Entry(name, ino) in entries;
      ghost var t: nat :| t < |entries| && entries[t] == Entry(name, ino);
      WithoutBinding(entries, t);
      RemoveInode(ino, t);
      ok := true;
    }
  }

  // ---- Runs ----

  type Bound = map<seq<Byte>, nat>

  datatype Op = Add(name: seq<Byte>, ino: nat) | Remove(name: seq<Byte>) | Find(name: seq<Byte>)

  /** A new file gets an inode that no other entry has, and room is left for it. */
  predicate Legal(m: Bound, op: Op) {
    op.Add? ==>
      && 0 < |op.name| < 248 && (forall k | 0 <= k < |op.name| :: op.name[k] != 0)
      && 0 < op.ino < 0x8000_0000 && op.ino !in m.Values && |m| < 63
  }

  function Apply(m: Bound, op: Op): Bound {
    match op
    case Add(name, ino) => if name in m then m else m[name := ino]
    case Remove(name) => m - {name}
    case Find(_) => m
  }

  function Reply(m: Bound, op: Op): int {
    match op
    case Add(name, ino) => if name in m then -1 else ino
    case Remove(name) => if name in m then 0 else -1
    case Find(name) => if name in m then m[name] else -1
  }

  predicate LegalRun(m: Bound, ops: seq<Op>)
    decreases |ops|
  {
    ops == [] || (Legal(m, ops[0]) && LegalRun(Apply(m, ops[0]), ops[1..]))
  }

  function Replies(m: Bound, ops: seq<Op>): seq<int>
    decreases |ops|
  {
    if ops == [] then [] else [Reply(m, ops[0])] + Replies(Apply(m, ops[0]), ops[1..])
  }

  method Perform(d: Directory, op: Op) returns (reply: int)
    requires d.Valid() && Legal(Bindings(d.entries), op)
    modifies d, d.block
    ensures d.Valid() && Bindings(d.entries) == Apply(Bindings(old(d.entries)), op)
    ensures reply == Reply(Bindings(old(d.entries)), op)
  {
    match op {
      case Add(name, ino) =>
        NewInode(d.entries, ino);
        BindingsSize(d.entries);
        var ok := d.Create(name, ino);
        reply := if ok then ino else -1;
      case Remove(name) =>
        var ok := d.Unlink(name);
        reply := if ok then 0 else -1;
      case Find(name) => reply := d.FindInodeNamed(name);
    }
  }

  method Continue(d: Directory, ops: seq<Op>) returns (replies: seq<int>)
    requires d.Valid() && LegalRun(Bindings(d.entries), ops)
    modifies d, d.block
    ensures replies == Replies(Bindings(old(d.entries)), ops)
    decreases |ops|
  {
    replies := [];
    if ops != [] {
      var reply := Perform(d, ops[0]);
      var rest := Continue(d, ops[1..]);
      replies := [reply] + rest;
    }
  }

  /** Every run on a new directory, whatever its block held before: all replies are those of a map. */
  method Run(bytes: Block, ops: seq<Op>) returns (replies: seq<int>)
    requires |bytes| == BLOCK_SIZE && LegalRun(map[], ops)
    ensures replies == Replies(map[], ops)
  {
    var d := new Directory(bytes);
    replies := Continue(d, ops);
  }
}
