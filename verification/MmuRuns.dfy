/** Whole runs of the memory management unit in place. */
module MmuRuns {
  import opened Options
  import opened Mmu
  import opened MmuDevice
  import FlatMemory

  /** One operation; None when frames run out. */
  method Perform(d: Device, op: Op, ghost m: Machine) returns (reply: Option<Reply>)
    requires d.Sound() && m == d.State() && Legal(m, op)
    modifies d, d.kernel, d.kernel.entryMapping, d.kernel.frames, d.tlb, d.tlb.repr
    ensures d.Valid() && fresh(d.tlb.repr - old(d.tlb.repr))
    ensures reply.Some? == Step(m, op).Some?
    ensures reply.Some? ==> d.Sound() && d.State() == Step(m, op).value.0 && reply.value == Step(m, op).value.1
  {
    match op {
      case Add(p) =>
        var ok := d.AddProcess(p);
        reply := if ok then Some(Done) else None;
      case Remove(p) =>
        d.RemoveProcess(p);
        reply := Some(Done);
      case ReadAt(p, a, count) => reply := d.Read(p, a, count);
      case WriteAt(p, a, data) => reply := d.Write(p, a, data);
      case Resize(p, i, pages, grow) =>
        d.Resize(p, i, pages, grow);
        reply := Some(Done);
    }
  }

  method Continue(d: Device, ops: seq<Op>, ghost m: Machine) returns (replies: seq<Reply>)
    requires d.Sound() && m == d.State() && LegalRun(m, ops)
    modifies d, d.kernel, d.kernel.entryMapping, d.kernel.frames, d.tlb, d.tlb.repr
    ensures replies == Completed(m, ops)
    decreases |ops|
  {
    if ops == [] {
      return [];
    }
    var reply := Perform(d, ops[0], m);
    if reply.None? {
      return [];
    }
    var rest := Continue(d, ops[1..], Step(m, ops[0]).value.0);
    replies := [reply.value] + rest;
  }

  /** A run of a new unit, with translation buffer, frames and swap files changed in place: it ends early
      exactly when frames run out, and as long as it is clean its replies are those of flat memory. */
  method Execute(frames: nat, ops: seq<Op>) returns (replies: seq<Reply>)
    requires LegalRun(Boot(frames), ops)
    ensures |replies| == |ops| <==> FlatMemory.Supplied(Boot(frames), ops)
    ensures replies == Completed(Boot(frames), ops)
    ensures FlatMemory.RepliesAgree(Boot(frames), FlatMemory.FlatBoot(), ops)
    ensures FlatMemory.CleanRun(Boot(frames), ops) ==> replies <= FlatMemory.FlatReplies(FlatMemory.FlatBoot(), ops)
  {
    var d := new Device(frames);
    replies := Continue(d, ops, Boot(frames));
    FlatMemory.FlatMemoryRefinement(frames, ops);
    FlatMemory.ReachableStates(frames, ops);
    FlatMemory.CompletedIsRun(Boot(frames), ops);
  }
}
