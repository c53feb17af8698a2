/** The segments of a process: which addresses are legal, and for what. */
module Segments {
  import opened Options
  import opened VmTypes

  datatype Permission = READ | WRITE | EXEC

  datatype Segment = Segment(start: Address, end: Address, permissions: set<Permission>, growsDown: bool)

  const NUM_SEGMENTS := 7
  const STACK := 0
  const MMAP := 1
  const HEAP := 2
  const BSS := 3
  const DATA := 4
  const TEXT := 5
  const TESTING := 6

  type Segmentation = s: seq<Segment> | |s| == NUM_SEGMENTS
    witness seq(NUM_SEGMENTS, _ => Segment(0, 0, {}, false))

  function Initial(): Segmentation {
    [
      Segment(0xBFFF_E000, 0xC07F_E000, {READ, WRITE}, true),
      Segment(0xC07F_E000, 0xC07F_E000, {READ, EXEC, WRITE}, true),
      Segment(0x0807_2000, 0x0807_2000, {READ, WRITE}, false),
      Segment(0x0805_A000, 0x0807_2000, {READ, WRITE}, false),
      Segment(0x0805_2000, 0x0805_A000, {READ, WRITE}, false),
      Segment(0x0804_8000, 0x0805_2000, {READ, EXEC}, false),
      Segment(PAGE_SIZE, 3 * PAGE_SIZE, {READ, WRITE}, false)]
  }

  /** Both bounds belong to the segment. */
  predicate Covers(s: Segment, a: Address) {
    if s.growsDown then s.end <= a <= s.start else s.start <= a <= s.end
  }

  function Find(s: seq<Segment>, a: Address): (r: Option<Segment>)
    ensures r.None? <==> forall i | 0 <= i < |s| :: !Covers(s[i], a)
    ensures r.Some? ==> exists i :: 0 <= i < |s| && s[i] == r.value && Covers(s[i], a)
                                    && forall j | 0 <= j < i :: !Covers(s[j], a)
  {
    if s == [] then None
    else if Covers(s[0], a) then Some(s[0])
    else
      var r := Find(s[1..], a);
      assert r.Some? ==> exists i :: 0 <= i < |s[1..]| && s[1..][i] == r.value && Covers(s[1..][i], a)
                                     && forall j | 0 <= j < i :: !Covers(s[1..][j], a);
      assert r.Some? ==> exists i :: 0 < i < |s| && s[i] == r.value && Covers(s[i], a)
                                     && forall j | 0 <= j < i :: !Covers(s[j], a);
      r
  }

  /** The first segment that covers the address, as the code's loop finds it. */
  method FindSegment(s: Segmentation, a: Address) returns (r: Option<Segment>)
    ensures r == Find(s, a)
  {
    for i := 0 to NUM_SEGMENTS
      invariant Find(s, a) == Find(s[i..], a)
    {
      assert s[i..][1..] == s[i + 1..];
      if s[i].growsDown {
        if s[i].end <= a && a <= s[i].start {
          return Some(s[i]);
        }
      } else if s[i].start <= a && a <= s[i].end {
        return Some(s[i]);
      }
    }
    return None;
  }

  /** grow_segment and shrink_segment, on 32-bit bounds that wrap round. */
  function MoveEnd(s: Segment, pages: nat, grow: bool): Segment {
    var delta := pages * PAGE_SIZE;
    s.(end := if s.growsDown == grow then (s.end - delta) % ADDRESS_SPACE else (s.end + delta) % ADDRESS_SPACE)
  }

  function Move(s: Segmentation, i: nat, pages: nat, grow: bool): Segmentation
    requires i < NUM_SEGMENTS
  {
    s[i := MoveEnd(s[i], pages, grow)]
  }
}
