/** The legal addresses of a process as areas of bytes that grow away from a fixed first address, and when the
    segments of the machine are such areas. */
module Areas {
  import opened Options
  import opened VmTypes
  import opened Segments

  /** `size` is what was added less what was taken away, and negative when more was taken. */
  datatype Area = Area(first: Address, size: int, down: bool, permissions: set<Permission>)

  /** How far the area reaches from its first address; the other bound wraps round. */
  function Extent(area: Area): int {
    if area.down then area.first - (area.first - area.size) % 0x1_0000_0000
    else (area.first + area.size) % 0x1_0000_0000 - area.first
  }

  predicate Within(area: Area, a: Address) {
    0 <= (if area.down then area.first - a else a - area.first) <= Extent(area)
  }

  /** The first area that reaches the address decides. */
  predicate Permitted(areas: seq<Area>, a: Address, need: Permission) {
    exists i :: 0 <= i < |areas| && Within(areas[i], a) && need in areas[i].permissions
                && forall j | 0 <= j < i :: !Within(areas[j], a)
  }

  /** What a new process has: stack, mapped files, heap, BSS, data, text and the pages for testing. */
  function NewAreas(): seq<Area> {
    [Area(0xBFFF_E000, -0x80_0000, true, {READ, WRITE}), Area(0xC07F_E000, 0, true, {READ, WRITE, EXEC}),
     Area(0x0807_2000, 0, false, {READ, WRITE}), Area(0x0805_A000, 0x1_8000, false, {READ, WRITE}),
     Area(0x0805_2000, 0x8000, false, {READ, WRITE}), Area(0x0804_8000, 0xA000, false, {READ, EXEC}),
     Area(0x1000, 0x2000, false, {READ, WRITE})]
  }

  /** Growing adds pages in the direction of the area, shrinking takes them away. */
  function Resized(areas: seq<Area>, i: nat, pages: nat, grow: bool): seq<Area>
    requires i < |areas|
  {
    areas[i := areas[i].(size := areas[i].size + if grow then 4096 * pages else -4096 * pages)]
  }

  // ---- Segments as areas ----

  ghost predicate IsArea(s: Segment, area: Area) {
    && s.start == area.first && s.growsDown == area.down && s.permissions == area.permissions
    && s.end == if area.down then area.first - Extent(area) else area.first + Extent(area)
  }

  ghost predicate AreAreas(s: seq<Segment>, areas: seq<Area>) {
    |s| == |areas| && forall i | 0 <= i < |s| :: IsArea(s[i], areas[i])
  }

  lemma NewSegments()
    ensures AreAreas(Initial(), NewAreas())
  {}

  lemma ResizedIsArea(s: Segment, area: Area, pages: nat, grow: bool)
    requires IsArea(s, area)
    ensures IsArea(MoveEnd(s, pages, grow), area.(size := area.size + if grow then 4096 * pages else -4096 * pages))
  {
    var delta := if grow then 4096 * pages else -4096 * pages;
    if area.down { Wraps(area.first - area.size, -delta); } else { Wraps(area.first + area.size, delta); }
  }

  lemma Wraps(x: int, delta: int)
    ensures (x % 0x1_0000_0000 + delta) % 0x1_0000_0000 == (x + delta) % 0x1_0000_0000
  {
    var q := x / 0x1_0000_0000;
    assert x + delta == q * 0x1_0000_0000 + (x % 0x1_0000_0000 + delta);
    Shifts(x % 0x1_0000_0000 + delta, q);
  }

  lemma Shifts(y: int, q: int)
    ensures (q * 0x1_0000_0000 + y) % 0x1_0000_0000 == y % 0x1_0000_0000
  {
    var r := y / 0x1_0000_0000;
    assert q * 0x1_0000_0000 + y == (q + r) * 0x1_0000_0000 + y % 0x1_0000_0000;
  }

  lemma ResizedSegments(s: Segmentation, areas: seq<Area>, i: nat, pages: nat, grow: bool)
    requires AreAreas(s, areas) && i < NUM_SEGMENTS
    ensures AreAreas(Move(s, i, pages, grow), Resized(areas, i, pages, grow))
  {
    ResizedIsArea(s[i], areas[i], pages, grow);
  }

  /** The segments permit exactly what the areas permit. */
  lemma PermitAlike(s: seq<Segment>, areas: seq<Area>, a: Address, need: Permission)
    requires AreAreas(s, areas)
    ensures Permitted(areas, a, need) <==> var found := Find(s, a); found.Some? && need in found.value.permissions
  {
    forall i | 0 <= i < |s| ensures Covers(s[i], a) <==> Within(areas[i], a) {
      assert IsArea(s[i], areas[i]);
    }
  }

  // ---- In numbers ----

  /** Which addresses a new process may read. */
  lemma NewReadable(a: Address)
    ensures (var s := Find(Initial(), a); s.Some? && READ in s.value.permissions) <==>
            || 0x1000 <= a <= 0x3000 || 0x0804_8000 <= a <= 0x0807_2000 || a == 0xC07F_E000
    ensures Find(Initial(), a).Some? <==>
            || 0x1000 <= a <= 0x3000 || 0x0804_8000 <= a <= 0x0807_2000 || a == 0xC07F_E000
  {
    NewFound(a);
  }

  /** And which it may write: not the text, but for its last address, which is the first one of the data. */
  lemma NewWritable(a: Address)
    ensures (var s := Find(Initial(), a); s.Some? && WRITE in s.value.permissions) <==>
            || 0x1000 <= a <= 0x3000 || 0x0805_2000 <= a <= 0x0807_2000 || a == 0xC07F_E000
    ensures (var s := Find(Initial(), a); s.Some? && EXEC in s.value.permissions) <==>
            || 0x0804_8000 <= a < 0x0805_2000 || a == 0xC07F_E000
  {
    NewFound(a);
  }

  /** The same as areas. */
  lemma NewPermitted(a: Address)
    ensures Permitted(NewAreas(), a, READ) <==>
            || 0x1000 <= a <= 0x3000 || 0x0804_8000 <= a <= 0x0807_2000 || a == 0xC07F_E000
    ensures Permitted(NewAreas(), a, WRITE) <==>
            || 0x1000 <= a <= 0x3000 || 0x0805_2000 <= a <= 0x0807_2000 || a == 0xC07F_E000
  {
    NewSegments();
    PermitAlike(Initial(), NewAreas(), a, READ);
    PermitAlike(Initial(), NewAreas(), a, WRITE);
    NewReadable(a);
    NewWritable(a);
  }

  lemma NewFound(a: Address)
    ensures Find(Initial(), a) == if a == 0xC07F_E000 then Some(Initial()[1])
                                  else if a == 0x0807_2000 then Some(Initial()[2])
                                  else if 0x0805_A000 <= a < 0x0807_2000 then Some(Initial()[3])
                                  else if 0x0805_2000 <= a < 0x0805_A000 then Some(Initial()[4])
                                  else if 0x0804_8000 <= a < 0x0805_2000 then Some(Initial()[5])
                                  else if 0x1000 <= a <= 0x3000 then Some(Initial()[6]) else None
  {
    var s := Initial();
    forall i | 0 <= i < 7
      ensures Covers(s[i], a) <==>
              match i
              case 0 => false
              case 1 => a == 0xC07F_E000
              case 2 => a == 0x0807_2000
              case 3 => 0x0805_A000 <= a <= 0x0807_2000
              case 4 => 0x0805_2000 <= a <= 0x0805_A000
              case 5 => 0x0804_8000 <= a <= 0x0805_2000
              case _ => 0x1000 <= a <= 0x3000
    {
    }
  }

  /** Growing a segment makes exactly the pages behind its end legal, as long as no bound wraps round. */
  lemma GrownCovers(s: Segment, pages: nat, a: Address)
    requires if s.growsDown then 4096 * pages <= s.end else s.end + 4096 * pages < 0x1_0000_0000
    ensures Covers(MoveEnd(s, pages, true), a) <==>
            if s.growsDown then s.end - 4096 * pages <= a <= s.start else s.start <= a <= s.end + 4096 * pages
  {}

  lemma ShrunkCovers(s: Segment, pages: nat, a: Address)
    requires if s.growsDown then s.end + 4096 * pages < 0x1_0000_0000 else 4096 * pages <= s.end
    ensures Covers(MoveEnd(s, pages, false), a) <==>
            if s.growsDown then s.end + 4096 * pages <= a <= s.start else s.start <= a <= s.end - 4096 * pages
  {}
}
