/** The buffer as it is stored: a singly linked list that lookups and adds relink in place. */
module TlbList {
  import opened Options
  import opened VmTypes
  import Tlb

  class Cell {
    var base: nat
    var entry: Option<Ref>
    var next: Cell?

    constructor (base: nat, entry: Option<Ref>, next: Cell?)
      ensures this.base == base && this.entry == entry && this.next == next
    {
      this.base, this.entry, this.next := base, entry, next;
    }
  }

  class List {
    var head: Cell
    /** The cells in list order. */
    ghost var cells: seq<Cell>
    /** Every cell the list ever had. */
    ghost var repr: set<Cell>

    ghost predicate Valid()
      reads this, repr
    {
      && (forall i | 0 <= i < |cells| :: cells[i] in repr)
      && cells != [] && head == cells[0]
      && (forall i, j | 0 <= i < j < |cells| :: cells[i] != cells[j])
      && (forall i | 0 <= i < |cells| :: cells[i].next == CellAt(cells, i + 1))
    }

    static ghost function CellAt(s: seq<Cell>, i: nat): Cell? {
      if i < |s| then s[i] else null
    }

    ghost function View(): seq<Tlb.Node>
      reads this, repr
      requires Valid()
    {
      seq(|cells|, i requires 0 <= i < |cells| && Valid() reads this, repr =>
        Tlb.Node(cells[i].base, cells[i].entry))
    }

    constructor ()
      ensures Valid() && View() == Tlb.Empty()
      ensures fresh(repr)
    {
      var c := new Cell(0, None, null);
      head, cells, repr := c, [c], {c};
    }

    /** Walks past the head to the first node for `base`. */
    method Search(base: nat) returns (slow: Cell, fast: Cell?)
      requires Valid() && head.base != base
      ensures var k := Tlb.Find(View(), base);
              1 <= k <= |cells| && slow == cells[k - 1] && fast == CellAt(cells, k)
    {
      ghost var k := 1;
      slow, fast := head, head.next;
      while fast != null && fast.base != base
        invariant 1 <= k <= |cells| && slow == cells[k - 1] && fast == CellAt(cells, k)
        invariant forall j | 0 <= j < k :: View()[j].base != base
        decreases |cells| - k
      {
        fast := fast.next;
        slow := slow.next;
        k := k + 1;
      }
      assert fast != null ==> View()[k].base == base;
    }

    /** Looks `base` up, promoting the node it finds to the head of the list. */
    method GetPte(base: nat) returns (entry: Option<Ref>)
      requires Valid()
      modifies this, repr
      ensures Valid() && fresh(repr - old(repr))
      ensures (View(), entry) == Tlb.Get(old(View()), base)
    {
      if head.base == base {
        assert View()[0] == Tlb.Node(head.base, head.entry) && Moved(View(), 0) == View();
        return head.entry;
      }
      ghost var k := Tlb.Find(View(), base);
      var slow, fast := Search(base);
      if fast == null {
        return None;
      }
      assert View()[k].entry == fast.entry;
      MovedAt(cells, k);
      Promote(slow, fast, k);
      entry := fast.entry;
    }

    /** Relinks the cell at position `k` in front of the head. */
    method Promote(slow: Cell, fast: Cell, ghost k: nat)
      requires Valid() && 1 <= k < |cells| && slow == cells[k - 1] && fast == cells[k]
      modifies this, repr
      ensures Valid() && cells == Moved(old(cells), k) && repr == old(repr)
      ensures View() == Moved(old(View()), k)
      ensures fast.entry == old(fast.entry)
    {
      ghost var t := View();
      Relink(slow, fast, k);
      MovedAt(old(cells), k);
      MovedAt(t, k);
      forall j | 0 <= j < |t| ensures View()[j] == Moved(t, k)[j] {}
    }

    method Relink(slow: Cell, fast: Cell, ghost k: nat)
      requires Valid() && 1 <= k < |cells| && slow == cells[k - 1] && fast == cells[k]
      modifies `head, `cells, slow`next, fast`next
      ensures Valid() && cells == Moved(old(cells), k)
    {
      MovedAt(cells, k);
      slow.next := fast.next;
      fast.next := head;
      head := fast;
      cells := Moved(cells, k);
    }

    /** Walks to the last node but one; a list of one node is counted as two. */
    method CountNodes() returns (count: nat, slow: Cell)
      requires Valid()
      ensures |cells| == 1 ==> count == 2 && slow == head
      ensures |cells| > 1 ==> count == |cells| && slow == cells[|cells| - 2]
    {
      count := 2;
      var fast := head.next;
      slow := head;
      while fast != null && fast.next != null
        invariant 2 <= count && slow == CellAt(cells, count - 2) && fast == CellAt(cells, count - 1)
        invariant count == 2 || count <= |cells|
        decreases |cells| - count
      {
        count := count + 1;
        fast := fast.next;
        slow := slow.next;
      }
    }

    method FreeTail(slow: Cell)
      requires Valid() && |cells| > 1 && slow == cells[|cells| - 2]
      modifies this`cells, slow`next
      ensures Valid() && cells == old(cells)[..|old(cells)| - 1]
      ensures View() == old(View())[..|old(View())| - 1]
    {
      slow.next := null;
      cells := cells[..|cells| - 1];
    }

    method PushHead(base: nat, ref: Ref)
      requires Valid()
      modifies this
      ensures Valid() && fresh(repr - old(repr))
      ensures View() == [Tlb.Node(base, Some(ref))] + old(View())
      ensures cells != [] && cells[1..] == old(cells) && head.base == base && head.entry == Some(ref)
    {
      var first := new Cell(base, Some(ref), head);
      ghost var before := cells;
      head, cells, repr := first, [first] + cells, repr + {first};
      forall i | 0 <= i < |cells| ensures cells[i].next == CellAt(cells, i + 1) {
        if i > 0 { assert cells[i] == before[i - 1]; }
      }
    }

    /** Pushes a new node, first freeing the tail when the list is full. */
    method AddPte(base: nat, ref: Ref)
      requires Valid()
      modifies this, repr
      ensures Valid() && fresh(repr - old(repr))
      ensures View() == Tlb.Add(old(View()), base, ref)
      ensures head.base == base && head.entry == Some(ref)
      ensures cells[1..] == if |old(cells)| < 16 then old(cells) else old(cells)[..|old(cells)| - 1]
    {
      var count, slow := CountNodes();
      if count >= Tlb.MAX_NODES {
        FreeTail(slow);
      }
      PushHead(base, ref);
    }

    method Flush()
      modifies this
      ensures Valid() && fresh(repr)
      ensures View() == Tlb.Empty()
    {
      var c := new Cell(0, None, null);
      head, cells, repr := c, [c], {c};
    }
  }

  ghost function Moved<T>(s: seq<T>, k: nat): seq<T>
    requires k < |s|
  {
    [s[k]] + s[..k] + s[k + 1..]
  }

  lemma MovedAt<T>(s: seq<T>, k: nat)
    requires k < |s|
    ensures |Moved(s, k)| == |s|
    ensures forall j | 0 <= j < |s| :: Moved(s, k)[j] == s[if j == 0 then k else if j <= k then j - 1 else j]
  {
  }
}
