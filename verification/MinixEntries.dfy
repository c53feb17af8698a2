/** Directory entries as they are printed into a block: a padded name and eight hexadecimal digits. */
module MinixEntries {
  import opened Bytes
  import opened MinixBlocks

  const NAME_LENGTH := 248
  const ENTRY := 256
  const DIGITS := 8

  // ---- Inode numbers in hexadecimal ----

  /** The digits 0-9 and a-f in ASCII. */
  function HexDigit(v: int): (b: Byte)
    requires 0 <= v < 16
    ensures b as char == "0123456789abcdef"[v]
  {
    if v < 10 then (48 + v) as Byte else (87 + v) as Byte
  }

  predicate IsHex(b: Byte): (hex: bool)
    ensures hex <==> b as char in "0123456789abcdefABCDEF"
  {
    48 <= b <= 57 || 97 <= b <= 102 || 65 <= b <= 70
  }

  function HexValue(b: Byte): (v: int)
    requires IsHex(b)
    ensures 0 <= v < 16
  {
    if b <= 57 then b as int - 48 else if b >= 97 then b as int - 87 else b as int - 55
  }

  /** `n` digits, zero padded. */
  function Digits(v: nat, n: nat): (s: seq<Byte>)
    ensures |s| == n && forall k | 0 <= k < n :: IsHex(s[k])
  {
    if n == 0 then [] else Digits(v / 16, n - 1) + [HexDigit(v % 16)]
  }

  function Value(s: seq<Byte>): nat
    requires forall k | 0 <= k < |s| :: IsHex(s[k])
  {
    if s == [] then 0 else Value(s[..|s| - 1]) * 16 + HexValue(s[|s| - 1])
  }

  function HexPrefix(s: seq<Byte>): (n: nat)
    ensures n <= |s| && (forall k | 0 <= k < n :: IsHex(s[k])) && (n < |s| ==> !IsHex(s[n]))
  {
    if s == [] || !IsHex(s[0]) then 0 else 1 + HexPrefix(s[1..])
  }

  /** The number that the leading digits stand for. */
  function ParseHex(s: seq<Byte>): nat { Value(s[..HexPrefix(s)]) }

  function Power16(n: nat): nat { if n == 0 then 1 else 16 * Power16(n - 1) }

  lemma DigitValue(v: int)
    requires 0 <= v < 16
    ensures HexValue(HexDigit(v)) == v
  {}

  lemma {:induction false} ValueOfDigits(v: nat, n: nat)
    requires v < Power16(n)
    ensures Value(Digits(v, n)) == v
  {
    if n > 0 {
      ValueOfDigits(v / 16, n - 1);
      DigitValue(v % 16);
      assert Digits(v, n)[..n - 1] == Digits(v / 16, n - 1);
    }
  }

  /** Every inode number that a directory can hold is read back as it was printed. */
  lemma NumberRoundTrip(v: nat)
    requires v < 0x8000_0000
    ensures ParseHex(Digits(v, DIGITS)) == v
  {
    assert Power16(4) == 65536;
    assert Power16(8) == 65536 * 65536 by { assert Power16(6) == 256 * Power16(4); }
    ValueOfDigits(v, DIGITS);
    var s := Digits(v, DIGITS);
    assert s[..HexPrefix(s)] == s;
  }

  /** The digits from the lowest to the highest. */
  lemma PrintedDigits(v: nat)
    ensures var s, hex := Digits(v, 8), "0123456789abcdef";
            && s[7] as char == hex[v % 16] && s[6] as char == hex[v / 0x10 % 16]
            && s[5] as char == hex[v / 0x100 % 16] && s[4] as char == hex[v / 0x1000 % 16]
            && s[3] as char == hex[v / 0x1_0000 % 16] && s[2] as char == hex[v / 0x10_0000 % 16]
            && s[1] as char == hex[v / 0x100_0000 % 16] && s[0] as char == hex[v / 0x1000_0000 % 16]
  {
    HexQuotients(v);
    FourDigits(v, 8, v / 0x10, v / 0x100, v / 0x1000, v / 0x1_0000);
    FourDigits(v / 0x1_0000, 4, v / 0x10_0000, v / 0x100_0000, v / 0x1000_0000, v / 0x1_0000_0000);
  }

  lemma HexQuotients(v: nat)
    ensures v / 0x10 / 16 == v / 0x100 && v / 0x100 / 16 == v / 0x1000 && v / 0x1000 / 16 == v / 0x1_0000
    ensures v / 0x1_0000 / 16 == v / 0x10_0000 && v / 0x10_0000 / 16 == v / 0x100_0000
    ensures v / 0x100_0000 / 16 == v / 0x1000_0000 && v / 0x1000_0000 / 16 == v / 0x1_0000_0000
  {}

  lemma FourDigits(v: nat, n: nat, v1: nat, v2: nat, v3: nat, v4: nat)
    requires n >= 4 && v1 == v / 16 && v2 == v1 / 16 && v3 == v2 / 16 && v4 == v3 / 16
    ensures var s := Digits(v, n);
            && s[n - 1] == HexDigit(v % 16) && s[n - 2] == HexDigit(v1 % 16)
            && s[n - 3] == HexDigit(v2 % 16) && s[n - 4] == HexDigit(v3 % 16)
            && s[..n - 4] == Digits(v4, n - 4)
  {
    LastDigits(v, n);
    LastDigits(v1, n - 1);
    LastDigits(v2, n - 2);
    LastDigits(v3, n - 3);
  }

  lemma LastDigits(v: nat, n: nat)
    requires n > 0
    ensures Digits(v, n)[n - 1] == HexDigit(v % 16)
    ensures forall k | 0 <= k < n - 1 :: Digits(v, n)[k] == Digits(v / 16, n - 1)[k]
  {}

  // ---- Names ----

  /** The C string that starts `s`. */
  function CString(s: seq<Byte>): (c: seq<Byte>)
    ensures |c| <= |s| && c == s[..|c|] && (|c| < |s| ==> s[|c|] == 0) && forall k | 0 <= k < |c| :: c[k] != 0
  {
    if s == [] || s[0] == 0 then [] else [s[0]] + CString(s[1..])
  }

  predicate IsName(name: seq<Byte>) { 0 < |name| < NAME_LENGTH && forall k | 0 <= k < |name| :: name[k] != 0 }

  function Padded(name: seq<Byte>): (s: seq<Byte>)
    requires |name| <= NAME_LENGTH
    ensures |s| == NAME_LENGTH
  {
    name + seq(NAME_LENGTH - |name|, _ => 0)
  }

  lemma {:induction false} CStringEnds(s: seq<Byte>, n: nat)
    requires n < |s| && s[n] == 0 && forall k | 0 <= k < n :: s[k] != 0
    ensures CString(s) == s[..n]
  {
    if n > 0 {
      CStringEnds(s[1..], n - 1);
      assert s[..n] == [s[0]] + s[1..][..n - 1];
    }
  }

  lemma NameRoundTrip(name: seq<Byte>, s: seq<Byte>)
    requires IsName(name) && |s| >= NAME_LENGTH && s[..NAME_LENGTH] == Padded(name)
    ensures CString(s) == name
  {
    var t := s[..NAME_LENGTH];
    assert forall k | 0 <= k < NAME_LENGTH :: s[k] == t[k];
    CStringEnds(s, |name|);
    assert s[..|name|] == t[..|name|] == name;
  }

  // ---- A block of entries ----

  datatype Entry = Entry(name: seq<Byte>, ino: nat)

  predicate IsEntry(e: Entry) { IsName(e.name) && 0 < e.ino < 0x8000_0000 }

  function Slot(e: Entry): (s: seq<Byte>)
    requires |e.name| <= NAME_LENGTH
    ensures |s| == ENTRY
  {
    Padded(e.name) + Digits(e.ino, DIGITS)
  }

  /** The block starts with the entries, in their order. */
  ghost predicate Prints(block: Block, entries: seq<Entry>) {
    && |block| == BLOCK_SIZE && |entries| * ENTRY <= BLOCK_SIZE
    && forall k: nat | k < |entries| :: IsEntry(entries[k]) && block[ENTRY * k..ENTRY * k + ENTRY] == Slot(entries[k])
  }

  /** No two entries share a name or an inode. */
  ghost predicate Unique(entries: seq<Entry>) {
    forall j, k | 0 <= j < k < |entries| :: entries[j].name != entries[k].name && entries[j].ino != entries[k].ino
  }

  /** A slot byte by byte, with the terminator behind it. */
  lemma SlotBytes(e: Entry)
    requires |e.name| <= 248
    ensures var s := Slot(e) + [0];
            && |s| == 257 && s[..|e.name|] == e.name && (forall k | |e.name| <= k < 248 :: s[k] == 0)
            && s[248..256] == Digits(e.ino, 8) && s[256] == 0
  {}

  lemma SlotRoundTrip(block: Block, entries: seq<Entry>, k: nat)
    requires Prints(block, entries) && k < |entries|
    ensures CString(block[ENTRY * k..]) == entries[k].name
    ensures ParseHex(block[ENTRY * k + NAME_LENGTH..ENTRY * k + ENTRY]) == entries[k].ino
  {
    var e, s := entries[k], block[ENTRY * k..ENTRY * k + ENTRY];
    assert s == Slot(e);
    assert block[ENTRY * k..][..NAME_LENGTH] == s[..NAME_LENGTH] == Padded(e.name);
    NameRoundTrip(e.name, block[ENTRY * k..]);
    assert block[ENTRY * k + NAME_LENGTH..ENTRY * k + ENTRY] == s[NAME_LENGTH..] == Digits(e.ino, DIGITS);
    NumberRoundTrip(e.ino);
  }

  /** The next slot is filled; the terminator of the printed number falls into the slot after it. */
  lemma AppendPrints(block: Block, entries: seq<Entry>, e: Entry)
    requires Prints(block, entries) && IsEntry(e) && |entries| < 63
    ensures var block' := Splice(block, ENTRY * |entries|, Slot(e) + [0]); Prints(block', entries + [e])
  {
    var at := ENTRY * |entries|;
    var block' := Splice(block, at, Slot(e) + [0]);
    forall k: nat | k < |entries| + 1 ensures block'[ENTRY * k..ENTRY * k + ENTRY] == Slot((entries + [e])[k]) {
      if k < |entries| {
        assert block'[ENTRY * k..ENTRY * k + ENTRY] == block[ENTRY * k..ENTRY * k + ENTRY];
      } else {
        assert block'[at..at + ENTRY] == Slot(e);
      }
    }
  }

  function Without(entries: seq<Entry>, t: nat): seq<Entry>
    requires t < |entries|
  {
    entries[..t] + entries[t + 1..]
  }

  /** What the move of the later slots leaves in the block. */
  function MovedDown(block: Block, t: nat): (r: Block)
    requires |block| == BLOCK_SIZE && ENTRY * (t + 1) <= BLOCK_SIZE
    ensures |r| == BLOCK_SIZE
    ensures forall k | 0 <= k < BLOCK_SIZE ::
              r[k] == block[if ENTRY * t <= k < BLOCK_SIZE - ENTRY then k + ENTRY else k]
  {
    block[..ENTRY * t] + block[ENTRY * (t + 1)..] + block[BLOCK_SIZE - ENTRY..]
  }

  lemma MovePrints(block: Block, entries: seq<Entry>, t: nat)
    requires Prints(block, entries) && t < |entries|
    ensures Prints(MovedDown(block, t), Without(entries, t))
  {
    var block', rest := MovedDown(block, t), Without(entries, t);
    forall k: nat | k < |rest| ensures IsEntry(rest[k]) && block'[ENTRY * k..ENTRY * k + ENTRY] == Slot(rest[k]) {
      if k < t {
        assert block'[ENTRY * k..ENTRY * k + ENTRY] == block[ENTRY * k..ENTRY * k + ENTRY];
      } else {
        assert rest[k] == entries[k + 1];
        assert block'[ENTRY * k..ENTRY * k + ENTRY] == block[ENTRY * (k + 1)..ENTRY * (k + 1) + ENTRY];
      }
    }
  }

  // ---- Entries as a map ----

  function Bindings(entries: seq<Entry>): map<seq<Byte>, nat> {
    if entries == [] then map[]
    else Bindings(entries[..|entries| - 1])[entries[|entries| - 1].name := entries[|entries| - 1].ino]
  }

  ghost predicate Represents(m: map<seq<Byte>, nat>, entries: seq<Entry>) {
    && (forall e | e in entries :: e.name in m && m[e.name] == e.ino)
    && (forall name | name in m :: Entry(name, m[name]) in entries)
  }

  lemma {:induction false} BindingsAreEntries(entries: seq<Entry>)
    requires Unique(entries)
    ensures Represents(Bindings(entries), entries)
  {
    if entries != [] {
      var init, last := entries[..|entries| - 1], entries[|entries| - 1];
      BindingsAreEntries(init);
      assert forall e :: e in entries <==> e in init || e == last;
      assert forall k | 0 <= k < |init| :: entries[k].name != last.name;
    }
  }

  lemma {:induction false} BindingsSize(entries: seq<Entry>)
    requires Unique(entries)
    ensures |Bindings(entries)| == |entries|
  {
    if entries != [] {
      var init, last := entries[..|entries| - 1], entries[|entries| - 1];
      BindingsSize(init);
      BindingsAreEntries(init);
      assert forall k | 0 <= k < |init| :: entries[k].name != last.name;
      assert last.name !in Bindings(init);
    }
  }

  lemma FoundBinding(entries: seq<Entry>, k: nat)
    requires Unique(entries) && k < |entries|
    ensures entries[k].name in Bindings(entries) && Bindings(entries)[entries[k].name] == entries[k].ino
  {
    BindingsAreEntries(entries);
    assert entries[k] in entries;
  }

  lemma NoBinding(entries: seq<Entry>, name: seq<Byte>)
    requires Unique(entries) && forall k: nat | k < |entries| :: entries[k].name != name
    ensures name !in Bindings(entries)
  {
    BindingsAreEntries(entries);
    forall e | e in entries ensures e.name != name {}
  }

  lemma NewInode(entries: seq<Entry>, ino: nat)
    requires Unique(entries) && ino !in Bindings(entries).Values
    ensures forall e | e in entries :: e.ino != ino
  {
    BindingsAreEntries(entries);
    forall e | e in entries ensures e.ino != ino {
      assert e.name in Bindings(entries);
    }
  }

  /** A new name with a new inode adds one binding. */
  lemma AppendBinding(entries: seq<Entry>, e: Entry)
    requires Unique(entries) && e.name !in Bindings(entries) && forall e' | e' in entries :: e'.ino != e.ino
    ensures Unique(entries + [e]) && Bindings(entries + [e]) == Bindings(entries)[e.name := e.ino]
  {
    BindingsAreEntries(entries);
    UniqueAppend(entries, e);
    assert (entries + [e])[..|entries|] == entries;
  }

  lemma UniqueAppend(entries: seq<Entry>, e: Entry)
    requires Unique(entries) && forall e' | e' in entries :: e'.name != e.name && e'.ino != e.ino
    ensures Unique(entries + [e])
  {
    assert forall k | 0 <= k < |entries| :: entries[k] in entries && (entries + [e])[k] == entries[k];
  }

  lemma WithoutElements(entries: seq<Entry>, t: nat)
    requires Unique(entries) && t < |entries|
    ensures Unique(Without(entries, t))
    ensures forall e :: e in Without(entries, t) <==> e in entries && e.name != entries[t].name
  {
    var rest := Without(entries, t);
    assert forall k | 0 <= k < t :: rest[k] == entries[k];
    assert forall k | t <= k < |rest| :: rest[k] == entries[k + 1];
    forall e | e in entries && e.name != entries[t].name ensures e in rest {
      var k :| 0 <= k < |entries| && entries[k] == e;
      assert rest[if k < t then k else k - 1] == e;
    }
    forall e | e in rest ensures e in entries && e.name != entries[t].name {
      var k :| 0 <= k < |rest| && rest[k] == e;
      assert entries[if k < t then k else k + 1] == e;
    }
  }

  /** Removing one entry removes one binding. */
  lemma WithoutBinding(entries: seq<Entry>, t: nat)
    requires Unique(entries) && t < |entries|
    ensures Unique(Without(entries, t))
    ensures Bindings(Without(entries, t)) == Bindings(entries) - {entries[t].name}
  {
    WithoutElements(entries, t);
    BindingsAreEntries(entries);
    BindingsAreEntries(Without(entries, t));
    OneBindingLess(Bindings(entries), Bindings(Without(entries, t)), entries, Without(entries, t), entries[t].name);
  }

  lemma OneBindingLess(m: map<seq<Byte>, nat>, m': map<seq<Byte>, nat>, all: seq<Entry>, rest: seq<Entry>,
                       name: seq<Byte>)
    requires Represents(m, all) && Represents(m', rest)
    requires forall e :: e in rest <==> e in all && e.name != name
    ensures m' == m - {name}
  {
    forall n | n in m && n != name ensures n in m' && m'[n] == m[n] {
      assert Entry(n, m[n]) in rest;
    }
    forall n | n in m' ensures n in m && n != name {
      assert Entry(n, m'[n]) in all;
    }
  }
}
