/** Two-level 32-bit paging (section 4.3 of the Intel SDM, Volume 3A) and the self-map through which
    mm/memory.cc edits the tables. Masks and shifts on addresses are written as quotients and remainders by
    powers of two; MasksAreQuotients justifies that. Physical memory is a sequence of frames of 1024 words. */
module Paging {
  import opened Options

  const PAGE_SIZE := 4096
  const WORDS := 1024
  const FRAMES := 0x10_0000
  const ADDRESS_LIMIT := 0x1_0000_0000
  /** paging::page_dir_base / page_size. */
  const DIR := 0x100
  const FIRST_TABLE := 0x101
  /** US_U | RW_W | P. */
  const ATTRIBUTES := 7
  const PREMAPPED := 528

  type Memory = seq<seq<nat>>

  ghost predicate WellFormed(mem: Memory) {
    && |mem| == FRAMES
    && (forall n :: 0 <= n < FRAMES ==> |mem[n]| == WORDS)
    && (forall n, i :: 0 <= n < FRAMES && 0 <= i < WORDS ==> mem[n][i] < ADDRESS_LIMIT)
  }

  /** Where a word lives: frame number and index in the frame. */
  datatype Place = Place(frame: nat, index: nat)

  predicate Present(entry: nat) { entry % 2 == 1 }

  /** The frame number in bits 12..31 of an entry. */
  function FrameOf(entry: nat): nat { entry / PAGE_SIZE }

  function Entry(frame: nat): nat { frame * PAGE_SIZE + ATTRIBUTES }

  lemma EntryFields(frame: nat)
    ensures Present(Entry(frame)) && FrameOf(Entry(frame)) == frame
  {}

  /** An entry is present, writable and open to the user. */
  lemma EntryBits(frame: nat)
    ensures Entry(frame) % 8 == 7
  {
    assert Entry(frame) == 8 * (512 * frame) + 7;
  }

  lemma FrameInRange(entry: nat)
    requires entry < ADDRESS_LIMIT
    ensures FrameOf(entry) < FRAMES
  {}

  function DirIndex(v: nat): nat { v / 0x40_0000 }
  function TableIndex(v: nat): nat { (v / PAGE_SIZE) % WORDS }
  function WordIndex(v: nat): nat { (v % PAGE_SIZE) / 4 }

  lemma IndexRanges(v: nat)
    requires v < ADDRESS_LIMIT
    ensures DirIndex(v) < WORDS && TableIndex(v) < WORDS && WordIndex(v) < WORDS
  {}

  function Word(mem: Memory, p: Place): nat
    requires p.frame < |mem| && p.index < |mem[p.frame]|
  {
    mem[p.frame][p.index]
  }

  /** What the processor does with address `v`: directory word, table word, target word. */
  ghost function Walk(mem: Memory, v: nat): Option<Place>
    requires WellFormed(mem) && v < ADDRESS_LIMIT
  {
    IndexRanges(v);
    var pde := mem[DIR][DirIndex(v)];
    FrameInRange(pde);
    if !Present(pde) then None else
    var pte := mem[FrameOf(pde)][TableIndex(v)];
    if !Present(pte) then None else Some(Place(FrameOf(pte), WordIndex(v)))
  }

  /** vaddr2pde: 0xfffff000 + 4 * ((vaddr & 0xffc00000) >> 22). */
  function Vaddr2Pde(v: nat): nat { 0xffff_f000 + 4 * DirIndex(v) }

  /** vaddr2pte: 0xffc00000 + ((vaddr & 0xffc00000) >> 10) + 4 * ((vaddr & 0x003ff000) >> 12). */
  function Vaddr2Pte(v: nat): nat { 0xffc0_0000 + PAGE_SIZE * DirIndex(v) + 4 * TableIndex(v) }

  /** Directory entry 1023 refers to the directory itself. */
  ghost predicate SelfMapped(mem: Memory)
    requires WellFormed(mem)
  {
    Present(mem[DIR][1023]) && FrameOf(mem[DIR][1023]) == DIR
  }

  lemma PdeAddress(v: nat)
    requires v < ADDRESS_LIMIT
    ensures var a := Vaddr2Pde(v);
      a < ADDRESS_LIMIT && DirIndex(a) == 1023 && TableIndex(a) == 1023 && WordIndex(a) == DirIndex(v)
  {
    IndexRanges(v);
  }

  lemma PteAddress(v: nat)
    requires v < ADDRESS_LIMIT
    ensures var a := Vaddr2Pte(v);
      a < ADDRESS_LIMIT && DirIndex(a) == 1023 && TableIndex(a) == DirIndex(v) && WordIndex(a) == TableIndex(v)
  {
    IndexRanges(v);
    var d, t := DirIndex(v), TableIndex(v);
    var a := Vaddr2Pte(v);
    assert a == 0x40_0000 * 1023 + (PAGE_SIZE * d + 4 * t);
    assert a / PAGE_SIZE == 1023 * WORDS + d;
    assert a % PAGE_SIZE == 4 * t;
  }

  /** The address computed by vaddr2pde reaches exactly the directory word used to translate `v`, and the one
      computed by vaddr2pte, when that word is present, exactly the table word; with the directory word absent
      it does not translate at all. */
  lemma SelfMapWalk(mem: Memory, v: nat)
    requires WellFormed(mem) && SelfMapped(mem) && v < ADDRESS_LIMIT
    ensures Vaddr2Pde(v) < ADDRESS_LIMIT && Vaddr2Pte(v) < ADDRESS_LIMIT && DirIndex(v) < WORDS
    ensures Walk(mem, Vaddr2Pde(v)) == Some(Place(DIR, DirIndex(v)))
    ensures Walk(mem, Vaddr2Pte(v)) ==
      if Present(mem[DIR][DirIndex(v)]) then Some(Place(FrameOf(mem[DIR][DirIndex(v)]), TableIndex(v))) else None
  {
    IndexRanges(v);
    PdeAddress(v);
    PteAddress(v);
  }

  // ----- The masks and shifts of the source on a 32-bit word, as numbers

  function Address(v: bv32): nat { v as nat }
  function DirBits(v: bv32): nat { ((v & 0xffc0_0000) >> 22) as nat }
  function DirBitsAsOffset(v: bv32): nat { ((v & 0xffc0_0000) >> 10) as nat }
  function TableBits(v: bv32): nat { ((v & 0x003f_f000) >> 12) as nat }
  function PageBits(v: bv32): nat { (v & 0xffff_f000) as nat }
  function OffsetBits(v: bv32): nat { (v & 0x0000_0fff) as nat }

  /** They are the indices, page and offset of the address the word stands for. */
  lemma MasksAreQuotients(v: bv32)
    ensures DirBits(v) == DirIndex(Address(v)) && DirBitsAsOffset(v) == PAGE_SIZE * DirIndex(Address(v))
    ensures TableBits(v) == TableIndex(Address(v))
    ensures PageBits(v) == Address(v) - Address(v) % PAGE_SIZE && OffsetBits(v) == Address(v) % PAGE_SIZE
  {
    hide Address;
    hide DirBits;
    hide DirBitsAsOffset;
    hide TableBits;
    hide PageBits;
    hide OffsetBits;
    hide Rest;
    SplitDirectory(v);
    SplitRest(v);
    SmallParts(v);
    SplitPage(v);
    ShiftedDirectory(v);
    IndicesOf(Address(v), DirBits(v), TableBits(v), OffsetBits(v));
  }

  lemma IndicesOf(n: nat, d: nat, t: nat, offset: nat)
    requires n == 0x40_0000 * d + (0x1000 * t + offset) && t < 0x400 && offset < 0x1000
    ensures DirIndex(n) == d && TableIndex(n) == t && n % PAGE_SIZE == offset
  {
    assert n / PAGE_SIZE == 0x400 * d + t;
  }

  function Rest(v: bv32): nat { (v & 0x3f_ffff) as nat }

  lemma SplitDirectory(v: bv32)
    ensures Address(v) == 0x40_0000 * DirBits(v) + Rest(v)
  {}

  lemma SplitRest(v: bv32)
    ensures Rest(v) == 0x1000 * TableBits(v) + OffsetBits(v)
  {}

  lemma SplitPage(v: bv32)
    ensures PageBits(v) == 0x40_0000 * DirBits(v) + 0x1000 * TableBits(v)
  {}

  lemma SmallParts(v: bv32)
    ensures TableBits(v) < 0x400 && OffsetBits(v) < 0x1000
  {}

  lemma ShiftedDirectory(v: bv32)
    ensures DirBitsAsOffset(v) == 0x1000 * DirBits(v)
  {}

  /** kernel/page.cc: the directory with its first table and the self-reference. */
  method InstallPage(dir: array<nat>, table: array<nat>)
    requires dir != table && dir.Length == WORDS && table.Length == WORDS
    modifies dir, table
    ensures dir[0] == Entry(FIRST_TABLE) && dir[1023] == Entry(DIR)
    ensures forall d :: 0 < d < 1023 ==> dir[d] == 0
    ensures forall i :: 0 <= i < PREMAPPED ==> table[i] == Entry(i)
    ensures forall i :: PREMAPPED <= i < WORDS ==> table[i] == old(table[i])
  {
    var d := 0;
    while d < WORDS
      invariant 0 <= d <= WORDS
      invariant forall i :: 0 <= i < d ==> dir[i] == 0
      invariant forall i :: 0 <= i < WORDS ==> table[i] == old(table[i])
    {
      dir[d] := 0;
      d := d + 1;
    }
    dir[0] := FIRST_TABLE * PAGE_SIZE + ATTRIBUTES;
    dir[1023] := DIR * PAGE_SIZE + ATTRIBUTES;
    var entry, idx := 0, 0;
    while idx < PREMAPPED
      invariant 0 <= idx <= PREMAPPED && entry == idx * PAGE_SIZE
      invariant dir[0] == Entry(FIRST_TABLE) && dir[1023] == Entry(DIR)
      invariant forall i :: 0 < i < 1023 ==> dir[i] == 0
      invariant forall i :: 0 <= i < idx ==> table[i] == Entry(i)
      invariant forall i :: idx <= i < WORDS ==> table[i] == old(table[i])
    {
      table[idx] := entry + ATTRIBUTES;
      entry := entry + PAGE_SIZE;
      idx := idx + 1;
    }
  }

  lemma LowIndices(v: nat)
    requires v < PREMAPPED * PAGE_SIZE
    ensures DirIndex(v) == 0 && TableIndex(v) == v / PAGE_SIZE < PREMAPPED
  {}

  /** The identity-mapped low memory, seen through the walk. */
  lemma InstalledIdentity(mem: Memory, v: nat)
    requires WellFormed(mem) && mem[DIR][0] == Entry(FIRST_TABLE)
    requires forall i :: 0 <= i < PREMAPPED ==> mem[FIRST_TABLE][i] == Entry(i)
    requires v < PREMAPPED * PAGE_SIZE
    ensures Walk(mem, v) == Some(Place(v / PAGE_SIZE, WordIndex(v)))
  {
    LowIndices(v);
    EntryFields(FIRST_TABLE);
    EntryFields(v / PAGE_SIZE);
    hide Entry;
    hide DirIndex;
    hide TableIndex;
    hide WordIndex;
    hide FrameOf;
    hide Present;
  }
}
