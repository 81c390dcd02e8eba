/** Page allocation of mm/memory.cc: virtual runs from the two-bit map, frames from the bitmap, and page tables
    edited through the self-map. */
module PageManager {
  import opened Options
  import opened Paging
  import Bitmaps
  import DoublebitMaps

  /** The pool starts at 2 MiB, virtually and physically. */
  const POOL_PAGE := 0x200
  const POOL := 0x20_0000

  // ----- Pages of the pool

  function Vaddr(p: nat): nat { POOL + p * PAGE_SIZE }
  function DirOf(p: nat): nat { (POOL_PAGE + p) / WORDS }
  function SlotOf(p: nat): nat { (POOL_PAGE + p) % WORDS }

  lemma VaddrIndices(p: nat)
    ensures Vaddr(p) == 0x20_0000 + 0x1000 * p
    ensures DirIndex(Vaddr(p)) == DirOf(p) && TableIndex(Vaddr(p)) == SlotOf(p) && WordIndex(Vaddr(p)) == 0
  {
    assert Vaddr(p) == (POOL_PAGE + p) * PAGE_SIZE;
  }

  /** The pool ends below the 4 MiB that show the tables. */
  predicate PoolFits(n: nat) { POOL_PAGE + n <= 1023 * WORDS }

  lemma PageInRange(p: nat, n: nat)
    requires p < n && PoolFits(n)
    ensures DirOf(p) < 1023 && SlotOf(p) < WORDS && Vaddr(p) + PAGE_SIZE <= 1023 * 0x40_0000 < ADDRESS_LIMIT
    ensures POOL_PAGE + p < FRAMES
  {}

  lemma SamePage(p: nat, q: nat)
    requires DirOf(p) == DirOf(q) && SlotOf(p) == SlotOf(q)
    ensures p == q
  {
    assert POOL_PAGE + p == WORDS * DirOf(p) + SlotOf(p);
    assert POOL_PAGE + q == WORDS * DirOf(q) + SlotOf(q);
  }

  // ----- The invariant

  ghost predicate Injective(m: map<nat, nat>) {
    forall a, b :: a in m && b in m && m[a] == m[b] ==> a == b
  }

  /** Directory entry `d` has a page table: the boot-time one or one taken from the pool. */
  predicate HasTable(tables: map<nat, nat>, d: nat) { d == 0 || d in tables }

  function TableFrame(tables: map<nat, nat>, d: nat): nat
    requires HasTable(tables, d)
  {
    if d == 0 then FIRST_TABLE else POOL_PAGE + tables[d]
  }

  /** What the model tracks: memory, frame bits, the frame of every mapped pool page, the frame of every page
      table made, and frames taken but not yet entered anywhere. */
  datatype Pool = Pool(mem: Memory, bits: seq<bool>, owner: map<nat, nat>, tables: map<nat, nat>, pending: set<nat>)

  ghost predicate TablesInv(s: Pool)
    requires WellFormed(s.mem)
  {
    && s.mem[DIR][1023] == Entry(DIR) && s.mem[DIR][0] == Entry(FIRST_TABLE)
    && (forall d :: d in s.tables ==>
          1 <= d < 1023 && s.tables[d] < |s.bits| && s.mem[DIR][d] == Entry(POOL_PAGE + s.tables[d]))
    && (forall d :: 1 <= d < 1023 && d !in s.tables ==> !Present(s.mem[DIR][d]))
  }

  function PteOf(s: Pool, p: nat): nat
    requires HasTable(s.tables, DirOf(p))
    requires var n := TableFrame(s.tables, DirOf(p)); n < |s.mem| && SlotOf(p) < |s.mem[n]|
  {
    s.mem[TableFrame(s.tables, DirOf(p))][SlotOf(p)]
  }

  ghost predicate Shape(s: Pool) {
    && WellFormed(s.mem) && PoolFits(|s.bits|)
    && (forall d :: d in s.tables ==> s.tables[d] < |s.bits|)
  }

  /** The table word of page `p` is its frame's entry, or not present when the page is not mapped. */
  ghost predicate PteOk(s: Pool, p: nat)
    requires Shape(s) && p < |s.bits| && HasTable(s.tables, DirOf(p))
  {
    PageInRange(p, |s.bits|);
    TableInRange(s, DirOf(p));
    if p in s.owner then PteOf(s, p) == Entry(POOL_PAGE + s.owner[p]) else !Present(PteOf(s, p))
  }

  lemma TableInRange(s: Pool, d: nat)
    requires Shape(s) && HasTable(s.tables, d)
    ensures TableFrame(s.tables, d) < FRAMES && TableFrame(s.tables, d) != DIR
  {}

  ghost predicate PagesInv(s: Pool)
    requires Shape(s)
  {
    && (forall p :: p in s.owner ==> p < |s.bits| && s.owner[p] < |s.bits| && HasTable(s.tables, DirOf(p)))
    && (forall p :: 0 <= p < |s.bits| && HasTable(s.tables, DirOf(p)) ==> PteOk(s, p))
  }

  /** Every frame has at most one use, and the bitmap marks exactly the frames in use. */
  ghost predicate FramesInv(bits: seq<bool>, owner: map<nat, nat>, tables: map<nat, nat>, pending: set<nat>) {
    && Injective(owner) && Injective(tables)
    && owner.Values !! tables.Values && owner.Values !! pending && tables.Values !! pending
    && (forall f :: f in owner.Values + tables.Values + pending <==> 0 <= f < |bits| && bits[f])
  }

  ghost predicate Inv(s: Pool) {
    Shape(s) && TablesInv(s) && PagesInv(s) && FramesInv(s.bits, s.owner, s.tables, s.pending)
  }

  // ----- The elementary updates

  function Put(mem: Memory, n: nat, i: nat, x: nat): Memory
    requires n < |mem| && i < |mem[n]|
  {
    var row: seq<nat> := mem[n][i := x];
    mem[n := row]
  }

  lemma PutWellFormed(mem: Memory, n: nat, i: nat, x: nat)
    requires WellFormed(mem) && n < FRAMES && i < WORDS && x < ADDRESS_LIMIT
    ensures WellFormed(Put(mem, n, i, x))
  {}

  function Take(s: Pool, f: nat): Pool
    requires f < |s.bits|
  {
    s.(bits := s.bits[f := true], pending := s.pending + {f})
  }

  /** Only the frame bits and pending frames change: tables and pages stay right. */
  lemma SameMemory(s: Pool, t: Pool)
    requires Inv(s) && t.mem == s.mem && |t.bits| == |s.bits| && t.owner == s.owner && t.tables == s.tables
    ensures Shape(t) && TablesInv(t) && PagesInv(t)
  {
    forall q | 0 <= q < |t.bits| && HasTable(t.tables, DirOf(q)) ensures PteOk(t, q) {
      assert PteOk(s, q);
    }
  }

  lemma TakeInv(s: Pool, f: nat)
    requires Inv(s) && f < |s.bits| && !s.bits[f]
    ensures Inv(Take(s, f))
  {
    SameMemory(s, Take(s, f));
  }

  function MapPage(s: Pool, p: nat, f: nat): Pool
    requires HasTable(s.tables, DirOf(p))
    requires var n := TableFrame(s.tables, DirOf(p)); n < |s.mem| && SlotOf(p) < |s.mem[n]|
  {
    s.(mem := Put(s.mem, TableFrame(s.tables, DirOf(p)), SlotOf(p), Entry(POOL_PAGE + f)),
       owner := s.owner[p := f], pending := s.pending - {f})
  }

  lemma OtherPte(s: Pool, p: nat, q: nat)
    requires Injective(s.tables) && p != q && HasTable(s.tables, DirOf(p)) && HasTable(s.tables, DirOf(q))
    ensures TableFrame(s.tables, DirOf(p)) != TableFrame(s.tables, DirOf(q)) || SlotOf(p) != SlotOf(q)
  {
    if DirOf(p) == DirOf(q) && SlotOf(p) == SlotOf(q) {
      SamePage(p, q);
    }
  }

  lemma ValuesUpdate(m: map<nat, nat>, a: nat, f: nat)
    requires a !in m
    ensures m[a := f].Values == m.Values + {f}
  {
    var m' := m[a := f];
    forall x | x in m.Values + {f} ensures x in m'.Values {
      if x == f {
        assert m'[a] == f;
      } else {
        var b :| b in m && m[b] == x;
        assert m'[b] == x;
      }
    }
  }

  lemma InjectiveUpdate(m: map<nat, nat>, a: nat, f: nat)
    requires Injective(m) && a !in m && f !in m.Values
    ensures Injective(m[a := f])
  {
    forall b | b in m ensures m[b] in m.Values && m[b] != f {}
  }

  lemma ValuesRemove(m: map<nat, nat>, a: nat)
    requires a in m && Injective(m)
    ensures (m - {a}).Values == m.Values - {m[a]}
  {
    var m' := m - {a};
    forall x | x in m.Values - {m[a]} ensures x in m'.Values {
      var b :| b in m && m[b] == x;
      assert b in m' && m'[b] == x;
    }
  }

  lemma MapPageFrames(s: Pool, p: nat, f: nat)
    requires FramesInv(s.bits, s.owner, s.tables, s.pending) && p !in s.owner && f in s.pending
    ensures FramesInv(s.bits, s.owner[p := f], s.tables, s.pending - {f})
  {
    ValuesUpdate(s.owner, p, f);
    InjectiveUpdate(s.owner, p, f);
    assert s.owner[p := f].Values + s.tables.Values + (s.pending - {f}) == s.owner.Values + s.tables.Values + s.pending;
    hide Injective;
  }

  lemma MapPageInv(s: Pool, p: nat, f: nat)
    requires Inv(s) && p < |s.bits| && p !in s.owner && f in s.pending
    requires HasTable(s.tables, DirOf(p))
    ensures DirOf(p) < 1023 && SlotOf(p) < WORDS && TableFrame(s.tables, DirOf(p)) < FRAMES
    ensures Inv(MapPage(s, p, f))
  {
    PageInRange(p, |s.bits|);
    assert f in s.owner.Values + s.tables.Values + s.pending;
    PageInRange(f, |s.bits|);
    var n := TableFrame(s.tables, DirOf(p));
    TableInRange(s, DirOf(p));
    var t := MapPage(s, p, f);
    PutWellFormed(s.mem, n, SlotOf(p), Entry(POOL_PAGE + f));
    assert t.mem[DIR] == s.mem[DIR];
    forall q | 0 <= q < |t.bits| && HasTable(t.tables, DirOf(q)) ensures PteOk(t, q) {
      MapPagePte(s, p, f, q);
    }
    MapPageFrames(s, p, f);
  }

  lemma MapPagePte(s: Pool, p: nat, f: nat, q: nat)
    requires Inv(s) && p < |s.bits| && f < |s.bits| && q < |s.bits|
    requires HasTable(s.tables, DirOf(p)) && HasTable(s.tables, DirOf(q))
    ensures SlotOf(p) < WORDS && TableFrame(s.tables, DirOf(p)) < FRAMES
    ensures Shape(MapPage(s, p, f)) && PteOk(MapPage(s, p, f), q)
  {
    PageInRange(p, |s.bits|);
    PageInRange(q, |s.bits|);
    TableInRange(s, DirOf(p));
    TableInRange(s, DirOf(q));
    PutWellFormed(s.mem, TableFrame(s.tables, DirOf(p)), SlotOf(p), Entry(POOL_PAGE + f));
    assert PteOk(s, q);
    if q != p {
      OtherPte(s, p, q);
    }
  }

  function MakeTable(s: Pool, d: nat, g: nat): Pool
    requires |s.mem| == FRAMES && d < |s.mem[DIR]| && POOL_PAGE + g < FRAMES
  {
    s.(mem := Put(s.mem, DIR, d, Entry(POOL_PAGE + g))[POOL_PAGE + g := seq(WORDS, _ => 0)],
       tables := s.tables[d := g], pending := s.pending - {g})
  }

  lemma MakeTableFrames(s: Pool, d: nat, g: nat)
    requires FramesInv(s.bits, s.owner, s.tables, s.pending) && d !in s.tables && g in s.pending
    ensures FramesInv(s.bits, s.owner, s.tables[d := g], s.pending - {g})
  {
    ValuesUpdate(s.tables, d, g);
    InjectiveUpdate(s.tables, d, g);
    assert s.owner.Values + s.tables[d := g].Values + (s.pending - {g}) == s.owner.Values + s.tables.Values + s.pending;
    hide Injective;
  }

  lemma MakeTableInv(s: Pool, d: nat, g: nat)
    requires Inv(s) && 1 <= d < 1023 && d !in s.tables && g in s.pending
    ensures POOL_PAGE + g < FRAMES && Inv(MakeTable(s, d, g))
  {
    assert g in s.owner.Values + s.tables.Values + s.pending;
    PageInRange(g, |s.bits|);
    EntryFields(POOL_PAGE + g);
    var t := MakeTable(s, d, g);
    PutWellFormed(s.mem, DIR, d, Entry(POOL_PAGE + g));
    assert WellFormed(t.mem);
    assert t.mem[DIR] == s.mem[DIR][d := Entry(POOL_PAGE + g)];
    assert TablesInv(t);
    forall q | 0 <= q < |t.bits| && HasTable(t.tables, DirOf(q)) ensures PteOk(t, q) {
      MakeTablePte(s, d, g, q);
    }
    MakeTableFrames(s, d, g);
  }

  lemma MakeTablePte(s: Pool, d: nat, g: nat, q: nat)
    requires Inv(s) && 1 <= d < 1023 && d !in s.tables && g in s.pending && q < |s.bits|
    requires DirOf(q) == d || HasTable(s.tables, DirOf(q))
    ensures POOL_PAGE + g < FRAMES && Shape(MakeTable(s, d, g)) && PteOk(MakeTable(s, d, g), q)
  {
    assert g in s.owner.Values + s.tables.Values + s.pending;
    PageInRange(g, |s.bits|);
    PageInRange(q, |s.bits|);
    PutWellFormed(s.mem, DIR, d, Entry(POOL_PAGE + g));
    if DirOf(q) != d {
      assert PteOk(s, q);
      TableInRange(s, DirOf(q));
      if DirOf(q) != 0 {
        assert s.tables[DirOf(q)] in s.tables.Values;
      }
    }
  }

  function Unmap(s: Pool, p: nat): Pool
    requires p in s.owner && s.owner[p] < |s.bits| && HasTable(s.tables, DirOf(p))
    requires var n := TableFrame(s.tables, DirOf(p)); n < |s.mem| && SlotOf(p) < |s.mem[n]|
  {
    var n := TableFrame(s.tables, DirOf(p));
    s.(mem := Put(s.mem, n, SlotOf(p), s.mem[n][SlotOf(p)] - s.mem[n][SlotOf(p)] % 2),
       bits := s.bits[s.owner[p] := false], owner := s.owner - {p})
  }

  lemma UnmapFrames(s: Pool, p: nat)
    requires FramesInv(s.bits, s.owner, s.tables, s.pending) && p in s.owner
    ensures s.owner[p] < |s.bits|
    ensures FramesInv(s.bits[s.owner[p] := false], s.owner - {p}, s.tables, s.pending)
  {
    ValuesRemove(s.owner, p);
    assert s.owner[p] in s.owner.Values + s.tables.Values + s.pending;
  }

  lemma UnmapInv(s: Pool, p: nat)
    requires Inv(s) && p in s.owner
    ensures DirOf(p) < 1023 && SlotOf(p) < WORDS && TableFrame(s.tables, DirOf(p)) < FRAMES
    ensures Inv(Unmap(s, p))
  {
    PageInRange(p, |s.bits|);
    var n := TableFrame(s.tables, DirOf(p));
    TableInRange(s, DirOf(p));
    var t := Unmap(s, p);
    var e := s.mem[n][SlotOf(p)];
    PutWellFormed(s.mem, n, SlotOf(p), e - e % 2);
    assert t.mem[DIR] == s.mem[DIR];
    forall q | 0 <= q < |t.bits| && HasTable(t.tables, DirOf(q)) ensures PteOk(t, q) {
      UnmapPte(s, p, q);
    }
    UnmapFrames(s, p);
  }

  lemma UnmapPte(s: Pool, p: nat, q: nat)
    requires Inv(s) && p in s.owner && q < |s.bits| && HasTable(s.tables, DirOf(q))
    ensures SlotOf(p) < WORDS && TableFrame(s.tables, DirOf(p)) < FRAMES
    ensures Shape(Unmap(s, p)) && PteOk(Unmap(s, p), q)
  {
    PageInRange(p, |s.bits|);
    PageInRange(q, |s.bits|);
    TableInRange(s, DirOf(p));
    TableInRange(s, DirOf(q));
    var n := TableFrame(s.tables, DirOf(p));
    var e := s.mem[n][SlotOf(p)];
    PutWellFormed(s.mem, n, SlotOf(p), e - e % 2);
    assert PteOk(s, q);
    if q != p {
      OtherPte(s, p, q);
    }
  }

  /** A store by any process through a mapped pool page never touches a table, so it keeps the invariant. */
  lemma UserStoreInv(s: Pool, p: nat, i: nat, x: nat)
    requires Inv(s) && p in s.owner && i < WORDS && x < ADDRESS_LIMIT
    ensures POOL_PAGE + s.owner[p] < FRAMES
    ensures Inv(s.(mem := Put(s.mem, POOL_PAGE + s.owner[p], i, x)))
  {
    PageInRange(s.owner[p], |s.bits|);
    var n := POOL_PAGE + s.owner[p];
    var t := s.(mem := Put(s.mem, n, i, x));
    PutWellFormed(s.mem, n, i, x);
    assert t.mem[DIR] == s.mem[DIR];
    assert s.owner[p] in s.owner.Values;
    forall q | 0 <= q < |t.bits| && HasTable(t.tables, DirOf(q)) ensures PteOk(t, q) {
      assert PteOk(s, q);
      PageInRange(q, |s.bits|);
      TableInRange(s, DirOf(q));
      if DirOf(q) != 0 {
        assert s.tables[DirOf(q)] in s.tables.Values;
      }
    }
  }

  // ----- What the invariant says to a process

  /** A pool address translates exactly when its page is mapped, and then to its own frame, which no other
      page and no table shares. */
  lemma Translation(s: Pool, p: nat, offset: nat)
    requires Inv(s) && p < |s.bits| && offset < PAGE_SIZE
    ensures Vaddr(p) + offset < ADDRESS_LIMIT
    ensures Walk(s.mem, Vaddr(p) + offset) ==
      if p in s.owner then Some(Place(POOL_PAGE + s.owner[p], offset / 4)) else None
    ensures p in s.owner ==>
      (&& s.bits[s.owner[p]]
       && (forall q :: q in s.owner && q != p ==> s.owner[q] != s.owner[p])
       && (forall d :: d in s.tables ==> s.tables[d] != s.owner[p]))
  {
    PageInRange(p, |s.bits|);
    VaddrIndices(p);
    var v := Vaddr(p) + offset;
    assert v == (POOL_PAGE + p) * PAGE_SIZE + offset;
    assert v / PAGE_SIZE == POOL_PAGE + p && v % PAGE_SIZE == offset;
    assert DirIndex(v) == DirOf(p) && TableIndex(v) == SlotOf(p) && WordIndex(v) == offset / 4;
    var d := DirOf(p);
    if HasTable(s.tables, d) {
      EntryFields(TableFrame(s.tables, d));
      assert PteOk(s, p);
      if p in s.owner {
        EntryFields(POOL_PAGE + s.owner[p]);
        assert s.owner[p] in s.owner.Values;
        forall e | e in s.tables ensures s.tables[e] != s.owner[p] {
          assert s.tables[e] in s.tables.Values;
        }
      }
    }
  }

  ghost function Used(bits: seq<bool>): set<nat> {
    set f: nat | f < |bits| && bits[f]
  }

  ghost function Clear(bits: seq<bool>): set<nat> {
    set f: nat | f < |bits| && !bits[f]
  }

  lemma InjectiveCard(m: map<nat, nat>)
    requires Injective(m)
    ensures |m.Values| == |m|
  {
    if m == map[] {
      assert m.Values == {};
    } else {
      var a :| a in m;
      var m' := m - {a};
      InjectiveCard(m');
      ValuesRemove(m, a);
      assert m[a] in m.Values;
      assert m.Keys == m'.Keys + {a};
      assert |m.Keys| == |m'.Keys| + 1;
    }
  }

  lemma FramesCounted(bits: seq<bool>, owner: map<nat, nat>, tables: map<nat, nat>)
    requires FramesInv(bits, owner, tables, {})
    ensures |Used(bits)| == |owner| + |tables|
  {
    InjectiveCard(owner);
    InjectiveCard(tables);
    assert Used(bits) == owner.Values + tables.Values;
  }

  /** Conservation: the used frames are the mapped pages plus the page tables made, each counted once. */
  lemma Conservation(s: Pool)
    requires Inv(s) && s.pending == {}
    ensures |Used(s.bits)| == |s.owner| + |s.tables|
  {
    FramesCounted(s.bits, s.owner, s.tables);
  }

  lemma ClearAfterSet(bits: seq<bool>, f: nat)
    requires f < |bits| && !bits[f]
    ensures |Clear(bits[f := true])| == |Clear(bits)| - 1
  {
    assert Clear(bits[f := true]) == Clear(bits) - {f};
  }

  /** Directory entries that a run of `n >= 1` pages needs and that have no table yet. */
  ghost function Missing(tables: map<nat, nat>, a: nat, n: nat): set<nat>
    requires n >= 1
  {
    set d: nat | 1 <= d < 1023 && d !in tables && DirOf(a) <= d <= DirOf(a + n - 1)
  }

  /** The virtual run [a, a+n) is the first fit, and there are frames for its pages and missing tables. */
  ghost predicate EnoughMemory(slots: seq<DoublebitMaps.Slot>, bits: seq<bool>, tables: map<nat, nat>, a: nat, n: nat)
  {
    n >= 1 && DoublebitMaps.IsFirstFit(slots, n, a) && |Clear(bits)| >= n + |Missing(tables, a, n)|
  }

  lemma CoveredAdd(live: map<nat, nat>, a: nat, n: nat, p: nat)
    requires a !in live
    ensures DoublebitMaps.Covered(live[a := n], p) <==> DoublebitMaps.Covered(live, p) || a <= p < a + n
  {
    var live' := live[a := n];
    if DoublebitMaps.Covered(live, p) {
      var b :| b in live && b <= p < b + live[b];
      assert b in live' && b <= p < b + live'[b];
    }
    if a <= p < a + n {
      assert a in live' && a <= p < a + live'[a];
    }
  }

  lemma CoveredRemove(slots: seq<DoublebitMaps.Slot>, live: map<nat, nat>, a: nat, p: int)
    requires DoublebitMaps.Represents(slots, live) && a in live
    ensures DoublebitMaps.Covered(live - {a}, p) <==> DoublebitMaps.Covered(live, p) && !(a <= p < a + live[a])
  {
    if DoublebitMaps.Covered(live, p) && !(a <= p < a + live[a]) {
      var b :| b in live && b <= p < b + live[b];
      assert b in live - {a} && b <= p < b + (live - {a})[b];
    }
  }

  /** Pages of a free run are not mapped. */
  lemma FreeRunUncovered(slots: seq<DoublebitMaps.Slot>, live: map<nat, nat>, a: nat, n: nat, p: nat)
    requires DoublebitMaps.Represents(slots, live) && DoublebitMaps.FreeRun(slots, a, n) && a <= p < a + n
    ensures !DoublebitMaps.Covered(live, p)
  {
    DoublebitMaps.LiveIsUsed(slots, live);
    assert slots[p] == DoublebitMaps.Free;
  }

  /** With a frame for every missing table, the one page `p` needs is there. */
  lemma MissingBound(tables: map<nat, nat>, bits: seq<bool>, a: nat, n: nat, p: nat, spare: nat)
    requires n >= 1 && a <= p < a + n && DirOf(p) < 1023 && |Clear(bits)| >= spare + |Missing(tables, a, n)|
    ensures !HasTable(tables, DirOf(p)) ==> Clear(bits) != {}
  {
    if !HasTable(tables, DirOf(p)) {
      assert DirOf(p) in Missing(tables, a, n);
    }
  }

  lemma MissingAfter(tables: map<nat, nat>, tables': map<nat, nat>, a: nat, n: nat, p: nat)
    requires n >= 1 && a <= p < a + n && DirOf(p) < 1023
    requires tables'.Keys == tables.Keys + if HasTable(tables, DirOf(p)) then {} else {DirOf(p)}
    ensures |Missing(tables', a, n)| == |Missing(tables, a, n)| - if HasTable(tables, DirOf(p)) then 0 else 1
  {
    if HasTable(tables, DirOf(p)) {
      assert Missing(tables', a, n) == Missing(tables, a, n);
    } else {
      assert DirOf(p) in Missing(tables, a, n);
      assert Missing(tables', a, n) == Missing(tables, a, n) - {DirOf(p)};
    }
  }

  /** The self-map shows the words of table `d` from 0xffc00000 + 4096 * d on. */
  lemma TableWindow(mem: Memory, d: nat, i: nat)
    requires WellFormed(mem) && SelfMapped(mem) && d < WORDS && i < WORDS && Present(mem[DIR][d])
    ensures 0xffc0_0000 + PAGE_SIZE * d + 4 * i < ADDRESS_LIMIT
    ensures Walk(mem, 0xffc0_0000 + PAGE_SIZE * d + 4 * i) == Some(Place(FrameOf(mem[DIR][d]), i))
  {
    var v := d * 0x40_0000 + i * PAGE_SIZE;
    assert v / PAGE_SIZE == d * WORDS + i;
    assert DirIndex(v) == d && TableIndex(v) == i;
    SelfMapWalk(mem, v);
  }

  /** All that the code reads about page `p`: its directory word, its table word, and the self-map. */
  lemma PageState(s: Pool, p: nat)
    requires Inv(s) && p < |s.bits|
    ensures WellFormed(s.mem) && SelfMapped(s.mem) && PoolFits(|s.bits|)
    ensures DirOf(p) < 1023 && SlotOf(p) < WORDS && Vaddr(p) < ADDRESS_LIMIT
    ensures Present(s.mem[DIR][DirOf(p)]) <==> HasTable(s.tables, DirOf(p))
    ensures p in s.owner ==> HasTable(s.tables, DirOf(p)) && s.owner[p] < |s.bits|
    ensures HasTable(s.tables, DirOf(p)) ==>
      var n := TableFrame(s.tables, DirOf(p));
      && FrameOf(s.mem[DIR][DirOf(p)]) == n < FRAMES
      && if p in s.owner then s.mem[n][SlotOf(p)] == Entry(POOL_PAGE + s.owner[p]) else !Present(s.mem[n][SlotOf(p)])
  {
    PageInRange(p, |s.bits|);
    EntryFields(DIR);
    if HasTable(s.tables, DirOf(p)) {
      EntryFields(TableFrame(s.tables, DirOf(p)));
      TableInRange(s, DirOf(p));
      assert PteOk(s, p);
    }
  }

  // ----- The memory manager's page layer

  /** The address of vaddr2pte leads to a word that is present exactly when the page is mapped. */
  lemma PteWalk(s: Pool, p: nat)
    requires Inv(s) && p < |s.bits| && HasTable(s.tables, DirOf(p))
    ensures WellFormed(s.mem) && Vaddr2Pte(Vaddr(p)) < ADDRESS_LIMIT && Walk(s.mem, Vaddr2Pte(Vaddr(p))).Some?
    ensures var at := Walk(s.mem, Vaddr2Pte(Vaddr(p))).value;
      at.frame < FRAMES && at.index < WORDS && (Present(s.mem[at.frame][at.index]) <==> p in s.owner)
  {
    hide Inv;
    PageState(s, p);
    VaddrIndices(p);
    SelfMapWalk(s.mem, Vaddr(p));
    if p in s.owner {
      EntryFields(POOL_PAGE + s.owner[p]);
    }
    hide Present;
    hide Entry;
    hide FrameOf;
    hide Walk;
    hide Vaddr;
    hide Vaddr2Pte;
  }

  /** The pages that leave with the allocation at `a`, if there is one. */
  lemma PagesToFree(slots: seq<DoublebitMaps.Slot>, live: map<nat, nat>, a: nat)
    requires DoublebitMaps.Represents(slots, live)
    ensures var n := if a in live then live[a] else 0;
      && (forall p: int :: a <= p < a + n ==> DoublebitMaps.Covered(live, p))
      && forall p: int :: DoublebitMaps.Covered(live - {a}, p) <==> DoublebitMaps.Covered(live, p) && !(a <= p < a + n)
  {
    if a in live {
      forall p: int
        ensures a <= p < a + live[a] ==> DoublebitMaps.Covered(live, p)
        ensures DoublebitMaps.Covered(live - {a}, p) <==> DoublebitMaps.Covered(live, p) && !(a <= p < a + live[a])
      {
        CoveredRemove(slots, live, a, p);
      }
    } else {
      assert live - {a} == live;
    }
  }

  /** What free_slots finds at a live start, and at a slot it refuses. */
  lemma RunToFree(slots: seq<DoublebitMaps.Slot>, live: map<nat, nat>, a: nat)
    requires DoublebitMaps.Represents(slots, live) && a < |slots|
    requires a in live || slots[a] in {DoublebitMaps.Free, DoublebitMaps.SeqEnd}
    ensures var n := DoublebitMaps.RunLength(slots, a);
      && n == (if a in live then live[a] else 0) && a + n <= |slots|
      && DoublebitMaps.Represents(DoublebitMaps.Erase(slots, a, n), live - {a})
      && (slots[a] == DoublebitMaps.SeqStart ==> DoublebitMaps.EndFrom(slots, a) < |slots|)
      && (a !in live ==> DoublebitMaps.Erase(slots, a, n) == slots)
  {
    if a in live {
      DoublebitMaps.EraseRepresents(slots, live, a);
    } else {
      assert DoublebitMaps.Erase(slots, a, 0) == slots && live - {a} == live;
    }
  }

  class MemoryManager {
    var mem: Memory
    const virt: DoublebitMaps.DoublebitMap
    const frames: Bitmaps.Bitmap
    /** Live allocations (first page -> number of pages), and what the invariant tracks. */
    ghost var live: map<nat, nat>
    ghost var owner: map<nat, nat>
    ghost var tables: map<nat, nat>

    ghost function View(pending: set<nat>): Pool
      reads this, frames.base
    {
      Pool(mem, frames.Bits(), owner, tables, pending)
    }

    ghost predicate Structure()
      reads this
    {
      virt.Valid() && frames.base.Length == virt.bytesLen && frames.base != virt.base
    }

    /** Every virtual page of a live allocation is mapped and nothing else of the pool is. */
    ghost predicate Valid()
      reads this, frames.base, virt.base
    {
      && Structure()
      && DoublebitMaps.Represents(virt.Slots(), live)
      && Inv(View({}))
      && (forall p :: p in owner <==> DoublebitMaps.Covered(live, p))
    }

    /** Boot state: `mem` as install_page leaves it, no pool page mapped. */
    constructor (mem: Memory, bytesLen: nat)
      requires WellFormed(mem) && PoolFits(8 * bytesLen)
      requires mem[DIR][1023] == Entry(DIR) && mem[DIR][0] == Entry(FIRST_TABLE)
      requires forall d :: 1 <= d < 1023 ==> !Present(mem[DIR][d])
      requires forall i :: POOL_PAGE <= i < WORDS ==> !Present(mem[FIRST_TABLE][i])
      ensures Valid() && live == map[] && tables == map[] && fresh(virt) && fresh(frames) && fresh(virt.base)
      ensures fresh(frames.base)
    {
      this.mem := mem;
      virt := new DoublebitMaps.DoublebitMap(bytesLen);
      frames := new Bitmaps.Bitmap(bytesLen);
      live, owner, tables := map[], map[], map[];
      new;
      forall p | 0 <= p < 8 * bytesLen && HasTable(tables, DirOf(p)) ensures !Present(PteOf(View({}), p)) {
        assert DirOf(p) == 0 && SlotOf(p) == POOL_PAGE + p;
      }
    }

    /** A store through the current page tables. */
    method Store(v: nat, x: nat)
      requires WellFormed(mem) && v < ADDRESS_LIMIT && x < ADDRESS_LIMIT && Walk(mem, v).Some?
      modifies this`mem
      ensures var at := Walk(old(mem), v).value;
        at.frame < FRAMES && at.index < WORDS && mem == Put(old(mem), at.frame, at.index, x)
      ensures WellFormed(mem)
    {
      IndexRanges(v);
      var n := FrameOf(mem[DIR][DirIndex(v)]);
      FrameInRange(mem[DIR][DirIndex(v)]);
      FrameInRange(mem[n][TableIndex(v)]);
      var f := FrameOf(mem[n][TableIndex(v)]);
      PutWellFormed(mem, f, WordIndex(v), x);
      var row: seq<nat> := mem[f][WordIndex(v) := x];
      mem := mem[f := row];
    }

    method Load(v: nat) returns (x: nat)
      requires WellFormed(mem) && v < ADDRESS_LIMIT && Walk(mem, v).Some?
      ensures var at := Walk(mem, v).value;
        at.frame < FRAMES && at.index < WORDS && x == mem[at.frame][at.index]
    {
      IndexRanges(v);
      var n := FrameOf(mem[DIR][DirIndex(v)]);
      FrameInRange(mem[DIR][DirIndex(v)]);
      FrameInRange(mem[n][TableIndex(v)]);
      x := mem[FrameOf(mem[n][TableIndex(v)])][WordIndex(v)];
    }

    method GetPhyPage(ghost pending: set<nat>) returns (r: Option<nat>)
      requires Structure() && Inv(View(pending))
      modifies frames.base
      ensures r == None ==> Clear(old(frames.Bits())) == {} && frames.Bits() == old(frames.Bits())
      ensures r.Some? ==> Bitmaps.IsScan(old(frames.Bits()), r.value)
      ensures r.Some? ==> r.value < |frames.Bits()| && View(pending + {r.value}) == Take(old(View(pending)), r.value)
      ensures r.Some? ==> Inv(View(pending + {r.value})) && r.value !in pending
      ensures r.Some? ==> |Clear(frames.Bits())| == |Clear(old(frames.Bits()))| - 1
    {
      var idx := frames.Scan();
      if idx == -1 {
        return None;
      }
      TakeInv(View(pending), idx);
      ClearAfterSet(frames.Bits(), idx);
      frames.SetBit(idx, true);
      r := Some(idx);
    }

    /** memset over the window of a new page table. */
    method ClearTable(base: nat, ghost d: nat, ghost n: nat)
      requires WellFormed(mem) && SelfMapped(mem) && d < 1023 && base == 0xffc0_0000 + PAGE_SIZE * d
      requires Present(mem[DIR][d]) && FrameOf(mem[DIR][d]) == n && n != DIR && n < FRAMES
      modifies this`mem
      ensures WellFormed(mem) && mem == old(mem)[n := seq(WORDS, _ => 0)]
    {
      var i := 0;
      while i < WORDS
        invariant 0 <= i <= WORDS && WellFormed(mem)
        invariant forall j :: 0 <= j < FRAMES && j != n ==> mem[j] == old(mem)[j]
        invariant forall j :: 0 <= j < i ==> mem[n][j] == 0
      {
        TableWindow(mem, d, i);
        Store(base + 4 * i, 0);
        i := i + 1;
      }
      assert mem[n] == seq(WORDS, _ => 0);
    }

    /** A page that is already mapped is left alone, and its new frame is taken for nothing. */
    method MapVirPhy(viraddr: nat, phyaddr: nat, ghost p: nat, ghost f: nat)
      requires Structure() && Inv(View({f})) && p < |frames.Bits()|
      requires viraddr == Vaddr(p) && phyaddr == (POOL_PAGE + f) * PAGE_SIZE < ADDRESS_LIMIT - PAGE_SIZE
      requires !HasTable(tables, DirOf(p)) ==> Clear(frames.Bits()) != {}
      modifies this`mem, this`owner, this`tables, frames.base
      ensures p in old(owner) ==> Inv(View({f})) && owner == old(owner) && mem == old(mem)
      ensures p !in old(owner) ==> Inv(View({})) && owner == old(owner)[p := f]
      ensures forall d :: d in old(tables) ==> d in tables && tables[d] == old(tables)[d]
      ensures tables.Keys == old(tables.Keys) + if HasTable(old(tables), DirOf(p)) then {} else {DirOf(p)}
      ensures |Clear(frames.Bits())| == |Clear(old(frames.Bits()))| - if HasTable(old(tables), DirOf(p)) then 0 else 1
    {
      hide Inv;
      ghost var s := View({f});
      PageState(s, p);
      VaddrIndices(p);
      SelfMapWalk(mem, viraddr);
      var pdeVaddr, pteVaddr := Vaddr2Pde(viraddr), Vaddr2Pte(viraddr);
      var pde := Load(pdeVaddr);
      if Present(pde) {
        MapInTable(pteVaddr, phyaddr, p, f);
      } else {
        var pgTable := GetPhyPage({f});
        NewTable(pdeVaddr, pteVaddr, pgTable.value, p, f);
        SetPte(pteVaddr, phyaddr, p, f);
      }
    }

    /** The branch of map_vir_phy for a page whose table exists. */
    method MapInTable(pteVaddr: nat, phyaddr: nat, ghost p: nat, ghost f: nat)
      requires Structure() && Inv(View({f})) && p < |frames.Bits()| && HasTable(tables, DirOf(p))
      requires pteVaddr == Vaddr2Pte(Vaddr(p)) && phyaddr == (POOL_PAGE + f) * PAGE_SIZE < ADDRESS_LIMIT - PAGE_SIZE
      modifies this`mem, this`owner
      ensures p in old(owner) ==> Inv(View({f})) && owner == old(owner) && mem == old(mem)
      ensures p !in old(owner) ==> Inv(View({})) && owner == old(owner)[p := f]
    {
      hide Inv;
      hide Present;
      hide Entry;
      hide FrameOf;
      hide Walk;
      hide Vaddr;
      hide Vaddr2Pte;
      PteWalk(View({f}), p);
      var pte := Load(pteVaddr);
      if !Present(pte) {
        SetPte(pteVaddr, phyaddr, p, f);
      }
    }

    /** Write the table word of page `p`, whose table exists. */
    method SetPte(pteVaddr: nat, phyaddr: nat, ghost p: nat, ghost f: nat)
      requires Structure() && Inv(View({f})) && p < |frames.Bits()| && p !in owner && HasTable(tables, DirOf(p))
      requires pteVaddr == Vaddr2Pte(Vaddr(p)) && phyaddr == (POOL_PAGE + f) * PAGE_SIZE < ADDRESS_LIMIT - PAGE_SIZE
      modifies this`mem, this`owner
      ensures Inv(View({})) && owner == old(owner)[p := f]
    {
      hide Inv;
      ghost var s := View({f});
      PageState(s, p);
      VaddrIndices(p);
      SelfMapWalk(mem, Vaddr(p));
      MapPageInv(s, p, f);
      Store(pteVaddr, phyaddr + ATTRIBUTES);
      owner := owner[p := f];
      assert View({}) == MapPage(s, p, f);
    }

    /** Enter frame `g` as the page table of page `p` and clear it through the self-map. */
    method NewTable(pdeVaddr: nat, pteVaddr: nat, g: nat, ghost p: nat, ghost f: nat)
      requires Structure() && f != g && Inv(View({f} + {g})) && p < |frames.Bits()| && !HasTable(tables, DirOf(p))
      requires pdeVaddr == Vaddr2Pde(Vaddr(p)) && pteVaddr == Vaddr2Pte(Vaddr(p)) && g < |frames.Bits()|
      modifies this`mem, this`tables
      ensures Inv(View({f})) && tables == old(tables)[DirOf(p) := g]
    {
      hide Inv;
      ghost var s, d := View({f} + {g}), DirOf(p);
      PageState(s, p);
      PageInRange(g, |s.bits|);
      VaddrIndices(p);
      SelfMapWalk(mem, Vaddr(p));
      MakeTableInv(s, d, g);
      EntryFields(POOL_PAGE + g);
      Store(pdeVaddr, (POOL_PAGE + g) * PAGE_SIZE + ATTRIBUTES);
      assert pteVaddr - pteVaddr % PAGE_SIZE == 0xffc0_0000 + PAGE_SIZE * d;
      ClearTable(pteVaddr - pteVaddr % PAGE_SIZE, d, POOL_PAGE + g);
      tables := tables[d := g];
      assert s.pending - {g} == {f};
      assert View({f}) == MakeTable(s, d, g);
    }

    /** One round of malloc_page: take a frame and map it, leaving frames for the rest of the run. */
    method MapOne(vaddr: nat, ghost p: nat, ghost a: nat, ghost cnt: nat, ghost left: nat)
      requires Structure() && Inv(View({})) && vaddr == Vaddr(p) && a <= p < a + cnt && p < |frames.Bits()|
      requires p !in owner && |Clear(frames.Bits())| >= left + 1 + |Missing(tables, a, cnt)|
      modifies this`mem, this`owner, this`tables, frames.base
      ensures Inv(View({})) && p in owner && owner == old(owner)[p := owner[p]]
      ensures forall d :: d in old(tables) ==> d in tables && tables[d] == old(tables)[d]
      ensures |Clear(frames.Bits())| >= left + |Missing(tables, a, cnt)|
    {
      hide Inv;
      PageState(View({}), p);
      var phyaddrStart := GetPhyPage({});
      ghost var f := phyaddrStart.value;
      PageInRange(f, |frames.Bits()|);
      assert {} + {f} == {f};
      MissingBound(tables, frames.Bits(), a, cnt, p, left);
      MapVirPhy(vaddr, (POOL_PAGE + phyaddrStart.value) * PAGE_SIZE, p, f);
      MissingAfter(old(tables), tables, a, cnt, p);
    }

    /** The loop of malloc_page over a run of unmapped pages. */
    method MapRun(vaddr: nat, cnt: nat, ghost a: nat)
      requires Structure() && Inv(View({})) && vaddr == Vaddr(a) && cnt >= 1 && a + cnt <= |frames.Bits()|
      requires forall p :: a <= p < a + cnt ==> p !in owner
      requires |Clear(frames.Bits())| >= cnt + |Missing(tables, a, cnt)|
      modifies this`mem, this`owner, this`tables, frames.base
      ensures Inv(View({}))
      ensures forall p :: p in owner <==> p in old(owner) || a <= p < a + cnt
      ensures forall p :: p in old(owner) ==> owner[p] == old(owner)[p]
      ensures forall d :: d in old(tables) ==> d in tables && tables[d] == old(tables)[d]
    {
      hide Inv;
      hide Clear;
      hide Missing;
      var cur, k := vaddr, 0;
      while k < cnt
        invariant 0 <= k <= cnt && cur == Vaddr(a + k)
        invariant Inv(View({}))
        invariant forall p :: p in owner <==> p in old(owner) || a <= p < a + k
        invariant forall p :: p in old(owner) ==> owner[p] == old(owner)[p]
        invariant forall d :: d in old(tables) ==> d in tables && tables[d] == old(tables)[d]
        invariant |Clear(frames.Bits())| >= cnt - k + |Missing(tables, a, cnt)|
      {
        MapOne(cur, a + k, a, cnt, cnt - k - 1);
        cur := cur + PAGE_SIZE;
        k := k + 1;
      }
    }

    /** Allocates `cnt` consecutive pages; `a` is the first fit. */
    method MallocPage(cnt: nat, ghost a: nat) returns (vaddr: nat)
      requires Valid() && EnoughMemory(virt.Slots(), frames.Bits(), tables, a, cnt)
      modifies this, frames.base, virt.base
      ensures Valid() && vaddr == Vaddr(a) && a !in old(live) && live == old(live)[a := cnt]
      ensures forall p :: p in old(owner) ==> p in owner && owner[p] == old(owner)[p]
      ensures forall d :: d in old(tables) ==> d in tables && tables[d] == old(tables)[d]
    {
      hide Inv;
      hide DoublebitMaps.Represents;
      ghost var slots := virt.Slots();
      DoublebitMaps.StampRepresents(slots, live, a, cnt);
      forall p | a <= p < a + cnt ensures p !in owner {
        FreeRunUncovered(slots, live, a, cnt, p);
      }
      var idxStart := virt.GetFreeSlots(cnt);
      assert idxStart == a;
      vaddr := POOL + idxStart * PAGE_SIZE;
      MapRun(vaddr, cnt, a);
      live := live[a := cnt];
      forall p: nat ensures p in owner <==> DoublebitMaps.Covered(live, p) {
        CoveredAdd(old(live), a, cnt, p);
      }
    }

    /** One round of free_page: look the frame up, clear its bit, drop the mapping. */
    method FreeOne(vaddr: nat, ghost p: nat)
      requires Structure() && Inv(View({})) && p in owner && p < |frames.Bits()| && vaddr == Vaddr(p)
      modifies this`mem, this`owner, frames.base
      ensures Inv(View({})) && owner == old(owner) - {p}
    {
      hide Inv;
      ghost var s := View({});
      PageState(s, p);
      VaddrIndices(p);
      SelfMapWalk(mem, vaddr);
      UnmapInv(s, p);
      var pte := Load(Vaddr2Pte(vaddr));
      var paddr := pte - pte % PAGE_SIZE + vaddr % PAGE_SIZE;
      assert vaddr == (POOL_PAGE + p) * PAGE_SIZE;
      assert vaddr % PAGE_SIZE == 0;
      assert pte == (POOL_PAGE + owner[p]) * PAGE_SIZE + ATTRIBUTES;
      assert pte % PAGE_SIZE == ATTRIBUTES;
      assert paddr - POOL == owner[p] * PAGE_SIZE;
      frames.SetBit((paddr - POOL) / PAGE_SIZE, false);
      var pte' := Load(Vaddr2Pte(vaddr));
      Store(Vaddr2Pte(vaddr), pte' - pte' % 2);
      owner := owner - {p};
      assert View({}) == Unmap(s, p);
    }

    /** The loop of free_page over a run of mapped pages. */
    method UnmapRun(viraddr: nat, cnt: nat, ghost a: nat)
      requires Structure() && Inv(View({})) && viraddr == Vaddr(a) && a + cnt <= |frames.Bits()|
      requires forall p :: a <= p < a + cnt ==> p in owner
      modifies this`mem, this`owner, frames.base
      ensures Inv(View({}))
      ensures forall p :: p in owner <==> p in old(owner) && !(a <= p < a + cnt)
      ensures forall p :: p in owner ==> owner[p] == old(owner)[p]
    {
      hide Inv;
      var vaddr, k := viraddr, 0;
      while k < cnt
        invariant 0 <= k <= cnt && vaddr == Vaddr(a + k)
        invariant Inv(View({}))
        invariant forall p :: p in owner <==> p in old(owner) && !(a <= p < a + k)
        invariant forall p :: p in owner ==> owner[p] == old(owner)[p]
      {
        FreeOne(vaddr, a + k);
        vaddr := vaddr + PAGE_SIZE;
        k := k + 1;
      }
    }

    /** Releases the live allocation that starts at `viraddr`; a page that is free or ends a run is refused. */
    method FreePage(viraddr: nat, ghost a: nat)
      requires Valid() && viraddr == Vaddr(a) && a < |virt.Slots()|
      requires a in live || virt.Slots()[a] in {DoublebitMaps.Free, DoublebitMaps.SeqEnd}
      modifies this, frames.base, virt.base
      ensures Valid() && live == old(live) - {a} && tables == old(tables)
      ensures forall p :: p in owner ==> owner[p] == old(owner)[p]
      ensures a !in old(live) ==> virt.Slots() == old(virt.Slots()) && owner.Keys == old(owner.Keys)
    {
      hide Inv;
      hide DoublebitMaps.Represents;
      hide DoublebitMaps.Covered;
      hide DoublebitMaps.RunLength;
      RunToFree(virt.Slots(), live, a);
      PagesToFree(virt.Slots(), live, a);
      assert (viraddr - POOL) / PAGE_SIZE == a;
      var cnt := virt.FreeSlots((viraddr - POOL) / PAGE_SIZE);
      UnmapRun(viraddr, cnt, a);
      live := live - {a};
      forall p: int ensures p in owner <==> DoublebitMaps.Covered(live, p) {
        assert p in old(owner) <==> DoublebitMaps.Covered(old(live), p);
      }
    }
  }
}
