/** MemoryManager::malloc and MemoryManager::free of mm/memory.cc: the slab layer over the page layer. */
module Heap {
  import opened Options
  import opened Paging
  import opened Slab
  import PageManager
  import DoublebitMaps

  /** DIV_ROUND_UP(bytes, page_size) in 32-bit arithmetic: it wraps for the last 4095 sizes. */
  function PageCount(bytes: nat): nat {
    ((bytes + PAGE_SIZE - 1) % ADDRESS_LIMIT) / PAGE_SIZE
  }

  /** The descriptor of a small request: the smallest block size that fits. */
  ghost predicate IsClass(bytes: nat, i: nat) {
    i < CLASSES && bytes <= BlockSize(i) && (i > 0 ==> BlockSize(i - 1) < bytes)
  }

  function PageIndex(addr: nat): nat
    requires addr >= PageManager.POOL
  {
    (addr - PageManager.POOL) / PAGE_SIZE
  }

  /** Every slab page is a live one-page allocation of the page layer. */
  ghost predicate SlabPagesLive(s: State, pages: map<nat, nat>) {
    forall page :: page in s.headers ==>
      && page >= PageManager.POOL && page == PageManager.Vaddr(PageIndex(page))
      && PageIndex(page) in pages && pages[PageIndex(page)] == 1
  }

  /** A live page run that is not a slab page: what a large malloc returned. */
  ghost predicate LargeLive(s: State, pages: map<nat, nat>, p: nat) {
    p in pages && PageManager.Vaddr(p) !in s.headers
  }

  lemma VaddrIndex(p: nat)
    ensures PageManager.Vaddr(p) >= PageManager.POOL && PageIndex(PageManager.Vaddr(p)) == p
    ensures PageManager.Vaddr(p) % PAGE_SIZE == 0
  {
    assert PageManager.Vaddr(p) == (PageManager.POOL_PAGE + p) * PAGE_SIZE;
  }

  /** A small block and a large run never overlap, and the alignment test of free tells them apart. */
  lemma SmallLargeDisjoint(s: State, live: map<nat, nat>, slots: seq<DoublebitMaps.Slot>, pages: map<nat, nat>, a: nat,
    p: nat)
    requires Inv(s, live) && SlabPagesLive(s, pages) && DoublebitMaps.Represents(slots, pages)
    requires a in live && LargeLive(s, pages, p)
    ensures a + live[a] <= PageManager.Vaddr(p) || PageManager.Vaddr(p + pages[p]) <= a
    ensures a % PAGE_SIZE != 0 && PageManager.Vaddr(p) % PAGE_SIZE == 0
  {
    var page := PageOf(a);
    assert HeaderOk(s, live, page);
    assert a in LiveOn(live, page);
    BlockInPage(page, s.headers[page].blockSize, a);
    var q := PageIndex(page);
    VaddrIndex(p);
    assert q != p;
    if q < p {
      assert q + pages[q] <= p;
    } else {
      assert p + pages[p] <= q;
    }
  }

  /** Two large runs never overlap. */
  lemma LargeRunsDisjoint(slots: seq<DoublebitMaps.Slot>, pages: map<nat, nat>, p: nat, q: nat)
    requires DoublebitMaps.Represents(slots, pages) && p in pages && q in pages && p < q
    ensures PageManager.Vaddr(p) + pages[p] * PAGE_SIZE <= PageManager.Vaddr(q)
  {
    assert p + pages[p] <= q;
  }

  /** Carves a page into blocks, appending each to the free queue. */
  method InstallMemHeader(page: nat, size: nat) returns (h: Header)
    requires page % PAGE_SIZE == 0 && size > 0
    ensures h == NewHeader(page, size)
  {
    var freeCnts := (PAGE_SIZE - HEADER) / size;
    var elem, i := page + HEADER, 0;
    var queue: seq<nat> := [];
    while i < freeCnts
      invariant 0 <= i <= freeCnts && elem == BlockAt(page, size, i) && queue == Carved(page, size, i)
    {
      queue := queue + [elem];
      elem := elem + size;
      i := i + 1;
    }
    h := Header(size, freeCnts, queue);
  }

  /** The doubling loop that finds the descriptor. */
  method DescIndex(bytes: nat) returns (i: nat)
    requires 1 <= bytes <= MAX_SMALL
    ensures IsClass(bytes, i)
  {
    var start := 16;
    i := 0;
    while start < bytes
      invariant i < CLASSES && start == BlockSize(i)
      invariant i > 0 ==> BlockSize(i - 1) < bytes
      decreases MAX_SMALL - start
    {
      start := start * 2;
      i := i + 1;
    }
  }

  /** The head page of a descriptor list has a free block. */
  predicate HeadHasRoom(s: State, i: nat)
    requires i < |s.desc|
  {
    |s.desc[i]| > 0 && s.desc[i][0] in s.headers && s.headers[s.desc[i][0]].freeCnts > 0
  }

  /** How many pages a request takes from the page layer. */
  function PagesNeeded(s: State, bytes: nat, i: nat): nat
    requires bytes <= MAX_SMALL ==> i < |s.desc|
  {
    if bytes > MAX_SMALL then PageCount(bytes) else if bytes == 0 || HeadHasRoom(s, i) then 0 else 1
  }

  /** The block lies on a page of the smallest of the seven block sizes that hold the bytes. */
  ghost predicate Snug(s: State, block: nat, bytes: nat) {
    && PageOf(block) in s.headers && bytes <= s.headers[PageOf(block)].blockSize
    && (s.headers[PageOf(block)].blockSize == 16 || s.headers[PageOf(block)].blockSize < 2 * bytes)
  }

  /** The first free block of a page lies on it. */
  lemma HeadBlock(s: State, live: map<nat, nat>, page: nat)
    requires Inv(s, live) && page in s.headers && s.headers[page].freeCnts > 0
    ensures |s.headers[page].freeQueue| > 0 && PageOf(s.headers[page].freeQueue[0]) == page
  {
    assert HeaderOk(s, live, page);
    var h := s.headers[page];
    assert h.freeQueue[0] in Elems(h.freeQueue);
    BlockInPage(page, h.blockSize, h.freeQueue[0]);
  }

  lemma FirstBlock(page: nat, i: nat)
    requires page % PAGE_SIZE == 0 && i < CLASSES
    ensures PageOf(page + HEADER) == page
  {
    OffsetInPage(page, HEADER);
  }

  /** The class chosen is snug. */
  lemma ClassIsSnug(bytes: nat, i: nat)
    requires IsClass(bytes, i) && bytes > 0
    ensures BlockSize(i) == 16 || BlockSize(i) < 2 * bytes
  {
    if i > 0 {
      assert BlockSize(i) == 2 * BlockSize(i - 1);
    }
  }

  class Allocator {
    const mm: PageManager.MemoryManager
    var headers: map<nat, Header>
    var desc: seq<seq<nat>>
    /** Live small blocks, with the bytes asked for. */
    ghost var live: map<nat, nat>

    ghost function View(): State
      reads this
    {
      State(headers, desc)
    }

    ghost predicate Valid()
      reads this, mm, mm.frames.base, mm.virt.base
    {
      mm.Valid() && Inv(View(), live) && SlabPagesLive(View(), mm.live)
    }

    constructor (mm: PageManager.MemoryManager)
      requires mm.Valid() && mm.live == map[]
      ensures Valid() && this.mm == mm && live == map[] && headers == map[]
    {
      hide PageManager.Inv;
      hide DoublebitMaps.Represents;
      this.mm := mm;
      headers, live := map[], map[];
      desc := [[], [], [], [], [], [], []];
    }

    /** The search loop: get_elem always yields the head, so only the head page is ever examined. */
    method FindPage(i: nat) returns (found: Option<nat>)
      requires DescOk(View()) && i < CLASSES
      ensures found == if HeadHasRoom(View(), i) then Some(desc[i][0]) else None
    {
      var l, k := |desc[i]|, 0;
      while k < l
        invariant 0 <= k <= l && (k > 0 ==> headers[desc[i][0]].freeCnts == 0)
      {
        assert desc[i][0] in desc[i];
        if headers[desc[i][0]].freeCnts != 0 {
          return Some(desc[i][0]);
        }
        k := k + 1;
      }
      return None;
    }

    /** Take a block from the head page; a page that becomes full goes to the tail. */
    method TakeBlock(page: nat, i: nat, ghost bytes: nat) returns (r: nat)
      requires Inv(View(), live) && i < CLASSES && bytes <= BlockSize(i)
      requires HeadHasRoom(View(), i) && page == desc[i][0]
      modifies this
      ensures Inv(View(), live) && r !in old(live) && live == old(live)[r := bytes]
      ensures headers.Keys == old(headers.Keys) && PageOf(r) == page && headers[page].blockSize == BlockSize(i)
      ensures headers[page].freeCnts == old(headers)[page].freeCnts - 1
      ensures desc == if headers[page].freeCnts == 0 then old(desc)[i := old(desc[i])[1..] + [page]] else old(desc)
    {
      ghost var s := View();
      assert page in desc[i];
      HeadBlock(s, live, page);
      TakeFromHeadInv(s, live, i, bytes);
      hide Inv;
      var h := headers[page];
      r := h.freeQueue[0];
      headers := headers[page := h.(freeCnts := h.freeCnts - 1, freeQueue := h.freeQueue[1..])];
      if h.freeCnts - 1 == 0 {
        desc := desc[i := desc[i][1..] + [page]];
      }
      live := live[r := bytes];
      assert View().desc == TakeFromHead(s, i).0.desc;
      assert View() == TakeFromHead(s, i).0;
      assert headers.Keys == s.headers.Keys;
    }

    /** Put a header on a new page and take its first block. */
    method CarvePage(page: nat, i: nat, ghost bytes: nat) returns (r: nat)
      requires Inv(View(), live) && i < CLASSES && bytes <= BlockSize(i)
      requires page % PAGE_SIZE == 0 && page !in headers
      modifies this
      ensures Inv(View(), live) && r !in old(live) && live == old(live)[r := bytes]
      ensures headers.Keys == old(headers.Keys) + {page} && PageOf(r) == page && headers[page].blockSize == BlockSize(i)
      ensures |old(desc)| == CLASSES && desc == old(desc)[i := [page] + old(desc[i])]
    {
      ghost var s := View();
      TakeFromNewInv(s, live, i, page, bytes);
      CapacityBounds(BlockSize(i));
      FirstBlock(page, i);
      assert |desc| == CLASSES;
      hide Inv;
      var h := InstallMemHeader(page, BlockSize(i));
      r := h.freeQueue[0];
      headers := headers[page := h.(freeCnts := h.freeCnts - 1, freeQueue := h.freeQueue[1..])];
      desc := desc[i := [page] + desc[i]];
      live := live[r := bytes];
      assert View() == TakeFromNew(s, i, page).0;
    }

    method MallocSmall(bytes: nat, i: nat, ghost a: nat) returns (r: nat)
      requires Valid() && IsClass(bytes, i) && bytes > 0
      requires !HeadHasRoom(View(), i) ==>
        PageManager.EnoughMemory(mm.virt.Slots(), mm.frames.Bits(), mm.tables, a, 1)
      modifies this, mm, mm.frames.base, mm.virt.base
      ensures Valid() && r !in old(live) && live == old(live)[r := bytes] && Snug(View(), r, bytes)
      ensures mm.live == if HeadHasRoom(old(View()), i) then old(mm.live) else old(mm.live)[a := 1]
      ensures forall p :: LargeLive(View(), mm.live, p) <==> LargeLive(old(View()), old(mm.live), p)
    {
      hide PageManager.Inv;
      hide DoublebitMaps.Represents;
      hide BlockSize;
      ClassIsSnug(bytes, i);
      assert DescOk(View());
      hide Inv;
      hide PageManager.EnoughMemory;
      var found := FindPage(i);
      if found.Some? {
        hide DescOk;
        r := TakeBlock(found.value, i, bytes);
        SlabPagesSame(old(View()), View(), mm.live);
      } else {
        hide DescOk;
        var page := mm.MallocPage(1, a);
        FreshPage(View(), old(mm.live), a);
        hide SlabPagesLive;
        hide LargeLive;
        r := CarvePage(page, i, bytes);
        SlabPageAdded(old(View()), View(), old(mm.live), a);
      }
    }

    /** Whole pages; get_free_slots(0) fails and nothing is mapped. */
    method MallocLarge(bytes: nat, ghost a: nat) returns (r: Option<nat>)
      requires Valid() && MAX_SMALL < bytes < ADDRESS_LIMIT
      requires PageCount(bytes) > 0 ==>
        PageManager.EnoughMemory(mm.virt.Slots(), mm.frames.Bits(), mm.tables, a, PageCount(bytes))
      modifies mm, mm.frames.base, mm.virt.base
      ensures Valid() && (r == None <==> PageCount(bytes) == 0) && (r == None ==> mm.live == old(mm.live))
      ensures r.Some? ==>
        r.value == PageManager.Vaddr(a) && a !in old(mm.live) && mm.live == old(mm.live)[a := PageCount(bytes)]
    {
      hide Inv;
      hide PageManager.Inv;
      hide DoublebitMaps.Represents;
      var pageCnt := ((bytes + PAGE_SIZE - 1) % ADDRESS_LIMIT) / PAGE_SIZE;
      if pageCnt == 0 {
        return None;
      }
      var v := mm.MallocPage(pageCnt, a);
      return Some(v);
    }

    /** A null result is None: for 0 bytes, and for sizes whose page count wraps to 0. */
    method Malloc(bytes: nat, ghost a: nat) returns (r: Option<nat>)
      requires Valid() && bytes < ADDRESS_LIMIT
      requires forall i :: 0 < bytes <= MAX_SMALL && IsClass(bytes, i) && PagesNeeded(View(), bytes, i) == 1 ==>
        PageManager.EnoughMemory(mm.virt.Slots(), mm.frames.Bits(), mm.tables, a, 1)
      requires bytes > MAX_SMALL && PageCount(bytes) > 0 ==>
        PageManager.EnoughMemory(mm.virt.Slots(), mm.frames.Bits(), mm.tables, a, PageCount(bytes))
      modifies this, mm, mm.frames.base, mm.virt.base
      ensures Valid()
      ensures r == None <==> bytes == 0 || bytes > ADDRESS_LIMIT - PAGE_SIZE
      ensures r == None ==> live == old(live) && mm.live == old(mm.live) && View() == old(View())
      ensures r.Some? && bytes <= MAX_SMALL ==> r.value !in old(live) && live == old(live)[r.value := bytes]
      ensures r.Some? && bytes <= MAX_SMALL ==> Snug(View(), r.value, bytes)
      ensures r.Some? && bytes > MAX_SMALL ==>
        && r.value == PageManager.Vaddr(a) && live == old(live) && View() == old(View())
        && a !in old(mm.live) && a in mm.live && mm.live == old(mm.live)[a := mm.live[a]]
        && (mm.live[a] - 1) * PAGE_SIZE < bytes <= mm.live[a] * PAGE_SIZE
    {
      if bytes == 0 {
        return None;
      }
      hide Inv;
      hide PageManager.Inv;
      hide DoublebitMaps.Represents;
      hide Snug;
      PageCountFits(bytes);
      if bytes > MAX_SMALL {
        r := MallocLarge(bytes, a);
        return;
      }
      var i := DescIndex(bytes);
      var block := MallocSmall(bytes, i, a);
      return Some(block);
    }

    /** `buf` is live: a small block, or the start of a large run (then `p` is its first page). */
    method Free(buf: nat, ghost p: nat)
      requires Valid()
      requires buf in live || (LargeLive(View(), mm.live, p) && buf == PageManager.Vaddr(p))
      modifies this, mm, mm.frames.base, mm.virt.base
      ensures Valid()
      ensures buf in old(live) ==> live == old(live) - {buf} && mm.live == old(mm.live)
      ensures buf !in old(live) ==> live == old(live) && View() == old(View()) && mm.live == old(mm.live) - {p}
    {
      hide Inv;
      hide SlabPagesLive;
      hide PageManager.Inv;
      hide DoublebitMaps.Represents;
      if buf in live {
        BlockIsUnaligned(View(), live, buf);
      } else {
        VaddrIndex(p);
      }
      if buf % PAGE_SIZE == 0 {
        FreeLarge(buf, p);
      } else {
        FreeSmall(buf);
      }
    }

    method FreeLarge(buf: nat, ghost p: nat)
      requires Valid() && LargeLive(View(), mm.live, p) && buf == PageManager.Vaddr(p)
      modifies mm, mm.frames.base, mm.virt.base
      ensures Valid() && mm.live == old(mm.live) - {p}
    {
      hide Inv;
      hide PageManager.Inv;
      hide DoublebitMaps.Represents;
      DoublebitMaps.LiveInRange(mm.virt.Slots(), mm.live, p);
      mm.FreePage(buf, p);
    }

    method FreeSmall(buf: nat)
      requires Valid() && buf in live
      modifies this
      ensures Valid() && live == old(live) - {buf} && headers.Keys == old(headers.Keys) && desc == old(desc)
    {
      hide Inv;
      hide SlabPagesLive;
      hide PageManager.Inv;
      hide DoublebitMaps.Represents;
      GiveBackInv(View(), live, buf);
      var page := buf - buf % PAGE_SIZE;
      var h := headers[page];
      headers := headers[page := h.(freeCnts := h.freeCnts + 1, freeQueue := h.freeQueue + [buf])];
      live := live - {buf};
      assert View() == GiveBack(old(View()), buf);
      ReclaimNeverRuns(View(), live, page);
      SlabPagesSame(old(View()), View(), mm.live);
    }
  }

  lemma BlockIsUnaligned(s: State, live: map<nat, nat>, a: nat)
    requires Inv(s, live) && a in live
    ensures a % PAGE_SIZE != 0
  {
    assert HeaderOk(s, live, PageOf(a));
    assert a in LiveOn(live, PageOf(a));
    BlockInPage(PageOf(a), s.headers[PageOf(a)].blockSize, a);
  }

  lemma FreshPage(s: State, pages: map<nat, nat>, a: nat)
    requires SlabPagesLive(s, pages) && a !in pages
    ensures PageManager.Vaddr(a) % PAGE_SIZE == 0 && PageManager.Vaddr(a) !in s.headers
  {
    VaddrIndex(a);
  }

  lemma SlabPagesSame(s: State, t: State, pages: map<nat, nat>)
    requires SlabPagesLive(s, pages) && t.headers.Keys == s.headers.Keys
    ensures SlabPagesLive(t, pages)
    ensures forall p :: LargeLive(t, pages, p) <==> LargeLive(s, pages, p)
  {}

  /** A fresh one-page allocation that becomes a slab page is no large run, and the others stay what they were. */
  lemma SlabPageAdded(s: State, t: State, pages: map<nat, nat>, a: nat)
    requires SlabPagesLive(s, pages) && a !in pages
    requires t.headers.Keys == s.headers.Keys + {PageManager.Vaddr(a)}
    ensures SlabPagesLive(t, pages[a := 1])
    ensures forall p :: LargeLive(t, pages[a := 1], p) <==> LargeLive(s, pages, p)
  {
    VaddrIndex(a);
  }

  /** The page count is 0 for 0 bytes and for sizes that wrap, and otherwise the least that covers the request. */
  lemma PageCountFits(bytes: nat)
    requires bytes < ADDRESS_LIMIT
    ensures PageCount(bytes) == 0 <==> bytes == 0 || bytes > ADDRESS_LIMIT - PAGE_SIZE
    ensures 0 < bytes <= ADDRESS_LIMIT - PAGE_SIZE ==>
      (PageCount(bytes) - 1) * PAGE_SIZE < bytes <= PageCount(bytes) * PAGE_SIZE
  {}
}
