/** The small-block layer of mm/memory.cc and mm/small_mem_header.cc on top of the page layer. The intrusive
    lists are represented by the sequences they refine (see CycleLists). */
module Slab {
  import opened Paging

  /** sizeof(struct small_mem_header). */
  const HEADER := 32
  const MAX_SMALL := 1024
  const CLASSES := 7

  /** 2 << (i + 3): 16, 32, ..., 1024. */
  function BlockSize(i: nat): nat
    requires i < CLASSES
  {
    if i == 0 then 16 else if i == 1 then 32 else if i == 2 then 64 else if i == 3 then 128
    else if i == 4 then 256 else if i == 5 then 512 else 1024
  }

  predicate IsBlockSize(size: nat) {
    size in {16, 32, 64, 128, 256, 512, 1024}
  }

  function Capacity(size: nat): nat
    requires size > 0
  {
    (PAGE_SIZE - HEADER) / size
  }

  datatype Header = Header(blockSize: nat, freeCnts: nat, freeQueue: seq<nat>)

  /** The page headers by page address, and the seven descriptor lists of page addresses. */
  datatype State = State(headers: map<nat, Header>, desc: seq<seq<nat>>)

  function PageOf(addr: nat): nat { addr - addr % PAGE_SIZE }

  function BlockAt(page: nat, size: nat, k: nat): nat { page + HEADER + k * size }

  ghost function Blocks(page: nat, size: nat): set<nat>
    requires size > 0
  {
    set k: nat | k < Capacity(size) :: BlockAt(page, size, k)
  }

  ghost function Elems(q: seq<nat>): set<nat> { set x | x in q }

  ghost predicate Distinct(q: seq<nat>) {
    forall i, j :: 0 <= i < j < |q| ==> q[i] != q[j]
  }

  /** Live blocks (address -> bytes asked for) on one page. */
  ghost function LiveOn(live: map<nat, nat>, page: nat): set<nat> {
    set a | a in live && PageOf(a) == page
  }

  // ----- Geometry

  lemma CapacityBounds(size: nat)
    requires IsBlockSize(size)
    ensures 3 <= Capacity(size) <= 254 && HEADER + Capacity(size) * size <= PAGE_SIZE
  {}

  lemma TimesMono(a: nat, b: nat, size: nat)
    requires a <= b
    ensures a * size <= b * size
  {}

  lemma OffsetInPage(page: nat, offset: nat)
    requires page % PAGE_SIZE == 0 && offset < PAGE_SIZE
    ensures (page + offset) % PAGE_SIZE == offset
  {}

  /** A block lies inside its page after the header, so it is never page-aligned. */
  lemma BlockInPage(page: nat, size: nat, x: nat)
    requires IsBlockSize(size) && page % PAGE_SIZE == 0 && x in Blocks(page, size)
    ensures page + HEADER <= x && x + size <= page + PAGE_SIZE
    ensures x % PAGE_SIZE != 0 && PageOf(x) == page
  {
    var k: nat :| k < Capacity(size) && x == BlockAt(page, size, k);
    CapacityBounds(size);
    TimesMono(k + 1, Capacity(size), size);
    OffsetInPage(page, x - page);
  }

  lemma BlocksApart(page: nat, size: nat, x: nat, y: nat)
    requires IsBlockSize(size) && x in Blocks(page, size) && y in Blocks(page, size) && x != y
    ensures x + size <= y || y + size <= x
  {
    var k: nat :| k < Capacity(size) && x == BlockAt(page, size, k);
    var j: nat :| j < Capacity(size) && y == BlockAt(page, size, j);
    if k < j {
      Multiples(k, j, size);
    } else {
      Multiples(j, k, size);
    }
  }

  lemma Multiples(k: nat, j: nat, size: nat)
    requires k < j
    ensures k * size + size <= j * size
  {
    assert (k + 1) * size <= j * size;
  }

  /** The addresses the carving loop appends, in order. */
  function Carved(page: nat, size: nat, n: nat): (q: seq<nat>)
    ensures |q| == n && forall k :: 0 <= k < n ==> q[k] == BlockAt(page, size, k)
  {
    if n == 0 then [] else Carved(page, size, n - 1) + [BlockAt(page, size, n - 1)]
  }

  lemma CarvedIsBlocks(page: nat, size: nat)
    requires IsBlockSize(size)
    ensures Distinct(Carved(page, size, Capacity(size)))
    ensures Elems(Carved(page, size, Capacity(size))) == Blocks(page, size)
  {
    var n := Capacity(size);
    var q := Carved(page, size, n);
    forall i, j | 0 <= i < j < |q| ensures q[i] != q[j] {
      assert (i + 1) * size <= j * size;
    }
    forall x | x in Blocks(page, size) ensures x in q {
      var k: nat :| k < n && x == BlockAt(page, size, k);
      assert q[k] == x;
    }
  }

  lemma {:induction false} DistinctCard(q: seq<nat>)
    requires Distinct(q)
    ensures |Elems(q)| == |q|
  {
    if q != [] {
      var n := |q| - 1;
      DistinctCard(q[..n]);
      assert Elems(q) == Elems(q[..n]) + {q[n]};
    } else {
      assert Elems(q) == {};
    }
  }

  // ----- The invariant

  ghost predicate HeaderOk(s: State, live: map<nat, nat>, page: nat)
    requires page in s.headers
  {
    var h := s.headers[page];
    && page % PAGE_SIZE == 0 && IsBlockSize(h.blockSize)
    && h.freeCnts == |h.freeQueue| && Distinct(h.freeQueue)
    && Elems(h.freeQueue) !! LiveOn(live, page)
    && Elems(h.freeQueue) + LiveOn(live, page) == Blocks(page, h.blockSize)
  }

  ghost predicate DescOk(s: State) {
    && |s.desc| == CLASSES
    && (forall i :: 0 <= i < CLASSES ==> Distinct(s.desc[i]))
    && (forall i, page :: 0 <= i < CLASSES ==>
          (page in s.desc[i] <==> page in s.headers && s.headers[page].blockSize == BlockSize(i)))
  }

  ghost predicate LiveOk(s: State, live: map<nat, nat>) {
    forall a :: a in live ==> PageOf(a) in s.headers && live[a] <= s.headers[PageOf(a)].blockSize
  }

  ghost predicate Inv(s: State, live: map<nat, nat>) {
    && DescOk(s)
    && (forall page :: page in s.headers ==> HeaderOk(s, live, page))
    && LiveOk(s, live)
  }

  /** On every slab page the live blocks and the free blocks add up to the capacity. */
  lemma BlocksConserved(s: State, live: map<nat, nat>, page: nat)
    requires Inv(s, live) && page in s.headers
    ensures var h := s.headers[page];
      && h.blockSize > 0
      && |LiveOn(live, page)| + h.freeCnts == Capacity(h.blockSize) && h.freeCnts == |h.freeQueue|
  {
    var h := s.headers[page];
    assert HeaderOk(s, live, page);
    DistinctCard(h.freeQueue);
    CarvedIsBlocks(page, h.blockSize);
    DistinctCard(Carved(page, h.blockSize, Capacity(h.blockSize)));
    assert |Elems(h.freeQueue) + LiveOn(live, page)| == |Elems(h.freeQueue)| + |LiveOn(live, page)|;
  }

  /** Live blocks are big enough, lie inside one page after its header, and never overlap. */
  lemma LiveBlocksDisjoint(s: State, live: map<nat, nat>, a: nat, b: nat)
    requires Inv(s, live) && a in live && b in live && a != b
    ensures a + live[a] <= b || b + live[b] <= a
    ensures PageOf(a) + HEADER <= a && a + live[a] <= PageOf(a) + PAGE_SIZE && a % PAGE_SIZE != 0
  {
    var p, q := PageOf(a), PageOf(b);
    assert HeaderOk(s, live, p) && HeaderOk(s, live, q);
    assert a in LiveOn(live, p) && b in LiveOn(live, q);
    BlockInPage(p, s.headers[p].blockSize, a);
    BlockInPage(q, s.headers[q].blockSize, b);
    if p == q {
      BlocksApart(p, s.headers[p].blockSize, a, b);
    } else if p < q {
      assert p + PAGE_SIZE <= q;
    } else {
      assert q + PAGE_SIZE <= p;
    }
  }

  /** The reclaim and promote tests of free divide before they subtract; no page can satisfy either. */
  lemma ReclaimNeverRuns(s: State, live: map<nat, nat>, page: nat)
    requires Inv(s, live) && page in s.headers
    ensures var h := s.headers[page];
      && h.blockSize > 0
      && h.freeCnts != PAGE_SIZE - HEADER / h.blockSize
      && 5 * h.freeCnts < PAGE_SIZE - HEADER / h.blockSize
  {
    BlocksConserved(s, live, page);
    assert HeaderOk(s, live, page);
    CapacityBounds(s.headers[page].blockSize);
  }

  // ----- Operations on the state

  function Pop(h: Header): Header
    requires h.freeCnts > 0 && |h.freeQueue| > 0
  {
    h.(freeCnts := h.freeCnts - 1, freeQueue := h.freeQueue[1..])
  }

  /** Take the first free block of the head page; a page that becomes full moves to the tail. */
  function TakeFromHead(s: State, i: nat): (State, nat)
    requires i < |s.desc| && |s.desc[i]| > 0 && s.desc[i][0] in s.headers
    requires var h := s.headers[s.desc[i][0]]; h.freeCnts > 0 && |h.freeQueue| > 0
  {
    var page := s.desc[i][0];
    var h := Pop(s.headers[page]);
    var list := if h.freeCnts == 0 then s.desc[i][1..] + [page] else s.desc[i];
    (State(s.headers[page := h], s.desc[i := list]), s.headers[page].freeQueue[0])
  }

  function NewHeader(page: nat, size: nat): Header
    requires size > 0
  {
    Header(size, Capacity(size), Carved(page, size, Capacity(size)))
  }

  /** Install a header on a new page, push it, and take its first block. */
  function TakeFromNew(s: State, i: nat, page: nat): (State, nat)
    requires i < CLASSES && i < |s.desc|
  {
    CapacityBounds(BlockSize(i));
    var h := NewHeader(page, BlockSize(i));
    (State(s.headers[page := Pop(h)], s.desc[i := [page] + s.desc[i]]), h.freeQueue[0])
  }

  function GiveBack(s: State, a: nat): State
    requires PageOf(a) in s.headers
  {
    var h := s.headers[PageOf(a)];
    s.(headers := s.headers[PageOf(a) := h.(freeCnts := h.freeCnts + 1, freeQueue := h.freeQueue + [a])])
  }

  lemma RotateList(q: seq<nat>)
    requires |q| > 0 && Distinct(q)
    ensures Distinct(q[1..] + [q[0]]) && forall x :: x in q[1..] + [q[0]] <==> x in q
  {
    assert q == [q[0]] + q[1..];
  }

  lemma OtherPage(live: map<nat, nat>, live': map<nat, nat>, a: nat, page: nat)
    requires PageOf(a) != page
    requires live'.Keys == live.Keys + {a} || live'.Keys == live.Keys - {a}
    ensures LiveOn(live', page) == LiveOn(live, page)
  {}

  /** Popping block `a` of `page` and making it live keeps every header right. */
  lemma PopHeaders(s: State, t: State, live: map<nat, nat>, page: nat, bytes: nat)
    requires (forall p :: p in s.headers ==> HeaderOk(s, live, p)) && page in s.headers
    requires s.headers[page].freeCnts > 0 && |s.headers[page].freeQueue| > 0
    requires t.headers == s.headers[page := Pop(s.headers[page])]
    ensures var a := s.headers[page].freeQueue[0];
      && a !in live && PageOf(a) == page
      && forall p :: p in t.headers ==> HeaderOk(t, live[a := bytes], p)
  {
    var h := s.headers[page];
    var a := h.freeQueue[0];
    assert HeaderOk(s, live, page);
    assert a in Elems(h.freeQueue);
    BlockInPage(page, h.blockSize, a);
    var live' := live[a := bytes];
    forall p | p in t.headers ensures HeaderOk(t, live', p) {
      assert HeaderOk(s, live, p);
      if p == page {
        assert h.freeQueue == [a] + h.freeQueue[1..];
        assert Elems(h.freeQueue[1..]) == Elems(h.freeQueue) - {a};
        assert LiveOn(live', page) == LiveOn(live, page) + {a};
      } else {
        OtherPage(live, live', a, p);
      }
    }
  }

  lemma TakeFromHeadInv(s: State, live: map<nat, nat>, i: nat, bytes: nat)
    requires Inv(s, live) && i < CLASSES && |s.desc[i]| > 0 && bytes <= BlockSize(i)
    requires s.desc[i][0] in s.desc[i] && s.headers[s.desc[i][0]].freeCnts > 0
    ensures |s.headers[s.desc[i][0]].freeQueue| > 0
    ensures var (t, a) := TakeFromHead(s, i); a !in live && a % PAGE_SIZE != 0 && Inv(t, live[a := bytes])
  {
    var page := s.desc[i][0];
    assert HeaderOk(s, live, page);
    var (t, a) := TakeFromHead(s, i);
    PopHeaders(s, t, live, page, bytes);
    RotateList(s.desc[i]);
    BlockInPage(page, BlockSize(i), a) by { assert a in Elems(s.headers[page].freeQueue); }
    assert DescOk(t);
  }

  lemma TakeFromNewInv(s: State, live: map<nat, nat>, i: nat, page: nat, bytes: nat)
    requires Inv(s, live) && i < CLASSES && bytes <= BlockSize(i) && page % PAGE_SIZE == 0 && page !in s.headers
    ensures var (t, a) := TakeFromNew(s, i, page);
      a !in live && a == page + HEADER && a % PAGE_SIZE != 0 && Inv(t, live[a := bytes])
  {
    var size := BlockSize(i);
    CapacityBounds(size);
    CarvedIsBlocks(page, size);
    var u := State(s.headers[page := NewHeader(page, size)], s.desc[i := [page] + s.desc[i]]);
    assert LiveOn(live, page) == {};
    forall p | p in u.headers ensures HeaderOk(u, live, p) {
      if p != page {
        assert HeaderOk(s, live, p);
      }
    }
    var (t, a) := TakeFromNew(s, i, page);
    assert t.headers == u.headers[page := Pop(u.headers[page])];
    PopHeaders(u, t, live, page, bytes);
    BlockInPage(page, size, a) by { assert a in Elems(Carved(page, size, Capacity(size))); }
    DescPush(s, i, page, t);
  }

  lemma DescPush(s: State, i: nat, page: nat, t: State)
    requires DescOk(s) && i < CLASSES && page !in s.headers
    requires page in t.headers && t.headers[page].blockSize == BlockSize(i)
    requires t.headers == s.headers[page := t.headers[page]] && t.desc == s.desc[i := [page] + s.desc[i]]
    ensures DescOk(t)
  {
    assert page !in s.desc[i];
    forall j, p | 0 <= j < CLASSES
      ensures p in t.desc[j] <==> p in t.headers && t.headers[p].blockSize == BlockSize(j)
    {
      assert p in s.desc[j] <==> p in s.headers && s.headers[p].blockSize == BlockSize(j);
      if p == page && j != i {
        assert BlockSize(j) != BlockSize(i);
      }
    }
  }

  lemma GiveBackInv(s: State, live: map<nat, nat>, a: nat)
    requires Inv(s, live) && a in live
    ensures PageOf(a) in s.headers && Inv(GiveBack(s, a), live - {a})
  {
    var page := PageOf(a);
    var h := s.headers[page];
    var t, live' := GiveBack(s, a), live - {a};
    assert HeaderOk(s, live, page);
    assert a in LiveOn(live, page);
    forall p | p in t.headers ensures HeaderOk(t, live', p) {
      assert HeaderOk(s, live, p);
      if p == page {
        assert Elems(h.freeQueue + [a]) == Elems(h.freeQueue) + {a};
        assert LiveOn(live', page) == LiveOn(live, page) - {a};
        assert a !in h.freeQueue;
      } else {
        OtherPage(live, live', a, p);
      }
    }
    assert DescOk(t);
  }
}
