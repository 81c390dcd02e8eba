/** What happens when the pool's first pages are mapped before the memory manager starts, as kernel/page.cc:30 does for
    16 of them: map_vir_phy leaves a present entry alone (mm/memory.cc:97-98), so page and frame can part company.

    The pool is seen through its maps: virtual slots, frame bits, the table word of every page and the frames of the
    page tables made. `k` pages are mapped in advance to the frames of the same number. */
module PremappedPool {
  import opened Options
  import opened DoublebitMaps
  import opened Bitmaps
  import PageManager

  datatype Pool = Pool(slots: seq<Slot>, bits: seq<bool>, frame: seq<nat>, present: seq<bool>, tables: map<nat, nat>)

  predicate Sized(s: Pool, n: nat) { |s.slots| == n && |s.bits| == n && |s.frame| == n && |s.present| == n }

  predicate HasTable(s: Pool, p: nat) { PageManager.HasTable(s.tables, PageManager.DirOf(p)) }

  // ----- malloc_page and free_page

  /** There is a frame for page `p`, and one more if it needs a table. */
  predicate CanMap(s: Pool, p: nat) {
    var f := FirstClear(s.bits, 0);
    f < |s.bits| && (HasTable(s, p) || FirstClear(s.bits[f := true], 0) < |s.bits|)
  }

  /** A new page table, cleared: no page of its range is present. */
  function NewTable(s: Pool, d: nat, g: nat): Pool
    requires g < |s.bits|
  {
    s.(bits := s.bits[g := true], tables := s.tables[d := g],
       present := seq(|s.present|, q requires 0 <= q < |s.present| => s.present[q] && PageManager.DirOf(q) != d))
  }

  function Enter(s: Pool, p: nat, f: nat): Pool
    requires p < |s.frame| && p < |s.present|
  {
    s.(frame := s.frame[p := f], present := s.present[p := true])
  }

  /** get_phy_page and map_vir_phy for page `p`. */
  function MapOne(s: Pool, p: nat): (t: Pool)
    requires p < |s.frame| && p < |s.present| && CanMap(s, p)
    ensures |t.bits| == |s.bits| && |t.frame| == |s.frame| && |t.present| == |s.present| && t.slots == s.slots
  {
    var f := FirstClear(s.bits, 0);
    var t := s.(bits := s.bits[f := true]);
    if !HasTable(s, p) then Enter(NewTable(t, PageManager.DirOf(p), FirstClear(t.bits, 0)), p, f)
    else if s.present[p] then t
    else Enter(t, p, f)
  }

  predicate CanMapRun(s: Pool, p: nat, cnt: nat)
    decreases cnt
  {
    cnt == 0 || (p < |s.frame| && p < |s.present| && CanMap(s, p) && CanMapRun(MapOne(s, p), p + 1, cnt - 1))
  }

  function MapRun(s: Pool, p: nat, cnt: nat): Pool
    requires CanMapRun(s, p, cnt)
    decreases cnt
  {
    if cnt == 0 then s else MapRun(MapOne(s, p), p + 1, cnt - 1)
  }

  /** `a` is the first fit for `cnt` slots, and there are frames for its pages and for the tables they need. */
  ghost predicate Fits(s: Pool, a: nat, cnt: nat) {
    cnt >= 1 && IsFirstFit(s.slots, cnt, a) && CanMapRun(s.(slots := Stamp(s.slots, a, cnt)), a, cnt)
  }

  /** malloc_page: the run is entered in the map, then its pages one by one. */
  ghost function MallocPages(s: Pool, a: nat, cnt: nat): Pool
    requires Fits(s, a, cnt)
  {
    MapRun(s.(slots := Stamp(s.slots, a, cnt)), a, cnt)
  }

  /** free_phy_page and remove_map_addr for page `p`. */
  function UnmapOne(s: Pool, p: nat): (t: Pool)
    requires p < |s.frame| && p < |s.present|
    ensures |t.bits| == |s.bits| && |t.frame| == |s.frame| && |t.present| == |s.present| && t.slots == s.slots
  {
    s.(bits := if s.frame[p] < |s.bits| then s.bits[s.frame[p] := false] else s.bits, present := s.present[p := false])
  }

  function UnmapRun(s: Pool, p: nat, cnt: nat): Pool
    requires p + cnt <= |s.frame| && p + cnt <= |s.present|
    decreases cnt
  {
    if cnt == 0 then s else UnmapRun(UnmapOne(s, p), p + 1, cnt - 1)
  }

  /** `a` starts a live allocation. */
  predicate LiveStart(s: Pool, a: nat) {
    Parse(s.slots, 0).Some? && a in Parse(s.slots, 0).value
  }

  /** free_page: the run leaves the map, then its pages are unmapped one by one. */
  function FreePages(s: Pool, a: nat): Pool
    requires a < |s.slots| && a + RunLength(s.slots, a) <= |s.frame| && a + RunLength(s.slots, a) <= |s.present|
  {
    UnmapRun(s.(slots := Erase(s.slots, a, RunLength(s.slots, a))), a, RunLength(s.slots, a))
  }

  // ----- Runs

  /** Every slot and frame free, no page table made, exactly the first `k` pages mapped, to the frames of the same
      number. */
  ghost predicate Boot(s: Pool, n: nat, k: nat) {
    && Sized(s, n) && s.tables == map[]
    && (forall i :: 0 <= i < n ==> s.slots[i] == Free && !s.bits[i])
    && (forall i :: 0 <= i < n ==> (s.present[i] <==> i < k))
    && (forall i :: 0 <= i < n && i < k ==> s.frame[i] == i)
  }

  datatype Call = MallocCall(start: nat, cnt: nat) | FreeCall(start: nat)

  /** One call with enough memory, freeing only live allocation starts. */
  ghost predicate Step(s: Pool, c: Call, t: Pool) {
    match c
    case MallocCall(a, cnt) => Fits(s, a, cnt) && t == MallocPages(s, a, cnt)
    case FreeCall(a) =>
      && LiveStart(s, a) && a < |s.slots|
      && a + RunLength(s.slots, a) <= |s.frame| && a + RunLength(s.slots, a) <= |s.present|
      && t == FreePages(s, a)
  }

  ghost predicate IsRun(states: seq<Pool>, calls: seq<Call>, n: nat, k: nat) {
    && |states| == |calls| + 1 && Boot(states[0], n, k)
    && forall i :: 0 <= i < |calls| ==> Step(states[i], calls[i], states[i + 1])
  }

  /** Every live page is present, its frame is marked and no other live page or page table has it. */
  ghost predicate FramesSafe(s: Pool) {
    Core(s, LivePages(s.slots))
  }

  ghost function LivePages(slots: seq<Slot>): set<nat> {
    set p: nat | p < |slots| && slots[p] != Free
  }

  ghost predicate Core(s: Pool, mapped: set<nat>) {
    && (forall p :: p in mapped ==> PageSafe(s, p))
    && (forall p, q :: p in mapped && q in mapped && p != q ==>
          p < |s.frame| && q < |s.frame| && s.frame[p] != s.frame[q])
    && (forall d :: d in s.tables ==> s.tables[d] < |s.bits| && s.bits[s.tables[d]])
    && (forall d, p :: d in s.tables && p in mapped ==> p < |s.frame| && s.frame[p] != s.tables[d])
    && (forall d, e :: d in s.tables && e in s.tables && d != e ==> s.tables[d] != s.tables[e])
  }

  ghost predicate PageSafe(s: Pool, p: nat) {
    && p < |s.frame| && p < |s.present| && s.present[p] && HasTable(s, p)
    && s.frame[p] < |s.bits| && s.bits[s.frame[p]]
  }

  // ----- With at most two pages mapped in advance

  /** No page is present that is not meant to be. */
  ghost predicate Settled(s: Pool, mapped: set<nat>) {
    forall p :: 0 <= p < |s.present| && s.present[p] ==> p in mapped
  }

  /** Page 1 has never been allocated: page 0 has frame 0 whenever it is in use, and nothing else is in use. */
  ghost predicate Early(s: Pool, mapped: set<nat>) {
    && s.tables == map[] && mapped <= {0} && |s.frame| == |s.present|
    && (forall f :: 0 <= f < |s.bits| ==> (s.bits[f] <==> f == 0 && 0 in mapped))
    && (forall p :: 0 <= p < |s.present| && s.present[p] ==> p < 2 && s.frame[p] == p)
  }

  ghost predicate Inv(s: Pool, n: nat, mapped: set<nat>) {
    Sized(s, n) && Core(s, mapped) && (Settled(s, mapped) || Early(s, mapped))
  }

  lemma FirstClearIs(bits: seq<bool>, k: nat)
    requires k < |bits| && !bits[k] && forall j :: 0 <= j < k ==> bits[j]
    ensures FirstClear(bits, 0) == k
  {}

  /** The pages of a run. */
  ghost function Pages(p: nat, cnt: nat): (r: set<nat>)
    ensures forall q :: q in r <==> p <= q < p + cnt
    decreases cnt
  {
    if cnt == 0 then {} else {p} + Pages(p + 1, cnt - 1)
  }

  lemma FirstTable(p: nat)
    requires p < 512
    ensures PageManager.DirOf(p) == 0
  {}

  /** A page entered with a marked frame nobody has. */
  lemma EnterFresh(s: Pool, n: nat, mapped: set<nat>, p: nat, f: nat)
    requires Sized(s, n) && Core(s, mapped) && Settled(s, mapped) && p !in mapped && p < n && f < n && s.bits[f]
    requires HasTable(s, p)
    requires (forall q :: q in mapped ==> q < n && s.frame[q] != f) && forall d :: d in s.tables ==> s.tables[d] != f
    ensures Core(Enter(s, p, f), mapped + {p}) && Settled(Enter(s, p, f), mapped + {p})
  {
    var t := Enter(s, p, f);
    forall q | q in mapped + {p} ensures PageSafe(t, q) && (q != p ==> t.frame[q] == s.frame[q]) {
      if q != p {
        assert PageSafe(s, q);
      }
    }
  }

  /** A frame marked that was clear. */
  lemma MarkFresh(s: Pool, n: nat, mapped: set<nat>, f: nat)
    requires Sized(s, n) && Core(s, mapped) && Settled(s, mapped) && f < n && !s.bits[f]
    ensures var t := s.(bits := s.bits[f := true]); Core(t, mapped) && Settled(t, mapped)
    ensures (forall q :: q in mapped ==> q < n && s.frame[q] != f) && forall d :: d in s.tables ==> s.tables[d] != f
  {
    var t := s.(bits := s.bits[f := true]);
    forall q | q in mapped ensures PageSafe(t, q) && s.frame[q] != f {
      assert PageSafe(s, q);
    }
  }

  lemma TableFresh(s: Pool, n: nat, mapped: set<nat>, d: nat, g: nat)
    requires Sized(s, n) && Core(s, mapped) && Settled(s, mapped) && g < n && !s.bits[g]
    requires d !in s.tables && d != 0
    ensures Core(NewTable(s, d, g), mapped) && Settled(NewTable(s, d, g), mapped)
  {
    var t := NewTable(s, d, g);
    forall q | q in mapped ensures PageSafe(t, q) && s.frame[q] != g {
      assert PageSafe(s, q);
    }
    forall e | e in t.tables ensures t.tables[e] < |t.bits| && t.bits[t.tables[e]] && (e != d ==> t.tables[e] != g) {}
  }

  lemma MapOneSettled(s: Pool, n: nat, mapped: set<nat>, p: nat)
    requires Sized(s, n) && Core(s, mapped) && Settled(s, mapped) && p !in mapped && p < n && CanMap(s, p)
    ensures Core(MapOne(s, p), mapped + {p}) && Settled(MapOne(s, p), mapped + {p})
  {
    hide Core;
    hide FirstClear;
    var f, d := FirstClear(s.bits, 0), PageManager.DirOf(p);
    var t := s.(bits := s.bits[f := true]);
    MarkFresh(s, n, mapped, f);
    if HasTable(s, p) {
      EnterFresh(t, n, mapped, p, f);
    } else {
      var g := FirstClear(t.bits, 0);
      TableFresh(t, n, mapped, d, g);
      EnterFresh(NewTable(t, d, g), n, mapped, p, f);
    }
  }

  lemma MapOneEarly(s: Pool, n: nat, mapped: set<nat>, p: nat)
    requires Sized(s, n) && Core(s, mapped) && Early(s, mapped) && p !in mapped && p < n && CanMap(s, p)
    requires p == 0 || (p == 1 && 0 in mapped)
    ensures Core(MapOne(s, p), mapped + {p})
    ensures if p == 0 then Early(MapOne(s, p), mapped + {p}) else Settled(MapOne(s, p), mapped + {p})
  {
    FirstTable(p);
    FirstClearIs(s.bits, p);
    var t := MapOne(s, p);
    assert t.frame[p] == p && t.present[p];
    forall q | q in mapped ensures PageSafe(t, q) && t.frame[q] == q {
      assert PageSafe(s, q);
    }
  }

  /** Mapping a run: in the early state it starts at page 0, or at page 1 with page 0 in use. */
  lemma {:induction false} MapRunInv(s: Pool, n: nat, mapped: set<nat>, p: nat, cnt: nat)
    requires Inv(s, n, mapped) && CanMapRun(s, p, cnt) && p + cnt <= n
    requires mapped !! Pages(p, cnt)
    requires cnt > 0 && !Settled(s, mapped) ==> p == 0 || (p == 1 && 0 in mapped)
    ensures Inv(MapRun(s, p, cnt), n, mapped + Pages(p, cnt)) && MapRun(s, p, cnt).slots == s.slots
    decreases cnt
  {
    hide Core;
    hide Settled;
    hide Early;
    hide CanMap;
    hide MapOne;
    if cnt == 0 {
      assert mapped + Pages(p, cnt) == mapped;
    } else {
      if Settled(s, mapped) {
        MapOneSettled(s, n, mapped, p);
      } else {
        MapOneEarly(s, n, mapped, p);
      }
      MapRunInv(MapOne(s, p), n, mapped + {p}, p + 1, cnt - 1);
      assert (mapped + {p}) + Pages(p + 1, cnt - 1) == mapped + Pages(p, cnt);
    }
  }

  lemma UnmapOneInv(s: Pool, n: nat, mapped: set<nat>, p: nat)
    requires Inv(s, n, mapped) && p in mapped && p < n
    ensures Inv(UnmapOne(s, p), n, mapped - {p})
  {
    var t := UnmapOne(s, p);
    assert PageSafe(s, p);
    forall q | q in mapped - {p} ensures PageSafe(t, q) {
      assert PageSafe(s, q);
    }
  }

  lemma {:induction false} UnmapRunInv(s: Pool, n: nat, mapped: set<nat>, p: nat, cnt: nat)
    requires Inv(s, n, mapped) && p + cnt <= n && Pages(p, cnt) <= mapped
    ensures Inv(UnmapRun(s, p, cnt), n, mapped - Pages(p, cnt)) && UnmapRun(s, p, cnt).slots == s.slots
    decreases cnt
  {
    hide Core;
    hide Settled;
    hide Early;
    hide UnmapOne;
    if cnt == 0 {
      assert mapped - Pages(p, cnt) == mapped;
    } else {
      UnmapOneInv(s, n, mapped, p);
      UnmapRunInv(UnmapOne(s, p), n, mapped - {p}, p + 1, cnt - 1);
      assert (mapped - {p}) - Pages(p + 1, cnt - 1) == mapped - Pages(p, cnt);
    }
  }

  lemma SizedOf(s: Pool, n: nat, mapped: set<nat>)
    requires Inv(s, n, mapped)
    ensures Sized(s, n)
  {}

  lemma SlotsOnly(s: Pool, slots: seq<Slot>, n: nat, mapped: set<nat>)
    requires Inv(s, n, mapped) && |slots| == |s.slots|
    ensures Inv(s.(slots := slots), n, mapped)
    ensures Settled(s, mapped) ==> Settled(s.(slots := slots), mapped)
  {
    var t := s.(slots := slots);
    forall p | p in mapped ensures PageSafe(t, p) {
      assert PageSafe(s, p);
    }
  }

  lemma StampedPages(slots: seq<Slot>, a: nat, cnt: nat)
    requires FreeRun(slots, a, cnt)
    ensures LivePages(slots) !! Pages(a, cnt) && LivePages(Stamp(slots, a, cnt)) == LivePages(slots) + Pages(a, cnt)
  {
    var t := Stamp(slots, a, cnt);
    var run := Pages(a, cnt);
    forall p: nat ensures p in LivePages(t) <==> p in LivePages(slots) || p in run {
      if p in run {
        assert a <= p < a + cnt <= |slots| && t[p] == PatternAt(cnt, p - a);
      } else if p < |slots| {
        assert t[p] == slots[p];
      }
    }
  }

  lemma ErasedPages(slots: seq<Slot>, m: map<nat, nat>, a: nat)
    requires Represents(slots, m) && a in m
    ensures Pages(a, m[a]) <= LivePages(slots) && LivePages(Erase(slots, a, m[a])) == LivePages(slots) - Pages(a, m[a])
  {
    LiveIsUsed(slots, m);
  }

  /** Everything that holds between calls. */
  ghost predicate Idle(s: Pool, n: nat) {
    Inv(s, n, LivePages(s.slots)) && Parse(s.slots, 0).Some?
  }

  lemma MallocIdle(s: Pool, n: nat, a: nat, cnt: nat)
    requires Idle(s, n) && Fits(s, a, cnt)
    ensures Idle(MallocPages(s, a, cnt), n)
  {
    var slots := Stamp(s.slots, a, cnt);
    var live := LivePages(s.slots);
    assert FreeRun(s.slots, a, cnt);
    if !Settled(s, live) {
      EarlyFit(s, live, a, cnt);
    }
    SlotsOnly(s, slots, n, live);
    StampedPages(s.slots, a, cnt);
    MapRunInv(s.(slots := slots), n, live, a, cnt);
    var m := Parse(s.slots, 0).value;
    RepresentsIffParsed(s.slots, m);
    StampRepresents(s.slots, m, a, cnt);
    RepresentsIffParsed(slots, m[a := cnt]);
  }

  /** First fit reaches page 0 first, and page 1 before any later page. */
  lemma EarlyFit(s: Pool, live: set<nat>, a: nat, cnt: nat)
    requires live == LivePages(s.slots) && live <= {0} && cnt >= 1 && IsFirstFit(s.slots, cnt, a)
    ensures a == 0 || (a == 1 && 0 in live)
  {
    forall p: nat | 1 <= p < |s.slots| ensures s.slots[p] == Free {
      assert p !in live;
    }
    assert FreeRun(s.slots, a, cnt);
    if a > 1 {
      assert FreeRun(s.slots, 1, cnt);
    }
    if a > 0 && 0 !in live {
      assert FreeRun(s.slots, 0, cnt);
    }
  }

  lemma FreeIdle(s: Pool, n: nat, a: nat)
    requires Idle(s, n) && LiveStart(s, a)
    ensures a < |s.slots| && a + RunLength(s.slots, a) <= n && Idle(FreePages(s, a), n)
  {
    hide Inv;
    SizedOf(s, n, LivePages(s.slots));
    var m := Parse(s.slots, 0).value;
    RepresentsIffParsed(s.slots, m);
    EraseRepresents(s.slots, m, a);
    var live, cnt := LivePages(s.slots), m[a];
    var slots := Erase(s.slots, a, cnt);
    RepresentsIffParsed(slots, m - {a});
    ErasedPages(s.slots, m, a);
    SlotsOnly(s, slots, n, live);
    UnmapRunInv(s.(slots := slots), n, live, a, cnt);
  }

  lemma BootIdle(s: Pool, n: nat, k: nat)
    requires Boot(s, n, k) && k <= 2
    ensures Idle(s, n)
  {
    assert LivePages(s.slots) == {};
    assert Represents(s.slots, map[]);
    RepresentsIffParsed(s.slots, map[]);
  }

  lemma {:induction false} EveryState(states: seq<Pool>, calls: seq<Call>, n: nat, k: nat, i: nat)
    requires IsRun(states, calls, n, k) && k <= 2 && i < |states|
    ensures Idle(states[i], n)
  {
    if i == 0 {
      BootIdle(states[0], n, k);
    } else {
      EveryState(states, calls, n, k, i - 1);
      assert Step(states[i - 1], calls[i - 1], states[i]);
      match calls[i - 1]
      case MallocCall(a, cnt) => MallocIdle(states[i - 1], n, a, cnt);
      case FreeCall(a) => FreeIdle(states[i - 1], n, a);
    }
  }

  // ----- With three or more

  /** One page of the first table, when the lowest clear frame is `f`. */
  lemma MapLow(s: Pool, p: nat, f: nat)
    requires p < 512 && p < |s.frame| == |s.present| && f < |s.bits| && !s.bits[f]
    requires forall j :: 0 <= j < f ==> s.bits[j]
    ensures CanMap(s, p) && CanMapRun(s, p, 1) && MapRun(s, p, 1) == MapOne(s, p)
    ensures MapOne(s, p) == s.(bits := s.bits[f := true], present := s.present[p := true],
                               frame := if s.present[p] then s.frame else s.frame[p := f])
  {
    FirstTable(p);
    FirstClearIs(s.bits, f);
    var t := MapOne(s, p);
    assert CanMapRun(t, p + 1, 0);
    if s.present[p] {
      assert s.present[p := true] == s.present;
    }
  }

  /** Mapping a run of two. */
  lemma MapTwo(s: Pool, p: nat, f: nat, g: nat)
    requires p < 511 && p + 1 < |s.frame| == |s.present| && f < g < |s.bits| && !s.bits[f] && !s.bits[g]
    requires forall j :: 0 <= j < g && j != f ==> s.bits[j]
    ensures CanMap(s, p) && CanMap(MapOne(s, p), p + 1)
    ensures CanMapRun(s, p, 2) && MapRun(s, p, 2) == MapOne(MapOne(s, p), p + 1)
    ensures MapRun(s, p, 2).bits == s.bits[f := true][g := true]
    ensures MapRun(s, p, 2).present == s.present[p := true][p + 1 := true]
    ensures MapRun(s, p, 2).frame[p] == if s.present[p] then s.frame[p] else f
    ensures MapRun(s, p, 2).frame[p + 1] == if s.present[p + 1] then s.frame[p + 1] else g
    ensures MapRun(s, p, 2).slots == s.slots
  {
    MapLow(s, p, f);
    var t := MapOne(s, p);
    MapLow(t, p + 1, g);
    assert CanMapRun(s, p, 2) by { assert CanMapRun(t, p + 1, 1); }
    assert MapRun(s, p, 2) == MapRun(t, p + 1, 1);
  }

  /** Two allocations of one page from boot: page 0 with frame 0 and page 1 with frame 1. */
  lemma TwoCalls(s0: Pool, n: nat, k: nat)
    requires Boot(s0, n, k) && 4 <= n && 3 <= k
    ensures Fits(s0, 0, 1) && Fits(MallocPages(s0, 0, 1), 1, 1)
    ensures MallocPages(MallocPages(s0, 0, 1), 1, 1) ==
      s0.(slots := Stamp(Stamp(s0.slots, 0, 1), 1, 1), bits := s0.bits[0 := true][1 := true])
  {
    assert IsFirstFit(s0.slots, 1, 0) by { assert FreeRun(s0.slots, 0, 1); }
    MapLow(s0.(slots := Stamp(s0.slots, 0, 1)), 0, 0);
    var s1 := MallocPages(s0, 0, 1);
    assert s0.present[0 := true] == s0.present && s0.present[1 := true] == s0.present;
    assert s1 == s0.(slots := Stamp(s0.slots, 0, 1), bits := s0.bits[0 := true]);
    assert IsFirstFit(s1.slots, 1, 1) by {
      assert s1.slots[0] != Free && FreeRun(s1.slots, 1, 1);
    }
    MapLow(s1.(slots := Stamp(s1.slots, 1, 1)), 1, 1);
  }

  /** The third call gives frame 0 back. */
  lemma ThirdCall(s2: Pool, s0: Pool, n: nat, k: nat)
    requires Boot(s0, n, k) && 4 <= n && 3 <= k
    requires s2 == s0.(slots := Stamp(Stamp(s0.slots, 0, 1), 1, 1), bits := s0.bits[0 := true][1 := true])
    ensures LiveStart(s2, 0) && RunLength(s2.slots, 0) == 1
    ensures FreePages(s2, 0) ==
      s0.(slots := Erase(s2.slots, 0, 1), bits := s0.bits[1 := true], present := s0.present[0 := false])
  {
    var one := Stamp(s0.slots, 0, 1);
    assert FreeRun(s0.slots, 0, 1) && FreeRun(one, 1, 1) && Represents(s0.slots, map[]);
    StampRepresents(s0.slots, map[], 0, 1);
    StampRepresents(one, map[0 := 1], 1, 1);
    RepresentsIffParsed(s2.slots, map[0 := 1][1 := 1]);
    var e := s2.(slots := Erase(s2.slots, 0, 1));
    assert UnmapRun(e, 0, 1) == UnmapRun(UnmapOne(e, 0), 1, 0) == UnmapOne(e, 0);
    assert s0.bits[0 := true][1 := true][0 := false] == s0.bits[1 := true];
  }

  /** Stamping and erasing, slot by slot. */
  lemma StampAt(s: seq<Slot>, a: nat, n: nat)
    ensures |Stamp(s, a, n)| == |Erase(s, a, n)| == |s|
    ensures forall i :: 0 <= i < |s| ==> Stamp(s, a, n)[i] == if a <= i < a + n then PatternAt(n, i - a) else s[i]
    ensures forall i :: 0 <= i < |s| ==> Erase(s, a, n)[i] == if a <= i < a + n then Free else s[i]
  {}

  /** The fourth call maps pages 2 and 3. Page 2 is present with frame 2, so frame 0 is taken for nothing and frame 2
      stays clear for page 3. */
  lemma FourthCall(s3: Pool, s0: Pool, n: nat, k: nat)
    requires Boot(s0, n, k) && 4 <= n && 3 <= k
    requires s3 == s0.(slots := Erase(Stamp(Stamp(s0.slots, 0, 1), 1, 1), 0, 1), bits := s0.bits[1 := true],
                       present := s0.present[0 := false])
    ensures Fits(s3, 2, 2)
    ensures var s4 := MallocPages(s3, 2, 2);
      && Sized(s4, n) && s4.slots[2] == SeqStart && s4.slots[3] == SeqEnd && s4.frame[2] == 2
      && (k == 3 ==> s4.frame[3] == 2) && (k > 3 ==> s4.frame[3] == 3 && !s4.bits[3] && FirstClear(s4.bits, 0) == 3)
  {
    var one := Stamp(s0.slots, 0, 1);
    var two := Stamp(one, 1, 1);
    StampAt(s0.slots, 0, 1);
    StampAt(one, 1, 1);
    StampAt(two, 0, 1);
    StampAt(s3.slots, 2, 2);
    assert s3.slots[1] == UsedSingle;
    assert IsFirstFit(s3.slots, 2, 2) by {
      assert !FreeRun(s3.slots, 0, 2) && !FreeRun(s3.slots, 1, 2) && FreeRun(s3.slots, 2, 2);
    }
    var t := s3.(slots := Stamp(s3.slots, 2, 2));
    MapTwo(t, 2, 0, 2);
    FirstClearIs(t.bits[0 := true][2 := true], 3);
  }

  /** malloc_page(1), malloc_page(1), free_page of the first, malloc_page(2), from boot with three or more pages mapped
      in advance: two live pages share frame 2, or a live page has a frame that is the next to be given out. */
  lemma FourCallsLoseAFrame(s0: Pool, n: nat, k: nat)
    requires Boot(s0, n, k) && 4 <= n && 3 <= k
    ensures Fits(s0, 0, 1) && Fits(MallocPages(s0, 0, 1), 1, 1)
    ensures var s2 := MallocPages(MallocPages(s0, 0, 1), 1, 1);
      && Sized(s2, n) && LiveStart(s2, 0) && RunLength(s2.slots, 0) == 1 && Fits(FreePages(s2, 0), 2, 2)
      && var s4 := MallocPages(FreePages(s2, 0), 2, 2);
      && Sized(s4, n) && s4.slots[2] != Free && s4.slots[3] != Free
      && (if k == 3 then s4.frame[2] == s4.frame[3] else s4.frame[3] == FirstClear(s4.bits, 0)) && !FramesSafe(s4)
  {
    TwoCalls(s0, n, k);
    var s2 := MallocPages(MallocPages(s0, 0, 1), 1, 1);
    hide MallocPages;
    hide Fits;
    ThirdCall(s2, s0, n, k);
    FourthCall(FreePages(s2, 0), s0, n, k);
    var s4 := MallocPages(FreePages(s2, 0), 2, 2);
    assert 2 in LivePages(s4.slots) && 3 in LivePages(s4.slots);
    assert k > 3 ==> !PageSafe(s4, 3);
  }

  /** The exact condition: with four pool pages or more, frames are safe in every state of every run if and only if at
      most two pages were mapped in advance. */
  lemma SafeIffAtMostTwo(n: nat, k: nat)
    requires 4 <= n && k <= n
    ensures k <= 2 <==>
      forall states, calls, i :: IsRun(states, calls, n, k) && 0 <= i < |states| ==> FramesSafe(states[i])
  {
    if k <= 2 {
      forall states, calls, i | IsRun(states, calls, n, k) && 0 <= i < |states| ensures FramesSafe(states[i]) {
        EveryState(states, calls, n, k, i);
      }
    } else {
      var states, calls := UnsafeRun(n, k);
      assert !FramesSafe(states[4]);
    }
  }

  lemma UnsafeRun(n: nat, k: nat) returns (states: seq<Pool>, calls: seq<Call>)
    requires 4 <= n && 3 <= k <= n
    ensures IsRun(states, calls, n, k) && |states| == 5 && !FramesSafe(states[4])
  {
    hide FramesSafe;
    hide Boot;
    hide Fits;
    hide MallocPages;
    hide FreePages;
    hide LiveStart;
    hide RunLength;
    hide FirstClear;
    var s0 := BootPool(n, k);
    FourCallsLoseAFrame(s0, n, k);
    var s1 := MallocPages(s0, 0, 1);
    var s2 := MallocPages(s1, 1, 1);
    var s3 := FreePages(s2, 0);
    states := [s0, s1, s2, s3, MallocPages(s3, 2, 2)];
    calls := [MallocCall(0, 1), MallocCall(1, 1), FreeCall(0), MallocCall(2, 2)];
  }

  lemma BootPool(n: nat, k: nat) returns (s: Pool)
    ensures Boot(s, n, k)
  {
    s := Pool(seq(n, _ => Free), seq(n, _ => false), seq(n, i => i), seq(n, i => i < k), map[]);
  }
}
