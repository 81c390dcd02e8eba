/** The two-bits-per-slot run allocator of mm/doublebit_map.cc. */
module DoublebitMaps {
  import opened Options

  /** SLOT_FREE = 0, SLOT_USED_SINGLE = 1, SLOT_SEQ_START = 2, SLOT_SEQ_END = 3. */
  datatype Slot = Free | UsedSingle | SeqStart | SeqEnd

  function Code(s: Slot): bv8 {
    match s case Free => 0 case UsedSingle => 1 case SeqStart => 2 case SeqEnd => 3
  }

  function SlotOf(v: bv8): Slot {
    if v == 0 then Free else if v == 1 then UsedSingle else if v == 2 then SeqStart else SeqEnd
  }

  /** `(b & (3 << 2k)) >> 2k`. */
  function Field(b: bv8, k: nat): bv8
    requires k < 4
  {
    if k == 0 then b & 0x03 else if k == 1 then (b & 0x0c) >> 2
    else if k == 2 then (b & 0x30) >> 4 else (b & 0xc0) >> 6
  }

  /** `(b & ~(3 << 2k)) | (v << 2k)`. */
  function WithField(b: bv8, k: nat, v: bv8): bv8
    requires k < 4
  {
    if k == 0 then (b & 0xfc) | v else if k == 1 then (b & 0xf3) | (v << 2)
    else if k == 2 then (b & 0xcf) | (v << 4) else (b & 0x3f) | (v << 6)
  }

  lemma WithField0(b: bv8, v: bv8)
    requires v <= 3
    ensures var w := (b & 0xfc) | v;
      w & 0x03 == v && w & 0x0c == b & 0x0c && w & 0x30 == b & 0x30 && w & 0xc0 == b & 0xc0
  {}

  lemma WithField1(b: bv8, v: bv8)
    requires v <= 3
    ensures var w := (b & 0xf3) | (v << 2);
      w & 0x03 == b & 0x03 && (w & 0x0c) >> 2 == v && w & 0x30 == b & 0x30 && w & 0xc0 == b & 0xc0
  {}

  lemma WithField2(b: bv8, v: bv8)
    requires v <= 3
    ensures var w := (b & 0xcf) | (v << 4);
      w & 0x03 == b & 0x03 && w & 0x0c == b & 0x0c && (w & 0x30) >> 4 == v && w & 0xc0 == b & 0xc0
  {}

  lemma WithField3(b: bv8, v: bv8)
    requires v <= 3
    ensures var w := (b & 0x3f) | (v << 6);
      w & 0x03 == b & 0x03 && w & 0x0c == b & 0x0c && w & 0x30 == b & 0x30 && (w & 0xc0) >> 6 == v
  {}

  /** Reading a field back gives what was written there and leaves the other three fields alone. */
  lemma FieldOfWithField(b: bv8, k: nat, v: bv8, j: nat)
    requires k < 4 && j < 4 && v <= 3
    ensures Field(WithField(b, k, v), j) == if j == k then v else Field(b, j)
  {
    if k == 0 { WithField0(b, v); } else if k == 1 { WithField1(b, v); }
    else if k == 2 { WithField2(b, v); } else { WithField3(b, v); }
  }

  lemma CodeRoundTrip(s: Slot)
    ensures SlotOf(Code(s)) == s && Code(s) <= 3
  {}

  function SlotsOf(bytes: seq<bv8>): (s: seq<Slot>)
    ensures |s| == 4 * |bytes|
  {
    seq(4 * |bytes|, i requires 0 <= i < 4 * |bytes| => SlotOf(Field(bytes[i / 4], i % 4)))
  }

  lemma UpdatedField(bytes: seq<bv8>, idx: nat, val: Slot)
    requires idx < 4 * |bytes|
    ensures SlotsOf(bytes[idx / 4 := WithField(bytes[idx / 4], idx % 4, Code(val))]) == SlotsOf(bytes)[idx := val]
  {
    var b := WithField(bytes[idx / 4], idx % 4, Code(val));
    var after := SlotsOf(bytes[idx / 4 := b]);
    forall i | 0 <= i < 4 * |bytes|
      ensures after[i] == SlotsOf(bytes)[idx := val][i]
    {
      assert after[i] == SlotOf(Field(bytes[idx / 4 := b][i / 4], i % 4));
      if i / 4 == idx / 4 {
        assert i == 4 * (i / 4) + i % 4 && idx == 4 * (idx / 4) + idx % 4;
        CodeRoundTrip(val);
        FieldOfWithField(bytes[idx / 4], idx % 4, Code(val), i % 4);
      }
    }
  }

  // ----- What a map of slots means

  /** Slot `i` of an allocation of `n` slots. */
  function PatternAt(n: nat, i: int): Slot {
    if n == 1 then UsedSingle else if i == 0 then SeqStart else if i == n - 1 then SeqEnd else UsedSingle
  }

  /** `s` with an allocation of `n` slots written at `a`. */
  function Stamp(s: seq<Slot>, a: nat, n: nat): (t: seq<Slot>)
    ensures |t| == |s|
  {
    seq(|s|, i requires 0 <= i < |s| => if a <= i < a + n then PatternAt(n, i - a) else s[i])
  }

  /** `s` with `n` slots from `a` freed. */
  function Erase(s: seq<Slot>, a: nat, n: nat): (t: seq<Slot>)
    ensures |t| == |s|
  {
    seq(|s|, i requires 0 <= i < |s| => if a <= i < a + n then Free else s[i])
  }

  lemma IsStamp(s: seq<Slot>, t: seq<Slot>, a: nat, n: nat)
    requires |t| == |s|
    requires forall i :: 0 <= i < |s| ==> t[i] == if a <= i < a + n then PatternAt(n, i - a) else s[i]
    ensures t == Stamp(s, a, n)
  {}

  ghost predicate Covered(live: map<nat, nat>, i: int) {
    exists a :: a in live && a <= i < a + live[a]
  }

  /** The slots are exactly the live allocations (`start -> length`): disjoint runs, everything else free. */
  ghost predicate Represents(s: seq<Slot>, live: map<nat, nat>) {
    && (forall a :: a in live ==> 1 <= live[a] && a + live[a] <= |s|)
    && (forall a, b :: a in live && b in live && a < b ==> a + live[a] <= b)
    && (forall a, i :: a in live && a <= i < a + live[a] ==> s[i] == PatternAt(live[a], i - a))
    && (forall i :: 0 <= i < |s| && s[i] != Free ==> Covered(live, i))
  }

  ghost predicate FreeRun(s: seq<Slot>, a: int, n: nat) {
    0 <= a && a + n <= |s| && forall i :: a <= i < a + n ==> s[i] == Free
  }

  /** First fit: the lowest start of `n >= 1` consecutive free slots, or -1 when there is none. */
  ghost predicate IsFirstFit(s: seq<Slot>, n: nat, r: int) {
    && (r == -1 ==> forall a :: !FreeRun(s, a, n))
    && (r != -1 ==> FreeRun(s, r, n) && forall a :: 0 <= a < r ==> !FreeRun(s, a, n))
  }

  ghost predicate NoFitBefore(s: seq<Slot>, n: nat, idx: nat) {
    forall a :: 0 <= a && a + n <= idx ==> !FreeRun(s, a, n)
  }

  /** Fewer than `n` free slots end at `idx`, so no fit ends there either. */
  lemma NoFitShort(s: seq<Slot>, n: nat, idx: nat, found: nat)
    requires n >= 1 && idx < |s| && NoFitBefore(s, n, idx) && found <= idx + 1
    requires found < n && (found <= idx ==> s[idx - found] != Free)
    ensures NoFitBefore(s, n, idx + 1)
  {
    forall a | 0 <= a && a + n <= idx + 1 ensures !FreeRun(s, a, n) {
      if a + n == idx + 1 {
        assert a <= idx - found < a + n;
      }
    }
  }

  lemma FitFound(s: seq<Slot>, n: nat, idx: nat)
    requires n >= 1 && idx < |s| && NoFitBefore(s, n, idx) && FreeRun(s, idx + 1 - n, n)
    ensures IsFirstFit(s, n, idx + 1 - n)
  {}

  /** What the scan knows at `idx`: exactly `found` free slots end there, and no fit has been passed. */
  ghost predicate Scanned(s: seq<Slot>, n: nat, idx: nat, found: nat) {
    && found <= idx <= |s|
    && FreeRun(s, idx - found, found)
    && (found < idx ==> s[idx - found - 1] != Free)
    && (n >= 1 ==> found < n && NoFitBefore(s, n, idx))
  }

  lemma ScanStep(s: seq<Slot>, n: nat, idx: nat, found: nat)
    requires idx < |s| && Scanned(s, n, idx, found)
    ensures s[idx] != Free ==> Scanned(s, n, idx + 1, 0)
    ensures s[idx] == Free && found + 1 != n ==> Scanned(s, n, idx + 1, found + 1)
    ensures s[idx] == Free && found + 1 == n ==> IsFirstFit(s, n, idx + 1 - n)
  {
    var found' := if s[idx] == Free then found + 1 else 0;
    assert FreeRun(s, idx + 1 - found', found');
    if n >= 1 && found' < n {
      NoFitShort(s, n, idx, found');
    } else if n >= 1 {
      FitFound(s, n, idx);
    }
  }

  /** The first SEQ_END at or after `i`, or the length of the map. */
  function EndFrom(s: seq<Slot>, i: nat): (e: nat)
    requires i <= |s|
    ensures i <= e <= |s|
    ensures e < |s| ==> s[e] == SeqEnd
    ensures forall j :: i <= j < e ==> s[j] != SeqEnd
    decreases |s| - i
  {
    if i == |s| || s[i] == SeqEnd then i else EndFrom(s, i + 1)
  }

  /** The number of slots free_slots gives back. */
  function RunLength(s: seq<Slot>, idx: nat): nat
    requires idx < |s|
  {
    match s[idx]
    case UsedSingle => 1
    case SeqStart => EndFrom(s, idx) - idx + 1
    case _ => 0
  }

  // ----- The grammar: a concatenation of FREE, SINGLE and START SINGLE* END

  /** Index just after the run whose SINGLE* END part starts at `i`; None when it is not of that shape. */
  function RunTail(s: seq<Slot>, i: nat): (e: Option<nat>)
    requires i <= |s|
    ensures e.Some? ==> i < e.value <= |s| && s[e.value - 1] == SeqEnd
    ensures e.Some? ==> forall j :: i <= j < e.value - 1 ==> s[j] == UsedSingle
    decreases |s| - i
  {
    if i == |s| then None
    else match s[i]
      case SeqEnd => Some(i + 1)
      case UsedSingle => RunTail(s, i + 1)
      case _ => None
  }

  /** Left-to-right parse of the slots from `i` on, yielding the allocations it sees. */
  function Parse(s: seq<Slot>, i: nat): Option<map<nat, nat>>
    requires i <= |s|
    decreases |s| - i
  {
    if i == |s| then Some(map[])
    else match s[i]
      case Free => Parse(s, i + 1)
      case UsedSingle =>
        (match Parse(s, i + 1) case None => None case Some(m) => Some(m[i := 1]))
      case SeqStart =>
        (match RunTail(s, i + 1)
         case None => None
         case Some(e) => match Parse(s, e) case None => None case Some(m) => Some(m[i := e - i]))
      case SeqEnd => None
  }

  function From(live: map<nat, nat>, i: nat): map<nat, nat> {
    map a | a in live && a >= i :: live[a]
  }

  /** An allocation of `n` slots is written at `a`. */
  ghost predicate PatternIn(s: seq<Slot>, a: nat, n: nat) {
    a + n <= |s| && forall j :: a <= j < a + n ==> s[j] == PatternAt(n, j - a)
  }

  lemma {:induction false} RunTailOfPattern(s: seq<Slot>, a: nat, n: nat, i: nat)
    requires PatternIn(s, a, n) && n > 1 && a < i < a + n
    ensures RunTail(s, i) == Some(a + n)
    decreases a + n - i
  {
    if i < a + n - 1 {
      RunTailOfPattern(s, a, n, i + 1);
    }
  }

  lemma ParseOfRun(s: seq<Slot>, a: nat, n: nat, m: map<nat, nat>)
    requires n >= 1 && PatternIn(s, a, n) && Parse(s, a + n) == Some(m)
    ensures Parse(s, a) == Some(m[a := n])
  {
    if n > 1 {
      RunTailOfPattern(s, a, n, a + 1);
    }
  }

  lemma LiveInRange(s: seq<Slot>, live: map<nat, nat>, a: nat)
    requires Represents(s, live) && a in live
    ensures 1 <= live[a] && a + live[a] <= |s|
  {}

  lemma LiveIsUsed(s: seq<Slot>, live: map<nat, nat>)
    requires Represents(s, live)
    ensures forall a, i :: a in live && a <= i < a + live[a] ==> s[i] != Free
  {}

  /** No live allocation straddles `i`. */
  ghost predicate Boundary(live: map<nat, nat>, i: nat) {
    forall a :: a in live && a < i ==> a + live[a] <= i
  }

  lemma UsedAtBoundary(s: seq<Slot>, live: map<nat, nat>, i: nat)
    requires Represents(s, live) && i < |s| && Boundary(live, i)
    ensures s[i] != Free <==> i in live
    ensures i in live ==> 1 <= live[i] && PatternIn(s, i, live[i]) && Boundary(live, i + live[i])
    ensures i in live ==> forall b :: b in live && i < b ==> i + live[i] <= b
    ensures i !in live ==> Boundary(live, i + 1)
  {
    LiveIsUsed(s, live);
    if s[i] != Free {
      assert Covered(live, i);
    }
  }

  lemma FromRun(live: map<nat, nat>, i: nat, e: nat)
    requires i in live && i < e && forall b :: b in live && i < b ==> e <= b
    ensures From(live, i) == From(live, e)[i := live[i]]
  {}

  lemma FromSkip(live: map<nat, nat>, i: nat)
    requires i !in live
    ensures From(live, i) == From(live, i + 1)
  {}

  lemma {:induction false} ParseOfRepresented(s: seq<Slot>, live: map<nat, nat>, i: nat)
    requires Represents(s, live) && i <= |s| && Boundary(live, i)
    ensures Parse(s, i) == Some(From(live, i))
    decreases |s| - i
  {
    if i == |s| {
      assert From(live, i) == map[];
    } else {
      UsedAtBoundary(s, live, i);
      if i in live {
        var e := i + live[i];
        ParseOfRepresented(s, live, e);
        ParseOfRun(s, i, live[i], From(live, e));
        FromRun(live, i, e);
      } else {
        ParseOfRepresented(s, live, i + 1);
        FromSkip(live, i);
      }
    }
  }

  /** `m` is what the slots from `i` on represent. */
  ghost predicate RepresentsFrom(s: seq<Slot>, i: nat, m: map<nat, nat>) {
    && (forall a :: a in m ==> i <= a && 1 <= m[a] && a + m[a] <= |s|)
    && (forall a, b :: a in m && b in m && a < b ==> a + m[a] <= b)
    && (forall a, j :: a in m && a <= j < a + m[a] ==> s[j] == PatternAt(m[a], j - a))
    && (forall j :: i <= j < |s| && s[j] != Free ==> Covered(m, j))
  }

  lemma ExtendRepresented(s: seq<Slot>, i: nat, e: nat, m: map<nat, nat>)
    requires i < e <= |s| && RepresentsFrom(s, e, m)
    requires PatternIn(s, i, e - i)
    ensures RepresentsFrom(s, i, m[i := e - i])
  {
    var m' := m[i := e - i];
    forall j | i <= j < |s| && s[j] != Free
      ensures Covered(m', j)
    {
      if j < e {
        assert i in m' && i <= j < i + m'[i];
      } else {
        var a :| a in m && a <= j < a + m[a];
        assert a in m' && a <= j < a + m'[a];
      }
    }
  }

  lemma RunTailPattern(s: seq<Slot>, i: nat)
    requires i < |s| && s[i] == SeqStart && RunTail(s, i + 1).Some?
    ensures PatternIn(s, i, RunTail(s, i + 1).value - i)
  {}

  lemma {:induction false} ParseSound(s: seq<Slot>, i: nat)
    requires i <= |s| && Parse(s, i).Some?
    ensures RepresentsFrom(s, i, Parse(s, i).value)
    decreases |s| - i, 0
  {
    if i < |s| {
      match s[i]
      case Free => ParseSound(s, i + 1);
      case UsedSingle => ParseSoundRun(s, i, i + 1);
      case SeqStart =>
        RunTailPattern(s, i);
        ParseSoundRun(s, i, RunTail(s, i + 1).value);
    }
  }

  lemma {:induction false} ParseSoundRun(s: seq<Slot>, i: nat, e: nat)
    requires i < e <= |s| && Parse(s, e).Some?
    requires PatternIn(s, i, e - i)
    ensures RepresentsFrom(s, i, Parse(s, e).value[i := e - i])
    decreases |s| - e, 1
  {
    ParseSound(s, e);
    ExtendRepresented(s, i, e, Parse(s, e).value);
  }

  /** The slots decode to exactly one set of allocations: the parse of the run grammar. */
  lemma RepresentsIffParsed(s: seq<Slot>, live: map<nat, nat>)
    ensures Represents(s, live) <==> Parse(s, 0) == Some(live)
  {
    if Represents(s, live) {
      ParseOfRepresented(s, live, 0);
      assert From(live, 0) == live;
    }
    if Parse(s, 0) == Some(live) {
      ParseSound(s, 0);
    }
  }

  // ----- Allocation and release on the meaning

  lemma StampRepresents(s: seq<Slot>, live: map<nat, nat>, a: nat, n: nat)
    requires Represents(s, live) && n >= 1 && FreeRun(s, a, n)
    ensures a !in live
    ensures Represents(Stamp(s, a, n), live[a := n])
    ensures Erase(Stamp(s, a, n), a, n) == s
  {
    var t, live' := Stamp(s, a, n), live[a := n];
    LiveIsUsed(s, live);
    forall b | b in live ensures b + live[b] <= a || a + n <= b {
      assert s[a] == Free && s[b] != Free;
    }
    forall i | 0 <= i < |t| && t[i] != Free
      ensures Covered(live', i)
    {
      if a <= i < a + n {
        assert a in live' && a <= i < a + live'[a];
      } else {
        assert Covered(live, i);
        var b :| b in live && b <= i < b + live[b];
        assert b in live' && b <= i < b + live'[b];
      }
    }
  }

  lemma EraseRepresents(s: seq<Slot>, live: map<nat, nat>, a: nat)
    requires Represents(s, live) && a in live
    ensures RunLength(s, a) == live[a]
    ensures Represents(Erase(s, a, live[a]), live - {a})
  {
    var n := live[a];
    assert s[a] == PatternAt(n, 0);
    if n > 1 {
      assert s[a + n - 1] == PatternAt(n, n - 1);
      assert forall i :: a <= i < a + n ==> s[i] == PatternAt(n, i - a);
    }
    var t, live' := Erase(s, a, n), live - {a};
    forall i | 0 <= i < |t| && t[i] != Free
      ensures Covered(live', i)
    {
      assert Covered(live, i);
      var b :| b in live && b <= i < b + live[b];
      assert b != a;
      assert b in live' && b <= i < b + live'[b];
    }
    forall b, i | b in live' && b <= i < b + live'[b]
      ensures t[i] == PatternAt(live'[b], i - b)
    {
      assert s[i] == PatternAt(live[b], i - b);
    }
  }

  // ----- Whole runs

  datatype Op = Allocate(n: nat) | Release(start: nat)

  /** One call seen from outside: the slots and the allocations the callers hold, before and after. */
  ghost predicate Step(s: seq<Slot>, live: map<nat, nat>, op: Op, s': seq<Slot>, live': map<nat, nat>) {
    match op
    case Allocate(n) =>
      (exists r :: IsFirstFit(s, n, r) && (r == -1 || n == 0) && s' == s && live' == live)
      || (n >= 1 && exists r: nat :: IsFirstFit(s, n, r) && s' == Stamp(s, r, n) && live' == live[r := n])
    case Release(a) =>
      && a in live && a < |s|
      && s' == Erase(s, a, RunLength(s, a)) && live' == live - {a}
  }

  /** Every run of allocations and of releases of live starts leaves a map that parses to the live allocations. */
  lemma {:induction false} EveryRun(slots: seq<seq<Slot>>, lives: seq<map<nat, nat>>, ops: seq<Op>)
    requires |slots| == |lives| == |ops| + 1
    requires lives[0] == map[] && forall i :: 0 <= i < |slots[0]| ==> slots[0][i] == Free
    requires forall k :: 0 <= k < |ops| ==> Step(slots[k], lives[k], ops[k], slots[k + 1], lives[k + 1])
    ensures forall k :: 0 <= k < |slots| ==> Parse(slots[k], 0) == Some(lives[k])
  {
    var k := 0;
    assert Represents(slots[0], lives[0]);
    while k < |ops|
      invariant k <= |ops|
      invariant forall j :: 0 <= j <= k ==> Represents(slots[j], lives[j])
    {
      assert Step(slots[k], lives[k], ops[k], slots[k + 1], lives[k + 1]);
      StepRepresents(slots[k], lives[k], ops[k], slots[k + 1], lives[k + 1]);
      k := k + 1;
    }
    forall j | 0 <= j < |slots| ensures Parse(slots[j], 0) == Some(lives[j]) {
      RepresentsIffParsed(slots[j], lives[j]);
    }
  }

  lemma StepRepresents(s: seq<Slot>, live: map<nat, nat>, op: Op, s': seq<Slot>, live': map<nat, nat>)
    requires Represents(s, live) && Step(s, live, op, s', live')
    ensures Represents(s', live')
  {
    match op
    case Allocate(n) =>
      if s' != s || live' != live {
        var r: nat :| IsFirstFit(s, n, r) && s' == Stamp(s, r, n) && live' == live[r := n];
        StampRepresents(s, live, r, n);
      }
    case Release(a) => EraseRepresents(s, live, a);
  }

  // ----- The class

  class DoublebitMap {
    const bytesLen: nat
    const base: array<bv8>

    /** The store holds two bits per slot; slot numbers fit the source's `int`. */
    ghost predicate Valid() {
      base.Length == 2 * bytesLen && 8 * bytesLen < 0x8000_0000
    }

    ghost function Slots(): (s: seq<Slot>)
      requires Valid()
      reads base
      ensures |s| == 8 * bytesLen
    {
      SlotsOf(base[..])
    }

    constructor (bytesLen: nat)
      requires 8 * bytesLen < 0x8000_0000
      ensures Valid() && this.bytesLen == bytesLen && fresh(base)
      ensures forall i :: 0 <= i < |Slots()| ==> Slots()[i] == Free
    {
      this.bytesLen := bytesLen;
      base := new bv8[2 * bytesLen](_ => 0);
      new;
      forall i | 0 <= i < |Slots()| ensures Slots()[i] == Free {
        assert base[..][i / 4] == 0;
        var k := i % 4;
        assert Field(0, k) == 0 by { if k == 0 {} else if k == 1 {} else if k == 2 {} else {} }
      }
    }

    method GetSlotStatus(idx: nat) returns (s: Slot)
      requires Valid() && idx < 8 * bytesLen
      ensures s == Slots()[idx]
    {
      var bit := 2 * idx;
      assert bit / 8 == idx / 4 && bit % 8 == 2 * (idx % 4);
      s := SlotOf(Field(base[bit / 8], (bit % 8) / 2));
    }

    method SetSlotValue(idx: nat, val: Slot)
      requires Valid() && idx < 8 * bytesLen
      modifies base
      ensures Slots() == old(Slots())[idx := val]
    {
      ghost var was := base[..];
      var bit := 2 * idx;
      assert bit / 8 == idx / 4 && bit % 8 == 2 * (idx % 4);
      base[bit / 8] := WithField(base[bit / 8], (bit % 8) / 2, Code(val));
      assert base[..] == was[idx / 4 := WithField(was[idx / 4], idx % 4, Code(val))];
      UpdatedField(was, idx, val);
    }

    method Sync(start: nat, cnt: nat)
      requires Valid() && cnt >= 1 && start + cnt <= 8 * bytesLen
      modifies base
      ensures Slots() == Stamp(old(Slots()), start, cnt)
    {
      if cnt == 1 {
        SetSlotValue(start, UsedSingle);
        IsStamp(old(Slots()), Slots(), start, cnt);
        return;
      }
      SetSlotValue(start, SeqStart);
      var i := 1;
      while i < cnt - 1
        invariant 1 <= i <= cnt - 1
        invariant forall k :: 0 <= k < |Slots()| ==>
          Slots()[k] == if start <= k < start + i then PatternAt(cnt, k - start) else old(Slots())[k]
      {
        SetSlotValue(start + i, UsedSingle);
        i := i + 1;
      }
      SetSlotValue(start + cnt - 1, SeqEnd);
      IsStamp(old(Slots()), Slots(), start, cnt);
    }

    /** The scan of get_free_slots. A request for 0 slots never matches the counter and fails. */
    method FindFreeSlots(cnt: nat) returns (r: int)
      requires Valid()
      ensures cnt == 0 ==> r == -1
      ensures cnt >= 1 ==> IsFirstFit(Slots(), cnt, r)
    {
      ghost var s := Slots();
      var foundCnt, idx := 0, 0;
      while idx < bytesLen * 8
        invariant idx <= bytesLen * 8
        invariant Scanned(s, cnt, idx, foundCnt)
      {
        var slot := GetSlotStatus(idx);
        ScanStep(s, cnt, idx, foundCnt);
        if slot == Free && cnt == 1 {
          return idx;
        } else if slot == Free {
          foundCnt := foundCnt + 1;
          if foundCnt == cnt {
            return idx - cnt + 1;
          }
        } else {
          foundCnt := 0;
        }
        idx := idx + 1;
      }
      return -1;
    }

    method GetFreeSlots(cnt: nat) returns (r: int)
      requires Valid()
      modifies base
      ensures cnt == 0 ==> r == -1
      ensures cnt >= 1 ==> IsFirstFit(old(Slots()), cnt, r)
      ensures Slots() == if r == -1 then old(Slots()) else Stamp(old(Slots()), r, cnt)
    {
      r := FindFreeSlots(cnt);
      if r != -1 {
        Sync(r, cnt);
      }
    }

    /** Frees a single slot, or everything from a SEQ_START to the next SEQ_END; any other slot is refused. */
    method FreeSlots(start: nat) returns (cnt: nat)
      requires Valid() && start < 8 * bytesLen
      requires Slots()[start] == SeqStart ==> EndFrom(Slots(), start) < |Slots()|
      modifies base
      ensures cnt == RunLength(old(Slots()), start)
      ensures Slots() == Erase(old(Slots()), start, cnt)
    {
      ghost var was := Slots();
      var s := GetSlotStatus(start);
      if s == UsedSingle {
        SetSlotValue(start, Free);
        return 1;
      }
      if s != SeqStart {
        return 0;
      }
      ghost var e := EndFrom(was, start);
      var idx := start;
      cnt := 0;
      s := GetSlotStatus(idx);
      while s != SeqEnd
        invariant start <= idx <= e && cnt == idx - start
        invariant forall k :: 0 <= k < |was| ==> Slots()[k] == if start <= k < idx then Free else was[k]
        invariant s == Slots()[idx]
        decreases e - idx
      {
        SetSlotValue(idx, Free);
        idx := idx + 1;
        cnt := cnt + 1;
        s := GetSlotStatus(idx);
      }
      SetSlotValue(idx, Free);
      cnt := cnt + 1;
    }
  }

  /** Allocating and freeing the result gives back the same number of slots and the same map. */
  method AllocateThenFree(m: DoublebitMap, cnt: nat, ghost live: map<nat, nat>) returns (r: int, freed: nat)
    requires m.Valid() && cnt >= 1 && Represents(m.Slots(), live)
    modifies m.base
    ensures m.Slots() == old(m.Slots())
    ensures r != -1 ==> freed == cnt
  {
    r := m.GetFreeSlots(cnt);
    freed := 0;
    if r != -1 {
      StampRepresents(old(m.Slots()), live, r, cnt);
      EraseRepresents(m.Slots(), live[r := cnt], r);
      freed := m.FreeSlots(r);
    }
  }
}
