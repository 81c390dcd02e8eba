/** The population count of mm/swar.cc and the page total of print_mem_info. */
module Swar {
  import Bitmaps
  import PageManager

  function Pairs(n: bv32): bv32 { (n & 0x5555_5555) + ((n >> 1) & 0x5555_5555) }
  function Nibbles(n: bv32): bv32 { (n & 0x3333_3333) + ((n >> 2) & 0x3333_3333) }
  function Bytes(n: bv32): bv32 { (n & 0x0f0f_0f0f) + ((n >> 4) & 0x0f0f_0f0f) }

  function Top(n: bv32): bv32 { (n * 0x0101_0101) >> 24 }

  function Swar(n: bv32): bv32 { Top(Bytes(Nibbles(Pairs(n)))) }

  /** The same three steps on one byte. */
  function Pairs8(b: bv8): bv8 { (b & 0x55) + ((b >> 1) & 0x55) }
  function Nibbles8(b: bv8): bv8 { (b & 0x33) + ((b >> 2) & 0x33) }
  function Bytes8(b: bv8): bv8 { (b & 0x0f) + ((b >> 4) & 0x0f) }

  function Swar8(b: bv8): bv8 { Bytes8(Nibbles8(Pairs8(b))) }

  /** Four bytes in memory read as one little-endian word. */
  function Word(b0: bv8, b1: bv8, b2: bv8, b3: bv8): bv32 {
    (b0 as bv32) | ((b1 as bv32) << 8) | ((b2 as bv32) << 16) | ((b3 as bv32) << 24)
  }

  lemma PairsLanes(b0: bv8, b1: bv8, b2: bv8, b3: bv8)
    ensures Pairs(Word(b0, b1, b2, b3)) == Word(Pairs8(b0), Pairs8(b1), Pairs8(b2), Pairs8(b3))
  {}

  lemma NibblesLanes(b0: bv8, b1: bv8, b2: bv8, b3: bv8)
    ensures Nibbles(Word(b0, b1, b2, b3)) == Word(Nibbles8(b0), Nibbles8(b1), Nibbles8(b2), Nibbles8(b3))
  {}

  lemma BytesLanes(b0: bv8, b1: bv8, b2: bv8, b3: bv8)
    ensures Bytes(Word(b0, b1, b2, b3)) == Word(Bytes8(b0), Bytes8(b1), Bytes8(b2), Bytes8(b3))
  {}

  lemma TopByte(b0: bv8, b1: bv8, b2: bv8, b3: bv8)
    requires b0 <= 8 && b1 <= 8 && b2 <= 8 && b3 <= 8
    ensures Top(Word(b0, b1, b2, b3)) == (b0 as bv32) + (b1 as bv32) + (b2 as bv32) + (b3 as bv32)
  {}

  lemma Swar8Small(b: bv8)
    ensures Swar8(b) <= 8
  {}

  /** The word computation works on the four bytes independently and adds them up. */
  lemma Lanes(b0: bv8, b1: bv8, b2: bv8, b3: bv8)
    ensures Swar(Word(b0, b1, b2, b3)) ==
      (Swar8(b0) as bv32) + (Swar8(b1) as bv32) + (Swar8(b2) as bv32) + (Swar8(b3) as bv32)
  {
    hide Word;
    hide Top;
    hide Pairs;
    hide Nibbles;
    hide Bytes;
    hide Pairs8;
    hide Nibbles8;
    hide Bytes8;
    PairsLanes(b0, b1, b2, b3);
    NibblesLanes(Pairs8(b0), Pairs8(b1), Pairs8(b2), Pairs8(b3));
    BytesLanes(Nibbles8(Pairs8(b0)), Nibbles8(Pairs8(b1)), Nibbles8(Pairs8(b2)), Nibbles8(Pairs8(b3)));
    Swar8Small(b0);
    Swar8Small(b1);
    Swar8Small(b2);
    Swar8Small(b3);
    TopByte(Swar8(b0), Swar8(b1), Swar8(b2), Swar8(b3));
  }

  function Bit(b: bv8, k: nat): nat
    requires k < 8
  {
    if Bitmaps.BitOf(b, k) then 1 else 0
  }

  function Ones(b: bv8): nat {
    Bit(b, 0) + Bit(b, 1) + Bit(b, 2) + Bit(b, 3) + Bit(b, 4) + Bit(b, 5) + Bit(b, 6) + Bit(b, 7)
  }

  lemma Swar8Counts(b: bv8)
    ensures Swar8(b) as nat == Ones(b)
  {
  }

  lemma SmallSum(a: bv8, b: bv8, c: bv8, d: bv8)
    requires a <= 8 && b <= 8 && c <= 8 && d <= 8
    ensures ((a as bv32) + (b as bv32) + (c as bv32) + (d as bv32)) as nat == a as nat + b as nat + c as nat + d as nat
  {}

  /** swar counts the set bits of the four bytes of a word. */
  lemma SwarCounts(b0: bv8, b1: bv8, b2: bv8, b3: bv8)
    ensures Swar(Word(b0, b1, b2, b3)) as nat == Ones(b0) + Ones(b1) + Ones(b2) + Ones(b3)
  {
    hide Word;
    hide Swar;
    hide Swar8;
    hide Ones;
    Lanes(b0, b1, b2, b3);
    Swar8Small(b0);
    Swar8Small(b1);
    Swar8Small(b2);
    Swar8Small(b3);
    SmallSum(Swar8(b0), Swar8(b1), Swar8(b2), Swar8(b3));
    Swar8Counts(b0);
    Swar8Counts(b1);
    Swar8Counts(b2);
    Swar8Counts(b3);
  }

  // ----- From bytes to the set of used frames

  function CountTrue(bits: seq<bool>): nat {
    if bits == [] then 0 else CountTrue(bits[..|bits| - 1]) + if bits[|bits| - 1] then 1 else 0
  }

  function SumOnes(bytes: seq<bv8>): nat {
    if bytes == [] then 0 else SumOnes(bytes[..|bytes| - 1]) + Ones(bytes[|bytes| - 1])
  }

  lemma {:induction false} CountIsCard(bits: seq<bool>)
    ensures CountTrue(bits) == |PageManager.Used(bits)|
  {
    if bits == [] {
      assert PageManager.Used(bits) == {};
    } else {
      var n := |bits| - 1;
      CountIsCard(bits[..n]);
      if bits[n] {
        assert PageManager.Used(bits) == PageManager.Used(bits[..n]) + {n};
      } else {
        assert PageManager.Used(bits) == PageManager.Used(bits[..n]);
      }
    }
  }

  lemma {:induction false} CountAppend(a: seq<bool>, b: seq<bool>)
    ensures CountTrue(a + b) == CountTrue(a) + CountTrue(b)
  {
    if b == [] {
      assert a + b == a;
    } else {
      var n := |b| - 1;
      CountAppend(a, b[..n]);
      assert (a + b)[..|a + b| - 1] == a + b[..n];
    }
  }

  /** The bits of one byte, lowest first. */
  function EightBits(b: bv8): seq<bool> {
    [Bitmaps.BitOf(b, 0), Bitmaps.BitOf(b, 1), Bitmaps.BitOf(b, 2), Bitmaps.BitOf(b, 3),
     Bitmaps.BitOf(b, 4), Bitmaps.BitOf(b, 5), Bitmaps.BitOf(b, 6), Bitmaps.BitOf(b, 7)]
  }

  lemma CountStep(bits: seq<bool>, x: bool)
    ensures CountTrue(bits + [x]) == CountTrue(bits) + if x then 1 else 0
  {
    assert (bits + [x])[..|bits|] == bits;
  }

  function One(x: bool): nat { if x then 1 else 0 }

  lemma CountFour(x0: bool, x1: bool, x2: bool, x3: bool)
    ensures CountTrue([x0, x1, x2, x3]) == One(x0) + One(x1) + One(x2) + One(x3)
  {
    CountStep([], x0);
    CountStep([x0], x1);
    CountStep([x0, x1], x2);
    CountStep([x0, x1, x2], x3);
    assert [] + [x0] == [x0] && [x0] + [x1] == [x0, x1];
    assert [x0, x1] + [x2] == [x0, x1, x2] && [x0, x1, x2] + [x3] == [x0, x1, x2, x3];
  }

  lemma CountBools(x0: bool, x1: bool, x2: bool, x3: bool, x4: bool, x5: bool, x6: bool, x7: bool)
    ensures CountTrue([x0, x1, x2, x3, x4, x5, x6, x7]) ==
      One(x0) + One(x1) + One(x2) + One(x3) + One(x4) + One(x5) + One(x6) + One(x7)
  {
    hide CountTrue;
    hide One;
    CountFour(x0, x1, x2, x3);
    CountFour(x4, x5, x6, x7);
    CountAppend([x0, x1, x2, x3], [x4, x5, x6, x7]);
    assert [x0, x1, x2, x3] + [x4, x5, x6, x7] == [x0, x1, x2, x3, x4, x5, x6, x7];
  }

  lemma CountEight(b: bv8)
    ensures CountTrue(EightBits(b)) == Ones(b)
  {
    hide CountTrue;
    hide Bitmaps.BitOf;
    CountBools(Bitmaps.BitOf(b, 0), Bitmaps.BitOf(b, 1), Bitmaps.BitOf(b, 2), Bitmaps.BitOf(b, 3),
               Bitmaps.BitOf(b, 4), Bitmaps.BitOf(b, 5), Bitmaps.BitOf(b, 6), Bitmaps.BitOf(b, 7));
  }

  lemma {:induction false} CountBytes(bytes: seq<bv8>)
    ensures CountTrue(Bitmaps.BitsOf(bytes)) == SumOnes(bytes)
  {
    if bytes != [] {
      var n := |bytes| - 1;
      CountBytes(bytes[..n]);
      CountEight(bytes[n]);
      CountAppend(Bitmaps.BitsOf(bytes[..n]), EightBits(bytes[n]));
      LastByte(bytes);
    }
  }

  lemma LastByte(bytes: seq<bv8>)
    requires bytes != []
    ensures Bitmaps.BitsOf(bytes) == Bitmaps.BitsOf(bytes[..|bytes| - 1]) + EightBits(bytes[|bytes| - 1])
  {
    var n := |bytes| - 1;
    hide Bitmaps.BitOf;
    var all, init := Bitmaps.BitsOf(bytes), Bitmaps.BitsOf(bytes[..n]);
    forall i | 0 <= i < 8 * (n + 1) ensures all[i] == (init + EightBits(bytes[n]))[i] {
      if i < 8 * n {
        assert bytes[..n][i / 8] == bytes[i / 8];
      } else {
        EightBitsAt(bytes[n], i - 8 * n);
        assert i / 8 == n && i % 8 == i - 8 * n;
      }
    }
  }

  lemma EightBitsAt(b: bv8, k: nat)
    requires k < 8
    ensures EightBits(b)[k] == Bitmaps.BitOf(b, k)
  {
    hide Bitmaps.BitOf;
    if k == 0 {} else if k == 1 {} else if k == 2 {} else if k == 3 {}
    else if k == 4 {} else if k == 5 {} else if k == 6 {} else {}
  }

  /** The loop of print_mem_info: whole words only, so the last bytes count only if the length is a multiple of 4. */
  method UsedPages(base: array<bv8>) returns (used: nat)
    ensures used == |PageManager.Used(Bitmaps.BitsOf(base[..base.Length - base.Length % 4]))|
    ensures base.Length % 4 == 0 ==> used == |PageManager.Used(Bitmaps.BitsOf(base[..]))|
  {
    hide Swar;
    hide Word;
    hide Ones;
    hide SumOnes;
    NoBytes(base[..]);
    used := 0;
    var i := 0;
    while i < base.Length / 4
      invariant 0 <= i <= base.Length / 4 && used == SumOnes(base[..4 * i])
    {
      var b0, b1, b2, b3 := base[4 * i], base[4 * i + 1], base[4 * i + 2], base[4 * i + 3];
      used := used + Swar(Word(b0, b1, b2, b3)) as nat;
      SwarCounts(b0, b1, b2, b3);
      FourMore(base[..], 4 * i);
      i := i + 1;
    }
    ghost var whole := base[..4 * i];
    assert base.Length % 4 == 0 ==> whole == base[..];
    CountBytes(whole);
    CountIsCard(Bitmaps.BitsOf(whole));
  }

  lemma NoBytes(s: seq<bv8>)
    ensures SumOnes(s[..0]) == 0
  {}

  lemma FourMore(s: seq<bv8>, n: nat)
    requires n + 4 <= |s|
    ensures SumOnes(s[..n + 4]) == SumOnes(s[..n]) + Ones(s[n]) + Ones(s[n + 1]) + Ones(s[n + 2]) + Ones(s[n + 3])
  {
    OneMore(s, n);
    OneMore(s, n + 1);
    OneMore(s, n + 2);
    OneMore(s, n + 3);
  }

  lemma OneMore(s: seq<bv8>, n: nat)
    requires n < |s|
    ensures SumOnes(s[..n + 1]) == SumOnes(s[..n]) + Ones(s[n])
  {
    assert s[..n + 1][..n] == s[..n];
  }

  /** The total print_mem_info shows is the number of mapped pages plus page tables made. */
  lemma TotalIsConserved(s: PageManager.Pool)
    requires PageManager.Inv(s) && s.pending == {}
    ensures CountTrue(s.bits) == |s.owner| + |s.tables|
  {
    CountIsCard(s.bits);
    PageManager.Conservation(s);
  }
}
