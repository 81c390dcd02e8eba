/** The Internet checksum of net/ip.cc over 16-bit words (section 2 of RFC 1071), with the byte swap of
    net/byte_order.cc. Words are naturals below 2^16; the accumulator wraps like the source's unsigned int. */
module Checksums {

  const WORD := 0x1_0000
  const DWORD := 0x1_0000_0000
  /** The most 16-bit words whose sum always fits 32 bits. */
  const MAX_WORDS := 65537

  ghost predicate Words(ws: seq<nat>) {
    forall i :: 0 <= i < |ws| ==> ws[i] < WORD
  }

  /** The mathematical sum. */
  function Sum(ws: seq<nat>): nat {
    if ws == [] then 0 else Sum(ws[..|ws| - 1]) + ws[|ws| - 1]
  }

  /** The sum as the 32-bit accumulator computes it. */
  function Sum32(ws: seq<nat>): nat {
    if ws == [] then 0 else (Sum32(ws[..|ws| - 1]) + ws[|ws| - 1]) % DWORD
  }

  /** The two folds, then the truncation to 16 bits. */
  function Fold(s: nat): nat {
    var once := s / WORD + s % WORD;
    var twice := once + once / WORD;
    twice % WORD
  }

  /** `~` on 16 bits of the folded sum. */
  function Checksum(ws: seq<nat>): nat {
    WORD - 1 - Fold(Sum32(ws))
  }

  lemma {:induction false} SumBound(ws: seq<nat>)
    requires Words(ws)
    ensures Sum(ws) <= |ws| * (WORD - 1)
  {
    if ws != [] {
      SumBound(ws[..|ws| - 1]);
    }
  }

  /** Up to 65537 words the accumulator never overflows. */
  lemma {:induction false} NoOverflow(ws: seq<nat>)
    requires Words(ws) && |ws| <= MAX_WORDS
    ensures Sum32(ws) == Sum(ws) < DWORD
  {
    SumBound(ws);
    if ws != [] {
      NoOverflow(ws[..|ws| - 1]);
    }
  }

  /** Two folds suffice: the result is the sum modulo 2^16 - 1, with 0 only for 0. */
  lemma FoldMod(s: nat)
    requires s < DWORD
    ensures Fold(s) < WORD
    ensures Fold(s) % (WORD - 1) == s % (WORD - 1)
    ensures Fold(s) == 0 <==> s == 0
  {
    var hi, lo := s / WORD, s % WORD;
    assert s == hi * WORD + lo;
    var once := hi + lo;
    assert s == once + hi * (WORD - 1);
    SameMod(once, hi);
    if once >= WORD {
      assert once / WORD == 1;
      assert Fold(s) == once - (WORD - 1);
      SameMod(Fold(s), 1);
    } else {
      assert once / WORD == 0;
    }
  }

  lemma SameMod(x: nat, k: nat)
    ensures (x + k * (WORD - 1)) % (WORD - 1) == x % (WORD - 1)
  {}

  /** A value in 1 .. 2^16-1 is determined by its residue. */
  lemma ResidueUnique(x: nat, y: nat)
    requires 1 <= x < WORD && 1 <= y < WORD && x % (WORD - 1) == y % (WORD - 1)
    ensures x == y
  {}

  lemma {:induction false} SumUpdate(ws: seq<nat>, k: nat, v: nat)
    requires k < |ws|
    ensures Sum(ws[k := v]) == Sum(ws) - ws[k] + v
  {
    var n := |ws| - 1;
    if k == n {
      assert ws[k := v][..n] == ws[..n];
    } else {
      SumUpdate(ws[..n], k, v);
      assert ws[k := v][..n] == ws[..n][k := v];
    }
  }

  lemma {:induction false} SumAtLeast(ws: seq<nat>, k: nat)
    requires k < |ws|
    ensures ws[k] <= Sum(ws)
  {
    if k < |ws| - 1 {
      SumAtLeast(ws[..|ws| - 1], k);
    }
  }

  /** A packet verifies exactly when its word sum is a non-zero multiple of 2^16 - 1. */
  lemma ZeroIff(ws: seq<nat>)
    requires Words(ws) && |ws| <= MAX_WORDS
    ensures Checksum(ws) == 0 <==> Sum(ws) > 0 && Sum(ws) % (WORD - 1) == 0
  {
    hide Sum;
    hide Sum32;
    hide Fold;
    NoOverflow(ws);
    FoldMod(Sum(ws));
    ZeroResidue(Fold(Sum(ws)));
  }

  lemma ZeroResidue(f: nat)
    requires f < WORD
    ensures f % (WORD - 1) == 0 <==> f == 0 || f == WORD - 1
  {}

  /** Storing the checksum in its cleared field makes the packet verify. */
  lemma StoredChecksumVerifies(ws: seq<nat>, k: nat)
    requires Words(ws) && |ws| <= MAX_WORDS && k < |ws| && ws[k] == 0
    ensures Checksum(ws) < WORD
    ensures Checksum(ws[k := Checksum(ws)]) == 0
  {
    NoOverflow(ws);
    var s := Sum(ws);
    FoldMod(s);
    var f := Fold(s);
    var stored := ws[k := Checksum(ws)];
    SumUpdate(ws, k, Checksum(ws));
    assert Sum(stored) == s + (WORD - 1) - f;
    ResidueCancels(s, f);
    ZeroIff(stored);
  }

  lemma ResidueCancels(s: nat, f: nat)
    requires f < WORD && f % (WORD - 1) == s % (WORD - 1) && (f == 0 <==> s == 0)
    ensures var t := s + (WORD - 1) - f; t > 0 && t % (WORD - 1) == 0
  {
    var m := WORD - 1;
    var q, r := s / m, s % m;
    assert s == q * m + r;
    if f == m {
      assert r == 0;
      SameMod(0, q);
    } else {
      assert f == r;
      SameMod(0, q + 1);
      assert s + m - f == (q + 1) * m;
    }
  }

  /** Changing one word of a packet that verifies goes unnoticed only between 0x0000 and 0xffff, and then
      only if some other word keeps the sum from being 0. */
  lemma OneWordErrors(ws: seq<nat>, k: nat, v: nat)
    requires Words(ws) && |ws| <= MAX_WORDS && k < |ws| && v < WORD && v != ws[k]
    requires Checksum(ws) == 0
    ensures Checksum(ws[k := v]) == 0 <==>
      || (ws[k] == 0 && v == WORD - 1)
      || (ws[k] == WORD - 1 && v == 0 && Sum(ws) > WORD - 1)
  {
    hide Sum;
    hide Checksum;
    ZeroIff(ws);
    ZeroIff(ws[k := v]);
    SumUpdate(ws, k, v);
    SumAtLeast(ws, k);
    MultipleShift(Sum(ws), v - ws[k]);
  }

  /** A multiple of 2^16 - 1 moved by less than 2^16 is a multiple again only if it moved by a whole step. */
  lemma MultipleShift(s: nat, d: int)
    requires s % (WORD - 1) == 0 && -(WORD - 1) <= d <= WORD - 1 && d != 0 && s + d >= 0
    ensures (s + d) % (WORD - 1) == 0 <==> d == WORD - 1 || d == -(WORD - 1)
  {
    var q := s / (WORD - 1);
    if d == WORD - 1 { SameMod(0, q + 1); }
    else if d == -(WORD - 1) { SameMod(0, q - 1); }
    else if d > 0 { SameMod(d, q); }
    else { SameMod(d + (WORD - 1), q - 1); }
  }

  // ----- Byte order

  /** `((word & 0xff) << 8) | (word >> 8)`. */
  function SwapWord(w: nat): (s: nat)
    requires w < WORD
    ensures s < WORD
  {
    (w % 256) * 256 + w / 256
  }

  lemma SwapComplement(w: nat)
    requires w < WORD
    ensures SwapWord(WORD - 1 - w) == WORD - 1 - SwapWord(w)
  {
    var hi, lo := w / 256, w % 256;
    var c := WORD - 1 - w;
    assert c == 256 * (255 - hi) + (255 - lo);
    assert c / 256 == 255 - hi && c % 256 == 255 - lo;
  }

  /** Swapping is multiplication by 256 modulo 2^16 - 1. */
  lemma SwapMod(w: nat)
    requires w < WORD
    ensures SwapWord(w) % (WORD - 1) == (256 * w) % (WORD - 1)
    ensures SwapWord(w) == 0 <==> w == 0
  {
    var hi, lo := w / 256, w % 256;
    assert 256 * w == SwapWord(w) + hi * (WORD - 1);
    SameMod(SwapWord(w), hi);
  }

  function SwapAll(ws: seq<nat>): (s: seq<nat>)
    requires Words(ws)
    ensures |s| == |ws| && Words(s)
  {
    seq(|ws|, i requires 0 <= i < |ws| => SwapWord(ws[i]))
  }

  lemma {:induction false} SumSwapped(ws: seq<nat>)
    requires Words(ws)
    ensures Sum(SwapAll(ws)) % (WORD - 1) == (256 * Sum(ws)) % (WORD - 1)
    ensures Sum(SwapAll(ws)) == 0 <==> Sum(ws) == 0
  {
    if ws != [] {
      var n := |ws| - 1;
      var init, last := ws[..n], ws[n];
      SumSwapped(init);
      SwapMod(last);
      assert SwapAll(ws)[..n] == SwapAll(init);
      AddMod(Sum(SwapAll(init)), SwapWord(last), 256 * Sum(init), 256 * last);
    }
  }

  lemma AddMod(a: nat, b: nat, c: nat, d: nat)
    requires a % (WORD - 1) == c % (WORD - 1) && b % (WORD - 1) == d % (WORD - 1)
    ensures (a + b) % (WORD - 1) == (c + d) % (WORD - 1)
  {
    var m := WORD - 1;
    var k := (a / m - c / m) + (b / m - d / m);
    assert a + b == c + d + m * k;
    if k >= 0 { SameMod(c + d, k); } else { SameMod(a + b, -k); }
  }

  lemma TimesMod(a: nat, b: nat)
    requires a % (WORD - 1) == b % (WORD - 1)
    ensures (256 * a) % (WORD - 1) == (256 * b) % (WORD - 1)
  {
    var m := WORD - 1;
    var k := 256 * (a / m - b / m);
    assert 256 * a == 256 * b + m * k;
    if k >= 0 { SameMod(256 * b, k); } else { SameMod(256 * a, -k); }
  }

  /** The checksum of the byte-swapped words is the byte-swapped checksum: computing it in host order and
      storing it unswapped is correct. */
  lemma SwappedChecksum(ws: seq<nat>)
    requires Words(ws) && |ws| <= MAX_WORDS
    ensures Checksum(ws) < WORD
    ensures Checksum(SwapAll(ws)) == SwapWord(Checksum(ws))
  {
    NoOverflow(ws);
    NoOverflow(SwapAll(ws));
    SumSwapped(ws);
    var f, g := Fold(Sum(ws)), Fold(Sum(SwapAll(ws)));
    FoldMod(Sum(ws));
    FoldMod(Sum(SwapAll(ws)));
    SwapMod(f);
    TimesMod(f, Sum(ws));
    if f != 0 {
      ResidueUnique(g, SwapWord(f));
    }
    assert g == SwapWord(f);
    SwapComplement(f);
  }

  // ----- The loop

  lemma Sum32Empty(mem: seq<nat>)
    ensures Sum32(mem[..0]) == 0
  {}

  lemma Sum32Step(mem: seq<nat>, i: nat)
    requires i < |mem|
    ensures Sum32(mem[..i + 1]) == (Sum32(mem[..i]) + mem[i]) % DWORD
  {
    assert mem[..i + 1][..i] == mem[..i];
  }

  /** `mem` is the memory from the packet on, as 16-bit words; `len` is the packet's length in bytes. An odd
      length makes the source read the whole word in which the last byte lies. */
  method GenerateChecksum(mem: seq<nat>, len: nat) returns (r: nat)
    requires Words(mem) && len < DWORD && (len + 1) / 2 <= |mem|
    ensures r == Checksum(mem[..(len + 1) / 2])
  {
    hide Sum32;
    Sum32Empty(mem);
    var checksum, left, i := 0, len, 0;
    while left > 1
      invariant left == len - 2 * i && 0 <= i <= |mem|
      invariant checksum == Sum32(mem[..i])
    {
      checksum := (checksum + mem[i]) % DWORD;
      Sum32Step(mem, i);
      i := i + 1;
      left := left - 2;
    }
    if left != 0 {
      checksum := (checksum + mem[i]) % DWORD;
      Sum32Step(mem, i);
      i := i + 1;
    }
    assert i == (len + 1) / 2;
    checksum := checksum / WORD + checksum % WORD;
    checksum := checksum + checksum / WORD;
    r := WORD - 1 - checksum % WORD;
  }

  /** RFC 1071 pads an odd packet with a zero byte. The source instead takes the byte that follows it in
      memory: the two agree exactly when that byte is 0. */
  lemma OddLength(ws: seq<nat>, last: nat, following: nat)
    requires Words(ws) && |ws| < MAX_WORDS && last < 256 && following < 256
    ensures Checksum(ws + [last + 256 * following]) == Checksum(ws + [last]) <==> following == 0
  {
    hide Fold;
    hide Sum;
    hide Sum32;
    var a, b := ws + [last], ws + [last + 256 * following];
    SumSnoc(ws, last);
    SumSnoc(ws, last + 256 * following);
    NoOverflow(a);
    NoOverflow(b);
    FoldsAgreeIff(Sum(a), 256 * following);
  }

  /** Sums less than 2^16 - 1 apart fold to the same word only if they are equal. */
  lemma FoldsAgreeIff(x: nat, d: nat)
    requires x + d < DWORD && d < WORD - 1
    ensures Fold(x + d) == Fold(x) <==> d == 0
  {
    hide Fold;
    FoldMod(x);
    FoldMod(x + d);
    if Fold(x + d) == Fold(x) {
      CloseResidues(x, d);
    }
  }

  lemma SumSnoc(ws: seq<nat>, w: nat)
    ensures Sum(ws + [w]) == Sum(ws) + w
  {
    assert (ws + [w])[..|ws|] == ws;
  }

  lemma CloseResidues(x: nat, d: nat)
    requires d < WORD - 1 && x % (WORD - 1) == (x + d) % (WORD - 1)
    ensures d == 0
  {
    var m := WORD - 1;
    assert d == m * ((x + d) / m - x / m);
  }

  // ----- The IPv4 header

  const NO_FRAGMENT := 0x4000
  const IDENTIFICATION := 0x4455

  /** Two bytes of an address as they lie in memory. */
  function AddressWord(a: seq<nat>, j: nat): nat
    requires |a| == 4 && j < 2
  {
    a[2 * j] + 256 * a[2 * j + 1]
  }

  /** The header as ten words in host order, multi-byte fields swapped, checksum field clear. */
  function HeaderWithoutChecksum(src: seq<nat>, dst: seq<nat>, proto: nat, totalLen: nat): (h: seq<nat>)
    requires |src| == 4 && |dst| == 4 && proto < 256 && totalLen < WORD
    requires forall i :: 0 <= i < 4 ==> src[i] < 256 && dst[i] < 256
    ensures |h| == 10 && Words(h)
  {
    [0x0045, SwapWord(totalLen), SwapWord(IDENTIFICATION), SwapWord(NO_FRAGMENT), 64 + 256 * proto, 0,
     AddressWord(src, 0), AddressWord(src, 1), AddressWord(dst, 0), AddressWord(dst, 1)]
  }

  /** Writes the fields, the checksum field clear. */
  method FillHeader(pkt: array<nat>, src: seq<nat>, dst: seq<nat>, proto: nat, totalLen: nat)
    requires pkt.Length >= 10
    requires |src| == 4 && |dst| == 4 && proto < 256 && totalLen < WORD
    requires forall i :: 0 <= i < 4 ==> src[i] < 256 && dst[i] < 256
    modifies pkt
    ensures pkt[10..] == old(pkt[10..])
    ensures pkt[..10] == HeaderWithoutChecksum(src, dst, proto, totalLen)
  {
    hide SwapWord;
    pkt[0] := 0x0045;
    pkt[1] := SwapWord(totalLen);
    pkt[2] := SwapWord(IDENTIFICATION);
    pkt[3] := SwapWord(NO_FRAGMENT);
    pkt[4] := 64 + 256 * proto;
    pkt[5] := 0;
    var i := 0;
    while i < 2
      invariant 0 <= i <= 2
      invariant pkt[10..] == old(pkt[10..])
      invariant pkt[0] == 0x0045 && pkt[1] == SwapWord(totalLen) && pkt[2] == SwapWord(IDENTIFICATION)
      invariant pkt[3] == SwapWord(NO_FRAGMENT) && pkt[4] == 64 + 256 * proto && pkt[5] == 0
      invariant forall j :: 0 <= j < i ==> pkt[6 + j] == AddressWord(src, j)
      invariant forall j :: 0 <= j < i ==> pkt[8 + j] == AddressWord(dst, j)
    {
      pkt[6 + i] := src[2 * i] + 256 * src[2 * i + 1];
      pkt[8 + i] := dst[2 * i] + 256 * dst[2 * i + 1];
      i := i + 1;
    }
    ghost var h := HeaderWithoutChecksum(src, dst, proto, totalLen);
    assert pkt[6 + 0] == h[6] && pkt[6 + 1] == h[7];
    assert pkt[8 + 0] == h[8] && pkt[8 + 1] == h[9];
    assert pkt[..10] == h;
  }

  /** Fills the header in place. The result verifies, read in either byte order, and carries the fields. */
  method FormatPacket(pkt: array<nat>, src: seq<nat>, dst: seq<nat>, proto: nat, totalLen: nat)
    requires pkt.Length >= 10
    requires |src| == 4 && |dst| == 4 && proto < 256 && totalLen < WORD
    requires forall i :: 0 <= i < 4 ==> src[i] < 256 && dst[i] < 256
    modifies pkt
    ensures pkt[10..] == old(pkt[10..])
    ensures Words(pkt[..10]) && Checksum(pkt[..10]) == 0 && Checksum(SwapAll(pkt[..10])) == 0
    ensures pkt[..10][5 := 0] == HeaderWithoutChecksum(src, dst, proto, totalLen)
  {
    hide Checksum;
    hide SwapWord;
    FillHeader(pkt, src, dst, proto, totalLen);
    ghost var h := pkt[..10];
    var c := GenerateChecksum(pkt[..10], 20);
    assert h[..10] == h;
    StoredChecksumVerifies(h, 5);
    pkt[5] := c;
    assert pkt[..10] == h[5 := c];
    assert h[5 := c][5 := 0] == h;
    SwappedVerifies(h[5 := c]);
  }

  lemma SwappedVerifies(ws: seq<nat>)
    requires Words(ws) && |ws| <= MAX_WORDS && Checksum(ws) == 0
    ensures Checksum(SwapAll(ws)) == 0
  {
    SwappedChecksum(ws);
  }
}
