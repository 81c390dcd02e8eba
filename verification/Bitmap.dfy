/** The byte-packed bitmap of lib/bitmap.cc, used for page frames, inodes and data blocks. */
module Bitmaps {

  /** `1 << k` on an unsigned char. */
  function Mask(k: nat): bv8
    requires k < 8
  {
    if k == 0 then 0x01 else if k == 1 then 0x02 else if k == 2 then 0x04 else if k == 3 then 0x08
    else if k == 4 then 0x10 else if k == 5 then 0x20 else if k == 6 then 0x40 else 0x80
  }

  predicate BitOf(b: bv8, k: nat)
    requires k < 8
  {
    b & Mask(k) != 0
  }

  /** The bits a byte array denotes, lowest bit of each byte first. */
  function BitsOf(bytes: seq<bv8>): (bits: seq<bool>)
    ensures |bits| == 8 * |bytes|
  {
    seq(8 * |bytes|, i requires 0 <= i < 8 * |bytes| => BitOf(bytes[i / 8], i % 8))
  }

  lemma SetMask(b: bv8, k: nat, j: nat)
    requires k < 8 && j < 8
    ensures BitOf(b | Mask(k), j) == (j == k || BitOf(b, j))
  {
    assert (b | Mask(k)) & Mask(j) == (b & Mask(j)) | (Mask(k) & Mask(j));
    if j == k {
      assert (b & Mask(j)) | Mask(k) != 0 by { OrMask(b & Mask(j), k); }
    } else {
      DistinctMasks(k, j);
      assert (b & Mask(j)) | 0 == b & Mask(j);
    }
  }

  lemma OrMask(x: bv8, k: nat)
    requires k < 8
    ensures Mask(k) & Mask(k) == Mask(k)
    ensures x | Mask(k) != 0
  {
    if k == 0 {} else if k == 1 {} else if k == 2 {} else if k == 3 {}
    else if k == 4 {} else if k == 5 {} else if k == 6 {} else {}
  }

  lemma DistinctMasks(k: nat, j: nat)
    requires k < 8 && j < 8 && k != j
    ensures Mask(k) & Mask(j) == 0
  {
    if k == 0 {} else if k == 1 {} else if k == 2 {} else if k == 3 {}
    else if k == 4 {} else if k == 5 {} else if k == 6 {} else {}
  }

  lemma ClearMask(b: bv8, k: nat, j: nat)
    requires k < 8 && j < 8
    ensures BitOf(b & !Mask(k), j) == (j != k && BitOf(b, j))
  {
    if j == k {
      assert (b & !Mask(k)) & Mask(k) == 0;
    } else {
      DistinctMasks(k, j);
      var m, n := Mask(k), Mask(j);
      assert m & n == 0;
      assert !m & n == n;
      assert (b & !m) & n == b & (!m & n);
    }
  }

  lemma FullByte(b: bv8)
    ensures b == 0xff <==> forall k :: 0 <= k < 8 ==> BitOf(b, k)
  {
    if forall k :: 0 <= k < 8 ==> BitOf(b, k) {
      assert BitOf(b, 0) && BitOf(b, 1) && BitOf(b, 2) && BitOf(b, 3);
      assert BitOf(b, 4) && BitOf(b, 5) && BitOf(b, 6) && BitOf(b, 7);
    }
    if b == 0xff {
      forall k | 0 <= k < 8 ensures BitOf(b, k) {
        if k == 0 {} else if k == 1 {} else if k == 2 {} else if k == 3 {}
        else if k == 4 {} else if k == 5 {} else if k == 6 {} else {}
      }
    }
  }

  /** Replacing one byte by one that differs in one bit replaces that bit of the whole. */
  lemma UpdatedByte(bytes: seq<bv8>, idx: nat, b: bv8, val: bool)
    requires idx < 8 * |bytes|
    requires forall j :: 0 <= j < 8 ==> BitOf(b, j) == (if j == idx % 8 then val else BitOf(bytes[idx / 8], j))
    ensures BitsOf(bytes[idx / 8 := b]) == BitsOf(bytes)[idx := val]
  {
    var after := BitsOf(bytes[idx / 8 := b]);
    forall i | 0 <= i < 8 * |bytes|
      ensures after[i] == BitsOf(bytes)[idx := val][i]
    {
      assert after[i] == BitOf(bytes[idx / 8 := b][i / 8], i % 8);
      if i / 8 == idx / 8 {
        assert i == 8 * (i / 8) + i % 8 && idx == 8 * (idx / 8) + idx % 8;
      }
    }
  }

  /** `r` is the lowest clear bit, or -1 when every bit is set. */
  ghost predicate IsScan(bits: seq<bool>, r: int)
  {
    && (r == -1 ==> forall j :: 0 <= j < |bits| ==> bits[j])
    && (r != -1 ==> 0 <= r < |bits| && !bits[r] && forall j :: 0 <= j < r ==> bits[j])
  }

  /** The first clear bit from `i` on, or the length. */
  function FirstClear(bits: seq<bool>, i: nat): (r: nat)
    requires i <= |bits|
    ensures i <= r <= |bits| && (r < |bits| ==> !bits[r]) && forall j :: i <= j < r ==> bits[j]
    decreases |bits| - i
  {
    if i == |bits| || !bits[i] then i else FirstClear(bits, i + 1)
  }

  /** The first `n` bits of byte `k` set are the bits from 8 * k on set. */
  lemma BitsOfByte(bytes: seq<bv8>, k: nat, n: nat)
    requires k < |bytes| && n <= 8 && forall j :: 0 <= j < n ==> BitOf(bytes[k], j)
    ensures forall j :: 8 * k <= j < 8 * k + n ==> BitsOf(bytes)[j]
  {
    forall j | 8 * k <= j < 8 * k + n ensures BitsOf(bytes)[j] {
      assert j / 8 == k && BitOf(bytes[k], j % 8);
    }
  }

  /** The bits of the first `n` bytes are set. */
  ghost predicate AllSet(bytes: seq<bv8>, n: nat) {
    n <= |bytes| && forall j :: 0 <= j < 8 * n ==> BitsOf(bytes)[j]
  }

  lemma SkipFull(bytes: seq<bv8>, k: nat)
    requires k < |bytes| && AllSet(bytes, k) && bytes[k] == 0xff
    ensures AllSet(bytes, k + 1)
  {
    hide Mask;
    FullByte(bytes[k]);
    BitsOfByte(bytes, k, 8);
  }

  lemma ScanFound(bytes: seq<bv8>, k: nat, bit: nat)
    requires k < |bytes| && bit < 8 && AllSet(bytes, k) && !BitOf(bytes[k], bit)
    requires forall j :: 0 <= j < bit ==> BitOf(bytes[k], j)
    ensures IsScan(BitsOf(bytes), 8 * k + bit)
  {
    hide Mask;
    hide BitOf;
    var r := 8 * k + bit;
    assert r / 8 == k && r % 8 == bit;
    BitsOfByte(bytes, k, bit);
  }

  class Bitmap {
    const base: array<bv8>

    ghost function Bits(): (bits: seq<bool>)
      reads base
      ensures |bits| == 8 * base.Length
    {
      BitsOf(base[..])
    }

    /** A cleared bitmap over `bytesLen` bytes. */
    constructor (bytesLen: nat)
      ensures base.Length == bytesLen && fresh(base)
      ensures forall i :: 0 <= i < |Bits()| ==> !Bits()[i]
    {
      base := new bv8[bytesLen](_ => 0);
      new;
      forall i | 0 <= i < |Bits()| ensures !Bits()[i] {
        assert base[..][i / 8] == 0;
        assert (0 as bv8) & Mask(i % 8) == 0;
      }
    }

    method VerifyBit(idx: nat) returns (b: bool)
      requires idx < 8 * base.Length
      ensures b == Bits()[idx]
    {
      b := base[idx / 8] & Mask(idx % 8) != 0;
    }

    method SetBit(idx: nat, val: bool)
      requires idx < 8 * base.Length
      modifies base
      ensures Bits() == old(Bits())[idx := val]
    {
      ghost var was := base[..];
      var byteIdx, bitIdx := idx / 8, idx % 8;
      if val {
        base[byteIdx] := base[byteIdx] | Mask(bitIdx);
        forall j | 0 <= j < 8 ensures BitOf(base[byteIdx], j) == (j == bitIdx || BitOf(was[byteIdx], j)) {
          SetMask(was[byteIdx], bitIdx, j);
        }
      } else {
        base[byteIdx] := base[byteIdx] & !Mask(bitIdx);
        forall j | 0 <= j < 8 ensures BitOf(base[byteIdx], j) == (j != bitIdx && BitOf(was[byteIdx], j)) {
          ClearMask(was[byteIdx], bitIdx, j);
        }
      }
      assert base[..] == was[byteIdx := base[byteIdx]];
      UpdatedByte(was, idx, base[byteIdx], val);
    }

    /** First fit: skip the full bytes, then the set bits of the first byte that is not full. */
    method Scan() returns (r: int)
      ensures IsScan(Bits(), r)
    {
      hide Mask;
      hide BitsOf;
      var byteIdx := 0;
      while byteIdx < base.Length && base[byteIdx] == 0xff
        invariant byteIdx <= base.Length && AllSet(base[..], byteIdx)
      {
        SkipFull(base[..], byteIdx);
        byteIdx := byteIdx + 1;
      }
      if byteIdx == base.Length {
        return -1;
      }
      FullByte(base[byteIdx]);
      ghost var clear :| 0 <= clear < 8 && !BitOf(base[byteIdx], clear);
      var bitIdx := 0;
      while base[byteIdx] & Mask(bitIdx) != 0
        invariant 0 <= bitIdx <= clear
        invariant forall k :: 0 <= k < bitIdx ==> BitOf(base[byteIdx], k)
        decreases clear - bitIdx
      {
        bitIdx := bitIdx + 1;
      }
      r := byteIdx * 8 + bitIdx;
      ScanFound(base[..], byteIdx, bitIdx);
    }
  }
}
