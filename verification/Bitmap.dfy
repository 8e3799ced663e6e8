/** A set of indices kept in an array of bytes (`src/core/bitmap.c`). */
module Bitmaps {

  /** `1u << k` in a byte. */
  function Mask(k: nat): bv8
    requires k < 8
  {
    if k == 0 then 1 else if k == 1 then 2 else if k == 2 then 4 else if k == 3 then 8
    else if k == 4 then 16 else if k == 5 then 32 else if k == 6 then 64 else 128
  }

  predicate BitOf(b: bv8, k: nat)
    requires k < 8
  {
    b & Mask(k) != 0
  }

  lemma SetBit(b: bv8, j: nat, k: nat)
    requires j < 8 && k < 8
    ensures BitOf(b | Mask(j), k) <==> j == k || BitOf(b, k)
  {
  }

  lemma ClearBit(b: bv8, j: nat, k: nat)
    requires j < 8 && k < 8
    ensures BitOf(b & !Mask(j), k) <==> j != k && BitOf(b, k)
  {
  }

  predicate BitAt(s: seq<bv8>, i: nat)
    requires i < 8 * |s|
  {
    BitOf(s[i / 8], i % 8)
  }

  /** Writing one bit of a byte sequence changes that bit only. */
  lemma WriteBit(s: seq<bv8>, index: nat, i: nat)
    requires index < 8 * |s| && i < 8 * |s|
    ensures BitAt(s[index / 8 := s[index / 8] | Mask(index % 8)], i) <==> i == index || BitAt(s, i)
    ensures BitAt(s[index / 8 := s[index / 8] & !Mask(index % 8)], i) <==> i != index && BitAt(s, i)
  {
    if i / 8 == index / 8 {
      SetBit(s[index / 8], index % 8, i % 8);
      ClearBit(s[index / 8], index % 8, i % 8);
      assert i % 8 == index % 8 <==> i == index;
    }
  }

  class Bitmap {
    var bits: array<bv8>      // byte_count is bits.Length; no bytes stand for a null pointer
    var bitCount: nat

    ghost predicate Valid()
      reads this
    {
      bits.Length == (bitCount + 7) / 8
    }

    predicate Bit(i: nat)
      requires i < 8 * bits.Length
      reads this, bits
    {
      BitOf(bits[i / 8], i % 8)
    }

    /** The set the bitmap stands for. */
    ghost function Bits(): set<nat>
      requires Valid()
      reads this, bits
    {
      set i: nat | i < bitCount && Bit(i)
    }

    /** No bit is set in the last byte past the end. */
    ghost predicate PaddingClear()
      requires Valid()
      reads this, bits
    {
      forall i: nat | bitCount <= i < 8 * bits.Length :: !Bit(i)
    }

    constructor (count: nat)
      ensures Valid() && PaddingClear() && fresh(bits)
      ensures bitCount == count && Bits() == {}
    {
      bitCount := count;
      bits := new bv8[(count + 7) / 8](_ => 0);
    }

    method Resize(count: nat)
      requires Valid()
      modifies this
      ensures Valid() && bitCount == count && fresh(bits)
      // bits below both counts are kept
      ensures forall i | 0 <= i < count && i < old(bitCount) :: i in Bits() <==> i in old(Bits())
      // a bit, also one that is new or becomes padding, is set only if it was set before
      ensures forall i | 0 <= i < 8 * bits.Length :: Bit(i) <==> i < 8 * old(bits.Length) && old(Bit(i))
      // the new bits read as clear exactly if there were no stale ones among them
      ensures (forall i | old(bitCount) <= i < count :: i !in Bits()) <==>
              (forall i: nat | old(bitCount) <= i < count && i < 8 * old(bits.Length) :: !old(Bit(i)))
      ensures old(PaddingClear()) ==> Bits() == set i | i in old(Bits()) && i < count
    {
      var byteCount := (count + 7) / 8;
      var oldBits := bits;
      var newBits := new bv8[byteCount](_ => 0);
      var i := 0;
      while i < byteCount && i < oldBits.Length
        invariant 0 <= i <= byteCount && i <= oldBits.Length
        invariant forall j | 0 <= j < i :: newBits[j] == oldBits[j]
        invariant forall j | i <= j < byteCount :: newBits[j] == 0
        invariant bits == oldBits && bits[..] == old(bits[..])
      {
        newBits[i] := oldBits[i];
        i := i + 1;
      }
      bits := newBits;
      bitCount := count;
      assert forall j: nat | old(bitCount) <= j < count :: j in Bits() <==> j < 8 * old(bits.Length) && old(Bit(j));
    }

    method ClearAll()
      requires Valid()
      modifies bits
      ensures Bits() == {} && PaddingClear()
    {
      forall i | 0 <= i < bits.Length {
        bits[i] := 0;
      }
    }

    method Set(index: nat)
      requires Valid()
      modifies bits
      ensures index < bitCount ==> Bits() == old(Bits()) + {index}
      ensures index >= bitCount ==> Bits() == old(Bits())
      ensures old(PaddingClear()) ==> PaddingClear()
    {
      if index < bitCount {
        ghost var before := bits[..];
        bits[index / 8] := bits[index / 8] | Mask(index % 8);
        assert bits[..] == before[index / 8 := before[index / 8] | Mask(index % 8)];
        forall i: nat | i < 8 * bits.Length ensures Bit(i) <==> i == index || old(Bit(i)) {
          WriteBit(before, index, i);
        }
      }
    }

    method Clear(index: nat)
      requires Valid()
      modifies bits
      ensures Bits() == old(Bits()) - {index}
      ensures old(PaddingClear()) ==> PaddingClear()
    {
      if index < bitCount {
        ghost var before := bits[..];
        bits[index / 8] := bits[index / 8] & !Mask(index % 8);
        assert bits[..] == before[index / 8 := before[index / 8] & !Mask(index % 8)];
        forall i: nat | i < 8 * bits.Length ensures Bit(i) <==> i != index && old(Bit(i)) {
          WriteBit(before, index, i);
        }
      }
    }

    method Test(index: nat) returns (r: bool)
      requires Valid()
      ensures r <==> index in Bits()
    {
      r := index < bitCount && Bit(index);
    }
  }

  /** Resizing down and up again within one byte shows that a new bit need not
      read as clear: bit 7 comes back. */
  method StaleBitComesBack() returns (stale: bool)
    ensures stale
  {
    var b := new Bitmap(8);
    b.Set(7);
    assert 7 in b.Bits();
    b.Resize(4);
    b.Resize(8);
    stale := b.Test(7);
  }
}
