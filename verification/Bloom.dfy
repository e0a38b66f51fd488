/** The optional Bloom filter of the hash table: a bit vector that hash values set and never clear. */
module Bloom {
  import opened Words

  /** The mask 1 << i, spelled out. */
  function Mask(i: nat): bv8
    requires i < 8
  {
    if i == 0 then 1 else if i == 1 then 2 else if i == 2 then 4 else if i == 3 then 8
    else if i == 4 then 16 else if i == 5 then 32 else if i == 6 then 64 else 128
  }

  lemma ShiftIsMask(i: nat)
    requires i < 8
    ensures (1 as bv8) << i == Mask(i)
  {
  }

  ghost predicate Bit(b: bv8, i: nat)
    requires i < 8
  {
    b & Mask(i) != 0
  }

  lemma SetBit(b: bv8, i: nat)
    requires i < 8
    ensures forall j: nat :: j < 8 ==> (Bit(b | Mask(i), j) <==> Bit(b, j) || i == j)
  {
  }

  ghost predicate BitAt(bits: seq<bv8>, idx: nat)
    requires idx < 8 * |bits|
  {
    Bit(bits[idx / 8], idx % 8)
  }

  lemma SetBitAt(bits: seq<bv8>, idx: nat)
    requires idx < 8 * |bits|
    ensures var after := bits[idx / 8 := bits[idx / 8] | Mask(idx % 8)];
            forall k: nat :: k < 8 * |bits| ==> (BitAt(after, k) <==> BitAt(bits, k) || k == idx)
  {
    SetBit(bits[idx / 8], idx % 8);
    hide Bit, Mask;
    var after := bits[idx / 8 := bits[idx / 8] | Mask(idx % 8)];
    forall k: nat | k < 8 * |bits|
      ensures BitAt(after, k) <==> BitAt(bits, k) || k == idx
    {
      if k / 8 == idx / 8 {
        assert k % 8 == idx % 8 <==> k == idx;
      }
    }
  }

  class Filter {
    const nbits: nat
    const bv: array<bv8>

    ghost predicate Valid() {
      8 * bv.Length >= Pow2(nbits)
    }

    /** HASH_BLOOM_MAKE */
    constructor (nbits: nat)
      ensures Valid() && this.nbits == nbits && fresh(bv)
      ensures forall h: nat :: !Has(h)
    {
      var len := Pow2(nbits);
      this.nbits := nbits;
      bv := new bv8[len / 8 + if len % 8 != 0 then 1 else 0](_ => 0);
    }

    /** The bit that a hash value selects. */
    ghost function Index(hashv: nat): nat {
      hashv % Pow2(nbits)
    }

    /** The filter answers yes for hash value `hashv`. */
    ghost predicate Has(hashv: nat)
      requires Valid()
      reads bv
    {
      BitAt(bv[..], Index(hashv))
    }

    /** HASH_BLOOM_ADD */
    method Add(hashv: nat)
      requires Valid()
      modifies bv
      ensures forall h: nat :: Has(h) <==> old(Has(h)) || h % Pow2(nbits) == hashv % Pow2(nbits)
    {
      hide BitAt, Mask, And, Pow2;
      var idx := And(hashv, Pow2(nbits) - 1);
      MaskIsMod(hashv, nbits);
      ShiftIsMask(idx % 8);
      ghost var before := bv[..];
      SetBitAt(before, idx);
      bv[idx / 8] := bv[idx / 8] | (1 << (idx % 8));
      assert bv[..] == before[idx / 8 := before[idx / 8] | Mask(idx % 8)];
      assert forall h: nat :: Index(h) < 8 * |before|;
    }

    /** HASH_BLOOM_TEST */
    method Test(hashv: nat) returns (yes: bool)
      requires Valid()
      ensures yes <==> Has(hashv)
    {
      var idx := And(hashv, Pow2(nbits) - 1);
      MaskIsMod(hashv, nbits);
      ShiftIsMask(idx % 8);
      yes := bv[idx / 8] & (1 << (idx % 8)) != 0;
    }
  }
}
