/**
 * `BitmapHashCache`: a bitmap with one bit per bucket that records which M-gram hashes
 * were added, so that a trie can skip the search for an M-gram whose bit is off. The
 * number of buckets is a power of two, and a hash picks its bucket with a mask.
 *
 * The bit macros (`NUM_BYTES_4_BITS`, `BYTE_IDX`, `REMAINING_BIT_IDX`, `ON_BIT_ARRAY`)
 * and `const_expr` come from utility headers that are not part of this model: a byte
 * holds 8 buckets, the bucket `8 * b + o` is bit `o` of byte `b` counted from the most
 * significant bit, and the bucket count is the least power of two not below the
 * requested size.
 */
module BitmapHashCaches {
  import opened Wrappers
  import opened Bits

  const NUM_BITS_IN_UINT_8: nat := 8

  /** `ON_BIT_ARRAY`: the byte with only bit `o` on, counted from the most significant bit. */
  const ON_BIT_ARRAY: seq<bv8> := [0x80, 0x40, 0x20, 0x10, 0x08, 0x04, 0x02, 0x01]

  const ALREADY_ALLOCATED := "The bitset is already pre-allocated!"
  const ZERO_ELEMENTS := "Trying to pre-allocate 0 elements for a BitmaphashCache!"

  /** `ceil(log2(n))`: the least `k` with `n <= 2^k` (0 for `n <= 1`). */
  function CeilLog2(n: nat): (k: nat)
    ensures n <= Pow2(k)
    ensures 0 < k ==> Pow2(k - 1) < n
  {
    if n <= 1 then 0 else 1 + CeilLog2((n + 1) / 2)
  }

  /** `NUM_BYTES_4_BITS`: the bytes needed for `bits` bits. */
  function NumBytes4Bits(bits: nat): (n: nat)
    ensures bits <= NUM_BITS_IN_UINT_8 * n < bits + NUM_BITS_IN_UINT_8
  {
    (bits + NUM_BITS_IN_UINT_8 - 1) / NUM_BITS_IN_UINT_8
  }

  /**
   * `get_bit_pos`: the bucket is `key & capacity` cut to 32 bits; its byte and its bit
   * within the byte.
   */
  function BitPos(key: nat, capacity: nat): (pos: (nat, nat))
    ensures pos.1 < NUM_BITS_IN_UINT_8
    ensures NUM_BITS_IN_UINT_8 * pos.0 + pos.1 == BitAnd(key, capacity) % TWO32
  {
    var global := BitAnd(key, capacity) % TWO32;
    (global / NUM_BITS_IN_UINT_8, global % NUM_BITS_IN_UINT_8)
  }

  /** With `2^k` buckets the position lies inside the bitmap. */
  lemma BitPosInBitmap(key: nat, k: nat)
    ensures BitPos(key, Pow2(k) - 1).0 < NumBytes4Bits(Pow2(k))
  {
    AndLowMaskBelow(key, k);
  }

  /**
   * With at most `2^32` buckets the mask loses nothing to the 32-bit cut: the bucket
   * of a key is the key modulo the number of buckets, as the mask is meant to compute.
   */
  lemma BitPosIsModulo(key: nat, k: nat)
    requires Pow2(k) <= TWO32
    ensures var pos := BitPos(key, Pow2(k) - 1);
            NUM_BITS_IN_UINT_8 * pos.0 + pos.1 == key % Pow2(k)
  {
    AndLowMask(key, k);
    DivModUnique(key % Pow2(k), TWO32, 0, key % Pow2(k));
  }

  /** The bitmap `bytes` with the bit of `key` switched on. */
  function SetBit(bytes: seq<bv8>, key: nat, capacity: nat): (r: seq<bv8>)
    requires BitPos(key, capacity).0 < |bytes|
    ensures |r| == |bytes|
  {
    var pos := BitPos(key, capacity);
    bytes[pos.0 := bytes[pos.0] | ON_BIT_ARRAY[pos.1]]
  }

  /** The bit of `key` is on in `bytes`. */
  predicate Cached(bytes: seq<bv8>, key: nat, capacity: nat)
    requires BitPos(key, capacity).0 < |bytes|
  {
    var pos := BitPos(key, capacity);
    bytes[pos.0] & ON_BIT_ARRAY[pos.1] != 0
  }

  /** Switching a bit on keeps every bit that was on, and that bit is on afterwards. */
  lemma OrKeepsBits(x: bv8, y: bv8, m: bv8)
    ensures (x | y) & y == y
    ensures x & m != 0 ==> (x | y) & m != 0
  {
  }

  /**
   * Caching a key sets its bit and only ever adds bits: every key cached before stays
   * cached, and the key itself is found afterwards.
   */
  lemma SetBitKeeps(bytes: seq<bv8>, key: nat, other: nat, capacity: nat)
    requires BitPos(key, capacity).0 < |bytes| && BitPos(other, capacity).0 < |bytes|
    ensures Cached(SetBit(bytes, key, capacity), key, capacity)
    ensures Cached(bytes, other, capacity) ==> Cached(SetBit(bytes, key, capacity), other, capacity)
  {
    var p, q := BitPos(key, capacity), BitPos(other, capacity);
    OrKeepsBits(bytes[p.0], ON_BIT_ARRAY[p.1], ON_BIT_ARRAY[p.1]);
    OrKeepsBits(bytes[q.0], ON_BIT_ARRAY[p.1], ON_BIT_ARRAY[q.1]);
    assert ON_BIT_ARRAY[p.1] != 0;
  }

  /** The bitmap after caching `keys` one after another. */
  function SetBits(bytes: seq<bv8>, keys: seq<nat>, capacity: nat): (r: seq<bv8>)
    requires forall i :: 0 <= i < |keys| ==> BitPos(keys[i], capacity).0 < |bytes|
    ensures |r| == |bytes|
    decreases keys
  {
    if keys == [] then bytes
    else SetBits(SetBit(bytes, keys[0], capacity), keys[1..], capacity)
  }

  /**
   * No false negatives: after caching a list of keys, every key of the list, and
   * every key cached before, is reported as cached.
   */
  lemma {:induction false} SetBitsNoFalseNegatives(bytes: seq<bv8>, keys: seq<nat>, capacity: nat, key: nat)
    requires forall i :: 0 <= i < |keys| ==> BitPos(keys[i], capacity).0 < |bytes|
    requires BitPos(key, capacity).0 < |bytes|
    requires key in keys || Cached(bytes, key, capacity)
    ensures Cached(SetBits(bytes, keys, capacity), key, capacity)
    decreases |keys|
  {
    if keys != [] {
      var bytes' := SetBit(bytes, keys[0], capacity);
      SetBitKeeps(bytes, keys[0], key, capacity);
      assert key in keys[1..] || Cached(bytes', key, capacity) by {
        if key != keys[0] && key in keys {
          var i :| 0 <= i < |keys| && keys[i] == key;
          assert keys[1..][i - 1] == key;
        }
      }
      SetBitsNoFalseNegatives(bytes', keys[1..], capacity, key);
    }
  }

  /** `power(2, ceil(log2(buckets_factor * num_elems)))`: the number of buckets. */
  function NumBuckets(numElems: nat, bucketsFactor: Byte): (b: nat)
    ensures bucketsFactor * numElems <= b
    ensures 1 < b ==> b < 2 * (bucketsFactor * numElems)
  {
    Pow2(CeilLog2(bucketsFactor * numElems))
  }

  class BitmapHashCache {
    /** `m_num_buckets`: the number of bits, 0 before allocation. */
    var numBuckets: nat
    /** `m_buckets_capacity`: the mask `m_num_buckets - 1`. */
    var bucketsCapacity: nat
    /** `m_data_ptr`: the bitmap, `null` before allocation. */
    var data: array?<bv8>
    /** The exponent of the number of buckets. */
    ghost var logBuckets: nat

    ghost predicate Valid()
      reads this
    {
      && (data == null ==> numBuckets == 0)
      && (data != null ==>
            && numBuckets == Pow2(logBuckets)
            && bucketsCapacity == numBuckets - 1
            && data.Length == NumBytes4Bits(numBuckets))
    }

    /** A cache with no bitmap yet. */
    constructor ()
      ensures Valid() && data == null && numBuckets == 0
    {
      numBuckets, bucketsCapacity, data := 0, 0, null;
      logBuckets := 0;
    }

    /**
     * `pre_allocate`: allocates one bit per bucket, all off, for the least power of two
     * of buckets not below `bucketsFactor * numElems`; a second call and a request for
     * no elements fail and change nothing.
     */
    method PreAllocate(numElems: nat, bucketsFactor: Byte) returns (r: Result<()>)
      requires Valid()
      modifies this
      ensures Valid()
      ensures old(data) != null ==> r == Err(ALREADY_ALLOCATED) && unchanged(this)
      ensures old(data) == null && numElems == 0 ==> r == Err(ZERO_ELEMENTS) && unchanged(this)
      ensures old(data) == null && numElems != 0 ==>
                && r == Ok(())
                && numBuckets == NumBuckets(numElems, bucketsFactor)
                && data != null && fresh(data)
                && data[..] == seq(NumBytes4Bits(numBuckets), _ => 0)
    {
      if data != null {
        return Err(ALREADY_ALLOCATED);
      }
      if numElems == 0 {
        return Err(ZERO_ELEMENTS);
      }
      logBuckets := CeilLog2(bucketsFactor * numElems);
      numBuckets := NumBuckets(numElems, bucketsFactor);
      bucketsCapacity := numBuckets - 1;
      var numBytes := NumBytes4Bits(numBuckets);
      data := new bv8[numBytes](_ => 0);
      r := Ok(());
    }

    /** `is_hash_cached`: the bit of `key` is on. */
    predicate IsHashCached(key: nat)
      reads this, data
      requires Valid() && data != null
      ensures IsHashCached(key) ==> exists i :: 0 <= i < data.Length && data[i] != 0
    {
      BitPosInBitmap(key, logBuckets);
      Cached(data[..], key, bucketsCapacity)
    }

    /**
     * `cache_m_gram_hash` of an M-gram whose hash is `key`: switches its bit on and
     * changes no other bit, so the key and every key cached before are found.
     */
    method CacheHash(key: nat)
      requires Valid() && data != null
      modifies data
      ensures Valid()
      ensures BitPos(key, bucketsCapacity).0 < data.Length
      ensures data[..] == SetBit(old(data[..]), key, bucketsCapacity)
      ensures IsHashCached(key)
      ensures forall other: nat :: old(IsHashCached(other)) ==> IsHashCached(other)
    {
      BitPosInBitmap(key, logBuckets);
      var pos := BitPos(key, bucketsCapacity);
      data[pos.0] := data[pos.0] | ON_BIT_ARRAY[pos.1];
      assert data[..] == SetBit(old(data[..]), key, bucketsCapacity);
      forall other: nat
        ensures old(IsHashCached(other)) ==> IsHashCached(other)
      {
        BitPosInBitmap(other, logBuckets);
        SetBitKeeps(old(data[..]), key, other, bucketsCapacity);
      }
      SetBitKeeps(old(data[..]), key, key, bucketsCapacity);
    }
  }
}
