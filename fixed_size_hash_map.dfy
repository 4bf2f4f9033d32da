/**
 * The fixed-size, linear-probing hash map of the language-model word index
 * (`FixedSizeHashMap`). The table has a power-of-two number of buckets; a hash
 * selects the bucket `hash & (buckets - 1)` and probing walks forward, wrapping
 * from the last bucket to the first. `add_new_element` hands out the first empty
 * bucket it meets (the caller then fills it), `get_element` looks a key up.
 */
module FixedSizeHashMaps {
  import opened Wrappers
  import opened Bits

  /** The message of the error raised for a buckets factor below one. */
  const BUCKETS_FACTOR_ERROR: string := "buckets_factor must be >= 1.0"

  // ---------------------------------------------------------------------------
  // The number of buckets
  // ---------------------------------------------------------------------------

  /** The least `r >= k` with `num <= 2^r * den`: `ceil(log2(num / den))` when counted from 0. */
  function CeilLog2From(num: nat, den: nat, k: nat): (r: nat)
    requires 0 < den
    decreases num - Pow2(k) * den
    ensures k <= r && num <= Pow2(r) * den
    ensures forall j :: k <= j < r ==> Pow2(j) * den < num
  {
    if num <= Pow2(k) * den then k
    else
      assert Pow2(k + 1) * den == Pow2(k) * den + Pow2(k) * den;
      CeilLog2From(num, den, k + 1)
  }

  /**
   * `set_number_of_elements`: a bucket factor below one is refused; otherwise the
   * bucket count is the least power of two at or above `factor * (numElems + 1)`.
   * The factor is the exact ratio `factorNum / factorDen`.
   */
  function NumberOfBuckets(factorNum: nat, factorDen: nat, numElems: nat): (r: Result<nat>)
    requires 0 < factorDen
    ensures r.Err? <==> factorNum < factorDen
    ensures r.Ok? ==> exists k :: r.value == Pow2(k)
    ensures r.Ok? ==> factorNum * (numElems + 1) <= r.value * factorDen
    ensures r.Ok? && 1 < r.value ==> (r.value / 2) * factorDen < factorNum * (numElems + 1)
  {
    if factorNum < factorDen then Err(BUCKETS_FACTOR_ERROR)
    else
      var k := CeilLog2From(factorNum * (numElems + 1), factorDen, 0);
      assert 0 < k ==> Pow2(k) / 2 == Pow2(k - 1);
      Ok(Pow2(k))
  }

  // ---------------------------------------------------------------------------
  // The bucket table as a sequence, and the probing walks over it
  // ---------------------------------------------------------------------------

  /** A bucket: empty, or full and holding a key. */
  datatype Bucket<K> = Empty | Full(key: K)

  /** The bucket after `i` in probe order: the walk wraps from the last bucket to the first. */
  function Next(i: nat, n: nat): (j: nat)
    requires i < n
    ensures j < n
    ensures j == (i + 1) % n
  {
    SuccessorMod(i, n);
    if i + 1 == n then 0 else i + 1
  }

  /** The first empty bucket met in at most `steps` probes from `i`; None when all of them are full. */
  function FirstEmpty<K>(b: seq<Bucket<K>>, i: nat, steps: nat): (r: Option<nat>)
    requires i < |b|
    decreases steps
    ensures r.Some? ==> r.value < |b| && b[r.value].Empty?
  {
    if steps == 0 then None
    else if b[i].Empty? then Some(i)
    else FirstEmpty(b, Next(i, |b|), steps - 1)
  }

  /** The outcome of `add_new_element`. */
  datatype AddResult = Slot(idx: nat) | CapacityExceeded | AddNeverReturns

  /**
   * What `add_new_element` does on table `b` from start bucket `start`: the capacity
   * error once `size` reaches `capacity`, else the first empty bucket. When a whole
   * round of probes meets only full buckets, the source's loop never ends.
   */
  function AddOutcome<K>(b: seq<Bucket<K>>, size: nat, capacity: nat, start: nat): (r: AddResult)
    requires start < |b|
    ensures r.Slot? ==> r.idx < |b| && b[r.idx].Empty?
    ensures r == CapacityExceeded <==> capacity <= size
  {
    if size < capacity then
      match FirstEmpty(b, start, |b|)
      case Some(i) => Slot(i)
      case None => AddNeverReturns
    else CapacityExceeded
  }

  /** The outcome of `get_element`. */
  datatype Lookup = Found(idx: nat) | NotFound | FindNeverReturns

  /** `get_element`'s walk: the first full bucket holding `key` met before an empty one. */
  function Find<K(==)>(b: seq<Bucket<K>>, i: nat, key: K, steps: nat): (r: Lookup)
    requires i < |b|
    decreases steps
    ensures r.Found? ==> r.idx < |b| && b[r.idx] == Full(key)
  {
    if steps == 0 then FindNeverReturns
    else if b[i].Empty? then NotFound
    else if b[i].key == key then Found(i)
    else Find(b, Next(i, |b|), key, steps - 1)
  }

  /** The number of full buckets. */
  function FullCount<K>(b: seq<Bucket<K>>): (c: nat)
    ensures c <= |b|
  {
    if b == [] then 0 else FullCount(b[..|b| - 1]) + (if b[|b| - 1].Full? then 1 else 0)
  }

  // ---------------------------------------------------------------------------
  // Properties of the walks
  // ---------------------------------------------------------------------------

  /** A walk without an empty bucket has passed full buckets from `i` up to the end of the table. */
  lemma {:induction false} NoEmptyUpToEnd<K>(b: seq<Bucket<K>>, i: nat, steps: nat)
    requires i < |b| && FirstEmpty(b, i, steps) == None
    ensures forall j :: i <= j < |b| && j < i + steps ==> b[j].Full?
    decreases steps
  {
    if steps > 0 && i + 1 < |b| {
      NoEmptyUpToEnd(b, i + 1, steps - 1);
    }
  }

  /** A walk without an empty bucket that reaches the end of the table carries on from bucket 0. */
  lemma {:induction false} NoEmptyWraps<K>(b: seq<Bucket<K>>, i: nat, steps: nat)
    requires i < |b| && |b| - i <= steps && FirstEmpty(b, i, steps) == None
    ensures FirstEmpty(b, 0, steps - (|b| - i)) == None
    decreases |b| - i
  {
    if i + 1 < |b| {
      NoEmptyWraps(b, i + 1, steps - 1);
    }
  }

  /** A full round of probes finds no empty bucket exactly when every bucket is full. */
  lemma NoEmptyMeansAllFull<K>(b: seq<Bucket<K>>, i: nat)
    requires i < |b|
    ensures FirstEmpty(b, i, |b|) == None <==> forall j :: 0 <= j < |b| ==> b[j].Full?
  {
    if FirstEmpty(b, i, |b|) == None {
      NoEmptyUpToEnd(b, i, |b|);
      NoEmptyWraps(b, i, |b|);
      NoEmptyUpToEnd(b, 0, i);
    } else {
      var e := FirstEmpty(b, i, |b|).value;
      assert b[e].Empty?;
    }
  }

  /** With every bucket full, the count of full buckets is the table size. */
  lemma {:induction false} AllFullCount<K>(b: seq<Bucket<K>>)
    requires forall j :: 0 <= j < |b| ==> b[j].Full?
    ensures FullCount(b) == |b|
  {
    if b != [] {
      AllFullCount(b[..|b| - 1]);
    }
  }

  /**
   * A key stored in the bucket `add_new_element` handed out is found again by
   * `get_element` from the same start bucket (possibly in an earlier bucket with the same key).
   */
  lemma {:induction false} FindAfterStore<K>(b: seq<Bucket<K>>, start: nat, key: K, steps: nat)
    requires start < |b| && FirstEmpty(b, start, steps).Some?
    ensures Find(b[FirstEmpty(b, start, steps).value := Full(key)], start, key, steps).Found?
    decreases steps
  {
    var i := FirstEmpty(b, start, steps).value;
    var b' := b[i := Full(key)];
    if b[start].Full? {
      assert b'[start] == b[start];
      if b[start].key != key {
        FindAfterStore(b, Next(start, |b|), key, steps - 1);
      }
    }
  }

  /**
   * Filling an empty bucket does not change what `get_element` finds for a key it
   * already found: its walk met only full buckets up to the key's bucket.
   */
  lemma {:induction false} FindSurvivesStore<K>(b: seq<Bucket<K>>, start: nat, key: K, steps: nat, j: nat, other: K)
    requires start < |b| && j < |b| && b[j].Empty? && Find(b, start, key, steps).Found?
    ensures Find(b[j := Full(other)], start, key, steps) == Find(b, start, key, steps)
    decreases steps
  {
    assert b[j := Full(other)][start] == b[start];
    if b[start].key != key {
      FindSurvivesStore(b, Next(start, |b|), key, steps - 1, j, other);
    }
  }

  /**
   * One accepted addition followed by the caller's store: the key goes into the
   * first empty bucket from its start bucket; when there is none, the table is left
   * as it is. An addition the capacity check refuses stores nothing, so a run of
   * additions is the run of the accepted ones.
   */
  function AddAndStore<K>(b: seq<Bucket<K>>, start: nat, key: K): (r: seq<Bucket<K>>)
    requires start < |b|
    ensures |r| == |b|
    ensures FirstEmpty(b, start, |b|).Some? ==> Find(r, start, key, |b|).Found?
  {
    match FirstEmpty(b, start, |b|)
    case Some(i) => FindAfterStore(b, start, key, |b|); b[i := Full(key)]
    case None => b
  }

  /** A run of additions, each with its start bucket and its key, in order. */
  function AddAllAndStore<K>(b: seq<Bucket<K>>, starts: seq<nat>, keys: seq<K>): (r: seq<Bucket<K>>)
    requires |starts| == |keys| && forall k :: 0 <= k < |starts| ==> starts[k] < |b|
    ensures |r| == |b|
    decreases |starts|
  {
    if starts == [] then b
    else AddAllAndStore(AddAndStore(b, starts[0], keys[0]), starts[1..], keys[1..])
  }

  /**
   * A key that `get_element` finds is found in the same bucket after any number of
   * later additions and stores; with `FindAfterStore`, every stored key stays found.
   */
  lemma {:induction false} StoredKeysStayFound<K>(b: seq<Bucket<K>>, start: nat, key: K,
                                                  starts: seq<nat>, keys: seq<K>)
    requires start < |b| && Find(b, start, key, |b|).Found?
    requires |starts| == |keys| && forall k :: 0 <= k < |starts| ==> starts[k] < |b|
    ensures Find(AddAllAndStore(b, starts, keys), start, key, |b|) == Find(b, start, key, |b|)
    decreases |starts|
  {
    if starts != [] {
      var b1 := AddAndStore(b, starts[0], keys[0]);
      if FirstEmpty(b, starts[0], |b|).Some? {
        FindSurvivesStore(b, start, key, |b|, FirstEmpty(b, starts[0], |b|).value, keys[0]);
      }
      StoredKeysStayFound(b1, start, key, starts[1..], keys[1..]);
    }
  }

  /**
   * If `size` counted the stored elements, the capacity check would keep a bucket
   * free: with at most `size` full buckets, `add_new_element` always returns.
   */
  lemma CountedAddReturns<K>(b: seq<Bucket<K>>, size: nat, capacity: nat, start: nat)
    requires start < |b| && |b| == capacity + 1 && FullCount(b) <= size
    ensures AddOutcome(b, size, capacity, start) != AddNeverReturns
  {
    if size < capacity && FirstEmpty(b, start, |b|) == None {
      NoEmptyMeansAllFull(b, start);
      AllFullCount(b);
    }
  }

  /**
   * As written, `m_size` stays 0, so the capacity check never fires. In a table of
   * two buckets (capacity 1) two additions both get a bucket, and the third one
   * probes forever instead of reporting the exceeded capacity; counting the
   * additions, the second one is already refused.
   */
  lemma UncountedAddNeverReturns()
    ensures AddOutcome<int>([Empty, Empty], 0, 1, 0) == Slot(0)
    ensures AddOutcome([Full(7), Empty], 0, 1, 0) == Slot(1)
    ensures AddOutcome([Full(7), Full(8)], 0, 1, 0) == AddNeverReturns
    ensures AddOutcome([Full(7), Empty], 1, 1, 0) == CapacityExceeded
  {
    var full: seq<Bucket<int>> := [Full(7), Full(8)];
    assert FirstEmpty(full, 0, 2) == FirstEmpty(full, 1, 1) == FirstEmpty(full, 0, 0);
  }

  // ---------------------------------------------------------------------------
  // The map
  // ---------------------------------------------------------------------------

  class FixedSizeHashMap<K(==)> {
    var numBuckets: nat
    /** `m_capacity`, the bucket mask `numBuckets - 1`. */
    var capacity: nat
    var size: nat
    var buckets: array<Bucket<K>>
    /** The exponent of the bucket count. */
    ghost var log2: nat

    ghost predicate Valid()
      reads this
    {
      buckets.Length == numBuckets && numBuckets == Pow2(log2) && capacity == numBuckets - 1
    }

    /** The constructor once `set_number_of_elements` has succeeded: all buckets empty, size 0. */
    constructor (factorNum: nat, factorDen: nat, numElems: nat)
      requires 0 < factorDen && NumberOfBuckets(factorNum, factorDen, numElems).Ok?
      ensures Valid() && fresh(buckets)
      ensures numBuckets == NumberOfBuckets(factorNum, factorDen, numElems).value && size == 0
      ensures forall j :: 0 <= j < buckets.Length ==> buckets[j] == Empty
    {
      var n := NumberOfBuckets(factorNum, factorDen, numElems).value;
      var k :| n == Pow2(k);
      numBuckets := n;
      capacity := n - 1;
      size := 0;
      log2 := k;
      buckets := new Bucket<K>[n](_ => Empty);
    }

    /** `get_bucket_idx`: `hash & capacity`, which is `hash % numBuckets`. */
    function BucketIdx(hash: nat): (i: nat)
      reads this
      requires Valid()
      ensures i < numBuckets && i <= capacity
      ensures i == hash % numBuckets
    {
      AndLowMask(hash, log2);
      BitAnd(hash, capacity)
    }

    /** `get_next_bucket_idx`: `(i + 1) & capacity`, the next bucket with wrap-around. */
    function NextBucketIdx(i: nat): (j: nat)
      reads this
      requires Valid() && i < numBuckets
      ensures j == Next(i, numBuckets)
    {
      AndLowMask(i + 1, log2);
      BitAnd(i + 1, capacity)
    }

    /** The probe loop shared by both additions: the first empty bucket from the hash slot on. */
    method FirstEmptyBucket(hash: nat) returns (r: Option<nat>)
      requires Valid()
      ensures r == FirstEmpty(buckets[..], BucketIdx(hash), numBuckets)
    {
      var idx: nat := BucketIdx(hash);
      var probes: nat := 0;
      while probes < numBuckets && buckets[idx].Full?
        invariant Valid() && idx < numBuckets && probes <= numBuckets
        invariant FirstEmpty(buckets[..], BucketIdx(hash), numBuckets)
               == FirstEmpty(buckets[..], idx, numBuckets - probes)
        decreases numBuckets - probes
      {
        idx := NextBucketIdx(idx);
        probes := probes + 1;
      }
      if probes == numBuckets {
        r := None;
      } else {
        r := Some(idx);
      }
    }

    /**
     * `add_new_element` as written: the capacity check against `m_size`, then the
     * first empty bucket from the hash slot on; `m_size` is left unchanged.
     */
    method AddNewElementAsWritten(hash: nat) returns (r: AddResult)
      requires Valid()
      ensures r == AddOutcome(buckets[..], size, capacity, BucketIdx(hash))
    {
      if size < capacity {
        var slot := FirstEmptyBucket(hash);
        match slot {
          case Some(i) => r := Slot(i);
          case None => r := AddNeverReturns;
        }
      } else {
        r := CapacityExceeded;
      }
    }

    /**
     * `add_new_element` with the stored-element count kept: a handed-out bucket
     * counts as stored. Given at most `size` full buckets, it never probes forever.
     */
    method AddNewElement(hash: nat) returns (r: AddResult)
      requires Valid()
      modifies this
      ensures Valid() && buckets == old(buckets) && numBuckets == old(numBuckets)
      ensures capacity == old(capacity) && log2 == old(log2)
      ensures r == AddOutcome(buckets[..], old(size), capacity, BucketIdx(hash))
      ensures size == old(size) + (if r.Slot? then 1 else 0)
      ensures FullCount(buckets[..]) <= old(size) ==> r != AddNeverReturns
    {
      r := AddNewElementAsWritten(hash);
      if r.Slot? {
        size := size + 1;
      }
      if FullCount(buckets[..]) <= old(size) {
        CountedAddReturns(buckets[..], old(size), capacity, BucketIdx(hash));
      }
    }

    /** The caller's write through the reference `add_new_element` returned. */
    method Store(idx: nat, key: K)
      requires Valid() && idx < numBuckets
      modifies buckets
      ensures buckets[..] == old(buckets[..])[idx := Full(key)]
    {
      buckets[idx] := Full(key);
    }

    /** `get_element`: the first full bucket holding `key` before an empty one, probing from the hash slot. */
    method GetElement(hash: nat, key: K) returns (r: Lookup)
      requires Valid()
      ensures r == Find(buckets[..], BucketIdx(hash), key, numBuckets)
    {
      var idx: nat := BucketIdx(hash);
      var probes: nat := 0;
      r := FindNeverReturns;
      while probes < numBuckets && buckets[idx].Full?
        invariant Valid() && idx < numBuckets && probes <= numBuckets
        invariant Find(buckets[..], BucketIdx(hash), key, numBuckets)
               == Find(buckets[..], idx, key, numBuckets - probes)
        decreases numBuckets - probes
      {
        if buckets[idx].key == key {
          return Found(idx);
        }
        idx := NextBucketIdx(idx);
        probes := probes + 1;
      }
      if probes < numBuckets {
        r := NotFound;
      }
    }
  }
}
