/**
 * The growable stack array of the tries (`dynamic_stack_array`) and the memory
 * increase strategy that chooses its next capacity (`mem_increase_strategy`).
 * The packed pointer/capacity/size bytes of the source become an array whose
 * length is the capacity and a `size` field; `maxIndex` is the largest value of
 * the index type.
 */
module DynamicArrays {
  import opened Wrappers

  /** The message of the error raised when the capacity cannot grow any further. */
  const CAPACITY_OVERFLOW_ERROR: string := "Unable to increase the capacity, reached the maximum allowed by the data type!"

  // ---------------------------------------------------------------------------
  // The memory increase strategy
  // ---------------------------------------------------------------------------

  /** The two integer strategies; `LOG_2` and `LOG_10` are not part of this model. */
  datatype StrategyType = Constant | Linear

  datatype MemIncreaseStrategy = MemIncreaseStrategy(stype: StrategyType, minMemInc: nat, memIncFactor: nat)
  {
    /** The constructor's sanity checks: a minimum increment of at least one, a non-zero factor. */
    predicate Valid() { 1 <= minMemInc && 1 <= memIncFactor }
  }

  /** The strategy function applied to a capacity: nothing for CONSTANT, the capacity for LINEAR. */
  function CapacityInc(stype: StrategyType, fcap: nat): nat
  {
    match stype
    case Constant => 0
    case Linear => fcap
  }

  function Max(a: nat, b: nat): nat { if a < b then b else a }
  function Min(a: nat, b: nat): nat { if a < b then a else b }

  /**
   * `get_new_capacity`: the capacity plus the larger of the factor times the strategy
   * increment (of at least one element's capacity) and the minimum increment.
   */
  function GetNewCapacity(s: MemIncreaseStrategy, capacity: nat): (r: nat)
    requires s.Valid()
    ensures capacity < r && s.minMemInc <= r - capacity
    ensures s.stype == Constant ==> r == capacity + s.minMemInc
    ensures s.stype == Linear ==> 2 * capacity <= r && capacity + s.memIncFactor <= r
  {
    var capInc := s.memIncFactor * CapacityInc(s.stype, if capacity > 0 then capacity else 1);
    CapacityIncBounds(s, capacity);
    capacity + Max(capInc, s.minMemInc)
  }

  /** The strategy's increment: none for CONSTANT, at least the capacity and the factor for LINEAR. */
  lemma CapacityIncBounds(s: MemIncreaseStrategy, capacity: nat)
    requires s.Valid()
    ensures var capInc := s.memIncFactor * CapacityInc(s.stype, if capacity > 0 then capacity else 1);
            && (s.stype == Constant ==> capInc == 0)
            && (s.stype == Linear ==> capacity <= capInc && s.memIncFactor <= capInc)
  {
    if s.stype == Linear {
      MulAtLeastOne(s.memIncFactor, if capacity > 0 then capacity else 1);
    }
  }

  lemma MulAtLeastOne(f: nat, x: nat)
    requires 1 <= f
    ensures x <= f * x && (x == 0 || f <= f * x)
  {
    if x > 0 {
      assert f * x == f * (x - 1) + f;
      assert f * x == (f - 1) * x + x;
    }
  }

  /** LINEAR with factor one doubles a non-empty capacity once it exceeds the minimum increment. */
  lemma LinearDoubles(minMemInc: nat, capacity: nat)
    requires 1 <= minMemInc <= capacity
    ensures GetNewCapacity(MemIncreaseStrategy(Linear, minMemInc, 1), capacity) == 2 * capacity
  {
  }

  // ---------------------------------------------------------------------------
  // The stack array
  // ---------------------------------------------------------------------------

  class DynamicStackArray<E> {
    /** The slots; its length is `m_capacity`. */
    var data: array<E>
    var size: nat
    const maxIndex: nat
    const strategy: MemIncreaseStrategy
    /** The value a default-constructed element has. */
    const dflt: E

    ghost predicate Valid()
      reads this
    {
      size <= data.Length <= maxIndex && strategy.Valid()
    }

    /** The elements in use. */
    ghost function Contents(): seq<E>
      reads this, data
      requires Valid()
    {
      data[..size]
    }

    /** The basic constructor: no memory, no elements. */
    constructor (strategy: MemIncreaseStrategy, maxIndex: nat, dflt: E)
      requires strategy.Valid()
      ensures Valid() && data.Length == 0 && size == 0
      ensures this.strategy == strategy && this.maxIndex == maxIndex && this.dflt == dflt
    {
      this.strategy := strategy;
      this.maxIndex := maxIndex;
      this.dflt := dflt;
      data := new E[0];
      size := 0;
    }

    /**
     * `reallocate`: refuses to grow an array already at the index type's maximum;
     * otherwise moves to `min(newCapacity, maxIndex)` slots, keeping the common
     * prefix and, when growing, default-constructing the new slots.
     */
    method Reallocate(newCapacity: nat, isInc: bool) returns (r: Result<()>)
      requires Valid() && size <= Min(newCapacity, maxIndex)
      requires !(isInc && data.Length == maxIndex) ==> data.Length != Min(newCapacity, maxIndex)
      modifies this
      ensures Valid() && size == old(size)
      ensures r.Err? <==> isInc && old(data.Length) == maxIndex
      ensures r.Err? ==> data == old(data)
      ensures r.Ok? ==> fresh(data) && data.Length == Min(newCapacity, maxIndex)
      ensures r.Ok? ==> data[..Min(old(data.Length), data.Length)] == old(data[..])[..Min(old(data.Length), data.Length)]
      ensures r.Ok? && isInc ==> forall k :: old(data.Length) <= k < data.Length ==> data[k] == dflt
    {
      if isInc && data.Length == maxIndex {
        return Err(CAPACITY_OVERFLOW_ERROR);
      }
      var cap := Min(newCapacity, maxIndex);
      var keep := Min(data.Length, cap);
      var moved := new E[cap](_ => dflt);
      for k := 0 to keep
        modifies moved
        invariant moved[..k] == data[..k]
        invariant forall j :: keep <= j < cap ==> moved[j] == dflt
      {
        moved[k] := data[k];
      }
      if isInc {
        var k := data.Length;
        while k < cap
          modifies moved
          invariant moved[..keep] == data[..keep]
          invariant forall j :: data.Length <= j < k && j < cap ==> moved[j] == dflt
        {
          moved[k] := dflt;
          k := k + 1;
        }
      }
      data := moved;
      r := Ok(());
    }

    /** `pre_allocate`: grows the capacity to `capacity` when it is larger; never shrinks. */
    method PreAllocate(capacity: nat)
      requires Valid() && capacity <= maxIndex
      modifies this
      ensures Valid() && size == old(size)
      ensures data.Length == Max(old(data.Length), capacity)
      ensures data[..old(size)] == old(data[..size])
    {
      if capacity > data.Length {
        var r := Reallocate(capacity, true);
      }
    }

    /**
     * `allocate`: a full array first grows by the strategy; the new element is the
     * slot at the old size, and the size goes up by one. At the index type's
     * maximum capacity a full array cannot grow and the call fails.
     */
    method Allocate() returns (r: Result<nat>)
      requires Valid()
      modifies this
      ensures Valid()
      ensures r.Err? <==> old(size) == old(data.Length) == maxIndex
      ensures r.Err? ==> size == old(size) && data == old(data)
      ensures r.Ok? ==> r.value == old(size) && size == old(size) + 1
      ensures r.Ok? ==> data[..old(size)] == old(data[..size])
      ensures r.Ok? && old(size) == old(data.Length) ==> data.Length == Min(GetNewCapacity(strategy, old(data.Length)), maxIndex)
      ensures r.Ok? && old(size) < old(data.Length) ==> data == old(data)
    {
      if size == data.Length {
        var newCapacity := GetNewCapacity(strategy, data.Length);
        var g := Reallocate(newCapacity, true);
        if g.Err? {
          return Err(g.msg);
        }
      }
      r := Ok(size);
      size := size + 1;
    }

    /** `shrink`: releases the unused slots, so that the capacity equals the size. */
    method Shrink()
      requires Valid()
      modifies this
      ensures Valid() && size == old(size) && data.Length == size
      ensures data[..size] == old(data[..size])
    {
      if size < data.Length {
        var r := Reallocate(size, false);
      }
    }

    /** `operator[]`: the element at `idx`, which must be below the size. */
    function At(idx: nat): (e: E)
      reads this, data
      requires Valid() && idx < size
      ensures e == Contents()[idx]
    {
      data[idx]
    }
  }
}
