/**
 * The bounded ordered list (`ordered_list`) that keeps the best elements seen so
 * far: elements are kept in non-increasing order of `<`, a new element is linked
 * in before the first element it is not smaller than, and when the list grows past
 * its capacity the last (smallest) element is dropped.
 *
 * The chain of nodes from `m_first` is modelled as the sequence `elems` of the keys
 * the elements compare by; a node is addressed by its position in the chain.
 */
module OrderedLists {
  import opened Wrappers

  /** The chain is in non-increasing order: no element is `<` a later one. */
  ghost predicate NonIncreasing(s: seq<int>)
  {
    forall i, j :: 0 <= i < j < |s| ==> s[j] <= s[i]
  }

  /** The position `add_elemenent` gives `e`: before the first element `e` is not `<`. */
  function InsertPos(s: seq<int>, e: int): (p: nat)
    ensures p <= |s|
    ensures forall k :: 0 <= k < p ==> e < s[k]
    ensures p < |s| ==> s[p] <= e
  {
    if s == [] || !(e < s[0]) then 0 else 1 + InsertPos(s[1..], e)
  }

  /** The chain with `e` linked in at its position. */
  function Insert(s: seq<int>, e: int): (t: seq<int>)
  {
    var p := InsertPos(s, e);
    s[..p] + [e] + s[p..]
  }

  /** `prune`'s effect: the last element is dropped when the chain is longer than `capacity`. */
  function Bounded(s: seq<int>, capacity: nat): (t: seq<int>)
  {
    if |s| > capacity then s[..|s| - 1] else s
  }

  // ---------------------------------------------------------------------------
  // Properties of an insertion
  // ---------------------------------------------------------------------------

  /** Insertion keeps the chain ordered. */
  lemma InsertKeepsOrder(s: seq<int>, e: int)
    requires NonIncreasing(s)
    ensures NonIncreasing(Insert(s, e))
  {
    var p := InsertPos(s, e);
    var t := Insert(s, e);
    forall i, j | 0 <= i < j < |t|
      ensures t[j] <= t[i]
    {
      if j < p {
      } else if j == p {
        assert e < s[i];
      } else if i < p {
        assert e < s[i];
        assert s[j - 1] <= s[i] || i == j - 1;
      } else if i == p {
        assert s[p] <= e;
        assert s[j - 1] <= s[p] || p == j - 1;
      } else {
        assert t[i] == s[i - 1] && t[j] == s[j - 1];
      }
    }
  }

  /** Insertion adds exactly `e`: the elements are those before plus one `e`. */
  lemma InsertAddsElement(s: seq<int>, e: int)
    ensures |Insert(s, e)| == |s| + 1
    ensures multiset(Insert(s, e)) == multiset(s) + multiset{e}
  {
    var p := InsertPos(s, e);
    assert s == s[..p] + s[p..];
  }

  /** The new element becomes the first one exactly when it is not `<` the current first one. */
  lemma InsertFirst(s: seq<int>, e: int)
    ensures Insert(s, e)[0] == e <== (s == [] || !(e < s[0]))
    ensures s != [] && e < s[0] ==> Insert(s, e)[0] == s[0]
  {
  }

  /** Dropping the tail keeps the order and the bound, and keeps a prefix of the chain. */
  lemma BoundedKeepsOrder(s: seq<int>, capacity: nat)
    requires NonIncreasing(s) && |s| <= capacity + 1
    ensures NonIncreasing(Bounded(s, capacity)) && |Bounded(s, capacity)| <= capacity
    ensures Bounded(s, capacity) == s[..|Bounded(s, capacity)|]
  {
  }

  /**
   * Two additions to a list of capacity 1: 5, then 3 (kept after 5 and pruned), then
   * 7 (linked in first, pushing 5 out).
   */
  lemma AddExample()
    ensures Bounded(Insert([5], 3), 1) == [5]
    ensures Bounded(Insert([5], 7), 1) == [7]
  {
    assert InsertPos([5], 3) == 1;
    assert InsertPos([5], 7) == 0;
  }

  // ---------------------------------------------------------------------------
  // The list
  // ---------------------------------------------------------------------------

  class OrderedList {
    const capacity: nat
    var size: nat
    var elems: seq<int>

    ghost predicate Valid()
      reads this
    {
      size == |elems| && size <= capacity && NonIncreasing(elems)
    }

    constructor (capacity: nat)
      ensures Valid() && this.capacity == capacity && elems == []
    {
      this.capacity := capacity;
      size := 0;
      elems := [];
    }

    /**
     * `add_elemenent`: the element goes first unless it is `<` the first one;
     * otherwise the walk moves on while it is `<` the next one and links it in
     * there. Either way the list is pruned back to its capacity.
     */
    method AddElement(e: int)
      requires Valid()
      modifies this
      ensures Valid()
      ensures elems == Bounded(Insert(old(elems), e), capacity)
    {
      if elems == [] {
        AddAsFirst(e);
      } else if e < elems[0] {
        var curr: nat := 0;
        var idx: nat := 1;
        while true
          invariant idx == curr + 1 && curr < |elems|
          invariant forall k :: 0 <= k <= curr ==> e < elems[k]
          decreases |elems| - curr
        {
          if curr + 1 < |elems| && e < elems[curr + 1] {
            curr := curr + 1;
            idx := idx + 1;
          } else {
            InsertPosIs(elems, e, idx);
            AddAfterThis(idx, e);
            return;
          }
        }
      } else {
        AddAsFirst(e);
      }
    }

    /** `add_after_this`: links `e` in after the node at `idx - 1`, counts it, and prunes. */
    method AddAfterThis(idx: nat, e: int)
      requires Valid() && 0 < idx <= |elems| && idx == InsertPos(elems, e)
      modifies this
      ensures Valid()
      ensures elems == Bounded(Insert(old(elems), e), capacity)
    {
      InsertKeepsOrder(elems, e);
      InsertAddsElement(elems, e);
      elems := elems[..idx] + [e] + elems[idx..];
      size := size + 1;
      Prune(idx);
    }

    /** `add_as_first`: links `e` in before the first node, counts it, and prunes. */
    method AddAsFirst(e: int)
      requires Valid() && (elems == [] || !(e < elems[0]))
      modifies this
      ensures Valid()
      ensures elems == Bounded(Insert(old(elems), e), capacity)
    {
      assert InsertPos(elems, e) == 0;
      assert Insert(elems, e) == [e] + elems;
      InsertKeepsOrder(elems, e);
      InsertAddsElement(elems, e);
      elems := [e] + elems;
      size := size + 1;
      Prune(0);
    }

    /**
     * `prune` with the walk stopping at the last node: when the size exceeds the
     * capacity (by one at most, a sanity check) the walk follows the links from the
     * new node to the last node, which is unlinked.
     */
    method Prune(idx: nat)
      requires size == |elems| && idx < size && size <= capacity + 1 && NonIncreasing(elems)
      modifies this
      ensures Valid()
      ensures elems == Bounded(old(elems), capacity)
    {
      BoundedKeepsOrder(elems, capacity);
      if size > capacity {
        var pos := idx;
        var node := NodeAt(elems, pos);
        while pos != size - 1
          invariant idx <= pos <= size - 1
          invariant node == NodeAt(elems, pos) && node.Some?
          decreases size - 1 - pos
        {
          node := NodeAt(elems, node.value + 1);
          pos := pos + 1;
        }
        elems := elems[..node.value];
        size := size - 1;
      }
    }

    /**
     * The walk of `prune` as written: it advances from the new node until the
     * index equals the size, one step past the last node, and then unlinks
     * through the node it stands on. Called, as `prune` walks, with the new node
     * at `idx` and one node too many; the node reached is returned, and there is none.
     */
    method PruneWalkAsWritten(idx: nat) returns (reached: Option<nat>)
      requires size == |elems| && idx < size && capacity < size
      ensures reached.None?
    {
      var pos := idx;
      reached := NodeAt(elems, pos);
      while pos != size
        invariant idx <= pos <= size
        invariant reached == NodeAt(elems, pos)
        decreases size - pos
      {
        reached := NodeAt(elems, reached.value + 1);
        pos := pos + 1;
      }
    }
  }

  /** The walk of `add_elemenent` stopped at `idx`: that is the insertion position. */
  lemma InsertPosIs(s: seq<int>, e: int, idx: nat)
    requires 0 < idx <= |s|
    requires forall k :: 0 <= k < idx ==> e < s[k]
    requires !(idx < |s| && e < s[idx])
    ensures InsertPos(s, e) == idx
  {
  }

  /** The node at position `k` of the chain, or none (a NULL link) past its end. */
  function NodeAt(s: seq<int>, k: nat): (n: Option<nat>)
    ensures n.Some? <==> k < |s|
  {
    if k < |s| then Some(k) else None
  }
}
