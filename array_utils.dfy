/**
 * The sort and the binary search the array tries call (`my_sort`, `my_bsearch_id`).
 * Their own source file is not part of this model: the sort is an insertion sort
 * by a key, the search a binary search over an inclusive index range, each with
 * the contract its callers rely on. Elements are compared through an integer key.
 */
module ArrayUtils {

  /** The keys do not decrease over `s[lo..hi]`. */
  ghost predicate SortedIn<T>(s: seq<T>, key: T -> int, lo: int, hi: int)
  {
    forall i, j :: lo <= i < j < hi && 0 <= i && j < |s| ==> key(s[i]) <= key(s[j])
  }

  ghost predicate SortedBy<T>(s: seq<T>, key: T -> int)
  {
    SortedIn(s, key, 0, |s|)
  }

  /** Places `x` before the first element with a larger key. */
  function InsertBy<T>(s: seq<T>, x: T, key: T -> int): (t: seq<T>)
    ensures |t| == |s| + 1
    ensures multiset(t) == multiset(s) + multiset{x}
  {
    if s == [] || key(x) < key(s[0]) then
      [x] + s
    else
      assert s == [s[0]] + s[1..];
      [s[0]] + InsertBy(s[1..], x, key)
  }

  /** `my_sort`: the elements in the order of their keys. */
  function SortBy<T>(s: seq<T>, key: T -> int): (t: seq<T>)
    ensures |t| == |s|
    ensures multiset(t) == multiset(s)
  {
    if s == [] then []
    else
      assert s == s[..|s| - 1] + [s[|s| - 1]];
      InsertBy(SortBy(s[..|s| - 1], key), s[|s| - 1], key)
  }

  lemma {:induction false} InsertBySorted<T>(s: seq<T>, x: T, key: T -> int)
    requires SortedBy(s, key)
    ensures SortedBy(InsertBy(s, x, key), key)
    decreases |s|
  {
    if s != [] && key(x) >= key(s[0]) {
      InsertBySorted(s[1..], x, key);
      var r := InsertBy(s[1..], x, key);
      forall j | 0 <= j < |r|
        ensures key(s[0]) <= key(r[j])
      {
        assert r[j] in multiset(r);
        if r[j] != x {
          assert r[j] in multiset(s[1..]);
          var k :| 0 <= k < |s[1..]| && s[1..][k] == r[j];
          assert s[k + 1] == r[j];
        }
      }
      var t := [s[0]] + r;
      forall i, j | 0 <= i < j < |t|
        ensures key(t[i]) <= key(t[j])
      {
        if i > 0 {
          assert t[i] == r[i - 1] && t[j] == r[j - 1];
        } else {
          assert t[j] == r[j - 1];
        }
      }
    }
  }

  /** The sort yields its input sorted by key. */
  lemma {:induction false} SortBySorted<T>(s: seq<T>, key: T -> int)
    ensures SortedBy(SortBy(s, key), key)
  {
    if s != [] {
      SortBySorted(s[..|s| - 1], key);
      InsertBySorted(SortBy(s[..|s| - 1], key), s[|s| - 1], key);
    }
  }

  /**
   * `my_bsearch_id`: searches `s[lo..hi]`, both ends included, for an element with
   * key `k`; on success `idx` is its index. An empty range (`hi == lo - 1`) holds none.
   */
  method BSearchBy<T>(s: seq<T>, key: T -> int, lo: nat, hi: int, k: int) returns (found: bool, idx: nat)
    requires lo <= hi + 1 <= |s| && SortedIn(s, key, lo, hi + 1)
    ensures found <==> exists j :: lo <= j <= hi && key(s[j]) == k
    ensures found ==> lo <= idx <= hi && key(s[idx]) == k
  {
    var l: int, u: int := lo, hi;
    while l <= u
      invariant lo <= l && u <= hi && l <= u + 1
      invariant forall j :: lo <= j < l ==> key(s[j]) < k
      invariant forall j :: u < j <= hi ==> k < key(s[j])
      decreases u - l
    {
      var mid := (l + u) / 2;
      var km := key(s[mid]);
      if km < k {
        l := mid + 1;
      } else if k < km {
        u := mid - 1;
      } else {
        return true, mid;
      }
    }
    return false, 0;
  }
}
