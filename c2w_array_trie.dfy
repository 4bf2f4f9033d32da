/**
 * The context-to-word array trie (`C2WArrayTrie`). On every level 1 < M < N the
 * M-grams are stored in one array in the order they are added, and each context id
 * of the level below refers to the inclusive index range of the M-grams in that
 * context; the array index of an M-gram is the context id of the level above.
 * The N-grams are stored in one array of (word id, context id, probability) entries.
 * After a level is read, every context's range is sorted by word id and the
 * N-gram array by (word id, context id), so that look-ups can binary-search them.
 *
 * The trie relies on the M-grams of one context arriving one after another, as they
 * do in an ARPA file; under that order the context ranges stay disjoint.
 */
module C2WArrayTries {
  import opened Wrappers
  import opened ArrayUtils
  import opened Payloads

  /** The begin index of a context that has no M-grams yet. */
  const UNDEFINED_ARR_IDX: nat := 0
  /** The first array index, and so the first context id, handed out. */
  const FIRST_VALID_CTX_ID: nat := 1
  const M_GRAM_LEVEL_1: nat := 1
  const M_GRAM_LEVEL_2: nat := 2

  /** `TWordIdPBData`: the end word id of an M-gram and its payload. */
  datatype WordIdPBData = WordIdPBData(id: ShortId, payload: Payload)

  /** `TCtxIdProbData`: the end word id of an N-gram, its context id and its probability. */
  datatype CtxIdProbData = CtxIdProbData(wordId: ShortId, ctxId: ShortId, prob: int)

  /** `TSubArrReference`: the first and last index of a context's M-grams. */
  datatype SubArrRef = SubArrRef(beginIdx: nat, endIdx: nat)

  /** The key of the `operator<` of the M-gram entries: the word id. */
  function WordIdOf(e: WordIdPBData): int
  {
    e.id
  }

  // ---------------------------------------------------------------------------
  // The order of the N-gram entries
  // ---------------------------------------------------------------------------

  /** `compare`: -1, 0 or +1 as the (word id, context id) pair of `one` is before, equal to or after that of `two`. */
  function Compare(one: CtxIdProbData, two: CtxIdProbData): (r: int)
    ensures r == -1 || r == 0 || r == 1
  {
    if one.wordId < two.wordId then -1
    else if one.wordId == two.wordId then
      if one.ctxId < two.ctxId then -1
      else if one.ctxId == two.ctxId then 0
      else 1
    else 1
  }

  predicate Less(one: CtxIdProbData, two: CtxIdProbData) { Compare(one, two) < 0 }
  predicate Greater(one: CtxIdProbData, two: CtxIdProbData) { Compare(one, two) > 0 }
  predicate Equal(one: CtxIdProbData, two: CtxIdProbData) { Compare(one, two) == 0 }

  /** The two ids packed into one 64-bit key, the word id in the high half. */
  function NKey(e: CtxIdProbData): (k: int)
    ensures 0 <= k < TWO64
  {
    e.wordId * TWO32 + e.ctxId
  }

  /** A packed key that is larger in the high half is larger, whatever the low halves. */
  lemma HighHalfDecides(w1: ShortId, c1: ShortId, w2: ShortId, c2: ShortId)
    requires w1 < w2
    ensures w1 * TWO32 + c1 < w2 * TWO32 + c2
  {
    assert (w1 + 1) * TWO32 <= w2 * TWO32;
  }

  /**
   * `compare` is the order of the packed keys: it gives -1, 0 or +1 exactly as the
   * key of `one` is smaller than, equal to or larger than the key of `two`.
   */
  lemma CompareIsKeyOrder(one: CtxIdProbData, two: CtxIdProbData)
    ensures Compare(one, two) == -1 <==> NKey(one) < NKey(two)
    ensures Compare(one, two) == 0 <==> NKey(one) == NKey(two)
    ensures Compare(one, two) == 1 <==> NKey(one) > NKey(two)
  {
    if one.wordId < two.wordId {
      HighHalfDecides(one.wordId, one.ctxId, two.wordId, two.ctxId);
    } else if two.wordId < one.wordId {
      HighHalfDecides(two.wordId, two.ctxId, one.wordId, one.ctxId);
    }
  }

  /** The same key means the same word id and context id. */
  lemma KeyDecidesIds(one: CtxIdProbData, two: CtxIdProbData)
    requires NKey(one) == NKey(two)
    ensures one.wordId == two.wordId && one.ctxId == two.ctxId
  {
    CompareIsKeyOrder(one, two);
  }

  /** `<`, `>` and `==` agree with `compare`: exactly one holds, and `<` is `>` swapped. */
  lemma OperatorsAgree(one: CtxIdProbData, two: CtxIdProbData)
    ensures Less(one, two) != Greater(one, two) || Equal(one, two)
    ensures !(Equal(one, two) && (Less(one, two) || Greater(one, two)))
    ensures Less(one, two) <==> Greater(two, one)
    ensures Equal(one, two) <==> Equal(two, one)
    ensures Equal(one, two) <==> one.wordId == two.wordId && one.ctxId == two.ctxId
  {
    CompareIsKeyOrder(one, two);
    CompareIsKeyOrder(two, one);
  }

  // ---------------------------------------------------------------------------
  // The context ranges of one M-gram level
  // ---------------------------------------------------------------------------

  predicate Defined(r: SubArrRef)
  {
    r.beginIdx != UNDEFINED_ARR_IDX
  }

  /**
   * The ranges of the contexts with M-grams lie between the first valid index and
   * the next free one, and no two of them share an index.
   */
  ghost predicate Disjoint(refs: seq<SubArrRef>, next: nat)
  {
    && (forall c :: 0 <= c < |refs| && Defined(refs[c]) ==>
          FIRST_VALID_CTX_ID <= refs[c].beginIdx <= refs[c].endIdx < next)
    && (forall c, d :: 0 <= c < |refs| && 0 <= d < |refs| && c != d && Defined(refs[c]) && Defined(refs[d]) ==>
          refs[c].endIdx < refs[d].beginIdx || refs[d].endIdx < refs[c].beginIdx)
  }

  /** The order the trie relies on: the context has no M-grams yet, or its last one was the latest added. */
  predicate InOrder(refs: seq<SubArrRef>, next: nat, ctxId: nat)
    requires ctxId < |refs|
  {
    !Defined(refs[ctxId]) || refs[ctxId].endIdx + 1 == next
  }

  /** The range of a context after an M-gram in it is stored at index `next`. */
  function AddedRef(r: SubArrRef, next: nat): (r': SubArrRef)
    ensures r'.endIdx == next
  {
    SubArrRef(if Defined(r) then r.beginIdx else next, next)
  }

  /** Adding an M-gram in the order the trie relies on keeps the ranges disjoint. */
  lemma AddKeepsDisjoint(refs: seq<SubArrRef>, next: nat, ctxId: nat)
    requires Disjoint(refs, next) && FIRST_VALID_CTX_ID <= next && ctxId < |refs| && InOrder(refs, next, ctxId)
    ensures Disjoint(refs[ctxId := AddedRef(refs[ctxId], next)], next + 1)
  {
    var refs' := refs[ctxId := AddedRef(refs[ctxId], next)];
    forall c, d | 0 <= c < |refs'| && 0 <= d < |refs'| && c != d && Defined(refs'[c]) && Defined(refs'[d])
      ensures refs'[c].endIdx < refs'[d].beginIdx || refs'[d].endIdx < refs'[c].beginIdx
    {
      if c != ctxId && d != ctxId {
        assert refs'[c] == refs[c] && refs'[d] == refs[d];
      }
    }
  }

  /** `s` with its inclusive range `b..e` sorted by word id. */
  function SortRange(s: seq<WordIdPBData>, b: nat, e: nat): (t: seq<WordIdPBData>)
    requires b <= e < |s|
    ensures |t| == |s|
  {
    s[..b] + SortBy(s[b..e + 1], WordIdOf) + s[e + 1..]
  }

  /** Sorting a range changes nothing outside it, and leaves it sorted with the same entries. */
  lemma SortRangeEffect(s: seq<WordIdPBData>, b: nat, e: nat)
    requires b <= e < |s|
    ensures forall k :: 0 <= k < |s| && (k < b || e < k) ==> SortRange(s, b, e)[k] == s[k]
    ensures SortRange(s, b, e)[b..e + 1] == SortBy(s[b..e + 1], WordIdOf)
  {
    var t := SortRange(s, b, e);
    var m := SortBy(s[b..e + 1], WordIdOf);
    assert t == s[..b] + m + s[e + 1..];
    forall k | 0 <= k < |s| && (k < b || e < k)
      ensures t[k] == s[k]
    {
      if k < b {
        assert t[k] == s[..b][k];
      } else {
        assert t[k] == s[e + 1..][k - e - 1];
      }
    }
    assert t[b..e + 1] == m;
  }

  /** `n` contexts none of which has M-grams yet. */
  function NoRanges(n: nat): (refs: seq<SubArrRef>)
    ensures |refs| == n && forall c :: 0 <= c < n ==> !Defined(refs[c])
  {
    seq(n, _ => SubArrRef(UNDEFINED_ARR_IDX, UNDEFINED_ARR_IDX))
  }

  /**
   * The context ranges of the M-gram levels 2 .. N - 1 right after allocation: one per
   * word on the level 2, one per context id of the level below on the higher levels,
   * none with M-grams.
   */
  function EmptyRanges(numWordIds: nat, mCounts: seq<nat>): (refs: seq<seq<SubArrRef>>)
    ensures |refs| == |mCounts|
    ensures forall l :: 0 <= l < |refs| ==>
              |refs[l]| == (if l == 0 then numWordIds else mCounts[l - 1] + FIRST_VALID_CTX_ID)
    ensures forall l, c :: 0 <= l < |refs| && 0 <= c < |refs[l]| ==> !Defined(refs[l][c])
    ensures forall l :: 0 <= l < |refs| ==> Disjoint(refs[l], FIRST_VALID_CTX_ID)
  {
    var refs := seq(|mCounts|, l requires 0 <= l < |mCounts| =>
                    NoRanges(if l == 0 then numWordIds else mCounts[l - 1] + FIRST_VALID_CTX_ID));
    assert forall l :: 0 <= l < |refs| ==> Disjoint(refs[l], FIRST_VALID_CTX_ID);
    refs
  }

  /** Indices outside every range with M-grams. */
  ghost predicate OutsideRanges(refs: seq<SubArrRef>, k: nat)
  {
    forall c :: 0 <= c < |refs| && Defined(refs[c]) ==> k < refs[c].beginIdx || refs[c].endIdx < k
  }

  /** The sorted copy of one context's entries. */
  function SortPiece(s: seq<WordIdPBData>): (t: seq<WordIdPBData>)
    ensures |t| == |s|
  {
    SortBy(s, WordIdOf)
  }

  /**
   * `sorted` is `data` with the range of every context that has M-grams sorted by
   * word id, and every entry outside the ranges in its place.
   */
  ghost predicate PostedLevel(refs: seq<SubArrRef>, data: seq<WordIdPBData>, sorted: seq<WordIdPBData>)
  {
    && |sorted| == |data|
    && (forall c :: 0 <= c < |refs| && Defined(refs[c]) && refs[c].beginIdx <= refs[c].endIdx < |data| ==>
          sorted[refs[c].beginIdx..refs[c].endIdx + 1] == SortBy(data[refs[c].beginIdx..refs[c].endIdx + 1], WordIdOf))
    && (forall k :: 0 <= k < |data| && OutsideRanges(refs, k) ==> sorted[k] == data[k])
  }

  /**
   * `post_m_grams` on one level: every context with M-grams has its range sorted by
   * word id; the entries outside the ranges stay where they are.
   */
  method PostMGramLevel(refs: seq<SubArrRef>, data: seq<WordIdPBData>, next: nat) returns (sorted: seq<WordIdPBData>)
    requires Disjoint(refs, next) && next <= |data|
    ensures PostedLevel(refs, data, sorted)
  {
    sorted := data;
    for ctxId := 0 to |refs|
      invariant |sorted| == |data|
      invariant forall c :: 0 <= c < ctxId && Defined(refs[c]) ==>
                  sorted[refs[c].beginIdx..refs[c].endIdx + 1] == SortPiece(data[refs[c].beginIdx..refs[c].endIdx + 1])
      invariant forall c :: ctxId <= c < |refs| && Defined(refs[c]) ==>
                  sorted[refs[c].beginIdx..refs[c].endIdx + 1] == data[refs[c].beginIdx..refs[c].endIdx + 1]
      invariant forall k :: 0 <= k < |data| && OutsideRanges(refs, k) ==> sorted[k] == data[k]
    {
      var info := refs[ctxId];
      if info.beginIdx != UNDEFINED_ARR_IDX {
        var sorted' := SortRange(sorted, info.beginIdx, info.endIdx);
        PostStep(refs, data, next, sorted, ctxId, sorted', SortPiece);
        sorted := sorted';
      }
    }
  }

  /**
   * Replacing the range of context `ctxId` by `f` of it keeps the other contexts'
   * ranges and the rest; `f` stands for the sort.
   */
  lemma PostStep(refs: seq<SubArrRef>, data: seq<WordIdPBData>, next: nat, sorted: seq<WordIdPBData>,
                 ctxId: nat, sorted': seq<WordIdPBData>, f: seq<WordIdPBData> -> seq<WordIdPBData>)
    requires Disjoint(refs, next) && next <= |data| && |sorted| == |data|
    requires ctxId < |refs| && Defined(refs[ctxId])
    requires refs[ctxId].endIdx < |sorted| && |sorted'| == |sorted|
    requires sorted' == sorted[..refs[ctxId].beginIdx] + f(sorted[refs[ctxId].beginIdx..refs[ctxId].endIdx + 1])
                        + sorted[refs[ctxId].endIdx + 1..]
    requires forall c :: 0 <= c < ctxId && Defined(refs[c]) ==>
               sorted[refs[c].beginIdx..refs[c].endIdx + 1] == f(data[refs[c].beginIdx..refs[c].endIdx + 1])
    requires forall c :: ctxId <= c < |refs| && Defined(refs[c]) ==>
               sorted[refs[c].beginIdx..refs[c].endIdx + 1] == data[refs[c].beginIdx..refs[c].endIdx + 1]
    requires forall k :: 0 <= k < |data| && OutsideRanges(refs, k) ==> sorted[k] == data[k]
    ensures forall c :: 0 <= c <= ctxId && Defined(refs[c]) ==>
              sorted'[refs[c].beginIdx..refs[c].endIdx + 1] == f(data[refs[c].beginIdx..refs[c].endIdx + 1])
    ensures forall c :: ctxId < c < |refs| && Defined(refs[c]) ==>
              sorted'[refs[c].beginIdx..refs[c].endIdx + 1] == data[refs[c].beginIdx..refs[c].endIdx + 1]
    ensures forall k :: 0 <= k < |data| && OutsideRanges(refs, k) ==> sorted'[k] == data[k]
  {
    var b, e := refs[ctxId].beginIdx, refs[ctxId].endIdx;
    var m := f(sorted[b..e + 1]);
    assert |sorted'| == |sorted[..b]| + |m| + |sorted[e + 1..]|;
    forall k | 0 <= k < |sorted| && (k < b || e < k)
      ensures sorted'[k] == sorted[k]
    {
      if k < b {
        assert sorted'[k] == sorted[..b][k];
      } else {
        assert sorted'[k] == sorted[e + 1..][k - b - |m|];
      }
    }
    assert sorted'[b..e + 1] == m;
    OthersKept(refs, next, sorted, ctxId, sorted');
    assert sorted[b..e + 1] == data[b..e + 1];
  }

  /** Sorting the range of context `ctxId` keeps every other context's range. */
  lemma OthersKept(refs: seq<SubArrRef>, next: nat, sorted: seq<WordIdPBData>, ctxId: nat, sorted': seq<WordIdPBData>)
    requires Disjoint(refs, next) && next <= |sorted| && |sorted'| == |sorted|
    requires ctxId < |refs| && Defined(refs[ctxId])
    requires forall k :: 0 <= k < |sorted| && (k < refs[ctxId].beginIdx || refs[ctxId].endIdx < k) ==> sorted'[k] == sorted[k]
    ensures forall c :: 0 <= c < |refs| && c != ctxId && Defined(refs[c]) ==>
              sorted'[refs[c].beginIdx..refs[c].endIdx + 1] == sorted[refs[c].beginIdx..refs[c].endIdx + 1]
  {
    forall c | 0 <= c < |refs| && c != ctxId && Defined(refs[c])
      ensures sorted'[refs[c].beginIdx..refs[c].endIdx + 1] == sorted[refs[c].beginIdx..refs[c].endIdx + 1]
    {
      OtherRangeKept(sorted, sorted', refs[ctxId].beginIdx, refs[ctxId].endIdx, refs[c].beginIdx, refs[c].endIdx);
    }
  }

  /** A range disjoint from the sorted one keeps its entries. */
  lemma OtherRangeKept(s: seq<WordIdPBData>, t: seq<WordIdPBData>, b: nat, e: nat, bc: nat, ec: nat)
    requires |s| == |t| && bc <= ec < |s| && (ec < b || e < bc)
    requires forall k :: 0 <= k < |s| && (k < b || e < k) ==> t[k] == s[k]
    ensures t[bc..ec + 1] == s[bc..ec + 1]
  {
  }

  /** After post-processing, the range of a context is sorted by word id. */
  lemma PostedRangeSorted(data: seq<WordIdPBData>, sorted: seq<WordIdPBData>, b: nat, e: nat)
    requires b <= e < |data| == |sorted| && sorted[b..e + 1] == SortBy(data[b..e + 1], WordIdOf)
    ensures SortedIn(sorted, WordIdOf, b, e + 1)
  {
    SortBySorted(data[b..e + 1], WordIdOf);
    forall i, j | b <= i < j < e + 1
      ensures WordIdOf(sorted[i]) <= WordIdOf(sorted[j])
    {
      assert sorted[i] == sorted[b..e + 1][i - b] && sorted[j] == sorted[b..e + 1][j - b];
    }
  }

  /** Some M-gram in the inclusive range `b..e` ends in `wordId`. */
  ghost predicate HasWordIn(s: seq<WordIdPBData>, b: nat, e: nat, wordId: nat)
  {
    exists j :: b <= j <= e && j < |s| && s[j].id == wordId
  }

  /** Sorting a range keeps the word ids it holds. */
  lemma SortKeepsWords(data: seq<WordIdPBData>, sorted: seq<WordIdPBData>, b: nat, e: nat, wordId: nat)
    requires b <= e < |data| == |sorted| && sorted[b..e + 1] == SortBy(data[b..e + 1], WordIdOf)
    ensures HasWordIn(sorted, b, e, wordId) <==> HasWordIn(data, b, e, wordId)
  {
    if HasWordIn(data, b, e, wordId) {
      var j :| b <= j <= e && j < |data| && data[j].id == wordId;
      InRange(data, b, e, j);
      var i := InMultiset(sorted, b, e, data[j]);
    }
    if HasWordIn(sorted, b, e, wordId) {
      var j :| b <= j <= e && j < |sorted| && sorted[j].id == wordId;
      InRange(sorted, b, e, j);
      var i := InMultiset(data, b, e, sorted[j]);
    }
  }

  /** An entry of the range `b..e` is in the multiset of the range. */
  lemma InRange(s: seq<WordIdPBData>, b: nat, e: nat, j: nat)
    requires b <= j <= e < |s|
    ensures s[j] in multiset(s[b..e + 1])
  {
    assert s[b..e + 1][j - b] == s[j];
  }

  /** An entry in the multiset of the range `b..e` is at some index of the range. */
  lemma InMultiset(s: seq<WordIdPBData>, b: nat, e: nat, x: WordIdPBData) returns (i: nat)
    requires b <= e < |s| && x in multiset(s[b..e + 1])
    ensures b <= i <= e && s[i] == x
  {
    assert x in s[b..e + 1];
    var k :| 0 <= k < e + 1 - b && s[b..e + 1][k] == x;
    i := b + k;
  }

  /**
   * `get_ctx_id` on one level: when the context has M-grams, binary-searches its
   * range for the word id; the index found is the next context id.
   */
  method GetCtxIdIn(refs: seq<SubArrRef>, data: seq<WordIdPBData>, wordId: ShortId, ctxId: nat)
    returns (found: bool, nextCtxId: nat)
    requires ctxId < |refs|
    requires Defined(refs[ctxId]) ==> refs[ctxId].beginIdx <= refs[ctxId].endIdx < |data|
    requires Defined(refs[ctxId]) ==> SortedIn(data, WordIdOf, refs[ctxId].beginIdx, refs[ctxId].endIdx + 1)
    ensures found <==> Defined(refs[ctxId]) && HasWordIn(data, refs[ctxId].beginIdx, refs[ctxId].endIdx, wordId)
    ensures found ==> refs[ctxId].beginIdx <= nextCtxId <= refs[ctxId].endIdx && data[nextCtxId].id == wordId
    ensures !found ==> nextCtxId == ctxId
  {
    var ref := refs[ctxId];
    if ref.beginIdx != UNDEFINED_ARR_IDX {
      var idx;
      found, idx := BSearchBy(data, WordIdOf, ref.beginIdx, ref.endIdx, wordId);
      if found {
        return true, idx;
      }
    }
    return false, ctxId;
  }

  // ---------------------------------------------------------------------------
  // The trie
  // ---------------------------------------------------------------------------

  class C2WArrayTrie {
    /** The number of word ids, the size of the unigram array. */
    const numWordIds: nat
    /** The maximum level N. */
    const maxLevel: nat
    /** `m_1_gram_data`: the payload of every word. */
    var oneGrams: seq<Payload>
    /** `m_m_gram_ctx_2_data`: for the levels 1 < M < N, the range of every context id of the level below. */
    var ctxRefs: seq<seq<SubArrRef>>
    /** `m_m_gram_data`: for the levels 1 < M < N, the M-gram entries. */
    var mData: seq<seq<WordIdPBData>>
    /** `m_n_gram_data`: the N-gram entries. */
    var nData: seq<CtxIdProbData>
    /** `m_m_n_gram_next_ctx_id`: the next free index of every level 1 < M <= N, the N-gram level last. */
    var nextIds: seq<nat>

    ghost predicate Valid()
      reads this
    {
      && M_GRAM_LEVEL_2 <= maxLevel
      && |oneGrams| == numWordIds
      && |ctxRefs| == maxLevel - M_GRAM_LEVEL_2 && |mData| == maxLevel - M_GRAM_LEVEL_2
      && |nextIds| == maxLevel - M_GRAM_LEVEL_1
      && (forall l :: 0 <= l < |ctxRefs| ==>
            FIRST_VALID_CTX_ID <= nextIds[l] <= |mData[l]| && Disjoint(ctxRefs[l], nextIds[l]))
      && FIRST_VALID_CTX_ID <= nextIds[|nextIds| - 1] <= |nData|
    }

    /** The index of the N-gram level in `nextIds`. */
    function NIdx(): nat
      reads this
      requires Valid()
    {
      |nextIds| - 1
    }

    /**
     * A trie sized for `mCounts[l]` M-grams on the level `l + 2` and `nCount` N-grams:
     * the level 2 has a range per word, every higher level one per context id of the
     * level below; no context has M-grams yet, and every counter is at the first index.
     */
    constructor (numWordIds: nat, maxLevel: nat, mCounts: seq<nat>, nCount: nat, unk: Payload)
      requires M_GRAM_LEVEL_2 <= maxLevel && |mCounts| == maxLevel - M_GRAM_LEVEL_2
      ensures Valid() && this.numWordIds == numWordIds && this.maxLevel == maxLevel
      ensures oneGrams == seq(numWordIds, _ => unk)
      ensures forall l :: 0 <= l < |ctxRefs| ==> |mData[l]| == mCounts[l] + FIRST_VALID_CTX_ID
      ensures forall l :: 0 <= l < |ctxRefs| ==> |ctxRefs[l]| == if l == 0 then numWordIds else mCounts[l - 1] + FIRST_VALID_CTX_ID
      ensures forall l, c :: 0 <= l < |ctxRefs| && 0 <= c < |ctxRefs[l]| ==> !Defined(ctxRefs[l][c])
      ensures |nData| == nCount + FIRST_VALID_CTX_ID
      ensures forall l :: 0 <= l < |nextIds| ==> nextIds[l] == FIRST_VALID_CTX_ID
    {
      this.numWordIds := numWordIds;
      this.maxLevel := maxLevel;
      oneGrams := seq(numWordIds, _ => unk);
      var numLevels := maxLevel - M_GRAM_LEVEL_2;
      ctxRefs := EmptyRanges(numWordIds, mCounts);
      mData := seq(numLevels, l requires 0 <= l < numLevels =>
                   seq(mCounts[l] + FIRST_VALID_CTX_ID, _ => WordIdPBData(0, unk)));
      nData := seq(nCount + FIRST_VALID_CTX_ID, _ => CtxIdProbData(0, 0, unk.prob));
      nextIds := seq(maxLevel - M_GRAM_LEVEL_1, _ => FIRST_VALID_CTX_ID);
    }

    /** `add_m_gram` of a unigram: stores its payload. */
    method AddUniGram(wordId: nat, payload: Payload)
      requires Valid() && wordId < numWordIds
      modifies this
      ensures Valid() && oneGrams == old(oneGrams)[wordId := payload]
      ensures ctxRefs == old(ctxRefs) && mData == old(mData) && nData == old(nData) && nextIds == old(nextIds)
    {
      oneGrams := oneGrams[wordId := payload];
    }

    /**
     * `add_m_gram` of an M-gram of level `l + 2` < N in context `ctxId`: its index is
     * the level's counter, which goes up by one; the index becomes the end of the
     * context's range, and its begin when the context had no M-grams yet.
     */
    method AddMGram(l: nat, wordId: ShortId, ctxId: nat, payload: Payload)
      requires Valid() && l < |ctxRefs| && ctxId < |ctxRefs[l]| && nextIds[l] < |mData[l]|
      requires InOrder(ctxRefs[l], nextIds[l], ctxId)
      modifies this
      ensures Valid()
      ensures ctxRefs == old(ctxRefs)[l := old(ctxRefs)[l][ctxId := AddedRef(old(ctxRefs)[l][ctxId], old(nextIds)[l])]]
      ensures mData == old(mData)[l := old(mData)[l][old(nextIds)[l] := WordIdPBData(wordId, payload)]]
      ensures nextIds == old(nextIds)[l := old(nextIds)[l] + 1]
      ensures oneGrams == old(oneGrams) && nData == old(nData)
    {
      var idx := nextIds[l];
      AddKeepsDisjoint(ctxRefs[l], idx, ctxId);
      nextIds := nextIds[l := idx + 1];
      ctxRefs := ctxRefs[l := ctxRefs[l][ctxId := AddedRef(ctxRefs[l][ctxId], idx)]];
      mData := mData[l := mData[l][idx := WordIdPBData(wordId, payload)]];
    }

    /** `add_m_gram` of an N-gram: stored with its context id and word id at the N-gram counter, which goes up by one. */
    method AddNGram(wordId: ShortId, ctxId: ShortId, payload: Payload)
      requires Valid() && nextIds[NIdx()] < |nData|
      modifies this
      ensures Valid()
      ensures nData == old(nData)[old(nextIds)[old(NIdx())] := CtxIdProbData(wordId, ctxId, payload.prob)]
      ensures nextIds == old(nextIds)[old(NIdx()) := old(nextIds)[old(NIdx())] + 1]
      ensures oneGrams == old(oneGrams) && ctxRefs == old(ctxRefs) && mData == old(mData)
    {
      var n := NIdx();
      var idx := nextIds[n];
      nData := nData[idx := CtxIdProbData(wordId, ctxId, payload.prob)];
      nextIds := nextIds[n := idx + 1];
    }

    /** `post_m_grams` of the level `l + 2`: sorts every context's range by word id. */
    method PostMGrams(l: nat)
      requires Valid() && l < |ctxRefs|
      modifies this
      ensures Valid()
      ensures mData == old(mData)[l := mData[l]] && |mData[l]| == |old(mData)[l]|
      ensures PostedLevel(ctxRefs[l], old(mData)[l], mData[l])
      ensures oneGrams == old(oneGrams) && ctxRefs == old(ctxRefs) && nData == old(nData) && nextIds == old(nextIds)
    {
      var sorted := PostMGramLevel(ctxRefs[l], mData[l], nextIds[l]);
      SameSizesValid(ctxRefs, mData, mData[l := sorted], nextIds);
      mData := mData[l := sorted];
    }

    /** `post_n_grams`: sorts the N-gram array by (word id, context id). */
    method PostNGrams()
      requires Valid()
      modifies this
      ensures Valid() && nData == SortBy(old(nData), NKey)
      ensures oneGrams == old(oneGrams) && ctxRefs == old(ctxRefs) && mData == old(mData) && nextIds == old(nextIds)
    {
      nData := SortBy(nData, NKey);
    }

    /** `get_ctx_id` on the level `l + 2` < N: the index of the M-gram of `wordId` in context `ctxId`. */
    method GetCtxId(l: nat, wordId: ShortId, ctxId: nat) returns (found: bool, nextCtxId: nat)
      requires Valid() && l < |ctxRefs| && ctxId < |ctxRefs[l]|
      requires Defined(ctxRefs[l][ctxId]) ==> SortedIn(mData[l], WordIdOf, ctxRefs[l][ctxId].beginIdx, ctxRefs[l][ctxId].endIdx + 1)
      ensures found <==> Defined(ctxRefs[l][ctxId]) && HasWordIn(mData[l], ctxRefs[l][ctxId].beginIdx, ctxRefs[l][ctxId].endIdx, wordId)
      ensures found ==> ctxRefs[l][ctxId].beginIdx <= nextCtxId <= ctxRefs[l][ctxId].endIdx && mData[l][nextCtxId].id == wordId
      ensures !found ==> nextCtxId == ctxId
    {
      found, nextCtxId := GetCtxIdIn(ctxRefs[l], mData[l], wordId, ctxId);
    }

    /** `get_m_gram_payload` once the context is known: the payload of the M-gram found and the next context id. */
    method GetMGramPayload(l: nat, wordId: ShortId, ctxId: nat) returns (r: Option<(Payload, nat)>)
      requires Valid() && l < |ctxRefs| && ctxId < |ctxRefs[l]|
      requires Defined(ctxRefs[l][ctxId]) ==> SortedIn(mData[l], WordIdOf, ctxRefs[l][ctxId].beginIdx, ctxRefs[l][ctxId].endIdx + 1)
      ensures r.Some? <==> Defined(ctxRefs[l][ctxId]) && HasWordIn(mData[l], ctxRefs[l][ctxId].beginIdx, ctxRefs[l][ctxId].endIdx, wordId)
      ensures r.Some? ==> var k := r.value.1;
                          ctxRefs[l][ctxId].beginIdx <= k <= ctxRefs[l][ctxId].endIdx
                          && mData[l][k] == WordIdPBData(wordId, r.value.0)
    {
      var found, nextCtxId := GetCtxId(l, wordId, ctxId);
      r := if found then Some((mData[l][nextCtxId].payload, nextCtxId)) else None;
    }

    /**
     * `get_n_gram_payload` once the context is known: binary-searches the N-gram
     * array from the first valid index for the (word id, context id) pair.
     */
    method GetNGramPayload(wordId: ShortId, ctxId: ShortId) returns (r: Option<int>)
      requires Valid() && SortedIn(nData, NKey, FIRST_VALID_CTX_ID, |nData|)
      ensures r.Some? <==> exists j :: FIRST_VALID_CTX_ID <= j < |nData| && nData[j].wordId == wordId && nData[j].ctxId == ctxId
      ensures r.Some? ==> exists j :: FIRST_VALID_CTX_ID <= j < |nData| && nData[j] == CtxIdProbData(wordId, ctxId, r.value)
    {
      var probe := CtxIdProbData(wordId, ctxId, 0);
      var found, idx := BSearchBy(nData, NKey, FIRST_VALID_CTX_ID, |nData| - 1, NKey(probe));
      if found {
        KeyDecidesIds(nData[idx], probe);
        r := Some(nData[idx].prob);
      } else {
        r := None;
      }
    }
  }

  /** Entries rewritten without changing any level's size keep the trie's counters and ranges valid. */
  lemma SameSizesValid(refs: seq<seq<SubArrRef>>, data: seq<seq<WordIdPBData>>, data': seq<seq<WordIdPBData>>, next: seq<nat>)
    requires |refs| == |data| == |data'| <= |next|
    requires forall l :: 0 <= l < |data| ==> |data'[l]| == |data[l]|
    requires forall l :: 0 <= l < |refs| ==> FIRST_VALID_CTX_ID <= next[l] <= |data[l]| && Disjoint(refs[l], next[l])
    ensures forall l :: 0 <= l < |refs| ==> FIRST_VALID_CTX_ID <= next[l] <= |data'[l]| && Disjoint(refs[l], next[l])
  {
  }

  /**
   * An M-gram added in context `ctxId` is found there once its level is post-processed:
   * its index joins the context's range, and sorting the range keeps its word id.
   */
  lemma AddedIsFound(refs: seq<SubArrRef>, data: seq<WordIdPBData>, next: nat, ctxId: nat,
                     wordId: ShortId, payload: Payload, sorted: seq<WordIdPBData>)
    requires Disjoint(refs, next) && FIRST_VALID_CTX_ID <= next < |data| && ctxId < |refs| && InOrder(refs, next, ctxId)
    requires var refs' := refs[ctxId := AddedRef(refs[ctxId], next)];
             var data' := data[next := WordIdPBData(wordId, payload)];
             |sorted| == |data'| &&
             sorted[refs'[ctxId].beginIdx..next + 1] == SortBy(data'[refs'[ctxId].beginIdx..next + 1], WordIdOf)
    ensures var r := AddedRef(refs[ctxId], next);
            Defined(r) && HasWordIn(sorted, r.beginIdx, r.endIdx, wordId)
  {
    var r := AddedRef(refs[ctxId], next);
    var data' := data[next := WordIdPBData(wordId, payload)];
    assert data'[next].id == wordId;
    SortKeepsWords(data', sorted, r.beginIdx, next, wordId);
  }
}
