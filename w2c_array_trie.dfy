/**
 * The word-to-context array trie (`w2c_array_trie`). For every level 1 < M <= N
 * each word id owns an array of (context id, payload) entries: the M-grams ending
 * in that word. Once a level is read, every word's array is sorted by context id
 * and given a context index offset `cio`, the first of a block of fresh context ids
 * as long as the array; the M-gram found at local index `i` of word `w`'s array
 * then has the context id `cio[w] + i`, which the next level looks up.
 */
module W2CArrayTries {
  import opened Wrappers
  import opened ArrayUtils
  import opened Payloads

  /** The first context id handed out; 0 is kept for an undefined context. */
  const FIRST_VALID_CTX_ID: nat := 1
  const M_GRAM_LEVEL_1: nat := 1
  const M_GRAM_LEVEL_2: nat := 2

  /** `S_M_GramData`: the context id of an M-gram and its payload. */
  datatype MGramData<P> = MGramData(id: nat, payload: P)

  /** The key of the `operator<` of the entries: the context id. */
  function CtxIdOf<P>(e: MGramData<P>): int
  {
    e.id
  }

  /** Some entry of `s` has context id `ctxId`. */
  predicate HasCtx<P>(s: seq<MGramData<P>>, ctxId: nat)
  {
    exists k :: 0 <= k < |s| && s[k].id == ctxId
  }

  // ---------------------------------------------------------------------------
  // Context index offsets
  // ---------------------------------------------------------------------------

  /** The context index offset of word `w`: the first valid id plus the sizes of the words before it. */
  function Offset<P>(words: seq<seq<MGramData<P>>>, w: nat): (o: nat)
    requires w <= |words|
    ensures FIRST_VALID_CTX_ID <= o
  {
    if w == 0 then FIRST_VALID_CTX_ID else Offset(words, w - 1) + |words[w - 1]|
  }

  /** A later word's block starts after an earlier word's block ends. */
  lemma {:induction false} OffsetsGrow<P>(words: seq<seq<MGramData<P>>>, v: nat, w: nat)
    requires v < w <= |words|
    ensures Offset(words, v) + |words[v]| <= Offset(words, w)
    decreases w - v
  {
    if v + 1 < w {
      OffsetsGrow(words, v, w - 1);
    }
  }

  /**
   * The context ids of different words are disjoint: a context id `cio[w] + i` with
   * `i` a local index of `w` determines both the word and the local index.
   */
  lemma CtxIdsDisjoint<P>(words: seq<seq<MGramData<P>>>, v: nat, i: nat, w: nat, j: nat)
    requires v < |words| && w < |words| && i < |words[v]| && j < |words[w]|
    requires Offset(words, v) + i == Offset(words, w) + j
    ensures v == w && i == j
  {
    if v < w {
      OffsetsGrow(words, v, w);
    } else if w < v {
      OffsetsGrow(words, w, v);
    }
  }

  // ---------------------------------------------------------------------------
  // Post-processing and look-up of one level
  // ---------------------------------------------------------------------------

  /** Every word's array is sorted by context id. */
  ghost predicate AllSorted<P>(words: seq<seq<MGramData<P>>>)
  {
    forall w :: 0 <= w < |words| ==> SortedBy(words[w], CtxIdOf)
  }

  /** Every word's array sorted by context id. */
  function SortedLevel<P>(words: seq<seq<MGramData<P>>>): (sorted: seq<seq<MGramData<P>>>)
    ensures |sorted| == |words|
  {
    seq(|words|, w requires 0 <= w < |words| => SortBy(words[w], CtxIdOf))
  }

  /** Every word's context index offset. */
  function Offsets<P>(words: seq<seq<MGramData<P>>>): (cio: seq<nat>)
    ensures |cio| == |words|
  {
    seq(|words|, w requires 0 <= w < |words| => Offset(words, w))
  }

  /**
   * `post_M_N_Grams`: walking the words in id order, gives each its context index
   * offset, advances the offset by the word's array size, and sorts the array by
   * context id.
   */
  method PostMNGrams<P>(words: seq<seq<MGramData<P>>>) returns (sorted: seq<seq<MGramData<P>>>, cio: seq<nat>)
    ensures sorted == SortedLevel(words) && cio == Offsets(words)
  {
    sorted, cio := [], [];
    var next := FIRST_VALID_CTX_ID;
    for w := 0 to |words|
      invariant |sorted| == w && |cio| == w && next == Offset(words, w)
      invariant forall v :: 0 <= v < w ==> sorted[v] == SortBy(words[v], CtxIdOf)
      invariant forall v :: 0 <= v < w ==> cio[v] == Offset(words, v)
    {
      PostStep(words, sorted, cio, w);
      cio := cio + [next];
      next := next + |words[w]|;
      sorted := sorted + [SortBy(words[w], CtxIdOf)];
    }
  }

  lemma PostStep<P>(words: seq<seq<MGramData<P>>>, sorted: seq<seq<MGramData<P>>>, cio: seq<nat>, w: nat)
    requires w < |words| && |sorted| == w && |cio| == w
    requires forall v :: 0 <= v < w ==> sorted[v] == SortBy(words[v], CtxIdOf)
    requires forall v :: 0 <= v < w ==> cio[v] == Offset(words, v)
    ensures var s := sorted + [SortBy(words[w], CtxIdOf)];
            forall v :: 0 <= v <= w ==> s[v] == SortBy(words[v], CtxIdOf)
    ensures var c := cio + [Offset(words, w)];
            forall v :: 0 <= v <= w ==> c[v] == Offset(words, v)
  {
  }

  /** After post-processing a level, every word's array is sorted and keeps its entries. */
  lemma PostedSorted<P>(words: seq<seq<MGramData<P>>>)
    ensures AllSorted(SortedLevel(words))
    ensures forall w :: 0 <= w < |words| ==> multiset(SortedLevel(words)[w]) == multiset(words[w])
  {
    forall w | 0 <= w < |words|
      ensures SortedBy(SortedLevel(words)[w], CtxIdOf)
    {
      SortBySorted(words[w], CtxIdOf);
    }
  }

  /**
   * `get_m_n_gram_local_entry_idx`: fails on an empty array; otherwise binary-searches
   * the whole array for the context id.
   */
  method GetLocalEntryIdx<P>(entries: seq<MGramData<P>>, ctxId: nat) returns (found: bool, localIdx: nat)
    requires SortedBy(entries, CtxIdOf)
    ensures found <==> HasCtx(entries, ctxId)
    ensures found ==> localIdx < |entries| && entries[localIdx].id == ctxId
  {
    if |entries| > 0 {
      found, localIdx := BSearchBy(entries, CtxIdOf, 0, |entries| - 1, ctxId);
    } else {
      found, localIdx := false, 0;
    }
  }

  /**
   * `get_m_n_gram_entry`: the payload of the M-gram of word `wordId` in context `ctxId`
   * and the next context id `cio + local_idx`; nothing when the word's array has no
   * entry for the context.
   */
  method GetEntry<P>(words: seq<seq<MGramData<P>>>, cio: seq<nat>, wordId: nat, ctxId: nat)
    returns (r: Option<(P, nat)>)
    requires wordId < |words| && wordId < |cio| && SortedBy(words[wordId], CtxIdOf)
    ensures r.None? <==> !HasCtx(words[wordId], ctxId)
    ensures r.Some? ==> exists k :: 0 <= k < |words[wordId]| && words[wordId][k] == MGramData(ctxId, r.value.0)
                                    && r.value.1 == cio[wordId] + k
  {
    var found, localIdx := GetLocalEntryIdx(words[wordId], ctxId);
    if found {
      r := Some((words[wordId][localIdx].payload, cio[wordId] + localIdx));
    } else {
      r := None;
    }
  }

  /**
   * After post-processing, two M-grams found for different (word, context) pairs get
   * different next context ids.
   */
  lemma NextCtxIdsDistinct<P>(words: seq<seq<MGramData<P>>>, v: nat, i: nat, w: nat, j: nat)
    requires v < |words| && w < |words| && i < |SortedLevel(words)[v]| && j < |SortedLevel(words)[w]|
    requires (v, SortedLevel(words)[v][i].id) != (w, SortedLevel(words)[w][j].id)
    ensures Offsets(words)[v] + i != Offsets(words)[w] + j
  {
    if Offset(words, v) + i == Offset(words, w) + j {
      CtxIdsDisjoint(words, v, i, w, j);
    }
  }

  // ---------------------------------------------------------------------------
  // The trie
  // ---------------------------------------------------------------------------

  class W2CArrayTrie {
    /** The number of word ids, `m_num_word_ids`. */
    const numWordIds: nat
    /** The maximum level N, `LM_M_GRAM_LEVEL_MAX`. */
    const maxLevel: nat
    /** `m_1_gram_data`: the payload of every word. */
    var oneGrams: seq<Payload>
    /** `m_m_gram_word_2_data`: for the levels 1 < M < N, every word's entries. */
    var mGrams: seq<seq<seq<MGramData<Payload>>>>
    /** The context index offsets of the M-gram levels. */
    var mCio: seq<seq<nat>>
    /** `m_n_gram_word_2_data`: every word's N-gram entries, holding only a probability. */
    var nGrams: seq<seq<MGramData<int>>>
    /** The context index offsets of the N-gram level. */
    var nCio: seq<nat>

    ghost predicate Valid()
      reads this
    {
      && M_GRAM_LEVEL_2 <= maxLevel
      && |oneGrams| == numWordIds
      && |mGrams| == maxLevel - M_GRAM_LEVEL_2 && |mCio| == maxLevel - M_GRAM_LEVEL_2
      && (forall l :: 0 <= l < |mGrams| ==> |mGrams[l]| == numWordIds && |mCio[l]| == numWordIds)
      && |nGrams| == numWordIds && |nCio| == numWordIds
    }

    /** A trie with the given payload for every word and no entries on the higher levels. */
    constructor (numWordIds: nat, maxLevel: nat, unk: Payload)
      requires M_GRAM_LEVEL_2 <= maxLevel
      ensures Valid() && this.numWordIds == numWordIds && this.maxLevel == maxLevel
      ensures oneGrams == seq(numWordIds, _ => unk)
      ensures forall l, w :: 0 <= l < |mGrams| && 0 <= w < numWordIds ==> mGrams[l][w] == []
      ensures forall w :: 0 <= w < numWordIds ==> nGrams[w] == []
    {
      this.numWordIds := numWordIds;
      this.maxLevel := maxLevel;
      oneGrams := seq(numWordIds, _ => unk);
      mGrams := seq(maxLevel - M_GRAM_LEVEL_2, _ => seq(numWordIds, _ => []));
      mCio := seq(maxLevel - M_GRAM_LEVEL_2, _ => seq(numWordIds, _ => 0));
      nGrams := seq(numWordIds, _ => []);
      nCio := seq(numWordIds, _ => 0);
    }

    /**
     * `add_m_gram` of an M-gram ending in `wordId`, whose context id the caller has
     * computed: a unigram stores its payload; a higher M-gram appends one entry to
     * its end word's array on its level, an N-gram keeping only the probability.
     */
    method AddMGram(level: nat, wordId: nat, ctxId: nat, payload: Payload)
      requires Valid() && M_GRAM_LEVEL_1 <= level <= maxLevel && wordId < numWordIds
      modifies this
      ensures Valid()
      ensures level == M_GRAM_LEVEL_1 ==> oneGrams == old(oneGrams)[wordId := payload]
      ensures level != M_GRAM_LEVEL_1 ==> oneGrams == old(oneGrams)
      ensures level == maxLevel ==> nGrams == old(nGrams)[wordId := old(nGrams)[wordId] + [MGramData(ctxId, payload.prob)]]
      ensures level != maxLevel ==> nGrams == old(nGrams)
      ensures M_GRAM_LEVEL_1 < level < maxLevel ==>
                var l := level - M_GRAM_LEVEL_2;
                mGrams == old(mGrams)[l := old(mGrams)[l][wordId := old(mGrams)[l][wordId] + [MGramData(ctxId, payload)]]]
      ensures !(M_GRAM_LEVEL_1 < level < maxLevel) ==> mGrams == old(mGrams)
      ensures mCio == old(mCio) && nCio == old(nCio)
    {
      if level == M_GRAM_LEVEL_1 {
        oneGrams := oneGrams[wordId := payload];
      } else if level == maxLevel {
        nGrams := nGrams[wordId := nGrams[wordId] + [MGramData(ctxId, payload.prob)]];
      } else {
        var l := level - M_GRAM_LEVEL_2;
        mGrams := mGrams[l := mGrams[l][wordId := mGrams[l][wordId] + [MGramData(ctxId, payload)]]];
      }
    }

    /** `post_n_grams`: post-processes the N-gram level. */
    method PostNGrams()
      requires Valid()
      modifies this
      ensures Valid()
      ensures nGrams == SortedLevel(old(nGrams)) && nCio == Offsets(old(nGrams))
      ensures oneGrams == old(oneGrams) && mGrams == old(mGrams) && mCio == old(mCio)
    {
      nGrams, nCio := PostMNGrams(nGrams);
    }

    /** `post_m_grams`: post-processes the M-gram level `l + 2`. */
    method PostMGrams(l: nat)
      requires Valid() && l < |mGrams|
      modifies this
      ensures Valid()
      ensures mGrams == old(mGrams)[l := SortedLevel(old(mGrams)[l])]
      ensures mCio == old(mCio)[l := Offsets(old(mGrams)[l])]
      ensures oneGrams == old(oneGrams) && nGrams == old(nGrams) && nCio == old(nCio)
    {
      var sorted, cio := PostMNGrams(mGrams[l]);
      mGrams := mGrams[l := sorted];
      mCio := mCio[l := cio];
    }

    /**
     * `post_grams` of this trie: the N-gram level, or an M-gram level above the
     * unigrams, is post-processed; the unigram level is left as it is.
     */
    method PostGrams(level: nat)
      requires Valid() && M_GRAM_LEVEL_1 <= level <= maxLevel
      modifies this
      ensures Valid() && oneGrams == old(oneGrams)
      ensures level == maxLevel ==> nGrams == SortedLevel(old(nGrams)) && nCio == Offsets(old(nGrams))
      ensures level != maxLevel ==> nGrams == old(nGrams) && nCio == old(nCio)
      ensures M_GRAM_LEVEL_1 < level < maxLevel ==>
                && mGrams == old(mGrams)[level - M_GRAM_LEVEL_2 := SortedLevel(old(mGrams)[level - M_GRAM_LEVEL_2])]
                && mCio == old(mCio)[level - M_GRAM_LEVEL_2 := Offsets(old(mGrams)[level - M_GRAM_LEVEL_2])]
      ensures !(M_GRAM_LEVEL_1 < level < maxLevel) ==> mGrams == old(mGrams) && mCio == old(mCio)
    {
      if level == maxLevel {
        PostNGrams();
      } else if level > M_GRAM_LEVEL_1 {
        PostMGrams(level - M_GRAM_LEVEL_2);
      }
    }

    /**
     * `get_ctx_id` on the M-gram level `levelIdx + 2`: the next context id of word
     * `wordId` in context `ctxId`, when the word's sorted array holds that context.
     */
    method GetCtxId(levelIdx: nat, wordId: nat, ctxId: nat) returns (found: bool, nextCtxId: nat)
      requires Valid() && levelIdx < |mGrams| && wordId < numWordIds
      requires SortedBy(mGrams[levelIdx][wordId], CtxIdOf)
      ensures found <==> HasCtx(mGrams[levelIdx][wordId], ctxId)
      ensures found ==> exists k :: 0 <= k < |mGrams[levelIdx][wordId]| && mGrams[levelIdx][wordId][k].id == ctxId
                                    && nextCtxId == mCio[levelIdx][wordId] + k
      ensures !found ==> nextCtxId == ctxId
    {
      var localIdx;
      found, localIdx := GetLocalEntryIdx(mGrams[levelIdx][wordId], ctxId);
      nextCtxId := if found then mCio[levelIdx][wordId] + localIdx else ctxId;
    }

    /** `get_m_gram_payload` once the context is known: the entry of a level 1 < M < N. */
    method GetMGramPayload(levelIdx: nat, wordId: nat, ctxId: nat) returns (r: Option<(Payload, nat)>)
      requires Valid() && levelIdx < |mGrams| && wordId < numWordIds
      requires SortedBy(mGrams[levelIdx][wordId], CtxIdOf)
      ensures r.None? <==> !HasCtx(mGrams[levelIdx][wordId], ctxId)
      ensures r.Some? ==> exists k :: 0 <= k < |mGrams[levelIdx][wordId]|
                                      && mGrams[levelIdx][wordId][k] == MGramData(ctxId, r.value.0)
                                      && r.value.1 == mCio[levelIdx][wordId] + k
    {
      r := GetEntry(mGrams[levelIdx], mCio[levelIdx], wordId, ctxId);
    }

    /** `get_n_gram_payload` once the context is known: the probability of an N-gram. */
    method GetNGramPayload(wordId: nat, ctxId: nat) returns (r: Option<(int, nat)>)
      requires Valid() && wordId < numWordIds && SortedBy(nGrams[wordId], CtxIdOf)
      ensures r.None? <==> !HasCtx(nGrams[wordId], ctxId)
      ensures r.Some? ==> exists k :: 0 <= k < |nGrams[wordId]| && nGrams[wordId][k] == MGramData(ctxId, r.value.0)
                                      && r.value.1 == nCio[wordId] + k
    {
      r := GetEntry(nGrams, nCio, wordId, ctxId);
    }
  }

  /**
   * Adding an M-gram and post-processing its level makes it findable: after
   * post-processing, the word's array holds exactly the context ids added for it.
   */
  lemma PostKeepsCtxs<P>(words: seq<seq<MGramData<P>>>, w: nat, ctxId: nat)
    requires w < |words|
    ensures HasCtx(SortBy(words[w], CtxIdOf), ctxId) <==> HasCtx(words[w], ctxId)
  {
    var s, t := words[w], SortBy(words[w], CtxIdOf);
    if HasCtx(s, ctxId) {
      var k :| 0 <= k < |s| && s[k].id == ctxId;
      assert s[k] in multiset(t);
    }
    if HasCtx(t, ctxId) {
      var k :| 0 <= k < |t| && t[k].id == ctxId;
      assert t[k] in multiset(s);
    }
  }
}
