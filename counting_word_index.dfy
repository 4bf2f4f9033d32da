/**
 * The counting word index (`counting_word_index`): while the unigrams are read,
 * the map of the basic index holds each word's weight instead of an id; once all
 * words are in, the words are sorted by decreasing weight and given consecutive
 * ids, so that frequent words get small ids. Weights are modelled as integers.
 */
module CountingWordIndexes {
  import opened Wrappers
  import opened BasicWordIndexes

  /** `TWordInfo`: a word and its weight. */
  datatype WordInfo = WordInfo(word: string, prob: int)

  /** The `operator<` of `TWordInfo`: the smaller one has the higher weight. */
  predicate InfoLess(one: WordInfo, two: WordInfo)
  {
    one.prob > two.prob
  }

  /** Sorted by `<`: no element is smaller than one before it. */
  ghost predicate Sorted(s: seq<WordInfo>)
  {
    forall i, j :: 0 <= i < j < |s| ==> !InfoLess(s[j], s[i])
  }

  function Words(s: seq<WordInfo>): set<string>
  {
    set i | 0 <= i < |s| :: s[i].word
  }

  ghost predicate DistinctWords(s: seq<WordInfo>)
  {
    forall i, j :: 0 <= i < j < |s| ==> s[i].word != s[j].word
  }

  lemma WordsConcat(a: seq<WordInfo>, b: seq<WordInfo>)
    ensures Words(a + b) == Words(a) + Words(b)
  {
    forall w | w in Words(a + b) ensures w in Words(a) + Words(b) {
      var k :| 0 <= k < |a + b| && (a + b)[k].word == w;
      if k >= |a| {
        assert b[k - |a|].word == w;
      } else {
        assert a[k].word == w;
      }
    }
    forall w | w in Words(a) ensures w in Words(a + b) {
      var k :| 0 <= k < |a| && a[k].word == w;
      assert (a + b)[k].word == w;
    }
    forall w | w in Words(b) ensures w in Words(a + b) {
      var k :| 0 <= k < |b| && b[k].word == w;
      assert (a + b)[k + |a|].word == w;
    }
  }

  /** Places `x` in a sorted sequence before the first element that is not smaller than it. */
  function InsertInfo(s: seq<WordInfo>, x: WordInfo): (t: seq<WordInfo>)
    ensures |t| == |s| + 1
    ensures multiset(t) == multiset(s) + multiset{x}
    ensures Words(t) == Words(s) + {x.word}
  {
    if s == [] || !InfoLess(s[0], x) then
      WordsConcat([x], s);
      [x] + s
    else
      WordsConcat([s[0]], s[1..]);
      WordsConcat([s[0]], InsertInfo(s[1..], x));
      assert s == [s[0]] + s[1..];
      [s[0]] + InsertInfo(s[1..], x)
  }

  /** The result of `my_sort` on the word infos: an insertion sort by `<`. */
  function SortInfos(s: seq<WordInfo>): (t: seq<WordInfo>)
    ensures |t| == |s|
    ensures multiset(t) == multiset(s)
    ensures Words(t) == Words(s)
  {
    if s == [] then []
    else
      var init := s[..|s| - 1];
      assert s == init + [s[|s| - 1]];
      WordsConcat(init, [s[|s| - 1]]);
      InsertInfo(SortInfos(init), s[|s| - 1])
  }

  lemma {:induction false} InsertInfoSorted(s: seq<WordInfo>, x: WordInfo)
    requires Sorted(s)
    ensures Sorted(InsertInfo(s, x))
    decreases |s|
  {
    if s != [] && InfoLess(s[0], x) {
      InsertInfoSorted(s[1..], x);
      var r := InsertInfo(s[1..], x);
      var t := [s[0]] + r;
      forall i, j | 0 <= i < j < |t|
        ensures !InfoLess(t[j], t[i])
      {
        if i == 0 {
          assert t[j] in multiset(r);
          assert t[j] == x || t[j] in multiset(s[1..]);
          if t[j] != x {
            var k :| 0 <= k < |s[1..]| && s[1..][k] == t[j];
            assert s[k + 1] == t[j];
          }
        }
      }
    }
  }

  /** The sort yields a sorted permutation. */
  lemma {:induction false} SortInfosSorted(s: seq<WordInfo>)
    ensures Sorted(SortInfos(s))
  {
    if s != [] {
      SortInfosSorted(s[..|s| - 1]);
      InsertInfoSorted(SortInfos(s[..|s| - 1]), s[|s| - 1]);
    }
  }

  lemma {:induction false} InsertInfoDistinct(s: seq<WordInfo>, x: WordInfo)
    requires DistinctWords(s) && x.word !in Words(s)
    ensures DistinctWords(InsertInfo(s, x))
    decreases |s|
  {
    if s == [] || !InfoLess(s[0], x) {
      var t := [x] + s;
      forall i, j | 0 <= i < j < |t|
        ensures t[i].word != t[j].word
      {
        if i == 0 {
          assert t[j].word == s[j - 1].word;
        }
      }
    } else {
      assert s == [s[0]] + s[1..];
      assert Words(s[1..]) <= Words(s) by {
        forall w | w in Words(s[1..]) ensures w in Words(s) {
          var k :| 0 <= k < |s[1..]| && s[1..][k].word == w;
          assert s[k + 1].word == w;
        }
      }
      InsertInfoDistinct(s[1..], x);
      var r := InsertInfo(s[1..], x);
      var t := [s[0]] + r;
      forall i, j | 0 <= i < j < |t|
        ensures t[i].word != t[j].word
      {
        if i == 0 {
          assert t[j].word in Words(r);
          if t[j].word in Words(s[1..]) {
            var k :| 0 <= k < |s[1..]| && s[1..][k].word == t[j].word;
            assert s[k + 1].word == t[j].word;
          }
        }
      }
    }
  }

  /** Sorting keeps the words distinct. */
  lemma {:induction false} SortInfosDistinct(s: seq<WordInfo>)
    requires DistinctWords(s)
    ensures DistinctWords(SortInfos(s))
  {
    if s != [] {
      var init := s[..|s| - 1];
      assert DistinctWords(init) by {
        assert forall i :: 0 <= i < |init| ==> init[i] == s[i];
      }
      SortInfosDistinct(init);
      assert s[|s| - 1].word !in Words(init);
      InsertInfoDistinct(SortInfos(init), s[|s| - 1]);
    }
  }

  /** In a sorted sequence a strictly heavier element comes strictly earlier. */
  lemma HeavierFirst(s: seq<WordInfo>, i: nat, j: nat)
    requires Sorted(s) && i < |s| && j < |s| && s[i].prob > s[j].prob
    ensures i < j
  {
  }

  /** Copies the words of the map and their weights into a sequence of word infos, in some order. */
  method CollectInfos(counted: map<string, int>) returns (infos: seq<WordInfo>)
    ensures Words(infos) == counted.Keys && |infos| == |counted.Keys| && DistinctWords(infos)
    ensures forall i :: 0 <= i < |infos| ==> infos[i].word in counted && infos[i].prob == counted[infos[i].word]
  {
    infos := [];
    var rest := counted.Keys;
    while rest != {}
      invariant rest <= counted.Keys
      invariant Words(infos) == counted.Keys - rest
      invariant |infos| + |rest| == |counted.Keys|
      invariant DistinctWords(infos)
      invariant forall i :: 0 <= i < |infos| ==> infos[i].word in counted && infos[i].prob == counted[infos[i].word]
      decreases |rest|
    {
      var w :| w in rest;
      CollectStep(counted, infos, rest, w);
      infos := infos + [WordInfo(w, counted[w])];
      rest := rest - {w};
    }
  }

  /** Taking one more word out of `rest` keeps the invariant of the copying loop. */
  lemma CollectStep(counted: map<string, int>, infos: seq<WordInfo>, rest: set<string>, w: string)
    requires rest <= counted.Keys && w in rest
    requires Words(infos) == counted.Keys - rest && DistinctWords(infos)
    requires forall i :: 0 <= i < |infos| ==> infos[i].word in counted && infos[i].prob == counted[infos[i].word]
    ensures Words(infos + [WordInfo(w, counted[w])]) == counted.Keys - (rest - {w})
    ensures DistinctWords(infos + [WordInfo(w, counted[w])])
    ensures forall i :: 0 <= i < |infos + [WordInfo(w, counted[w])]| ==>
      (infos + [WordInfo(w, counted[w])])[i].word in counted && (infos + [WordInfo(w, counted[w])])[i].prob == counted[(infos + [WordInfo(w, counted[w])])[i].word]
  {
    var one := [WordInfo(w, counted[w])];
    assert w !in Words(infos);
    WordsConcat(infos, one);
    assert one[0].word == w;
    assert Words(one) == {w};
  }

  /** The numbering loop: the word at position `k` of `sorted` gets id `first + k`. */
  method NumberInOrder(counted: map<string, int>, sorted: seq<WordInfo>, first: int) returns (m: map<string, int>, next: int)
    requires DistinctWords(sorted) && forall i :: 0 <= i < |sorted| ==> sorted[i].word in counted
    ensures next == first + |sorted| && m.Keys == counted.Keys
    ensures forall k :: 0 <= k < |sorted| ==> m[sorted[k].word] == first + k
  {
    m := counted;
    next := first;
    for idx := 0 to |sorted|
      invariant next == first + idx
      invariant m.Keys == counted.Keys
      invariant forall k :: 0 <= k < idx ==> m[sorted[k].word] == first + k
    {
      m := m[sorted[idx].word := next];
      next := next + 1;
    }
  }

  /**
   * Numbering the sorted words consecutively from `first` gives every word an id in
   * `[first, first + n)`, distinct ids to distinct words, and a smaller id to a heavier word.
   */
  lemma NumberedByWeight(counted: map<string, int>, sorted: seq<WordInfo>, m: map<string, int>, first: int)
    requires Words(sorted) == counted.Keys && DistinctWords(sorted) && Sorted(sorted)
    requires forall i :: 0 <= i < |sorted| ==> sorted[i].word in counted && sorted[i].prob == counted[sorted[i].word]
    requires m.Keys == counted.Keys
    requires forall k :: 0 <= k < |sorted| ==> m[sorted[k].word] == first + k
    ensures forall w :: w in m ==> first <= m[w] < first + |sorted|
    ensures forall v, w :: v in m && w in m && v != w ==> m[v] != m[w]
    ensures forall v, w :: v in counted && w in counted && counted[v] > counted[w] ==> m[v] < m[w]
  {
    forall w | w in m
      ensures first <= m[w] < first + |sorted|
    {
      var k := PositionOf(sorted, w);
    }
    forall v, w | v in m && w in m && v != w
      ensures m[v] != m[w]
    {
      var i := PositionOf(sorted, v);
      var j := PositionOf(sorted, w);
    }
    forall v, w | v in counted && w in counted && counted[v] > counted[w]
      ensures m[v] < m[w]
    {
      var i := PositionOf(sorted, v);
      var j := PositionOf(sorted, w);
      HeavierFirst(sorted, i, j);
    }
  }

  /** A word of the sequence sits at some position of it. */
  lemma PositionOf(s: seq<WordInfo>, w: string) returns (k: nat)
    requires w in Words(s)
    ensures k < |s| && s[k].word == w
  {
    k :| 0 <= k < |s| && s[k].word == w;
  }

  /**
   * Putting `<unk>` back, with its fixed id, into a map of distinct ids in
   * `[first, next)` over the other words gives a map of issued ids.
   */
  lemma UnknownPutBack(words: map<string, int>, m: map<string, int>, ids: map<string, int>, first: int, next: int)
    requires m.Keys == words.Keys - {UNKNOWN_WORD_STR} && MIN_KNOWN_WORD_ID <= first <= next
    requires forall w :: w in m ==> first <= m[w] < next
    requires forall v, w :: v in m && w in m && v != w ==> m[v] != m[w]
    requires ids == m[UNKNOWN_WORD_STR := UNKNOWN_WORD_ID]
    ensures IdsIssued(ids, next)
    ensures ids.Keys == words.Keys + {UNKNOWN_WORD_STR} && ids[UNKNOWN_WORD_STR] == UNKNOWN_WORD_ID
    ensures forall w :: w in ids && w != UNKNOWN_WORD_STR ==> first <= ids[w]
  {
  }

  /** The sorted infos carry the words of `counted` with their weights. */
  lemma SortedFromCounted(counted: map<string, int>, infos: seq<WordInfo>)
    requires forall i :: 0 <= i < |infos| ==> infos[i].word in counted && infos[i].prob == counted[infos[i].word]
    ensures forall i :: 0 <= i < |SortInfos(infos)| ==> SortInfos(infos)[i].word in counted && SortInfos(infos)[i].prob == counted[SortInfos(infos)[i].word]
  {
    var sorted := SortInfos(infos);
    forall i | 0 <= i < |sorted|
      ensures sorted[i].word in counted && sorted[i].prob == counted[sorted[i].word]
    {
      assert sorted[i] in multiset(infos);
    }
  }

  /** With distinct words, there are as many words as infos. */
  lemma {:induction false} DistinctWordsCount(s: seq<WordInfo>)
    requires DistinctWords(s)
    ensures |Words(s)| == |s|
  {
    if s != [] {
      var init := s[..|s| - 1];
      assert s == init + [s[|s| - 1]];
      WordsConcat(init, [s[|s| - 1]]);
      assert [s[|s| - 1]][0].word == s[|s| - 1].word;
      assert Words([s[|s| - 1]]) == {s[|s| - 1].word};
      assert DistinctWords(init) by {
        assert forall i :: 0 <= i < |init| ==> init[i] == s[i];
      }
      DistinctWordsCount(init);
      assert s[|s| - 1].word !in Words(init);
    }
  }

  /**
   * Sorting the words of `counted` by decreasing weight and numbering them from
   * `first`: distinct ids in `[first, next)`, one per word, a smaller one to a heavier word.
   */
  method NumberByWeight(counted: map<string, int>, first: int) returns (m: map<string, int>, next: int)
    ensures m.Keys == counted.Keys && next == first + |counted.Keys|
    ensures forall w :: w in m ==> first <= m[w] < next
    ensures forall v, w :: v in m && w in m && v != w ==> m[v] != m[w]
    ensures forall v, w :: v in counted && w in counted && counted[v] > counted[w] ==> m[v] < m[w]
  {
    var infos := CollectInfos(counted);

    // Sort them so that the heaviest words come first.
    var sorted := SortInfos(infos);
    SortInfosSorted(infos);
    SortInfosDistinct(infos);
    SortedFromCounted(counted, infos);
    DistinctWordsCount(sorted);

    // Give each word the next id, in the sorted order.
    m, next := NumberInOrder(counted, sorted, first);
    NumberedByWeight(counted, sorted, m, first);
  }

  /**
   * The map and counter `do_post_word_count` leaves behind, from the counted map
   * `words` and the counter `next`: `<unk>` is removed, every other word gets the
   * next id in order of decreasing weight, and `<unk>` is put back with its fixed id.
   */
  method PostWordCount(words: map<string, int>, next: int) returns (ids: map<string, int>, next': int)
    requires MIN_KNOWN_WORD_ID <= next
    ensures IdsIssued(ids, next')
    ensures ids.Keys == words.Keys + {UNKNOWN_WORD_STR} && ids[UNKNOWN_WORD_STR] == UNKNOWN_WORD_ID
    ensures next' == next + |words.Keys - {UNKNOWN_WORD_STR}|
    ensures forall w :: w in ids && w != UNKNOWN_WORD_STR ==> next <= ids[w]
    ensures forall v, w ::
              (&& v in words && w in words
               && v != UNKNOWN_WORD_STR && w != UNKNOWN_WORD_STR
               && words[v] > words[w])
              ==> ids[v] < ids[w]
  {
    var counted := words - {UNKNOWN_WORD_STR};
    var m;
    m, next' := NumberByWeight(counted, next);

    // Put the unknown word back with its fixed id.
    ids := m[UNKNOWN_WORD_STR := UNKNOWN_WORD_ID];
    UnknownPutBack(words, m, ids, next, next');
    PutBackKeepsOrder(words, counted, m, ids);
  }

  /** Putting `<unk>` back leaves the ids of the other words, and so their order, alone. */
  lemma PutBackKeepsOrder(words: map<string, int>, counted: map<string, int>, m: map<string, int>, ids: map<string, int>)
    requires counted == words - {UNKNOWN_WORD_STR} && m.Keys == counted.Keys
    requires ids == m[UNKNOWN_WORD_STR := UNKNOWN_WORD_ID]
    requires forall v, w :: v in counted && w in counted && counted[v] > counted[w] ==> m[v] < m[w]
    ensures counted.Keys == words.Keys - {UNKNOWN_WORD_STR} && |counted.Keys| == |words.Keys - {UNKNOWN_WORD_STR}|
    ensures forall v, w ::
              (&& v in words && w in words
               && v != UNKNOWN_WORD_STR && w != UNKNOWN_WORD_STR
               && words[v] > words[w])
              ==> ids[v] < ids[w]
  {
    forall v, w |
      && v in words && w in words
      && v != UNKNOWN_WORD_STR && w != UNKNOWN_WORD_STR
      && words[v] > words[w]
      ensures ids[v] < ids[w]
    {
      assert v in counted && w in counted && counted[v] > counted[w];
    }
  }

  class CountingWordIndex {
    /** The basic index this one extends. */
    const base: BasicWordIndex

    constructor (base: BasicWordIndex)
      ensures this.base == base
    {
      this.base := base;
    }

    /** `count_word`: stores the word's weight in the map in place of an id. */
    method CountWord(word: string, prob: int)
      modifies base
      ensures base.words == old(base.words)[word := prob]
      ensures base.nextNewWordId == old(base.nextNewWordId)
    {
      base.words := base.words[word := prob];
    }

    /**
     * `do_post_word_count`: removes `<unk>`, gives every other word the next id in
     * order of decreasing weight, then puts `<unk>` back with its fixed id.
     */
    method DoPostWordCount()
      requires MIN_KNOWN_WORD_ID <= base.nextNewWordId
      modifies base
      ensures base.Valid()
      ensures base.words.Keys == old(base.words).Keys + {UNKNOWN_WORD_STR}
      ensures base.words[UNKNOWN_WORD_STR] == UNKNOWN_WORD_ID
      ensures base.nextNewWordId == old(base.nextNewWordId) + |old(base.words).Keys - {UNKNOWN_WORD_STR}|
      ensures forall w :: w in base.words && w != UNKNOWN_WORD_STR ==> old(base.nextNewWordId) <= base.words[w]
      ensures forall v, w ::
                (&& v in old(base.words) && w in old(base.words)
                 && v != UNKNOWN_WORD_STR && w != UNKNOWN_WORD_STR
                 && old(base.words)[v] > old(base.words)[w])
                ==> base.words[v] < base.words[w]
    {
      base.words, base.nextNewWordId := PostWordCount(base.words, base.nextNewWordId);
    }

    /** `register_word` after post-counting: the id already assigned; a word never counted is an error. */
    function RegisterWord(word: string): (r: Result<int>)
      reads this, base
      ensures r.Ok? <==> word in base.words
      ensures r.Ok? ==> r.value == base.words[word]
    {
      if word in base.words then Ok(base.words[word]) else Err("unordered_map::at")
    }
  }
}
