/**
 * The hash-map word index of the language model (`basic_word_index`): it maps each
 * word to a word id, issuing ids in increasing order from the first known-word id.
 * The two ids below it are reserved: 0 marks a word without an id yet, 1 is the
 * id of the unknown word `<unk>`.
 */
module BasicWordIndexes {

  const UNDEFINED_WORD_ID: int := 0
  const UNKNOWN_WORD_ID: int := 1
  const MIN_KNOWN_WORD_ID: int := 2
  const EXTRA_NUMBER_OF_WORD_IDs: nat := 2
  const UNKNOWN_WORD_STR: string := "<unk>"

  /** `get_number_of_words`: room for the words plus the reserved ids below the first known one. */
  function GetNumberOfWords(numWords: nat): (r: nat)
    ensures r - numWords == MIN_KNOWN_WORD_ID
    ensures numWords < r
  {
    numWords + EXTRA_NUMBER_OF_WORD_IDs
  }

  /**
   * The ids in `words` were issued by this index: each is the unknown-word id or
   * lies in `[MIN_KNOWN_WORD_ID, next)`, and no two words share an issued id.
   */
  ghost predicate IdsIssued(words: map<string, int>, next: int)
  {
    && MIN_KNOWN_WORD_ID <= next
    && (forall w :: w in words ==> words[w] == UNKNOWN_WORD_ID || MIN_KNOWN_WORD_ID <= words[w] < next)
    && (forall v, w :: v in words && w in words && v != w && MIN_KNOWN_WORD_ID <= words[v] ==> words[v] != words[w])
  }

  class BasicWordIndex {
    var words: map<string, int>
    var nextNewWordId: int

    ghost predicate Valid()
      reads this
    {
      IdsIssued(words, nextNewWordId)
    }

    constructor ()
      ensures Valid() && words == map[] && nextNewWordId == MIN_KNOWN_WORD_ID
    {
      words := map[];
      nextNewWordId := MIN_KNOWN_WORD_ID;
    }

    /** `reserve`: a new map holding only the unknown word, with its fixed id. */
    method Reserve(numWords: nat)
      modifies this
      ensures words == map[UNKNOWN_WORD_STR := UNKNOWN_WORD_ID]
      ensures nextNewWordId == old(nextNewWordId)
      ensures old(MIN_KNOWN_WORD_ID <= nextNewWordId) ==> Valid()
    {
      words := map[UNKNOWN_WORD_STR := UNKNOWN_WORD_ID];
    }

    /** `get_word_id`: the word's id, or the unknown-word id for a word never registered. */
    function GetWordId(word: string): (id: int)
      reads this
      ensures word !in words ==> id == UNKNOWN_WORD_ID
      ensures word in words ==> id == words[word]
      ensures Valid() ==> id == UNKNOWN_WORD_ID || MIN_KNOWN_WORD_ID <= id < nextNewWordId
    {
      if word in words then words[word] else UNKNOWN_WORD_ID
    }

    /**
     * `register_word`: a word without an id (absent, so created with the undefined
     * id) gets the next id and the counter moves on; a known word keeps its id.
     */
    method RegisterWord(word: string) returns (id: int)
      requires Valid()
      modifies this
      ensures Valid()
      ensures id != UNDEFINED_WORD_ID && word in words && words[word] == id
      ensures old(word in words) ==> id == old(words[word]) && words == old(words)
      ensures old(word in words) ==> nextNewWordId == old(nextNewWordId)
      ensures old(word !in words) ==> id == old(nextNewWordId) && nextNewWordId == id + 1
      ensures old(word !in words) ==> words == old(words)[word := id]
    {
      id := if word in words then words[word] else UNDEFINED_WORD_ID;
      if id == UNDEFINED_WORD_ID {
        id := nextNewWordId;
        nextNewWordId := nextNewWordId + 1;
      }
      words := words[word := id];
    }
  }
}
