/**
 * Bit-packed m-gram ids (src/MGrams.cpp). An id is a bit string: an id type field
 * of `5 * level` bits, then the significant bits of every word id, last word first,
 * padded with zero bits up to a whole number of bytes. The id type is the base-32
 * number whose digits are the bit lengths of the word ids, minus one, so the type
 * alone tells how long the id is. Bits are modelled as a sequence of 0/1 values, the
 * most significant bit of a field and of a byte first.
 */
module MGrams {
  import opened Wrappers
  import opened Digits
  import opened Bits

  const M_GRAM_LEVEL_2: nat := 2
  const M_GRAM_LEVEL_5: nat := 5
  const M_GRAM_LEVEL_6: nat := 6

  /** The width of the id type field of the levels 2 to 5: `log2(32^level)` bits. */
  const M_GRAM_ID_TYPE_LEN_BITS: seq<nat> := [10, 15, 20, 25]

  /** The multipliers of the id type digits, the powers of 32 up to level 6. */
  const GRAM_ID_TYPE_MULT: seq<nat> := [1, 32, 32 * 32, 32 * 32 * 32, 32 * 32 * 32 * 32, 32 * 32 * 32 * 32 * 32]

  /** The size that the level constructor allocates, in bytes: `level * sizeof(TShortId)`. */
  const M_GRAM_MAX_ID_LEN_BYTES: seq<nat> := [2 * 4, 3 * 4, 4 * 4, 5 * 4, 6 * 4]

  const TYPE_LEVEL_ERROR: string := "get_gram_id_type: Unsupported m-gram level"
  const LEN_LEVEL_ERROR: string := "get_gram_id_len: Unsupported m-gram level"
  const CREATE_GRAM_LEVEL_ERROR: string := "create_gram_id: Unsupported m-gram level"
  const CREATE_LEVEL_ERROR: string := "create_m_gram_id: Unsupported m-gram level"

  /** The multiplier table holds the powers of 32. */
  lemma TypeMultIsPow(i: nat)
    requires i < |GRAM_ID_TYPE_MULT|
    ensures GRAM_ID_TYPE_MULT[i] == Pow(32, i)
  {
    assert Pow(32, 5) == 32 * 32 * 32 * 32 * 32;
  }

  /** The id type field of a level is `5 * level` bits, which hold exactly the `32^level` id types. */
  lemma TypeLenBits(level: nat)
    requires M_GRAM_LEVEL_2 <= level <= M_GRAM_LEVEL_5
    ensures M_GRAM_ID_TYPE_LEN_BITS[level - M_GRAM_LEVEL_2] == 5 * level
    ensures Pow2(5 * level) == Pow(32, level)
  {
    PowFive(level);
  }

  lemma {:induction false} PowFive(n: nat)
    ensures Pow2(5 * n) == Pow(32, n)
  {
    if n > 0 {
      PowFive(n - 1);
      var k := 5 * (n - 1);
      assert Pow2(k + 5) == 32 * Pow2(k) by {
        assert Pow2(k + 5) == 2 * Pow2(k + 4) == 4 * Pow2(k + 3) == 8 * Pow2(k + 2) == 16 * Pow2(k + 1);
      }
      assert 5 * n == k + 5;
    }
  }

  /** Base-2 digit strings are bounded by the powers of two. */
  lemma {:induction false} PowTwo(k: nat)
    ensures Pow(2, k) == Pow2(k)
  {
    if k > 0 {
      PowTwo(k - 1);
    }
  }

  lemma TwoPow32()
    ensures Pow2(32) == 0x1_0000_0000
  {
    assert Pow2(8) == 0x100;
    assert Pow2(16) == 0x1_0000;
    assert Pow2(24) == 0x100_0000;
  }

  // ---------------------------------------------------------------------------
  // Bit lengths
  // ---------------------------------------------------------------------------

  /** `log2_32`: the number of significant bits of a word id, at least one. */
  function BitLen(v: nat): (k: nat)
    ensures 1 <= k
  {
    if v < 2 then 1 else 1 + BitLen(v / 2)
  }

  /** A value needs at most `k` bits exactly when it is below `2^k`. */
  lemma {:induction false} BitLenPow(v: nat, k: nat)
    requires 1 <= k
    ensures BitLen(v) <= k <==> v < Pow2(k)
  {
    if 2 <= v && 1 < k {
      BitLenPow(v / 2, k - 1);
      var p := Pow2(k - 1);
      assert v / 2 < p <==> v < 2 * p;
    } else if 1 < k {
      assert 2 <= Pow2(k);
    }
  }

  /** A word id needs between 1 and 32 bits, and its significant bits hold it. */
  lemma BitLenFits(v: ShortId)
    ensures 1 <= BitLen(v) <= 32 && v < Pow2(BitLen(v))
  {
    TwoPow32();
    BitLenPow(v, 32);
    BitLenPow(v, BitLen(v));
  }

  /** The bit lengths of the word ids, in order. */
  function BitLens(ids: seq<ShortId>): (lens: seq<nat>)
    ensures |lens| == |ids| && LensIn(lens, 32)
  {
    var lens := seq(|ids|, i requires 0 <= i < |ids| => BitLen(ids[i]));
    assert LensIn(lens, 32) by {
      forall i | 0 <= i < |ids|
        ensures 1 <= lens[i] <= 32
      {
        BitLenFits(ids[i]);
      }
    }
    lens
  }

  /** `NUM_BITS_TO_STORE_BYTES`: the fewest bytes that hold `bits` bits. */
  function BytesFor(bits: nat): (n: nat)
    ensures bits <= 8 * n && (n == 0 || 8 * (n - 1) < bits)
  {
    (bits + 7) / 8
  }

  // ---------------------------------------------------------------------------
  // get_gram_id_type and get_gram_id_len
  // ---------------------------------------------------------------------------

  /**
   * `get_gram_id_type`: the id type `Σ (len_bits[i] - 1) * 32^i`, accumulated with the
   * multiplier table; a level above 6 has no multipliers and is refused.
   */
  method GetGramIdType(lenBits: seq<nat>) returns (r: Result<nat>)
    requires LensIn(lenBits, 32)
    ensures r.Err? <==> |lenBits| > M_GRAM_LEVEL_6
    ensures r.Ok? ==> r.value == TypeCode(lenBits, 32)
  {
    if |lenBits| > M_GRAM_LEVEL_6 {
      return Err(TYPE_LEVEL_ERROR);
    }
    var idType := 0;
    for idx := 0 to |lenBits|
      invariant idType == TypeCode(lenBits[..idx], 32)
    {
      TypeMultIsPow(idx);
      TypeCodeAppend(lenBits, idx);
      idType := idType + (lenBits[idx] - 1) * GRAM_ID_TYPE_MULT[idx];
    }
    assert lenBits[..|lenBits|] == lenBits;
    return Ok(idType);
  }

  /** One more bit length adds its digit times `32^idx` to the id type. */
  lemma TypeCodeAppend(lens: seq<nat>, idx: nat)
    requires LensIn(lens, 32) && idx < |lens|
    ensures TypeCode(lens[..idx + 1], 32) == TypeCode(lens[..idx], 32) + (lens[idx] - 1) * Pow(32, idx)
  {
    assert lens[..idx + 1][..idx] == lens[..idx];
  }

  /**
   * `get_gram_id_len`: reads the id type digit by digit from the highest one and gives
   * the id length in bytes, `ceil((type bits + Σ len_bits) / 8)` for the lengths the
   * type encodes; a level above 6 is refused.
   */
  method GetGramIdLen(typeBits: nat, level: nat, idType: nat) returns (r: Result<nat>)
    ensures r.Err? <==> level > M_GRAM_LEVEL_6
    ensures r.Ok? ==> r.value == BytesFor(typeBits + Sum(DecodeType(idType, level, 32)))
  {
    if level > M_GRAM_LEVEL_6 {
      return Err(LEN_LEVEL_ERROR);
    }
    var idLenBits: int := typeBits;
    var rest: int := idType;
    var idx: int := level - 1;
    while idx >= 0
      invariant -1 <= idx < level && 0 <= rest
      invariant idLenBits + (level - idx - 1) + Sum(DecodeType(rest, idx + 1, 32))
        == typeBits + Sum(DecodeType(idType, level, 32))
    {
      TypeMultIsPow(idx);
      var mult: int := GRAM_ID_TYPE_MULT[idx];
      var coeff: int := rest / mult;
      DecodeTypeStep(rest, idx + 1, coeff, rest - coeff * mult);
      rest := rest - coeff * mult;
      idLenBits := idLenBits + coeff;
      idx := idx - 1;
    }
    return Ok(BytesFor(idLenBits + level));
  }

  /** Decoding `n` digits is the highest digit plus one, after the remaining `n - 1` digits. */
  lemma DecodeTypeStep(t: nat, n: nat, coeff: int, rest: int)
    requires 0 < n && coeff == t / Pow(32, n - 1) && rest == t - coeff * Pow(32, n - 1)
    ensures 0 <= rest && Sum(DecodeType(t, n, 32)) == Sum(DecodeType(rest, n - 1, 32)) + coeff + 1
  {
    var p := Pow(32, n - 1);
    var init := DecodeType(t % p, n - 1, 32);
    assert rest == t % p;
    assert (init + [coeff + 1])[..n - 1] == init;
  }

  /** The length read back from the id type of some bit lengths is the length they need. */
  lemma GramIdLenOfType(typeBits: nat, lens: seq<nat>)
    requires LensIn(lens, 32)
    ensures Sum(DecodeType(TypeCode(lens, 32), |lens|, 32)) == Sum(lens)
  {
    DecodeTypeCode(lens, 32);
  }

  // ---------------------------------------------------------------------------
  // create_gram_id and set_m_gram_id
  // ---------------------------------------------------------------------------

  /** Every token of the m-gram is in the word index. */
  predicate AllKnown(tokens: seq<string>, index: map<string, ShortId>)
  {
    forall i :: 0 <= i < |tokens| ==> tokens[i] in index
  }

  /** The word ids of the tokens, as the word index gives them. */
  function WordIds(tokens: seq<string>, index: map<string, ShortId>): (ids: seq<ShortId>)
    requires AllKnown(tokens, index)
    ensures |ids| == |tokens| && forall i :: 0 <= i < |tokens| ==> ids[i] == index[tokens[i]]
  {
    seq(|tokens|, i requires 0 <= i < |tokens| && tokens[i] in index => index[tokens[i]])
  }

  /** The significant bits of each word id, the last word first. */
  function PayloadBits(ids: seq<ShortId>): seq<nat>
  {
    if ids == [] then [] else PayloadBits(ids[1..]) + ToDigits(ids[0], BitLen(ids[0]), 2)
  }

  /** `n` zero bits. */
  function Zeros(n: nat): (z: seq<nat>)
    ensures |z| == n
  {
    seq(n, _ => 0)
  }

  /** The bits that the id writes: the id type field, then the payload. */
  function WrittenBits(typeBits: nat, ids: seq<ShortId>): seq<nat>
  {
    ToDigits(TypeCode(BitLens(ids), 32), typeBits, 2) + PayloadBits(ids)
  }

  /** The id of the word ids: the written bits, padded with zero bits to whole bytes. */
  function GramId(typeBits: nat, ids: seq<ShortId>): seq<nat>
  {
    var bits := WrittenBits(typeBits, ids);
    bits + Zeros(8 * BytesFor(|bits|) - |bits|)
  }

  /**
   * `create_gram_id`: looks every token up and gives up on the first unknown one;
   * otherwise writes the id type and the word ids' significant bits, last word first,
   * into memory cleared to whole bytes. Levels above 6 are refused.
   */
  method CreateGramId(typeBits: nat, tokens: seq<string>, index: map<string, ShortId>)
    returns (r: Result<Option<seq<nat>>>)
    ensures r.Err? <==> |tokens| > M_GRAM_LEVEL_6
    ensures r.Ok? ==> (r.value.None? <==> !AllKnown(tokens, index))
    ensures r.Ok? && r.value.Some? ==> AllKnown(tokens, index) && r.value.value == GramId(typeBits, WordIds(tokens, index))
  {
    if |tokens| > M_GRAM_LEVEL_6 {
      return Err(CREATE_GRAM_LEVEL_ERROR);
    }
    var known, wordIds, lenBits, idLenBits := LookUpWords(typeBits, tokens, index);
    if !known {
      return Ok(None);
    }
    var id := WriteGramId(typeBits, wordIds, lenBits, idLenBits);
    return Ok(Some(id));
  }

  /**
   * The first loop of `create_gram_id`: the word id and bit length of each token and the
   * running id length in bits, stopping at the first token the word index does not know.
   */
  method LookUpWords(typeBits: nat, tokens: seq<string>, index: map<string, ShortId>)
    returns (known: bool, wordIds: seq<ShortId>, lenBits: seq<nat>, idLenBits: nat)
    ensures known <==> AllKnown(tokens, index)
    ensures known ==> wordIds == WordIds(tokens, index) && lenBits == BitLens(wordIds)
    ensures known ==> idLenBits == typeBits + Sum(lenBits)
  {
    wordIds, lenBits, idLenBits := [], [], typeBits;
    for idx := 0 to |tokens|
      invariant |wordIds| == idx && AllKnown(tokens[..idx], index)
      invariant forall k :: 0 <= k < idx ==> wordIds[k] == index[tokens[k]]
      invariant lenBits == BitLens(wordIds) && idLenBits == typeBits + Sum(lenBits)
    {
      if tokens[idx] !in index {
        return false, wordIds, lenBits, idLenBits;
      }
      var wordId := index[tokens[idx]];
      BitLensAppend(wordIds, wordId);
      SumAppend(lenBits, BitLen(wordId));
      KnownAppend(tokens, idx, index);
      wordIds := wordIds + [wordId];
      lenBits := lenBits + [BitLen(wordId)];
      idLenBits := idLenBits + BitLen(wordId);
    }
    assert tokens[..|tokens|] == tokens;
    assert wordIds == WordIds(tokens, index);
    known := true;
  }

  /**
   * The rest of `create_gram_id`: clears `ceil(id_len_bits / 8)` bytes, writes the id
   * type field, then the significant bits of each word id from the last word to the first.
   */
  method WriteGramId(typeBits: nat, wordIds: seq<ShortId>, lenBits: seq<nat>, idLenBits: nat) returns (id: seq<nat>)
    requires |wordIds| <= M_GRAM_LEVEL_6 && lenBits == BitLens(wordIds) && idLenBits == typeBits + Sum(lenBits)
    ensures id == GramId(typeBits, wordIds)
  {
    var idLenBytes := BytesFor(idLenBits);
    var idType := GetGramIdType(lenBits);
    id := ToDigits(idType.value, typeBits, 2);
    id := WritePayload(id, wordIds, lenBits);
    PayloadLength(wordIds);
    id := id + Zeros(8 * idLenBytes - |id|);
  }

  /** Appends the significant bits of the word ids to `prefix`, the last word first. */
  method WritePayload(prefix: seq<nat>, wordIds: seq<ShortId>, lenBits: seq<nat>) returns (id: seq<nat>)
    requires lenBits == BitLens(wordIds)
    ensures id == prefix + PayloadBits(wordIds)
  {
    id := prefix;
    var idx: int := |wordIds| - 1;
    while idx >= 0
      invariant -1 <= idx < |wordIds|
      invariant id == prefix + PayloadBits(wordIds[idx + 1..])
    {
      PayloadStep(wordIds, idx);
      id := id + ToDigits(wordIds[idx], lenBits[idx], 2);
      idx := idx - 1;
    }
    assert wordIds[0..] == wordIds;
  }

  /** One more word id adds its bit length at the end. */
  lemma BitLensAppend(ids: seq<ShortId>, v: ShortId)
    ensures BitLens(ids + [v]) == BitLens(ids) + [BitLen(v)]
  {
  }

  /** One more length adds to the sum. */
  lemma SumAppend(s: seq<nat>, x: nat)
    ensures Sum(s + [x]) == Sum(s) + x
  {
    assert (s + [x])[..|s|] == s;
  }

  /** A known token extends the known prefix. */
  lemma KnownAppend(tokens: seq<string>, idx: nat, index: map<string, ShortId>)
    requires idx < |tokens| && AllKnown(tokens[..idx], index) && tokens[idx] in index
    ensures AllKnown(tokens[..idx + 1], index)
  {
    assert forall k :: 0 <= k < idx ==> tokens[..idx + 1][k] == tokens[..idx][k];
  }

  /** Writing the word at `idx` after the later ones extends the payload of the suffix. */
  lemma PayloadStep(ids: seq<ShortId>, idx: nat)
    requires idx < |ids|
    ensures PayloadBits(ids[idx..]) == PayloadBits(ids[idx + 1..]) + ToDigits(ids[idx], BitLen(ids[idx]), 2)
  {
    assert ids[idx..][1..] == ids[idx + 1..];
  }

  /** The payload has as many bits as the bit lengths add up to. */
  lemma {:induction false} PayloadLength(ids: seq<ShortId>)
    ensures |PayloadBits(ids)| == Sum(BitLens(ids))
  {
    if ids != [] {
      PayloadLength(ids[1..]);
      assert BitLens(ids) == [BitLen(ids[0])] + BitLens(ids[1..]);
      SumCons(BitLen(ids[0]), BitLens(ids[1..]));
    }
  }

  /** The width of the id type field of a supported level. */
  function TypeBitsOf(level: nat): (bits: nat)
    requires M_GRAM_LEVEL_2 <= level <= M_GRAM_LEVEL_5
    ensures bits == 5 * level
  {
    TypeLenBits(level);
    M_GRAM_ID_TYPE_LEN_BITS[level - M_GRAM_LEVEL_2]
  }

  /**
   * `set_m_gram_id`: levels 2 to 5 are supported; each uses the id type width of its
   * level.
   */
  method SetMGramId(tokens: seq<string>, index: map<string, ShortId>) returns (r: Result<Option<seq<nat>>>)
    ensures r.Err? <==> !(M_GRAM_LEVEL_2 <= |tokens| <= M_GRAM_LEVEL_5)
    ensures r.Ok? ==> (r.value.None? <==> !AllKnown(tokens, index))
    ensures r.Ok? && r.value.Some? ==>
      AllKnown(tokens, index) && r.value.value == GramId(5 * |tokens|, WordIds(tokens, index))
  {
    if |tokens| < M_GRAM_LEVEL_2 || |tokens| > M_GRAM_LEVEL_5 {
      return Err(CREATE_LEVEL_ERROR);
    }
    r := CreateGramId(TypeBitsOf(|tokens|), tokens, index);
  }

  // ---------------------------------------------------------------------------
  // Reading an id back
  // ---------------------------------------------------------------------------

  /** `copy_begin_bits_to_end`: the id type stored in the first `typeBits` bits. */
  function ReadType(id: seq<nat>, typeBits: nat): nat
    requires typeBits <= |id|
  {
    FromDigits(id[..typeBits], 2)
  }

  /** The byte at index `k` of the id. */
  function ByteAt(id: seq<nat>, k: nat): nat
    requires 8 * k + 8 <= |id|
  {
    FromDigits(id[8 * k..8 * k + 8], 2)
  }

  /** The id length in bytes that `get_gram_id_len` reads from the id type field. */
  function IdLenBytes(level: nat, id: seq<nat>): nat
    requires M_GRAM_LEVEL_2 <= level <= M_GRAM_LEVEL_5 && TypeBitsOf(level) <= |id|
  {
    BytesFor(TypeBitsOf(level) + Sum(DecodeType(ReadType(id, TypeBitsOf(level)), level, 32)))
  }

  /** An id of a supported level holds as many bytes as its type field says. */
  predicate WellSized(level: nat, id: seq<nat>)
  {
    && M_GRAM_LEVEL_2 <= level <= M_GRAM_LEVEL_5
    && TypeBitsOf(level) <= |id|
    && 8 * IdLenBytes(level, id) <= |id|
  }

  /** The id type read back from a created id is the type it was written with. */
  lemma ReadCreatedType(level: nat, ids: seq<ShortId>)
    requires M_GRAM_LEVEL_2 <= level <= M_GRAM_LEVEL_5 && |ids| == level
    ensures TypeBitsOf(level) <= |GramId(TypeBitsOf(level), ids)|
    ensures ReadType(GramId(TypeBitsOf(level), ids), TypeBitsOf(level)) == TypeCode(BitLens(ids), 32)
  {
    var tb := TypeBitsOf(level);
    var code := TypeCode(BitLens(ids), 32);
    var field := ToDigits(code, tb, 2);
    var id := GramId(tb, ids);
    assert id[..tb] == field;
    TypeCodeBound(BitLens(ids), 32);
    TypeLenBits(level);
    PowTwo(tb);
    ToDigitsRoundTrip(code, tb, 2);
  }

  /**
   * A created id is as long as the length read back from its type field:
   * `get_gram_id_len` after `create_gram_id` gives the id's own length.
   */
  lemma CreatedIdLength(level: nat, ids: seq<ShortId>)
    requires M_GRAM_LEVEL_2 <= level <= M_GRAM_LEVEL_5 && |ids| == level
    ensures WellSized(level, GramId(5 * level, ids))
    ensures |GramId(5 * level, ids)| == 8 * IdLenBytes(level, GramId(5 * level, ids))
    ensures |GramId(5 * level, ids)| == 8 * BytesFor(5 * level + Sum(BitLens(ids)))
  {
    ReadCreatedType(level, ids);
    GramIdLenOfType(5 * level, BitLens(ids));
    PayloadLength(ids);
  }

  // ---------------------------------------------------------------------------
  // compare
  // ---------------------------------------------------------------------------

  /** The bytes `[k, n)` of `a` come before those of `b` in lexicographic order. */
  function LessFrom(a: seq<nat>, b: seq<nat>, k: nat, n: nat): bool
    requires 8 * n <= |a| && 8 * n <= |b|
    decreases n - k
  {
    if k >= n then false
    else if ByteAt(a, k) < ByteAt(b, k) then true
    else if ByteAt(a, k) > ByteAt(b, k) then false
    else LessFrom(a, b, k + 1, n)
  }

  /**
   * The order of ids: by id type first; for equal types, by the bytes from the first
   * byte that holds payload bits up to the id length.
   */
  function IdLess(level: nat, a: seq<nat>, b: seq<nat>): bool
    requires WellSized(level, a) && WellSized(level, b)
  {
    var tb := TypeBitsOf(level);
    var ta, tt := ReadType(a, tb), ReadType(b, tb);
    ta < tt || (ta == tt && LessFrom(a, b, tb / 8, IdLenBytes(level, a)))
  }

  /**
   * `compare<IS_LESS>`: with `IS_LESS` it says whether `one` comes before `two`;
   * without it, whether `one` does not come before `two`.
   */
  method Compare(isLess: bool, level: nat, one: seq<nat>, two: seq<nat>) returns (r: bool)
    requires WellSized(level, one) && WellSized(level, two)
    ensures r == (IdLess(level, one, two) == isLess)
  {
    var typeBits := M_GRAM_ID_TYPE_LEN_BITS[level - M_GRAM_LEVEL_2];
    var typeOne := FromDigits(one[..typeBits], 2);
    var typeTwo := FromDigits(two[..typeBits], 2);
    if typeOne < typeTwo {
      return isLess;
    } else if typeOne > typeTwo {
      return !isLess;
    }
    var lenResult := GetGramIdLen(typeBits, level, typeOne);
    r := CompareBytes(isLess, one, two, typeBits / 8, lenResult.value);
  }

  /** The byte loop of `compare`: the first differing byte in `[from, n)` decides. */
  method CompareBytes(isLess: bool, one: seq<nat>, two: seq<nat>, from: nat, n: nat) returns (r: bool)
    requires 8 * n <= |one| && 8 * n <= |two|
    ensures r == (LessFrom(one, two, from, n) == isLess)
  {
    var idx := from;
    while idx < n
      invariant from <= idx
      invariant LessFrom(one, two, from, n) == LessFrom(one, two, idx, n)
      decreases n - idx
    {
      var byteOne := FromDigits(one[8 * idx..8 * idx + 8], 2);
      var byteTwo := FromDigits(two[8 * idx..8 * idx + 8], 2);
      if byteOne < byteTwo {
        return isLess;
      } else if byteOne > byteTwo {
        return !isLess;
      }
      idx := idx + 1;
    }
    return !isLess;
  }

  lemma {:induction false} LessFromIrreflexive(a: seq<nat>, k: nat, n: nat)
    requires 8 * n <= |a|
    ensures !LessFrom(a, a, k, n)
    decreases n - k
  {
    if k < n {
      LessFromIrreflexive(a, k + 1, n);
    }
  }

  lemma {:induction false} LessFromAsymmetric(a: seq<nat>, b: seq<nat>, k: nat, n: nat)
    requires 8 * n <= |a| && 8 * n <= |b| && LessFrom(a, b, k, n)
    ensures !LessFrom(b, a, k, n)
    decreases n - k
  {
    if ByteAt(a, k) == ByteAt(b, k) {
      LessFromAsymmetric(a, b, k + 1, n);
    }
  }

  lemma {:induction false} LessFromTransitive(a: seq<nat>, b: seq<nat>, c: seq<nat>, k: nat, n: nat)
    requires 8 * n <= |a| && 8 * n <= |b| && 8 * n <= |c|
    requires LessFrom(a, b, k, n) && LessFrom(b, c, k, n)
    ensures LessFrom(a, c, k, n)
    decreases n - k
  {
    if ByteAt(a, k) == ByteAt(b, k) == ByteAt(c, k) {
      LessFromTransitive(a, b, c, k + 1, n);
    }
  }

  lemma {:induction false} LessFromTotal(a: seq<nat>, b: seq<nat>, k: nat, n: nat)
    requires 8 * n <= |a| && 8 * n <= |b| && !LessFrom(a, b, k, n) && !LessFrom(b, a, k, n)
    ensures forall j :: k <= j < n ==> ByteAt(a, j) == ByteAt(b, j)
    decreases n - k
  {
    if k < n {
      LessFromTotal(a, b, k + 1, n);
    }
  }

  /** An id never comes before itself: `compare` of equal ids gives `!IS_LESS`. */
  lemma IdLessIrreflexive(level: nat, a: seq<nat>)
    requires WellSized(level, a)
    ensures !IdLess(level, a, a)
  {
    LessFromIrreflexive(a, TypeBitsOf(level) / 8, IdLenBytes(level, a));
  }

  /** Of two ids, at most one comes before the other. */
  lemma IdLessAsymmetric(level: nat, a: seq<nat>, b: seq<nat>)
    requires WellSized(level, a) && WellSized(level, b) && IdLess(level, a, b)
    ensures !IdLess(level, b, a)
  {
    var tb := TypeBitsOf(level);
    if ReadType(a, tb) == ReadType(b, tb) {
      LessFromAsymmetric(a, b, tb / 8, IdLenBytes(level, a));
    }
  }

  /** The order of ids is transitive. */
  lemma IdLessTransitive(level: nat, a: seq<nat>, b: seq<nat>, c: seq<nat>)
    requires WellSized(level, a) && WellSized(level, b) && WellSized(level, c)
    requires IdLess(level, a, b) && IdLess(level, b, c)
    ensures IdLess(level, a, c)
  {
    var tb := TypeBitsOf(level);
    if ReadType(a, tb) == ReadType(b, tb) == ReadType(c, tb) {
      LessFromTransitive(a, b, c, tb / 8, IdLenBytes(level, a));
    }
  }

  /**
   * Two ids neither of which comes before the other have the same id type and the
   * same bytes from the first payload byte on.
   */
  lemma IdLessTotal(level: nat, a: seq<nat>, b: seq<nat>)
    requires WellSized(level, a) && WellSized(level, b) && !IdLess(level, a, b) && !IdLess(level, b, a)
    ensures ReadType(a, TypeBitsOf(level)) == ReadType(b, TypeBitsOf(level))
    ensures forall j :: TypeBitsOf(level) / 8 <= j < IdLenBytes(level, a) ==> ByteAt(a, j) == ByteAt(b, j)
  {
    LessFromTotal(a, b, TypeBitsOf(level) / 8, IdLenBytes(level, a));
  }

  // ---------------------------------------------------------------------------
  // Created ids as keys
  // ---------------------------------------------------------------------------

  /** The payload bits are bits. */
  lemma {:induction false} PayloadIsBits(ids: seq<ShortId>)
    ensures IsDigits(PayloadBits(ids), 2)
  {
    if ids != [] {
      PayloadIsBits(ids[1..]);
    }
  }

  /** A created id is made of bits. */
  lemma GramIdIsBits(typeBits: nat, ids: seq<ShortId>)
    ensures IsDigits(GramId(typeBits, ids), 2)
  {
    PayloadIsBits(ids);
  }

  /** Two bit strings with the same byte at `k` agree on the bits of that byte. */
  lemma SameByteSameBits(a: seq<nat>, b: seq<nat>, k: nat)
    requires 8 * k + 8 <= |a| && 8 * k + 8 <= |b| && IsDigits(a, 2) && IsDigits(b, 2)
    requires ByteAt(a, k) == ByteAt(b, k)
    ensures a[8 * k..8 * k + 8] == b[8 * k..8 * k + 8]
  {
    ToFromDigits(a[8 * k..8 * k + 8], 2);
    ToFromDigits(b[8 * k..8 * k + 8], 2);
  }

  /**
   * Two ids of exactly the length their type fields give, neither of which comes before
   * the other, are the same bits.
   */
  lemma NeitherLessSameBits(level: nat, a: seq<nat>, b: seq<nat>)
    requires WellSized(level, a) && WellSized(level, b) && IsDigits(a, 2) && IsDigits(b, 2)
    requires |a| == 8 * IdLenBytes(level, a) && |b| == 8 * IdLenBytes(level, b)
    requires !IdLess(level, a, b) && !IdLess(level, b, a)
    ensures a == b
  {
    var tb := TypeBitsOf(level);
    IdLessTotal(level, a, b);
    ToFromDigits(a[..tb], 2);
    ToFromDigits(b[..tb], 2);
    SameFieldsSameBits(a, b, tb, IdLenBytes(level, a));
  }

  /** Bit strings of `n` bytes that agree on their first `tb` bits and on every later byte are equal. */
  lemma SameFieldsSameBits(a: seq<nat>, b: seq<nat>, tb: nat, n: nat)
    requires |a| == 8 * n && |b| == 8 * n && tb <= |a| && IsDigits(a, 2) && IsDigits(b, 2)
    requires a[..tb] == b[..tb]
    requires forall j :: tb / 8 <= j < n ==> ByteAt(a, j) == ByteAt(b, j)
    ensures a == b
  {
    forall p | 0 <= p < |a|
      ensures a[p] == b[p]
    {
      if p < tb {
        assert a[..tb][p] == b[..tb][p];
      } else {
        var j := p / 8;
        SameByteSameBits(a, b, j);
        assert a[8 * j..8 * j + 8][p - 8 * j] == b[8 * j..8 * j + 8][p - 8 * j];
      }
    }
  }

  /** Word ids with the same bit lengths and the same payload bits are the same. */
  lemma {:induction false} PayloadInjective(ids1: seq<ShortId>, ids2: seq<ShortId>)
    requires BitLens(ids1) == BitLens(ids2) && PayloadBits(ids1) == PayloadBits(ids2)
    ensures ids1 == ids2
  {
    if ids1 != [] {
      PayloadSplit(ids1, ids2);
      PayloadInjective(ids1[1..], ids2[1..]);
      assert ids1 == [ids1[0]] + ids1[1..];
      assert ids2 == [ids2[0]] + ids2[1..];
    }
  }

  /** The first word's bits close the payload; the same lengths split two equal payloads alike. */
  lemma PayloadSplit(ids1: seq<ShortId>, ids2: seq<ShortId>)
    requires ids1 != [] && BitLens(ids1) == BitLens(ids2) && PayloadBits(ids1) == PayloadBits(ids2)
    ensures ids1[0] == ids2[0]
    ensures BitLens(ids1[1..]) == BitLens(ids2[1..]) && PayloadBits(ids1[1..]) == PayloadBits(ids2[1..])
  {
    assert |ids2| == |ids1|;
    assert BitLens(ids1)[0] == BitLens(ids2)[0];
    assert BitLens(ids1[1..]) == BitLens(ids1)[1..];
    assert BitLens(ids2[1..]) == BitLens(ids2)[1..];
    PayloadLength(ids1[1..]);
    PayloadLength(ids2[1..]);
    var k := BitLen(ids1[0]);
    var p1, p2 := PayloadBits(ids1[1..]), PayloadBits(ids2[1..]);
    var c1, c2 := ToDigits(ids1[0], k, 2), ToDigits(ids2[0], k, 2);
    SplitEqual(p1, c1, p2, c2);
    LastChunkValue(ids1[0], ids2[0], k);
  }

  /** Equal concatenations with equal-length first parts have equal parts. */
  lemma SplitEqual(p1: seq<nat>, c1: seq<nat>, p2: seq<nat>, c2: seq<nat>)
    requires |p1| == |p2| && p1 + c1 == p2 + c2
    ensures p1 == p2 && c1 == c2
  {
    assert p1 == (p1 + c1)[..|p1|];
    assert p2 == (p2 + c2)[..|p2|];
    assert c1 == (p1 + c1)[|p1|..];
    assert c2 == (p2 + c2)[|p2|..];
  }

  /** A word id is given back by its significant bits. */
  lemma LastChunkValue(v1: ShortId, v2: ShortId, k: nat)
    requires k == BitLen(v1) == BitLen(v2) && ToDigits(v1, k, 2) == ToDigits(v2, k, 2)
    ensures v1 == v2
  {
    BitLenFits(v1);
    BitLenFits(v2);
    PowTwo(k);
    ToDigitsRoundTrip(v1, k, 2);
    ToDigitsRoundTrip(v2, k, 2);
  }

  /** Created ids of the same level that are the same bits come from the same word ids. */
  lemma GramIdInjective(level: nat, ids1: seq<ShortId>, ids2: seq<ShortId>)
    requires M_GRAM_LEVEL_2 <= level <= M_GRAM_LEVEL_5 && |ids1| == level && |ids2| == level
    requires GramId(5 * level, ids1) == GramId(5 * level, ids2)
    ensures ids1 == ids2
  {
    var tb := 5 * level;
    ReadCreatedType(level, ids1);
    ReadCreatedType(level, ids2);
    DecodeTypeCode(BitLens(ids1), 32);
    DecodeTypeCode(BitLens(ids2), 32);
    PayloadLength(ids1);
    PayloadLength(ids2);
    var w1, w2 := WrittenBits(tb, ids1), WrittenBits(tb, ids2);
    assert w1 == GramId(tb, ids1)[..|w1|];
    assert w2 == GramId(tb, ids2)[..|w2|];
    assert PayloadBits(ids1) == w1[tb..];
    assert PayloadBits(ids2) == w2[tb..];
    PayloadInjective(ids1, ids2);
  }

  /**
   * With the id memory cleared, the created ids of two m-grams of the same level are
   * well sized, and neither comes before the other exactly when the word ids are equal:
   * `compare` is a faithful key order for m-grams.
   */
  lemma CreatedIdsEqualIffSameWords(level: nat, ids1: seq<ShortId>, ids2: seq<ShortId>)
    requires M_GRAM_LEVEL_2 <= level <= M_GRAM_LEVEL_5 && |ids1| == level && |ids2| == level
    ensures WellSized(level, GramId(5 * level, ids1)) && WellSized(level, GramId(5 * level, ids2))
    ensures (!IdLess(level, GramId(5 * level, ids1), GramId(5 * level, ids2))
             && !IdLess(level, GramId(5 * level, ids2), GramId(5 * level, ids1)))
            <==> ids1 == ids2
  {
    var a, b := GramId(5 * level, ids1), GramId(5 * level, ids2);
    CreatedIdLength(level, ids1);
    CreatedIdLength(level, ids2);
    if ids1 == ids2 {
      IdLessIrreflexive(level, a);
    } else if !IdLess(level, a, b) && !IdLess(level, b, a) {
      GramIdIsBits(5 * level, ids1);
      GramIdIsBits(5 * level, ids2);
      NeitherLessSameBits(level, a, b);
      GramIdInjective(level, ids1, ids2);
    }
  }

  // ---------------------------------------------------------------------------
  // Memory that create_gram_id allocates itself
  // ---------------------------------------------------------------------------

  /**
   * `create_gram_id` as written when no memory is passed in: `new uint8_t[len]` is not
   * cleared, so the padding bits after the written ones keep what `memory` held.
   */
  function NewGramIdAsWritten(typeBits: nat, ids: seq<ShortId>, memory: seq<nat>): (id: seq<nat>)
    requires |memory| == |GramId(typeBits, ids)|
    ensures |id| == |memory|
  {
    var bits := WrittenBits(typeBits, ids);
    bits + memory[|bits|..]
  }

  /**
   * The 2-gram of word ids 1 and 1 needs 12 bits; in two fresh blocks that differ in the
   * last padding bit its two ids differ, and `compare` puts one before the other.
   */
  lemma FreshPaddingSplitsOneMGram()
    ensures var ids: seq<ShortId> := [1, 1];
            var a := NewGramIdAsWritten(10, ids, Zeros(16));
            var b := NewGramIdAsWritten(10, ids, Zeros(15) + [1]);
            WellSized(2, a) && WellSized(2, b) && IdLess(2, a, b)
  {
    var ids: seq<ShortId> := [1, 1];
    OnesWritten();
    assert |GramId(10, ids)| == 16;
    var a := NewGramIdAsWritten(10, ids, Zeros(16));
    var b := NewGramIdAsWritten(10, ids, Zeros(15) + [1]);
    assert Zeros(16)[12..] == Zeros(4);
    assert (Zeros(15) + [1])[12..] == Zeros(3) + [1];
    OnesTypes(a, b);
    OnesBytes(a, b);
  }

  /** The written bits of the 2-gram of word ids 1 and 1: a zero id type, then two one bits. */
  lemma OnesWritten()
    ensures WrittenBits(10, [1, 1]) == Zeros(10) + [1, 1]
  {
    OnesType();
    OnesPayload();
    ZerosDigits(10);
  }

  lemma OnesType()
    ensures BitLens([1, 1]) == [1, 1] && TypeCode([1, 1], 32) == 0
  {
    var lens: seq<nat> := [1, 1];
    assert lens[..1] == [1];
  }

  lemma OnesPayload()
    ensures PayloadBits([1, 1]) == [1, 1]
  {
    var ids: seq<ShortId> := [1, 1];
    assert ids[1..] == [1] && ids[1..][1..] == [];
    assert ToDigits(1, 1, 2) == [1];
  }

  /** Zero written on `n` bits is `n` zero bits. */
  lemma {:induction false} ZerosDigits(n: nat)
    ensures ToDigits(0, n, 2) == Zeros(n)
  {
    if n > 0 {
      ZerosDigits(n - 1);
      assert Zeros(n) == Zeros(n - 1) + [0];
    }
  }

  lemma OnesTypes(a: seq<nat>, b: seq<nat>)
    requires a == Zeros(10) + [1, 1] + Zeros(4)
    requires b == Zeros(10) + [1, 1] + (Zeros(3) + [1])
    ensures WellSized(2, a) && WellSized(2, b) && IdLenBytes(2, a) == 2
    ensures ReadType(a, 10) == 0 && ReadType(b, 10) == 0
  {
    assert a[..10] == Zeros(10) && b[..10] == Zeros(10);
    FromDigitsZeros(10);
    assert DecodeType(0, 1, 32) == [1];
    assert DecodeType(0, 2, 32) == [1, 1];
    assert Sum([1, 1]) == 2 by {
      assert [1, 1][..1] == [1];
    }
  }

  lemma OnesBytes(a: seq<nat>, b: seq<nat>)
    requires a == Zeros(10) + [1, 1] + Zeros(4)
    requires b == Zeros(10) + [1, 1] + (Zeros(3) + [1])
    ensures ByteAt(a, 1) == 48 && ByteAt(b, 1) == 49
  {
    ByteValue(a[8..16]);
    ByteValue(b[8..16]);
  }

  /** The value of a byte from its eight bits, the most significant first. */
  lemma ByteValue(s: seq<nat>)
    requires |s| == 8
    ensures FromDigits(s, 2) == 128 * s[0] + 64 * s[1] + 32 * s[2] + 16 * s[3] + 8 * s[4] + 4 * s[5] + 2 * s[6] + s[7]
  {
    assert s[..1][..0] == [];
    assert FromDigits(s[..1], 2) == s[0];
    assert s[..2][..1] == s[..1];
    assert FromDigits(s[..2], 2) == 2 * s[0] + s[1];
    assert s[..3][..2] == s[..2];
    assert FromDigits(s[..3], 2) == 4 * s[0] + 2 * s[1] + s[2];
    assert s[..4][..3] == s[..3];
    assert FromDigits(s[..4], 2) == 8 * s[0] + 4 * s[1] + 2 * s[2] + s[3];
    assert s[..5][..4] == s[..4];
    assert FromDigits(s[..5], 2) == 16 * s[0] + 8 * s[1] + 4 * s[2] + 2 * s[3] + s[4];
    assert s[..6][..5] == s[..5];
    assert FromDigits(s[..6], 2) == 32 * s[0] + 16 * s[1] + 8 * s[2] + 4 * s[3] + 2 * s[4] + s[5];
    assert s[..7][..6] == s[..6];
    assert FromDigits(s[..7], 2) == 64 * s[0] + 32 * s[1] + 16 * s[2] + 8 * s[3] + 4 * s[4] + 2 * s[5] + s[6];
    assert s[..7] == s[..|s| - 1];
  }

  /** All-zero bits read as zero. */
  lemma {:induction false} FromDigitsZeros(n: nat)
    ensures FromDigits(Zeros(n), 2) == 0
  {
    if n > 0 {
      assert Zeros(n)[..n - 1] == Zeros(n - 1);
      FromDigitsZeros(n - 1);
    }
  }

  // ---------------------------------------------------------------------------
  // Memory that the level constructor allocates
  // ---------------------------------------------------------------------------

  /** As written, the id memory that the level constructor allocates: 4 bytes per word. */
  function MaxIdLenBytesAsWritten(level: nat): (n: nat)
    requires M_GRAM_LEVEL_2 <= level <= M_GRAM_LEVEL_6
    ensures n == 4 * level
  {
    M_GRAM_MAX_ID_LEN_BYTES[level - M_GRAM_LEVEL_2]
  }

  /** The 2-gram of two 32-bit word ids needs 10 bytes, more than the 8 allocated. */
  lemma MaxIdLenTooSmall(ids: seq<ShortId>)
    requires ids == [0xFFFF_FFFF, 0xFFFF_FFFF]
    ensures |GramId(10, ids)| == 8 * 10 && MaxIdLenBytesAsWritten(2) < 10
  {
    FullBitLen(ids[0]);
    assert BitLens(ids) == [32, 32];
    assert Sum([32, 32]) == 64 by {
      assert [32, 32][..1] == [32];
    }
    CreatedIdLength(2, ids);
  }

  /** The largest word id has 32 significant bits. */
  lemma FullBitLen(v: ShortId)
    requires v == 0xFFFF_FFFF
    ensures BitLen(v) == 32
  {
    TwoPow32();
    assert Pow2(31) == 0x8000_0000;
    BitLenPow(v, 31);
    BitLenPow(v, 32);
  }

  /** The longest id of a level: its type field and 32 bits per word, in whole bytes. */
  function MaxIdLenBytes(level: nat): (n: nat)
    ensures n == BytesFor(37 * level)
  {
    BytesFor(5 * level + 32 * level)
  }

  /** Every created id fits the memory `MaxIdLenBytes` gives its level. */
  lemma CreatedIdFits(level: nat, ids: seq<ShortId>)
    requires M_GRAM_LEVEL_2 <= level <= M_GRAM_LEVEL_5 && |ids| == level
    ensures |GramId(5 * level, ids)| <= 8 * MaxIdLenBytes(level)
  {
    CreatedIdLength(level, ids);
    SumBound(BitLens(ids), 32);
    BytesForMono(5 * level + Sum(BitLens(ids)), 37 * level);
  }

  lemma BytesForMono(x: nat, y: nat)
    requires x <= y
    ensures BytesFor(x) <= BytesFor(y)
  {
  }
}
