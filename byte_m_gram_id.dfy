/**
 * The byte-compressed m-gram id (`Byte_M_Gram_Id`): the id of an m-gram of 2 to 6
 * word ids is the id type, which records how many bytes each word id needs, followed
 * by the significant bytes of each word id in turn.
 *
 * A word id is of a type `w` bytes wide (`uint32_t` or `uint64_t`). The bytes of a
 * value are written most significant first, and the id type is the base-`w` number
 * whose digit `i` is the byte length of word id `i` minus one.
 */
module ByteMGramIds {
  import opened Wrappers
  import opened Digits
  import opened Bits

  /** The message of the error raised for an m-gram level outside 2..6. */
  const UNSUPPORTED_LEVEL_ERROR: string := "create_m_gram_id: Unsupported m-gram level"

  const M_GRAM_LEVEL_2: nat := 2
  const M_GRAM_LEVEL_6: nat := 6

  const MAX_VALUE_UINT8_T: nat := 0xFF
  const MAX_VALUE_UINT16_T: nat := 0xFFFF
  const MAX_VALUE_UINT24_T: nat := 0xFF_FFFF
  const MAX_VALUE_UINT32_T: nat := 0xFFFF_FFFF
  const MAX_VALUE_UINT40_T: nat := 0xFF_FFFF_FFFF
  const MAX_VALUE_UINT48_T: nat := 0xFFFF_FFFF_FFFF
  const MAX_VALUE_UINT56_T: nat := 0xFF_FFFF_FFFF_FFFF
  const MAX_VALUE_UINT64_T: nat := 0xFFFF_FFFF_FFFF_FFFF

  const TOO_WIDE_ERROR: string := "uint8_t get_number_of_bytes(const uint64_t word_id): Does not support more than 8 byte values yet!"

  /** The width in bytes of the word id types the ids are instantiated for. */
  predicate WordIdWidth(w: nat)
  {
    w == 4 || w == 8
  }

  /** The number of base-256 digits of a value: the bytes it needs, at least one. */
  function NumBytes(v: nat): (k: nat)
    ensures 1 <= k
  {
    if v < 256 then 1 else 1 + NumBytes(v / 256)
  }

  /** A value needs at most `k` bytes exactly when it is below `256^k`. */
  lemma {:induction false} NumBytesPow(v: nat, k: nat)
    requires 1 <= k
    ensures NumBytes(v) <= k <==> v < Pow(256, k)
  {
    PowMono(256, 1, k);
    if 256 <= v && 1 < k {
      NumBytesPow(v / 256, k - 1);
      var p := Pow(256, k - 1);
      assert v / 256 < p <==> v < 256 * p;
    }
  }

  /** Every word id fits the word id type: it needs at most `w` bytes. */
  predicate FitsWordId(ids: seq<nat>, w: nat)
  {
    forall i :: 0 <= i < |ids| ==> NumBytes(ids[i]) <= w
  }

  /** `MAX_VALUE_IN_BYTES(k)`: the largest value `k` bytes hold. */
  function MaxValueInBytes(k: nat): nat
    requires 1 <= k <= 8
  {
    match k
    case 1 => MAX_VALUE_UINT8_T
    case 2 => MAX_VALUE_UINT16_T
    case 3 => MAX_VALUE_UINT24_T
    case 4 => MAX_VALUE_UINT32_T
    case 5 => MAX_VALUE_UINT40_T
    case 6 => MAX_VALUE_UINT48_T
    case 7 => MAX_VALUE_UINT56_T
    case 8 => MAX_VALUE_UINT64_T
  }

  /** The largest value of `k` bytes is `256^k - 1`. */
  lemma MaxValueInBytesPow(k: nat)
    requires 1 <= k <= 8
    ensures MaxValueInBytes(k) + 1 == Pow(256, k)
  {
    assert Pow(256, 1) == 0x100;
    assert Pow(256, 2) == 0x1_0000;
    assert Pow(256, 3) == 0x100_0000;
    assert Pow(256, 4) == 0x1_0000_0000;
    assert Pow(256, 5) == 0x100_0000_0000;
    assert Pow(256, 6) == 0x1_0000_0000_0000;
    assert Pow(256, 7) == 0x100_0000_0000_0000;
    assert Pow(256, 8) == 0x1_0000_0000_0000_0000;
  }

  /**
   * `get_number_of_bytes`: compares the word id with the largest value of 1, 2, ...
   * 8 bytes in turn; a value wider than 8 bytes is refused.
   */
  function GetNumberOfBytes(wordId: nat): (r: Result<nat>)
    ensures r.Ok? <==> wordId <= MAX_VALUE_UINT64_T
    ensures r.Ok? ==> 1 <= r.value <= 8 && wordId <= MaxValueInBytes(r.value)
    ensures r.Ok? && 1 < r.value ==> MaxValueInBytes(r.value - 1) < wordId
  {
    if wordId <= MAX_VALUE_UINT8_T then Ok(1)
    else if wordId <= MAX_VALUE_UINT16_T then Ok(2)
    else if wordId <= MAX_VALUE_UINT24_T then Ok(3)
    else if wordId <= MAX_VALUE_UINT32_T then Ok(4)
    else if wordId <= MAX_VALUE_UINT40_T then Ok(5)
    else if wordId <= MAX_VALUE_UINT48_T then Ok(6)
    else if wordId <= MAX_VALUE_UINT56_T then Ok(7)
    else if wordId <= MAX_VALUE_UINT64_T then Ok(8)
    else Err(TOO_WIDE_ERROR)
  }

  /**
   * `get_number_of_bytes` gives the fewest bytes that hold the word id: the number
   * of its base-256 digits.
   */
  lemma NumberOfBytesIsNumBytes(wordId: nat)
    requires wordId <= MAX_VALUE_UINT64_T
    ensures GetNumberOfBytes(wordId) == Ok(NumBytes(wordId))
  {
    var k := GetNumberOfBytes(wordId).value;
    MaxValueInBytesPow(k);
    NumBytesPow(wordId, k);
    if 1 < k {
      MaxValueInBytesPow(k - 1);
      NumBytesPow(wordId, k - 1);
    }
  }

  /** A word id fits `w` bytes exactly when it is below `256^w`; it is then accepted. */
  lemma FitsWordIdAt(ids: seq<nat>, w: nat, i: nat)
    requires WordIdWidth(w) && i < |ids|
    ensures NumBytes(ids[i]) <= w <==> ids[i] < Pow(256, w)
    ensures NumBytes(ids[i]) <= w ==> GetNumberOfBytes(ids[i]) == Ok(NumBytes(ids[i]))
  {
    NumBytesPow(ids[i], w);
    if NumBytes(ids[i]) <= w {
      MaxValueInBytesPow(w);
      MaxValueInBytesPow(8);
      PowMono(256, w, 8);
      NumberOfBytesIsNumBytes(ids[i]);
    }
  }

  /** The byte lengths of the word ids, in order. */
  function Lens(ids: seq<nat>, w: nat): (lens: seq<nat>)
    requires FitsWordId(ids, w)
    ensures |lens| == |ids| && LensIn(lens, w)
  {
    if ids == [] then [] else Lens(ids[..|ids| - 1], w) + [NumBytes(ids[|ids| - 1])]
  }

  /** There is at least one id type of each level. */
  lemma TypeCountPositive(n: nat, w: nat)
    requires WordIdWidth(w)
    ensures 1 <= Pow(w, n)
  {
  }

  /**
   * `ID_TYPE_LEN_BYTES[n]`: the byte length of the number of id types of level `n`,
   * `NUMBER_ID_TYPES_PER_LEVEL[n] = w^n`.
   */
  function TypeLenBytes(n: nat, w: nat): (k: nat)
    requires WordIdWidth(w) && n <= M_GRAM_LEVEL_6
    ensures 1 <= k
  {
    NumBytes(Pow(w, n))
  }

  /** Every id type of level `n`, `0` to `w^n - 1`, fits `ID_TYPE_LEN_BYTES[n]` bytes. */
  lemma TypeLenBytesFits(n: nat, w: nat)
    requires WordIdWidth(w) && n <= M_GRAM_LEVEL_6
    ensures Pow(w, n) < Pow(256, TypeLenBytes(n, w))
  {
    NumBytesPow(Pow(w, n), TypeLenBytes(n, w));
  }

  /** The significant bytes of each word id, one after the other. */
  function Payload(ids: seq<nat>, lens: seq<nat>): (s: seq<nat>)
    requires |ids| == |lens|
    ensures |s| == Sum(lens) && IsDigits(s, 256)
  {
    if ids == [] then []
    else Payload(ids[..|ids| - 1], lens[..|lens| - 1]) + ToDigits(ids[|ids| - 1], lens[|lens| - 1], 256)
  }

  /** The id of the m-gram with these word ids: its type, then the word ids' bytes. */
  function MGramId(ids: seq<nat>, w: nat): (id: seq<nat>)
    requires WordIdWidth(w) && FitsWordId(ids, w) && M_GRAM_LEVEL_2 <= |ids| <= M_GRAM_LEVEL_6
  {
    var lens := Lens(ids, w);
    ToDigits(TypeCode(lens, w), TypeLenBytes(|ids|, w), 256) + Payload(ids, lens)
  }

  // ---------------------------------------------------------------------------
  // Reading an id back
  // ---------------------------------------------------------------------------

  /** The word ids stored with these byte lengths, one after the other. */
  function ReadIds(s: seq<nat>, lens: seq<nat>): (ids: seq<nat>)
    requires |s| == Sum(lens)
    ensures |ids| == |lens|
    decreases |lens|
  {
    if lens == [] then []
    else
      var k := lens[|lens| - 1];
      ReadIds(s[..|s| - k], lens[..|lens| - 1]) + [FromDigits(s[|s| - k..], 256)]
  }

  /**
   * Reads an id of level `n`: the type from its first bytes, the byte lengths from
   * the type, and then the word ids; none when the length does not match the type.
   */
  function DecodeMGramId(id: seq<nat>, n: nat, w: nat): (r: Option<seq<nat>>)
    requires WordIdWidth(w) && n <= M_GRAM_LEVEL_6
    ensures r.Some? ==> |r.value| == n
  {
    var tl := TypeLenBytes(n, w);
    if |id| < tl then None
    else
      var lens := DecodeType(FromDigits(id[..tl], 256), n, w);
      if |id| != tl + Sum(lens) then None
      else Some(ReadIds(id[tl..], lens))
  }

  lemma {:induction false} ReadPayload(ids: seq<nat>, lens: seq<nat>)
    requires |ids| == |lens| && forall i :: 0 <= i < |ids| ==> ids[i] < Pow(256, lens[i])
    ensures ReadIds(Payload(ids, lens), lens) == ids
  {
    if ids != [] {
      var n := |ids|;
      ReadPayload(ids[..n - 1], lens[..n - 1]);
      ReadPayloadStep(ids, lens);
    }
  }

  /** Reading the last word id back from the last bytes of the payload. */
  lemma ReadPayloadStep(ids: seq<nat>, lens: seq<nat>)
    requires |ids| == |lens| && ids != [] && ids[|ids| - 1] < Pow(256, lens[|lens| - 1])
    requires ReadIds(Payload(ids[..|ids| - 1], lens[..|lens| - 1]), lens[..|lens| - 1]) == ids[..|ids| - 1]
    ensures ReadIds(Payload(ids, lens), lens) == ids
  {
    var n := |ids|;
    LastSplit(ids);
    var s := Payload(ids, lens);
    var k := lens[n - 1];
    var front, last := Payload(ids[..n - 1], lens[..n - 1]), ToDigits(ids[n - 1], k, 256);
    assert s == front + last;
    assert s[..|s| - k] == front && s[|s| - k..] == last;
    ToDigitsRoundTrip(ids[n - 1], k, 256);
  }

  /** A non-empty sequence is its front followed by its last element. */
  lemma LastSplit(s: seq<nat>)
    requires s != []
    ensures s == s[..|s| - 1] + [s[|s| - 1]]
  {
  }

  /**
   * The id is as long as its type plus the byte lengths of its word ids: at most
   * `MAX_ID_LEN_BYTES`, the type plus `w` bytes per word id, and below 256.
   */
  lemma MGramIdLength(ids: seq<nat>, w: nat)
    requires WordIdWidth(w) && FitsWordId(ids, w) && M_GRAM_LEVEL_2 <= |ids| <= M_GRAM_LEVEL_6
    ensures |MGramId(ids, w)| == TypeLenBytes(|ids|, w) + Sum(Lens(ids, w))
    ensures Sum(Lens(ids, w)) <= |ids| * w && Sum(Lens(ids, w)) < 256
  {
    SumBound(Lens(ids, w), w);
    MulMono(|ids|, 6, w, 8);
  }

  /** A prefix of the lengths sums to no more than all of them. */
  lemma {:induction false} SumPrefix(s: seq<nat>, i: nat)
    requires i <= |s|
    ensures Sum(s[..i]) <= Sum(s)
    decreases |s| - i
  {
    if i < |s| {
      SumPrefix(s, i + 1);
      assert s[..i + 1][..i] == s[..i];
    } else {
      assert s[..i] == s;
    }
  }

  /** An id reads back as the word ids it was made from. */
  lemma DecodeMGramIdRoundTrip(ids: seq<nat>, w: nat)
    requires WordIdWidth(w) && FitsWordId(ids, w) && M_GRAM_LEVEL_2 <= |ids| <= M_GRAM_LEVEL_6
    ensures DecodeMGramId(MGramId(ids, w), |ids|, w) == Some(ids)
  {
    var n := |ids|;
    var lens := Lens(ids, w);
    var tl := TypeLenBytes(n, w);
    var id := MGramId(ids, w);
    var t := TypeCode(lens, w);
    TypeCodeBound(lens, w);
    TypeLenBytesFits(n, w);
    assert id[..tl] == ToDigits(t, tl, 256);
    ToDigitsRoundTrip(t, tl, 256);
    DecodeTypeCode(lens, w);
    assert id[tl..] == Payload(ids, lens);
    forall i | 0 <= i < n
      ensures ids[i] < Pow(256, lens[i])
    {
      LensAt(ids, w, i);
      NumBytesPow(ids[i], lens[i]);
    }
    ReadPayload(ids, lens);
  }

  lemma {:induction false} LensAt(ids: seq<nat>, w: nat, i: nat)
    requires FitsWordId(ids, w) && i < |ids|
    ensures Lens(ids, w)[i] == NumBytes(ids[i])
  {
    if i < |ids| - 1 {
      LensAt(ids[..|ids| - 1], w, i);
    }
  }

  // ---------------------------------------------------------------------------
  // Filling an id in
  // ---------------------------------------------------------------------------

  /**
   * `compute_byte_lengths`: the byte length of each word id, and their total in a
   * `uint8_t`.
   */
  method ComputeByteLengths(wordIds: seq<nat>, w: nat) returns (lens: seq<nat>, total: nat)
    requires WordIdWidth(w) && FitsWordId(wordIds, w)
    ensures lens == Lens(wordIds, w)
    ensures total == Sum(lens) % 256
  {
    lens := [];
    total := 0;
    for idx := 0 to |wordIds|
      invariant lens == Lens(wordIds[..idx], w)
      invariant total == Sum(lens) % 256
    {
      FitsWordIdAt(wordIds, w, idx);
      var len := GetNumberOfBytes(wordIds[idx]).value;
      LensStep(wordIds, w, idx);
      SumModStep(lens, total, len);
      lens := lens + [len];
      total := (total + len) % 256;
    }
    assert wordIds[..|wordIds|] == wordIds;
  }

  /** The byte lengths of one more word id: one more length. */
  lemma LensStep(ids: seq<nat>, w: nat, idx: nat)
    requires FitsWordId(ids, w) && idx < |ids|
    ensures Lens(ids[..idx + 1], w) == Lens(ids[..idx], w) + [NumBytes(ids[idx])]
  {
    assert ids[..idx + 1][..idx] == ids[..idx];
  }

  /** A running total kept modulo 256 stays the sum modulo 256. */
  lemma SumModStep(lens: seq<nat>, total: nat, len: nat)
    requires total == Sum(lens) % 256
    ensures (total + len) % 256 == Sum(lens + [len]) % 256
  {
    assert (lens + [len])[..|lens|] == lens;
    ModAddMod(Sum(lens), len, 256);
  }

  /**
   * Writes the `len` low-order bytes of `value`, most significant first, at `pos`
   * (`copy_end_bytes_to_pos`); the other bytes of the buffer are left alone.
   */
  method CopyEndBytesToPos(value: nat, len: nat, buf: array<nat>, pos: nat)
    requires pos + len <= buf.Length
    modifies buf
    ensures buf[..] == old(buf[..pos]) + ToDigits(value, len, 256) + old(buf[pos + len..])
  {
    var bytes := ToDigits(value, len, 256);
    for j := 0 to len
      invariant forall k :: 0 <= k < buf.Length ==> buf[k] == if pos <= k < pos + j then bytes[k - pos] else old(buf[k])
    {
      buf[pos + j] := bytes[j];
    }
    assert buf[..] == old(buf[..pos]) + bytes + old(buf[pos + len..]);
  }

  /**
   * `create_m_gram_id`: refuses a level outside `[2, 6]`; otherwise allocates an id
   * of exactly the needed length and writes the type and then each word id's bytes.
   */
  method CreateMGramId(wordIds: seq<nat>, w: nat) returns (r: Result<array<nat>>)
    requires WordIdWidth(w) && FitsWordId(wordIds, w)
    ensures r.Err? <==> !(M_GRAM_LEVEL_2 <= |wordIds| <= M_GRAM_LEVEL_6)
    ensures r.Ok? ==> fresh(r.value) && r.value[..] == MGramId(wordIds, w)
  {
    if |wordIds| < M_GRAM_LEVEL_2 || |wordIds| > M_GRAM_LEVEL_6 {
      return Err(UNSUPPORTED_LEVEL_ERROR);
    }
    var typeLen := TypeLenBytes(|wordIds|, w);
    var lens, total := ComputeByteLengths(wordIds, w);
    MGramIdLength(wordIds, w);
    DivModUnique(Sum(lens), 256, 0, Sum(lens));
    var id := new nat[typeLen + total];
    ghost var head := ToDigits(TypeCode(lens, w), typeLen, 256);
    CopyEndBytesToPos(TypeCode(lens, w), typeLen, id, 0);
    assert id[..typeLen] == head;
    ghost var withHead := id[..];
    var end := CopyPayload(wordIds, lens, id, typeLen);
    assert withHead[end..] == [];
    assert id[..] == head + Payload(wordIds, lens);
    r := Ok(id);
  }

  /**
   * `compute_m_gram_id`: the same id written into a buffer allocated for the longest
   * id of the level, word ids first and the type last; returns the id length.
   */
  method ComputeMGramId(wordIds: seq<nat>, w: nat, buf: array<nat>) returns (r: Result<nat>)
    requires WordIdWidth(w) && FitsWordId(wordIds, w)
    requires M_GRAM_LEVEL_2 <= |wordIds| <= M_GRAM_LEVEL_6 ==> TypeLenBytes(|wordIds|, w) + |wordIds| * w <= buf.Length
    modifies buf
    ensures r.Err? <==> !(M_GRAM_LEVEL_2 <= |wordIds| <= M_GRAM_LEVEL_6)
    ensures r.Ok? ==> r.value <= buf.Length && buf[..r.value] == MGramId(wordIds, w)
  {
    if |wordIds| < M_GRAM_LEVEL_2 || |wordIds| > M_GRAM_LEVEL_6 {
      return Err(UNSUPPORTED_LEVEL_ERROR);
    }
    var typeLen := TypeLenBytes(|wordIds|, w);
    var lens := Lens(wordIds, w);
    MGramIdLength(wordIds, w);
    var idLen := CopyPayload(wordIds, lens, buf, typeLen);
    ghost var body := buf[..];
    assert body[typeLen..idLen] == Payload(wordIds, lens);
    ghost var head := ToDigits(TypeCode(lens, w), typeLen, 256);
    CopyEndBytesToPos(TypeCode(lens, w), typeLen, buf, 0);
    HeadWritten(body, buf[..], head, idLen);
    r := Ok(idLen);
  }

  /**
   * The loop of both: writes the significant bytes of each word id, one after the
   * other, from `start`, and returns where they end.
   */
  method CopyPayload(ids: seq<nat>, lens: seq<nat>, buf: array<nat>, start: nat) returns (end: nat)
    requires |ids| == |lens| && start + Sum(lens) <= buf.Length
    modifies buf
    ensures end == start + Sum(lens)
    ensures buf[..] == old(buf[..start]) + Payload(ids, lens) + old(buf[end..])
  {
    end := start;
    for idx := 0 to |ids|
      invariant end == start + Sum(lens[..idx]) <= buf.Length
      invariant buf[..] == old(buf[..start]) + Payload(ids[..idx], lens[..idx]) + old(buf[end..])
    {
      PayloadStep(ids, lens, idx);
      SumPrefix(lens, idx + 1);
      ghost var prev := buf[..];
      CopyEndBytesToPos(ids[idx], lens[idx], buf, end);
      BytesAppended(old(buf[..]), prev, buf[..], start, end, Payload(ids[..idx], lens[..idx]), ToDigits(ids[idx], lens[idx], 256));
      end := end + lens[idx];
    }
    assert ids[..|ids|] == ids && lens[..|lens|] == lens;
  }

  /** Bytes `d` written right after the bytes `p` written at `start` extend them. */
  lemma BytesAppended(orig: seq<nat>, prev: seq<nat>, after: seq<nat>, start: nat, end: nat, p: seq<nat>, d: seq<nat>)
    requires start + |p| == end && end + |d| <= |orig|
    requires prev == orig[..start] + p + orig[end..]
    requires after == prev[..end] + d + prev[end + |d|..]
    ensures after == orig[..start] + (p + d) + orig[end + |d|..]
  {
    assert prev[..end] == orig[..start] + p;
    assert prev[end + |d|..] == orig[end + |d|..];
  }

  /** Writing `head` at the front leaves the bytes after it, up to `hi`, as they were. */
  lemma HeadWritten(before: seq<nat>, after: seq<nat>, head: seq<nat>, hi: nat)
    requires |head| <= hi <= |before|
    requires after == before[..0] + head + before[|head|..]
    ensures after[..hi] == head + before[|head|..hi]
  {
  }

  /** One more word id's bytes extend the payload and the running position. */
  lemma PayloadStep(ids: seq<nat>, lens: seq<nat>, idx: nat)
    requires |ids| == |lens| && idx < |ids|
    ensures Payload(ids[..idx + 1], lens[..idx + 1]) == Payload(ids[..idx], lens[..idx]) + ToDigits(ids[idx], lens[idx], 256)
    ensures Sum(lens[..idx + 1]) == Sum(lens[..idx]) + lens[idx]
  {
    assert ids[..idx + 1][..idx] == ids[..idx];
    assert lens[..idx + 1][..idx] == lens[..idx];
  }

  // ---------------------------------------------------------------------------
  // The type table lookup
  // ---------------------------------------------------------------------------

  /**
   * The table positions `gram_id_byte_len_2_type` reads, as written: each byte
   * length itself, into dimensions of size `w`.
   */
  function TypeTableIndexAsWritten(lens: seq<nat>): (idx: seq<nat>)
    ensures idx == lens
  {
    lens
  }

  /** The table positions shifted down by one: the digits of the id type. */
  function TypeTableIndex(lens: seq<nat>): (idx: seq<nat>)
    requires forall i :: 0 <= i < |lens| ==> 1 <= lens[i]
    ensures |idx| == |lens| && forall i :: 0 <= i < |lens| ==> idx[i] + 1 == lens[i]
  {
    if lens == [] then [] else TypeTableIndex(lens[..|lens| - 1]) + [lens[|lens| - 1] - 1]
  }

  /** Every position is inside the table. */
  predicate InTable(idx: seq<nat>, w: nat)
  {
    forall i :: 0 <= i < |idx| ==> idx[i] < w
  }

  /** A `uint32_t` word id of 2^24 needs 4 bytes, one past the last row of a table of 4. */
  lemma TypeTableOverrun()
    ensures var lens := Lens([0x100_0000, 2], 4);
            lens == [4, 1] && !InTable(TypeTableIndexAsWritten(lens), 4)
  {
    assert NumBytes(0x100_0000) == 1 + NumBytes(0x1_0000) == 2 + NumBytes(0x100) == 3 + NumBytes(1) == 4;
    var ids := [0x100_0000, 2];
    assert FitsWordId(ids, 4);
    assert ids[..1] == [0x100_0000] && ids[..1][..0] == [];
    assert Lens(ids[..1], 4) == [NumBytes(0x100_0000)] == [4];
    assert Lens(ids, 4) == [4, NumBytes(2)] == [4, 1];
    assert !(TypeTableIndexAsWritten([4, 1])[0] < 4);
  }

  /** Shifted by one, the byte lengths of word ids always index inside the table. */
  lemma TypeTableIndexInBounds(ids: seq<nat>, w: nat)
    requires WordIdWidth(w) && FitsWordId(ids, w)
    ensures InTable(TypeTableIndex(Lens(ids, w)), w)
  {
  }
}
