/**
 * Integer pairing functions and byte-string hashes of the language-model code.
 * Word and context ids are 64-bit unsigned (`TLongId`) or 32-bit unsigned (`TShortId`);
 * `uint_fast32_t` is 64 bits wide on the x86-64 targets the server is built for,
 * so every string hash below wraps modulo 2^64. `char` is signed on those targets.
 */
module Hashing {
  import opened Wrappers

  // ---------------------------------------------------------------------------
  // Fixed-width helpers
  // ---------------------------------------------------------------------------

  /** A `char` byte sign-extended to 64 bits, as `data[i]` enters 64-bit arithmetic. */
  function SignExtend(c: bv8): bv64
  {
    if c < 128 then c as bv64 else 0xFFFF_FFFF_FFFF_FF00 | c as bv64
  }

  predicate IsAscii(data: seq<bv8>)
  {
    forall i :: 0 <= i < |data| ==> data[i] < 128
  }

  // ---------------------------------------------------------------------------
  // hash32_str, FNV-1 and FNV-1a
  // ---------------------------------------------------------------------------

  const FNV_PRIME: bv64 := 16777619
  const FNV_OFFSET: bv64 := 2166136261

  /** One step of `hash32_str`: multiply by the prime, then xor the unsigned byte. */
  function Hash32Step(h: bv64, c: bv8): bv64 { (FNV_PRIME * h) ^ (c as bv64) }

  /** One step of `basic_fnv_1`: multiply by the prime, then xor the signed byte. */
  function Fnv1Step(h: bv64, c: bv8): bv64 { (h * FNV_PRIME) ^ SignExtend(c) }

  /** One step of `basic_fnv_1a`: xor the signed byte, then multiply by the prime. */
  function Fnv1aStep(h: bv64, c: bv8): bv64 { (h ^ SignExtend(c)) * FNV_PRIME }

  /** The specification of `hash32_str`: a left fold of its step from the seed. */
  function Hash32Str(data: seq<bv8>, seed: bv64): (h: bv64)
  {
    if data == [] then seed else Hash32Step(Hash32Str(data[..|data| - 1], seed), data[|data| - 1])
  }

  /**
   * The specification of `basic_fnv_1`. With `ENVIRONMENT64` defined the source
   * selects the 32-bit FNV prime and offset basis, held in a 64-bit accumulator.
   */
  function Fnv1(data: seq<bv8>): (h: bv64)
  {
    if data == [] then FNV_OFFSET else Fnv1Step(Fnv1(data[..|data| - 1]), data[|data| - 1])
  }

  /** The specification of `basic_fnv_1a`. */
  function Fnv1a(data: seq<bv8>): (h: bv64)
  {
    if data == [] then FNV_OFFSET else Fnv1aStep(Fnv1a(data[..|data| - 1]), data[|data| - 1])
  }

  lemma Hash32StepIsFnv1Step(h: bv64, c: bv8)
    requires c < 128
    ensures Hash32Step(h, c) == Fnv1Step(h, c)
  {
    assert FNV_PRIME * h == h * FNV_PRIME;
  }

  /** On ASCII text `hash32_str` with its default seed and `basic_fnv_1` compute the same hash. */
  lemma {:induction false} Hash32StrIsFnv1OnAscii(data: seq<bv8>)
    requires IsAscii(data)
    ensures Hash32Str(data, FNV_OFFSET) == Fnv1(data)
  {
    if data != [] {
      var init := data[..|data| - 1];
      assert forall i :: 0 <= i < |init| ==> init[i] == data[i];
      Hash32StrIsFnv1OnAscii(init);
      Hash32StepIsFnv1Step(Fnv1(init), data[|data| - 1]);
    }
  }

  /** Hashing a concatenation continues the fold from the hash of the prefix. */
  lemma {:induction false} Hash32StrConcat(s: seq<bv8>, t: seq<bv8>, seed: bv64)
    ensures Hash32Str(s + t, seed) == Hash32Str(t, Hash32Str(s, seed))
  {
    if t == [] {
      assert s + t == s;
    } else {
      var t' := t[..|t| - 1];
      assert (s + t)[..|s + t| - 1] == s + t';
      Hash32StrConcat(s, t', seed);
    }
  }

  method ComputeHash32Str(data: seq<bv8>, seed: bv64) returns (h: bv64)
    ensures h == Hash32Str(data, seed)
  {
    h := seed;
    var i := 0;
    while i != |data|
      invariant 0 <= i <= |data|
      invariant h == Hash32Str(data[..i], seed)
    {
      assert data[..i + 1][..i] == data[..i];
      h := Hash32Step(h, data[i]);
      i := i + 1;
    }
    assert data[..i] == data;
  }

  method BasicFnv1(data: seq<bv8>) returns (h: bv64)
    ensures h == Fnv1(data)
  {
    h := FNV_OFFSET;
    var idx := 0;
    while idx != |data|
      invariant 0 <= idx <= |data|
      invariant h == Fnv1(data[..idx])
    {
      assert data[..idx + 1][..idx] == data[..idx];
      h := Fnv1Step(h, data[idx]);
      idx := idx + 1;
    }
    assert data[..idx] == data;
  }

  method BasicFnv1a(data: seq<bv8>) returns (h: bv64)
    ensures h == Fnv1a(data)
  {
    h := FNV_OFFSET;
    var idx := 0;
    while idx != |data|
      invariant 0 <= idx <= |data|
      invariant h == Fnv1a(data[..idx])
    {
      assert data[..idx + 1][..idx] == data[..idx];
      h := Fnv1aStep(h, data[idx]);
      idx := idx + 1;
    }
    assert data[..idx] == data;
  }

  // ---------------------------------------------------------------------------
  // djb2
  // ---------------------------------------------------------------------------

  /** One step of `computeDjb2Hash`: `((h << 5) + h) + c` for the sign-extended byte c. */
  function Djb2Step(h: bv64, c: bv64): bv64 { ((h << 5) + h) + c }

  /** The specification of `computeDjb2Hash`: its step folded over the bytes from 5381. */
  function Djb2(data: seq<bv8>): (h: bv64)
  {
    if data == [] then 5381 else Djb2Step(Djb2(data[..|data| - 1]), SignExtend(data[|data| - 1]))
  }

  /** The shift-and-add of the step is the multiplication by 33 that the algorithm is known by. */
  lemma ShiftAddIsTimes33(h: bv64, c: bv64)
    ensures ((h << 5) + h) + c == h * 33 + c
  {
  }

  method ComputeDjb2Hash(data: seq<bv8>) returns (hashVal: bv64)
    ensures hashVal == Djb2(data)
  {
    hashVal := 5381;
    var i := 0;
    while i != |data|
      invariant 0 <= i <= |data|
      invariant hashVal == Djb2(data[..i])
    {
      assert data[..i + 1][..i] == data[..i];
      hashVal := Djb2Step(hashVal, SignExtend(data[i]));
      i := i + 1;
    }
    assert data[..i] == data;
  }

  // ---------------------------------------------------------------------------
  // RS hash
  // ---------------------------------------------------------------------------

  const RS_B: bv64 := 378551
  const RS_A: bv64 := 63689

  datatype RsState = RsState(hash: bv64, a: bv64)

  function RsHashStep(hash: bv64, a: bv64, c: bv8): bv64 { hash * a + SignExtend(c) }

  function RsNextMultiplier(a: bv64): bv64 { a * RS_B }

  function RsStep(st: RsState, c: bv8): RsState
  {
    RsState(RsHashStep(st.hash, st.a, c), RsNextMultiplier(st.a))
  }

  /** The state of `computeRSHash` after the given bytes: `hash := hash * a + c; a := a * b`. */
  function Rs(data: seq<bv8>): (st: RsState)
  {
    if data == [] then RsState(0, RS_A) else RsStep(Rs(data[..|data| - 1]), data[|data| - 1])
  }

  /** The multiplier sequence: 63689 times successive powers of 378551. */
  function RsMultiplier(n: nat): bv64
  {
    if n == 0 then RS_A else RsNextMultiplier(RsMultiplier(n - 1))
  }

  /** The multiplier after n bytes does not depend on their values. */
  lemma {:induction false} RsMultiplierOnlyCountsBytes(data: seq<bv8>)
    ensures Rs(data).a == RsMultiplier(|data|)
  {
    if data != [] {
      RsMultiplierOnlyCountsBytes(data[..|data| - 1]);
    }
  }

  method ComputeRSHash(data: seq<bv8>) returns (hash: bv64)
    ensures hash == Rs(data).hash
  {
    var b := RS_B;
    var a := RS_A;
    hash := 0;
    var i := 0;
    while i != |data|
      invariant 0 <= i <= |data|
      invariant Rs(data[..i]) == RsState(hash, a)
    {
      assert data[..i + 1][..i] == data[..i];
      var next := RsStep(RsState(hash, a), data[i]);
      hash, a := next.hash, next.a;
      i := i + 1;
    }
    assert data[..i] == data;
  }

  // ---------------------------------------------------------------------------
  // Limited hash
  // ---------------------------------------------------------------------------

  /**
   * The limited `compute_hash`: the 64-bit hash of the data (MurmurHash64A in the
   * source, a parameter here) reduced below `limit` by `hash - (hash / limit) * limit`.
   * A zero limit is a division by zero in the source, so callers must not pass one.
   */
  function LimitedHash(hash: nat, limit: nat): (r: nat)
    requires hash < TWO64 && 0 < limit < TWO32
    ensures r < limit
    ensures r == hash % limit
  {
    hash - (hash / limit) * limit
  }
}
