/**
 * Numbers written as fixed-length digit strings, most significant digit first:
 * the bytes of a value in a byte-compressed m-gram id (base 256) and its bits in a
 * bit-compressed one (base 2).
 */
module Digits {
  import opened Bits

  function Pow(b: nat, n: nat): (p: nat)
    ensures 1 <= b ==> 1 <= p
  {
    if n == 0 then 1
    else
      var q := Pow(b, n - 1);
      assert 1 <= b ==> 1 <= b * q by {
        if 1 <= b { MulAtLeast(q, b); }
      }
      b * q
  }

  lemma {:induction false} PowMono(b: nat, m: nat, n: nat)
    requires 1 <= b && m <= n
    ensures Pow(b, m) <= Pow(b, n)
    decreases n
  {
    if m < n {
      PowMono(b, m, n - 1);
      MulAtLeast(Pow(b, n - 1), b);
    }
  }

  lemma {:induction false} PowBaseMono(a: nat, b: nat, n: nat)
    requires a <= b
    ensures Pow(a, n) <= Pow(b, n)
  {
    if n > 0 {
      PowBaseMono(a, b, n - 1);
      MulMono(a, b, Pow(a, n - 1), Pow(b, n - 1));
    }
  }

  lemma MulMono(a: nat, b: nat, x: nat, y: nat)
    requires a <= b && x <= y
    ensures a * x <= b * y
  {
    assert a * x <= a * y;
    assert a * y <= b * y;
  }

  lemma PowSucc(b: nat, n: nat)
    ensures Pow(b, n + 1) == b * Pow(b, n)
  {
  }

  /** Every element is a digit of base `b`. */
  predicate IsDigits(s: seq<nat>, b: nat)
  {
    forall i :: 0 <= i < |s| ==> s[i] < b
  }

  /** The value of a digit string, most significant digit first. */
  function FromDigits(s: seq<nat>, b: nat): nat
  {
    if s == [] then 0 else FromDigits(s[..|s| - 1], b) * b + s[|s| - 1]
  }

  /** The `n` lowest base-`b` digits of `v`, most significant first. */
  function ToDigits(v: nat, n: nat, b: nat): (s: seq<nat>)
    requires 2 <= b
    ensures |s| == n && IsDigits(s, b)
  {
    if n == 0 then [] else ToDigits(v / b, n - 1, b) + [v % b]
  }

  /** A string of `n` digits is worth less than `b^n`. */
  lemma {:induction false} FromDigitsBound(s: seq<nat>, b: nat)
    requires 2 <= b && IsDigits(s, b)
    ensures FromDigits(s, b) < Pow(b, |s|)
  {
    if s != [] {
      var init := s[..|s| - 1];
      assert IsDigits(init, b);
      FromDigitsBound(init, b);
      FromDigitsBoundStep(s, b);
    }
  }

  /** One more digit keeps the value below the next power of the base. */
  lemma FromDigitsBoundStep(s: seq<nat>, b: nat)
    requires 2 <= b && IsDigits(s, b) && s != []
    requires FromDigits(s[..|s| - 1], b) < Pow(b, |s| - 1)
    ensures FromDigits(s, b) < Pow(b, |s|)
  {
    MulAddBound(FromDigits(s[..|s| - 1], b), Pow(b, |s| - 1), s[|s| - 1], b);
  }

  /** Reading back the `n` lowest digits of `v` gives `v` modulo `b^n`. */
  lemma {:induction false} FromToDigits(v: nat, n: nat, b: nat)
    requires 2 <= b
    ensures FromDigits(ToDigits(v, n, b), b) == v % Pow(b, n)
  {
    if n > 0 {
      FromToDigits(v / b, n - 1, b);
      FromToDigitsStep(v, n, b);
    }
  }

  /** One more digit: from the `n - 1` digits of `v / b` to the `n` digits of `v`. */
  lemma FromToDigitsStep(v: nat, n: nat, b: nat)
    requires 2 <= b && 0 < n
    requires FromDigits(ToDigits(v / b, n - 1, b), b) == (v / b) % Pow(b, n - 1)
    ensures FromDigits(ToDigits(v, n, b), b) == v % Pow(b, n)
  {
    ToDigitsLast(v, n, b);
    ModPowStep(v, n, b);
  }

  /** The value of the `n` lowest digits from the `n - 1` digits above the lowest one. */
  lemma ToDigitsLast(v: nat, n: nat, b: nat)
    requires 2 <= b && 0 < n
    ensures FromDigits(ToDigits(v, n, b), b) == FromDigits(ToDigits(v / b, n - 1, b), b) * b + v % b
  {
    var s := ToDigits(v, n, b);
    assert s[..n - 1] == ToDigits(v / b, n - 1, b);
  }

  /** `v` modulo `b^n` from `v / b` modulo `b^(n-1)` and the lowest digit. */
  lemma ModPowStep(v: nat, n: nat, b: nat)
    requires 2 <= b && 0 < n
    ensures v % Pow(b, n) == ((v / b) % Pow(b, n - 1)) * b + v % b
  {
    ModStep(v, b, Pow(b, n - 1));
  }

  /** The lowest digit and the remaining digits of `v` together give `v` modulo `b * p`. */
  lemma ModStep(v: nat, b: nat, p: nat)
    requires 2 <= b && 1 <= p
    ensures v % (b * p) == ((v / b) % p) * b + v % b
  {
    var q, r := v / b, v % b;
    var t, u := q / p, q % p;
    assert v == b * q + r;
    assert q == p * t + u;
    Regroup(b, p, t, u, r);
    MulAddBound(u, p, r, b);
    DivModUnique(v, b * p, t, u * b + r);
  }

  lemma Regroup(b: nat, p: nat, t: nat, u: nat, r: nat)
    ensures b * (p * t + u) + r == (b * p) * t + (u * b + r)
  {
    assert b * (p * t + u) == b * (p * t) + b * u;
    assert b * (p * t) == (b * p) * t;
  }

  lemma MulAddBound(u: nat, p: nat, r: nat, b: nat)
    requires u < p && r < b
    ensures u * b + r < b * p
  {
    MulMono(u, p - 1, b, b);
    assert (p - 1) * b == p * b - b;
  }

  /** A value below `b^n` survives being written with `n` digits and read back. */
  lemma ToDigitsRoundTrip(v: nat, n: nat, b: nat)
    requires 2 <= b && v < Pow(b, n)
    ensures FromDigits(ToDigits(v, n, b), b) == v
  {
    FromToDigits(v, n, b);
    DivModUnique(v, Pow(b, n), 0, v);
  }

  /** Writing the value of a digit string with as many digits gives the string back. */
  lemma {:induction false} ToFromDigits(s: seq<nat>, b: nat)
    requires 2 <= b && IsDigits(s, b)
    ensures ToDigits(FromDigits(s, b), |s|, b) == s
  {
    if s != [] {
      var init := s[..|s| - 1];
      assert IsDigits(init, b);
      ToFromDigits(init, b);
      DivModUnique(FromDigits(s, b), b, FromDigits(init, b), s[|s| - 1]);
      assert s == init + [s[|s| - 1]];
    }
  }

  // ---------------------------------------------------------------------------
  // The id type of a compressed m-gram id
  // ---------------------------------------------------------------------------

  /** Every length is a digit plus one: between 1 and `b`. */
  predicate LensIn(lens: seq<nat>, b: nat)
  {
    forall i :: 0 <= i < |lens| ==> 1 <= lens[i] <= b
  }

  /**
   * The id type of an m-gram whose word ids need `lens[i]` units each: the base-`b`
   * number whose digit `i` (of weight `b^i`) is `lens[i] - 1`.
   */
  function TypeCode(lens: seq<nat>, b: nat): nat
    requires LensIn(lens, b)
  {
    if lens == [] then 0
    else TypeCode(lens[..|lens| - 1], b) + (lens[|lens| - 1] - 1) * Pow(b, |lens| - 1)
  }

  /** The id type of `n` lengths is below `b^n`. */
  lemma {:induction false} TypeCodeBound(lens: seq<nat>, b: nat)
    requires LensIn(lens, b)
    ensures TypeCode(lens, b) < Pow(b, |lens|)
  {
    if lens != [] {
      var init := lens[..|lens| - 1];
      TypeCodeBound(init, b);
      var p := Pow(b, |init|);
      MulMono(lens[|lens| - 1] - 1, b - 1, p, p);
      assert (b - 1) * p == b * p - p;
    }
  }

  /**
   * Reading `n` lengths back from an id type, highest digit first: the quotient by
   * `b^(n-1)` is the last digit, and the remainder holds the others.
   */
  function DecodeType(t: nat, n: nat, b: nat): (lens: seq<nat>)
    requires 1 <= b
    ensures |lens| == n
  {
    if n == 0 then [] else DecodeType(t % Pow(b, n - 1), n - 1, b) + [t / Pow(b, n - 1) + 1]
  }

  /** The last length is the quotient of the id type by `b^(n-1)`, the others its remainder. */
  lemma TypeCodeSplit(lens: seq<nat>, b: nat)
    requires 1 <= b && LensIn(lens, b) && lens != []
    ensures var p := Pow(b, |lens| - 1);
            && TypeCode(lens, b) / p == lens[|lens| - 1] - 1
            && TypeCode(lens, b) % p == TypeCode(lens[..|lens| - 1], b)
  {
    var init := lens[..|lens| - 1];
    assert LensIn(init, b);
    TypeCodeBound(init, b);
    TypeCodeLast(lens, b);
    DivModUnique(TypeCode(lens, b), Pow(b, |lens| - 1), lens[|lens| - 1] - 1, TypeCode(init, b));
  }

  /** The id type is the last digit times `b^(n-1)` plus the id type of the others. */
  lemma TypeCodeLast(lens: seq<nat>, b: nat)
    requires 1 <= b && LensIn(lens, b) && lens != []
    ensures TypeCode(lens, b) == Pow(b, |lens| - 1) * (lens[|lens| - 1] - 1) + TypeCode(lens[..|lens| - 1], b)
  {
    var d, p := lens[|lens| - 1] - 1, Pow(b, |lens| - 1);
    assert d * p == p * d;
  }

  /** Decoding an id type gives back the lengths it was made from. */
  lemma {:induction false} DecodeTypeCode(lens: seq<nat>, b: nat)
    requires 1 <= b && LensIn(lens, b)
    ensures DecodeType(TypeCode(lens, b), |lens|, b) == lens
  {
    if lens != [] {
      var n := |lens|;
      var init := lens[..n - 1];
      assert LensIn(init, b);
      TypeCodeSplit(lens, b);
      DecodeTypeCode(init, b);
      assert lens == init + [lens[n - 1]];
    }
  }

  /** The sum of a sequence of lengths. */
  function Sum(s: seq<nat>): nat
  {
    if s == [] then 0 else Sum(s[..|s| - 1]) + s[|s| - 1]
  }

  /** `n` lengths of at most `w` sum to at most `n * w`. */
  lemma {:induction false} SumBound(lens: seq<nat>, w: nat)
    requires LensIn(lens, w)
    ensures Sum(lens) <= |lens| * w
  {
    if lens != [] {
      assert LensIn(lens[..|lens| - 1], w);
      SumBound(lens[..|lens| - 1], w);
    }
  }

  /** Summing from the front gives the same total. */
  lemma {:induction false} SumCons(x: nat, s: seq<nat>)
    ensures Sum([x] + s) == x + Sum(s)
  {
    if s != [] {
      var t := [x] + s;
      assert t[..|t| - 1] == [x] + s[..|s| - 1];
      SumCons(x, s[..|s| - 1]);
    }
  }
}
