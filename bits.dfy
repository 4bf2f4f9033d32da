/**
 * Powers of two and the bitwise AND on unsigned integers, as the containers use them:
 * a table of `2^k` buckets is indexed with `hash & (2^k - 1)` instead of `hash % 2^k`.
 */
module Bits {

  function Pow2(k: nat): (p: nat)
    ensures 1 <= p
  {
    if k == 0 then 1 else 2 * Pow2(k - 1)
  }

  /** Bitwise AND of two unsigned integers, taken bit by bit from the lowest bit up. */
  function BitAnd(a: nat, b: nat): (r: nat)
    ensures r <= a && r <= b
  {
    if a == 0 || b == 0 then 0
    else 2 * BitAnd(a / 2, b / 2) + (if a % 2 == 1 && b % 2 == 1 then 1 else 0)
  }

  /** A positive multiple of `d` is at least `d`. */
  lemma {:induction false} MulAtLeast(d: nat, x: nat)
    requires 1 <= x
    ensures d <= d * x
  {
    if x > 1 {
      MulAtLeast(d, x - 1);
      assert d * x == d * (x - 1) + d;
    }
  }

  /** Euclidean division is unique: a decomposition `h == d * t + r` with `r < d` is the quotient and remainder. */
  lemma DivModUnique(h: nat, d: nat, t: nat, r: nat)
    requires 0 < d && r < d && h == d * t + r
    ensures h / d == t && h % d == r
  {
    var q, m := h / d, h % d;
    assert h == d * q + m;
    if q < t {
      MulAtLeast(d, t - q);
    } else if q > t {
      MulAtLeast(d, q - t);
    }
  }

  /** Reducing a summand modulo `m` first does not change the sum modulo `m`. */
  lemma ModAddMod(a: nat, b: nat, m: nat)
    requires 0 < m
    ensures (a % m + b) % m == (a + b) % m
  {
    var q, r := a / m, a % m;
    var q2, r2 := (r + b) / m, (r + b) % m;
    assert a + b == m * (q + q2) + r2 by {
      assert a == m * q + r;
      assert r + b == m * q2 + r2;
      assert m * (q + q2) == m * q + m * q2;
    }
    DivModUnique(a + b, m, q + q2, r2);
  }

  /** The remainder modulo `2p` is twice the remainder of `h / 2` modulo `p`, plus the low bit. */
  lemma ModDouble(h: nat, p: nat)
    requires 0 < p
    ensures h % (2 * p) == 2 * ((h / 2) % p) + h % 2
  {
    var t, s, b := (h / 2) / p, (h / 2) % p, h % 2;
    assert h / 2 == p * t + s;
    assert h == 2 * (p * t + s) + b;
    assert h == (2 * p) * t + (2 * s + b);
    DivModUnique(h, 2 * p, t, 2 * s + b);
  }

  /** Masking with `2^k - 1` keeps exactly the remainder modulo `2^k`. */
  lemma {:induction false} AndLowMask(h: nat, k: nat)
    ensures BitAnd(h, Pow2(k) - 1) == h % Pow2(k)
  {
    if k == 0 {
      assert Pow2(k) == 1;
    } else if h == 0 {
      DivModUnique(0, Pow2(k), 0, 0);
    } else {
      AndLowMask(h / 2, k - 1);
      AndLowMaskStep(h, k);
    }
  }

  /** One more bit: from the mask of `k - 1` bits on `h / 2` to the mask of `k` bits on `h`. */
  lemma AndLowMaskStep(h: nat, k: nat)
    requires 0 < k && 0 < h
    requires BitAnd(h / 2, Pow2(k - 1) - 1) == (h / 2) % Pow2(k - 1)
    ensures BitAnd(h, Pow2(k) - 1) == h % Pow2(k)
  {
    var p := Pow2(k - 1);
    BitAndOddMask(h, p);
    ModDouble(h, p);
  }

  /** An odd mask `2p - 1` keeps the low bit and masks the rest with `p - 1`. */
  lemma BitAndOddMask(h: nat, p: nat)
    requires 0 < h && 1 <= p
    ensures BitAnd(h, 2 * p - 1) == 2 * BitAnd(h / 2, p - 1) + h % 2
  {
    DivModUnique(2 * p - 1, 2, p - 1, 1);
  }

  /** Masking with `2^k - 1` yields an index below `2^k`. */
  lemma AndLowMaskBelow(h: nat, k: nat)
    ensures BitAnd(h, Pow2(k) - 1) < Pow2(k)
  {
    AndLowMask(h, k);
  }

  /** One step past `i` modulo `n`, for `i < n`: the next index, or 0 after the last one. */
  lemma SuccessorMod(i: nat, n: nat)
    requires i < n
    ensures (i + 1) % n == if i + 1 == n then 0 else i + 1
  {
    if i + 1 == n {
      DivModUnique(i + 1, n, 1, 0);
    } else {
      DivModUnique(i + 1, n, 0, i + 1);
    }
  }
}
