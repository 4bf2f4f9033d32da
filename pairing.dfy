/**
 * The integer pairing functions of the language-model code (Szudzik's and Cantor's),
 * used to combine a word id and a context id into one 64-bit key, and their inverses.
 * `TLongId` is 64 bits wide and `TShortId` 32 bits; the floating-point square roots of
 * the inverses are modelled as the exact integer square root.
 */
module Pairing {
  import opened Wrappers

  /**
   * Reduction of v into [0, m), what unsigned arithmetic of modulus m keeps of a value;
   * written as repeated addition or subtraction of m, and shown to be `v % m` below.
   */
  function WrapTo(v: int, m: nat): (r: nat)
    requires m > 0
    ensures r < m
    ensures 0 <= v < m ==> r == v
    decreases if v < 0 then m - v else v
  {
    if v < 0 then WrapTo(v + m, m) else if v >= m then WrapTo(v - m, m) else v
  }

  lemma {:induction false} Wrap64IsMod(v: int)
    ensures WrapTo(v, TWO64) == v % TWO64
    decreases if v < 0 then TWO64 - v else v
  {
    if v < 0 {
      Wrap64IsMod(v + TWO64);
    } else if v >= TWO64 {
      Wrap64IsMod(v - TWO64);
    }
  }

  lemma {:induction false} Trunc32IsMod(v: int)
    ensures WrapTo(v, TWO32) == v % TWO32
    decreases if v < 0 then TWO32 - v else v
  {
    if v < 0 {
      Trunc32IsMod(v + TWO32);
    } else if v >= TWO32 {
      Trunc32IsMod(v - TWO32);
    }
  }

  /** `8 * z + 1` is odd, so it does not wrap to zero. */
  lemma OddCodeNonZero(z: nat)
    ensures Wrap64(8 * z + 1) > 0
  {
    Wrap64IsMod(8 * z + 1);
    var q := (8 * z + 1) / TWO64;
    assert (8 * z + 1) % TWO64 == 8 * (z - 0x2000_0000_0000_0000 * q) + 1;
  }

  /** Unsigned 64-bit wrap-around. */
  function Wrap64(v: int): (r: nat)
    ensures r < TWO64
    ensures 0 <= v < TWO64 ==> r == v
  {
    WrapTo(v, TWO64)
  }

  /** The truncating cast of a 64-bit id to a 32-bit `TShortId`. */
  function Trunc32(v: nat): (r: nat)
    ensures r < TWO32
    ensures v < TWO32 ==> r == v
  {
    WrapTo(v, TWO32)
  }

  // ---------------------------------------------------------------------------
  // Squares and the integer square root
  // ---------------------------------------------------------------------------

  /** The square of n as the sum of the first n odd numbers. */
  function Sq(n: nat): nat
  {
    if n == 0 then 0 else Sq(n - 1) + 2 * n - 1
  }

  lemma {:induction false} SqIsSquare(n: nat)
    ensures Sq(n) == n * n
  {
    if n > 0 {
      SqIsSquare(n - 1);
      assert n * n == (n - 1) * (n - 1) + 2 * n - 1;
    }
  }

  /** The product a * b as repeated addition. */
  function Mul(a: nat, b: nat): nat
  {
    if a == 0 then 0 else Mul(a - 1, b) + b
  }

  lemma {:induction false} MulIsProduct(a: nat, b: nat)
    ensures Mul(a, b) == a * b
  {
    if a > 0 {
      MulIsProduct(a - 1, b);
      assert a * b == (a - 1) * b + b;
    }
  }

  lemma {:induction false} SqMono(a: nat, b: nat)
    requires a <= b
    ensures Sq(a) <= Sq(b)
    decreases b - a
  {
    if a < b {
      SqMono(a, b - 1);
    }
  }

  /** The integer square root, standing for `floor(sqrt(z))`. */
  function ISqrt(z: nat): (r: nat)
    ensures Sq(r) <= z < Sq(r + 1)
  {
    ISqrtFrom(z, 0)
  }

  /** Counts r upward from a root candidate until the next square exceeds z. */
  function ISqrtFrom(z: nat, r: nat): (root: nat)
    requires Sq(r) <= z
    ensures Sq(root) <= z < Sq(root + 1)
    decreases z - Sq(r)
  {
    if Sq(r + 1) > z then r else ISqrtFrom(z, r + 1)
  }

  /** Any r with r^2 <= n < (r+1)^2 lies in [lo, hi] when lo^2 <= n < (hi+1)^2. */
  lemma SqrtBetween(n: nat, r: nat, lo: nat, hi: nat)
    requires Sq(r) <= n < Sq(r + 1)
    requires Sq(lo) <= n < Sq(hi + 1)
    ensures lo <= r <= hi
  {
    if r < lo {
      SqMono(r + 1, lo);
    } else if r > hi {
      SqMono(hi + 1, r);
    }
  }

  /** The integer square root is the only r with r^2 <= z < (r+1)^2. */
  lemma ISqrtUnique(z: nat, r: nat)
    requires Sq(r) <= z < Sq(r + 1)
    ensures ISqrt(z) == r
  {
    SqrtBetween(z, ISqrt(z), r, r);
  }

  /** Square roots of 64-bit values fit in 32 bits. */
  lemma ISqrtBelow32(z: nat)
    requires z < TWO64
    ensures ISqrt(z) < TWO32
  {
    var r := ISqrt(z);
    assert Sq(TWO32) == TWO64 by { SqIsSquare(TWO32); }
    if r >= TWO32 {
      SqMono(TWO32, r);
    }
  }

  // ---------------------------------------------------------------------------
  // Szudzik's pairing
  // ---------------------------------------------------------------------------

  /** Szudzik's pairing on unbounded integers. */
  function SzudzikExact(x: nat, y: nat): nat
  {
    if x >= y then y + x + Sq(x) else x + Sq(y)
  }

  /** `szudzik` on 64-bit ids: the arithmetic wraps modulo 2^64. */
  function Szudzik(x: nat, y: nat): (z: nat)
    requires x < TWO64 && y < TWO64
    ensures z < TWO64
    ensures SzudzikExact(x, y) < TWO64 ==> z == SzudzikExact(x, y)
  {
    if x >= y then Wrap64(Wrap64(y + x) + Wrap64(Sq(x))) else Wrap64(x + Wrap64(Sq(y)))
  }

  /** `unszudzik`: x is stored into a 32-bit `TShortId`, y into a 64-bit `TLongId`. */
  function Unszudzik(z: nat): (xy: (nat, nat))
    requires z < TWO64
    ensures xy.0 < TWO32 && xy.1 < TWO64
  {
    var zrf := ISqrt(z);
    var zmzrfs := z - Sq(zrf);
    if zmzrfs < zrf then (Trunc32(zmzrfs), zrf) else (Trunc32(zrf), zmzrfs - zrf)
  }

  /** What `unszudzik` computes once its square root r is known. */
  lemma UnszudzikAt(z: nat, r: nat)
    requires z < TWO64
    requires Sq(r) <= z < Sq(r + 1)
    ensures var m := z - Sq(r);
      Unszudzik(z) == if m < r then (Trunc32(m), r) else (Trunc32(r), m - r)
  {
    ISqrtUnique(z, r);
  }

  /** Unpairing inverts pairing whenever the code does not overflow and x fits in 32 bits. */
  lemma SzudzikRoundTrip(x: nat, y: nat)
    requires x < TWO32 && y < TWO64 && SzudzikExact(x, y) < TWO64
    ensures Unszudzik(Szudzik(x, y)) == (x, y)
  {
    var z := SzudzikExact(x, y);
    assert Szudzik(x, y) == z;
    if x >= y {
      UnszudzikAt(z, x);
    } else {
      UnszudzikAt(z, y);
    }
  }

  /** Every 64-bit code is the pairing of its unpaired halves, so `unszudzik` loses nothing. */
  lemma SzudzikSurjective(z: nat)
    requires z < TWO64
    ensures SzudzikExact(Unszudzik(z).0, Unszudzik(z).1) == z
  {
    var r := ISqrt(z);
    ISqrtBelow32(z);
    UnszudzikAt(z, r);
    var m := z - Sq(r);
    assert Sq(r + 1) == Sq(r) + 2 * r + 1;
    if m < r {
      assert Unszudzik(z) == (m, r);
    } else {
      assert Unszudzik(z) == (r, m - r);
    }
  }

  // ---------------------------------------------------------------------------
  // Cantor's pairing
  // ---------------------------------------------------------------------------

  /** The triangle number 0 + 1 + ... + s. */
  function Tri(s: nat): nat
  {
    if s == 0 then 0 else Tri(s - 1) + s
  }

  lemma {:induction false} TriClosedForm(s: nat)
    ensures 2 * Tri(s) == s * (s + 1)
  {
    if s > 0 {
      TriClosedForm(s - 1);
      assert s * (s + 1) == (s - 1) * s + 2 * s;
    }
  }

  /** s^2 + s is twice the triangle number of s. */
  lemma {:induction false} SqTri(s: nat)
    ensures Sq(s) + s == 2 * Tri(s)
  {
    if s > 0 {
      SqTri(s - 1);
    }
  }

  /** (2s+1)^2 == 4(s^2 + s) + 1. */
  lemma {:induction false} OddSquare(s: nat)
    ensures Sq(2 * s + 1) == 4 * (Sq(s) + s) + 1
  {
    if s > 0 {
      OddSquare(s - 1);
      assert Sq(2 * s + 1) == Sq(2 * s - 1) + 8 * s;
    }
  }

  /** Cantor's pairing on unbounded integers, with its triangle number written out. */
  function CantorExact(x: nat, y: nat): nat
  {
    Tri(x + y) + y
  }

  /** `cantor` on 64-bit ids: `((x + y) * (x + y + 1)) / 2 + y`, every operation wrapping modulo 2^64. */
  function Cantor(x: nat, y: nat): (z: nat)
    requires x < TWO64 && y < TWO64
    ensures z < TWO64
  {
    var s := Wrap64(x + y);
    Wrap64(Wrap64(Mul(s, Wrap64(s + 1))) / 2 + y)
  }

  /** Without overflow `cantor` is Cantor's pairing. */
  lemma CantorNoOverflow(x: nat, y: nat)
    requires x < TWO64 && y < TWO64
    requires (x + y) * (x + y + 1) < TWO64
    ensures Cantor(x, y) == CantorExact(x, y)
  {
    var s := x + y;
    TriClosedForm(s);
    MulIsProduct(s, s + 1);
    if s > 0 {
      assert s + 1 <= s * (s + 1) by { MulLeft(s + 1, 1, s); }
    }
    assert Tri(s) + y <= s * (s + 1);
  }

  lemma MulLeft(k: nat, a: nat, b: nat)
    requires a <= b
    ensures k * a <= k * b
  {
    assert k * b == k * a + k * (b - a);
  }

  /** `uncantor` with `floor((sqrt(8z + 1) - 1) / 2)` computed exactly; x is truncated to 32 bits. */
  function Uncantor(z: nat): (xy: (nat, nat))
    requires z < TWO64
    ensures xy.0 < TWO32 && xy.1 < TWO64
  {
    OddCodeNonZero(z);
    UncantorFrom(z, (ISqrt(Wrap64(8 * z + 1)) - 1) / 2)
  }

  /** The rest of `uncantor` once the diagonal w is known. */
  function UncantorFrom(z: nat, w: nat): (xy: (nat, nat))
    ensures xy.0 < TWO32 && xy.1 < TWO64
  {
    var t := Wrap64((Sq(w) + w) / 2);
    var y := Wrap64(z - t);
    (Trunc32(Wrap64(w - y)), y)
  }

  /** The square root step of `uncantor` recovers the diagonal s of a code t + y, 2t = s^2 + s, y <= s. */
  lemma CantorDiagonal(s: nat, t: nat, y: nat)
    requires y <= s && 2 * t == Sq(s) + s
    ensures (ISqrt(8 * (t + y) + 1) - 1) / 2 == s
  {
    var n := 8 * (t + y) + 1;
    OddSquare(s);
    OddSquare(s + 1);
    SqrtBetween(n, ISqrt(n), 2 * s + 1, 2 * s + 2);
  }

  /** `uncantor` takes the exact Cantor code of (x, y) back to (x, y). */
  lemma UncantorOfCode(x: nat, y: nat)
    requires x < TWO32 && 8 * CantorExact(x, y) + 1 < TWO64
    ensures Uncantor(CantorExact(x, y)) == (x, y)
  {
    var t := Tri(x + y);
    SqTri(x + y);
    UncantorWithDiagonal(x + y, t, y);
    UncantorFromDiagonal(x, y, t);
  }

  /** For a code t + y of diagonal s that does not overflow, `uncantor` finds the diagonal s. */
  lemma UncantorWithDiagonal(s: nat, t: nat, y: nat)
    requires y <= s && 2 * t == Sq(s) + s && 8 * (t + y) + 1 < TWO64
    ensures Uncantor(t + y) == UncantorFrom(t + y, s)
  {
    var z := t + y;
    assert Wrap64(8 * z + 1) == 8 * z + 1;
    CantorDiagonal(s, t, y);
  }

  /** Given the right diagonal, `uncantor` subtracts its triangle number and recovers x and y. */
  lemma UncantorFromDiagonal(x: nat, y: nat, t: nat)
    requires x < TWO32 && 2 * t == Sq(x + y) + x + y && t + y < TWO64
    ensures UncantorFrom(t + y, x + y) == (x, y)
  {
    var s := x + y;
    assert (Sq(s) + s) / 2 == t;
    assert Wrap64((Sq(s) + s) / 2) == t;
    assert Wrap64(t + y - t) == y;
    assert Wrap64(s - y) == x;
  }

  /** Unpairing inverts pairing when nothing overflows and x fits in 32 bits. */
  lemma CantorRoundTrip(x: nat, y: nat)
    requires x < TWO32 && y < TWO64 && 8 * CantorExact(x, y) + 1 < TWO64
    ensures Uncantor(Cantor(x, y)) == (x, y)
  {
    CantorFits(x, y);
    UncantorOfCode(x, y);
  }

  /** A code small enough for `uncantor` is also one `cantor` computes without overflow. */
  lemma CantorFits(x: nat, y: nat)
    requires x < TWO64 && y < TWO64 && 8 * CantorExact(x, y) + 1 < TWO64
    ensures Cantor(x, y) == CantorExact(x, y)
  {
    TriClosedForm(x + y);
    CantorNoOverflow(x, y);
  }
}
