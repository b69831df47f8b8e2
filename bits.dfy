/**
 * Powers of two and integer logarithms, the arithmetic behind the handle
 * layout, mip counts and power-of-two tests.
 */
module Bits {

  function Pow2(n: nat): (r: nat)
    ensures r >= 1
    decreases n
  {
    if n == 0 then 1 else 2 * Pow2(n - 1)
  }

  lemma {:induction false} Pow2Add(a: nat, b: nat)
    ensures Pow2(a + b) == Pow2(a) * Pow2(b)
    decreases a
  {
    if a > 0 {
      Pow2Add(a - 1, b);
      assert Pow2(a + b) == 2 * Pow2(a - 1 + b);
      assert 2 * (Pow2(a - 1) * Pow2(b)) == (2 * Pow2(a - 1)) * Pow2(b);
    }
  }

  lemma {:induction false} Pow2Monotone(a: nat, b: nat)
    requires a <= b
    ensures Pow2(a) <= Pow2(b)
    decreases b - a
  {
    if a < b {
      Pow2Monotone(a, b - 1);
    }
  }

  /** The two powers the 32-bit handle layout is built from. */
  lemma Pow2Of31And32()
    ensures Pow2(31) == 0x8000_0000 && Pow2(32) == 0x1_0000_0000
  {
    assert Pow2(2) == 4;
    Pow2Add(2, 2);
    Pow2Add(4, 4);
    Pow2Add(8, 8);
    Pow2Add(16, 16);
    assert Pow2(32) == 0x1_0000_0000;
  }

  /** The least `r` with `n <= 2^r`: `Math.ceil(Math.log2(n))` on exact reals. */
  function CeilLog2(n: nat): (r: nat)
    requires n >= 1
    ensures n <= Pow2(r)
    ensures r > 0 ==> Pow2(r - 1) < n
    decreases n
  {
    if n <= 1 then 0 else 1 + CeilLog2((n + 1) / 2)
  }

  /** `CeilLog2` is the least such exponent. */
  lemma {:induction false} CeilLog2Least(n: nat, k: nat)
    requires 1 <= n <= Pow2(k)
    ensures CeilLog2(n) <= k
  {
    var r := CeilLog2(n);
    if r > k {
      Pow2Monotone(k + 1, r);
    }
  }

  /** The greatest `r` with `2^r <= n`: `Math.floor(Math.log2(n))` on exact reals. */
  function FloorLog2(n: nat): (r: nat)
    requires n >= 1
    ensures Pow2(r) <= n < Pow2(r + 1)
    decreases n
  {
    if n == 1 then 0 else 1 + FloorLog2(n / 2)
  }

  /** Only one exponent brackets `n` between consecutive powers of two. */
  lemma {:induction false} FloorLog2Unique(n: nat, m: nat)
    requires n >= 1 && Pow2(m) <= n < Pow2(m + 1)
    ensures FloorLog2(n) == m
  {
    var r := FloorLog2(n);
    if r < m {
      Pow2Monotone(r + 1, m);
    } else if r > m {
      Pow2Monotone(m + 1, r);
    }
  }

  lemma MulAtLeast(a: int, p: int)
    requires a >= 1 && p > 0
    ensures a * p >= p
  {
  }

  lemma MulMonotone(a: int, b: int, p: int)
    requires 0 <= a <= b && p >= 0
    ensures a * p <= b * p
  {
    assert b * p == a * p + (b - a) * p;
  }

  /** A number below `p * q` has a quotient by `p` below `q`. */
  lemma DivBound(h: int, p: int, q: int)
    requires p > 0 && q > 0 && 0 <= h < p * q
    ensures 0 <= h / p < q
  {
    if h / p >= q {
      MulMonotone(q, h / p, p);
    }
  }

  /** Euclidean division is unique: `g * p + i` with `0 <= i < p` splits back into `g` and `i`. */
  lemma DivModUnique(x: int, p: int, g: int, i: int)
    requires p > 0 && 0 <= i < p && x == g * p + i
    ensures x / p == g && x % p == i
  {
    var q, r := x / p, x % p;
    assert x == q * p + r;
    assert (q - g) * p == i - r;
    if q > g { MulAtLeast(q - g, p); }
    if q < g { MulAtLeast(g - q, p); }
  }
}
