/** Powers of two and the division facts that the address split of the cache rests on. */
module Arith {

  /** `1 << n` on unbounded naturals; also the divisor that `>> n` divides by. */
  function Pow2(n: nat): (p: nat)
    ensures p >= 1
  {
    if n == 0 then 1 else 2 * Pow2(n - 1)
  }

  /** `x >> n` for an unsigned `x`. */
  function Shr(x: nat, n: nat): nat {
    Quotient(x, Pow2(n))
  }

  /**
   * `x / d`, kept behind a function so that the solver does not unfold
   * `Pow2(n)` in every division by it: the address proofs reason about the
   * quotient only through the lemmas below.
   */
  function Quotient(x: nat, d: nat): nat
    requires d > 0
  {
    x / d
  }

  lemma {:induction false} Pow2Add(m: nat, n: nat)
    ensures Pow2(m + n) == Pow2(m) * Pow2(n)
  {
    if m > 0 {
      Pow2Add(m - 1, n);
      assert Pow2(m + n) == 2 * Pow2(m - 1 + n);
    }
  }

  /** Quotient and remainder are determined by any decomposition `x == q * d + r` with `0 <= r < d`. */
  lemma DivModUnique(x: int, d: int, q: int, r: int)
    requires d > 0 && 0 <= r < d && x == q * d + r
    ensures x / d == q && x % d == r
  {
    var q', r' := x / d, x % d;
    assert x == q' * d + r';
    assert (q - q') * d == r' - r;
    if q > q' {
      assert (q - q') * d >= d by { MulAtLeast(q - q', d); }
    } else if q < q' {
      assert (q' - q) * d >= d by { MulAtLeast(q' - q, d); }
    }
  }

  lemma MulAtLeast(k: int, d: int)
    requires k >= 1 && d > 0
    ensures k * d >= d
  {
  }

  /**
   * Dividing `x` by `a` and then by `c` is dividing it by `a * c`; with `a`
   * and `c` powers of two, two right shifts are one shift by their sum.
   */
  lemma DivDiv(x: nat, a: nat, c: nat)
    requires a > 0 && c > 0
    ensures x / a / c == x / (a * c)
  {
    var q, r2, r1 := x / a / c, (x / a) % c, x % a;
    assert x / a == q * c + r2;
    assert x == (q * c + r2) * a + r1;
    assert x == q * (a * c) + (r2 * a + r1);
    assert r2 * a + r1 < a * c by {
      assert r2 * a <= (c - 1) * a;
    }
    DivModUnique(x, a * c, q, r2 * a + r1);
  }

  /** A number below `d * e` has a quotient by `d` below `e`. */
  lemma DivBound(x: nat, d: nat, e: nat)
    requires d > 0 && x < d * e
    ensures x / d < e
  {
  }
}
