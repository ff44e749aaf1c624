/** Ceiling division, used to count blocks and wrapped rows. */
module Arith {

  /** `ceil(n / d)` for a positive divisor. */
  function CeilDiv(n: nat, d: nat): nat
    requires d >= 1
  {
    (n + d - 1) / d
  }

  /** A positive multiple of `d` is at least `d`. */
  lemma {:induction false} MulAtLeast(k: int, d: int)
    requires k >= 1 && d >= 1
    ensures k * d >= d
    decreases k
  {
    if k > 1 {
      MulAtLeast(k - 1, d);
      assert k * d == (k - 1) * d + d;
    }
  }

  /** Euclidean division has a unique quotient. */
  lemma DivUnique(n: int, d: int, q: int, r: int)
    requires d >= 1 && 0 <= r < d && n == q * d + r
    ensures n / d == q
  {
    var q0, r0 := n / d, n % d;
    assert n == q0 * d + r0;
    if q0 < q {
      MulAtLeast(q - q0, d);
      assert false;
    } else if q0 > q {
      MulAtLeast(q0 - q, d);
      assert false;
    }
  }

  /** Taking one full divisor off `n` takes exactly one off its ceiling. */
  lemma CeilDivStep(n: nat, d: nat)
    requires d >= 1 && n > d
    ensures CeilDiv(n, d) == 1 + CeilDiv(n - d, d)
  {
    var m := n - d + d - 1;
    DivUnique(m + d, d, m / d + 1, m % d);
  }

  /** Every `n` in `1..d` rounds up to exactly one. */
  lemma CeilDivOne(n: nat, d: nat)
    requires d >= 1 && 1 <= n <= d
    ensures CeilDiv(n, d) == 1
  {
    DivUnique(n + d - 1, d, 1, n - 1);
  }

  /** Zero rounds up to zero. */
  lemma CeilDivZero(d: nat)
    requires d >= 1
    ensures CeilDiv(0, d) == 0
  {
    DivUnique(d - 1, d, 0, d - 1);
  }
}
