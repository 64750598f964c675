/**
 * The few facts of nonlinear integer arithmetic the layout proofs need, stated
 * once so that each proof can call exactly the step it uses.
 */
module Arith {
  lemma MulMono(a: nat, b: nat, n: nat)
    requires a <= b
    ensures a * n <= b * n
  {
  }

  lemma MulAssoc(d0: nat, d1: nat, d2: nat)
    ensures d0 * d1 * d2 == d0 * (d1 * d2)
  {
  }

  lemma MulSucc(i: nat, n: nat)
    ensures (i + 1) * n == i * n + n
  {
  }

  lemma MulAtLeast(d: int, m: int)
    requires d >= 1 && m > 0
    ensures d * m >= m
  {
  }

  /** Euclidean remainders are unique: a = q*m + r with 0 <= r < m makes r the remainder. */
  lemma ModUnique(a: int, q: int, r: int, m: int)
    requires m > 0 && a == q * m + r && 0 <= r < m
    ensures a % m == r
  {
    var q', r' := a / m, a % m;
    assert a == q' * m + r';
    assert (q - q') * m == r' - r;
    if q > q' {
      MulAtLeast(q - q', m);
    } else if q < q' {
      MulAtLeast(q' - q, m);
    }
  }

  /** Adding the modulus does not change the remainder. */
  lemma ModShift(k: nat, m: nat)
    requires m > 0
    ensures (m + k) % m == k % m
  {
    ModUnique(m + k, k / m + 1, k % m, m);
  }
}
