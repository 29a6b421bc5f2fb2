/** The few facts about products, quotients and powers of two that the proofs
    use. */
module Products {
  lemma MulMonotone(n: int, x: int, y: int)
    requires n >= 0 && x <= y
    ensures x * n <= y * n && n * x <= n * y
  {}

  lemma CancelLess(n: int, x: int, y: int)
    requires n > 0 && x * n < y * n
    ensures x < y
  {}

  lemma CancelLeq(n: int, x: int, y: int)
    requires n > 0 && x * n <= y * n
    ensures x <= y
  {}

  lemma Quotient(m: int, r: int, q: int)
    requires r >= 1 && q == m / r && m >= 0
    ensures q * r <= m < q * r + r && 0 <= q <= m
  {
    assert m == r * (m / r) + m % r;
  }

  ghost predicate IsPowerOf2(k: nat) {
    k == 1 || (k > 1 && k % 2 == 0 && IsPowerOf2(k / 2))
  }

  /** Between a power of two and its double there is no other. */
  lemma {:induction false} PowersOf2Apart(j: nat, k: nat)
    requires IsPowerOf2(j) && IsPowerOf2(k) && j < 2 * k
    ensures j <= k
  {
    if j > 1 && k > 1 { PowersOf2Apart(j / 2, k / 2); }
  }
}
