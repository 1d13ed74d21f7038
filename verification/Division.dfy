// Division with remainder, by divisors the verifier does not know.
module Division {
  lemma Euclid(m: nat, r: nat)
    requires r > 0
    ensures m == m / r * r + m % r && m % r < r
  {
  }

  lemma Multiple(k: int, r: int)
    requires r > 0
    ensures k > 0 ==> k * r >= r
    ensures k < 0 ==> k * r <= -r
  {
  }

  // Quotient and remainder are unique.
  lemma Quotient(m: nat, r: nat, q: int, t: nat)
    requires t < r && m == q * r + t
    ensures m / r == q && m % r == t
  {
    Euclid(m, r);
    assert (q - m / r) * r == m % r - t;
    Multiple(q - m / r, r);
  }
}
