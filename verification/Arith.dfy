/** The few facts about products, quotients and powers of two that the other modules need. */
module Arith {

  lemma MulMono(a: int, b: int, n: nat)
    requires a <= b
    ensures a * n <= b * n
  {
    var d: nat := b - a;
    MulNonNegative(d, n);
    Distribute(a, d, n);
  }

  lemma MulNonNegative(a: nat, b: nat)
    ensures a * b >= 0
  {
  }

  lemma Distribute(a: int, b: int, n: int)
    ensures (a + b) * n == a * n + b * n
  {
  }

  function Quotient(x: nat, n: nat): nat
    requires n > 0
  {
    x / n
  }

  /** Quotient and remainder are determined by k == q * n + r with 0 <= r < n. */
  lemma DivModUnique(k: int, n: nat, q: int, r: nat)
    requires n > 0 && r < n && k == q * n + r
    ensures k / n == q && k % n == r
  {
    var q', r' := k / n, k % n;
    assert k == q' * n + r' && 0 <= r' < n;
    if q < q' {
      MulMono(q + 1, q', n);
      Distribute(q, 1, n);
      assert false;
    } else if q' < q {
      MulMono(q' + 1, q, n);
      Distribute(q', 1, n);
      assert false;
    }
  }

  /** Counting modulo n. */
  lemma NextMod(k: nat, n: nat)
    requires n > 0
    ensures (k % n + 1) % n == (k + 1) % n
    ensures (k + 1) % n == if k % n + 1 == n then 0 else k % n + 1
  {
    var q, r := k / n, k % n;
    if r + 1 < n {
      DivModUnique(k + 1, n, q, r + 1);
      DivModUnique(r + 1, n, 0, r + 1);
    } else {
      Distribute(q, 1, n);
      DivModUnique(k + 1, n, q + 1, 0);
      DivModUnique(n, n, 1, 0);
    }
  }
}
