/** Natural numbers as bit patterns: powers of two, and exclusive or bit by bit. */
module Bits {

  function Pow2(n: nat): (p: nat)
    ensures p > 0
  {
    if n == 0 then 1 else 2 * Pow2(n - 1)
  }

  function Xor(a: nat, b: nat): nat {
    if a == 0 && b == 0 then 0 else (a % 2 + b % 2) % 2 + 2 * Xor(a / 2, b / 2)
  }

  lemma XorDigits(a: nat, b: nat)
    ensures Xor(a, b) % 2 == (a % 2 + b % 2) % 2
    ensures Xor(a, b) / 2 == Xor(a / 2, b / 2)
  {
  }

  lemma XorDouble(a: nat, b: nat)
    ensures Xor(2 * a, 2 * b) == 2 * Xor(a, b)
  {
    XorCons(0, a, 0, b);
  }

  lemma {:induction false} XorSelf(a: nat)
    ensures Xor(a, a) == 0
  {
    if a > 0 {
      XorSelf(a / 2);
    }
  }

  lemma {:induction false} XorZero(a: nat)
    ensures Xor(a, 0) == a == Xor(0, a)
  {
    if a > 0 {
      XorZero(a / 2);
    }
  }

  lemma {:induction false} XorSymmetric(a: nat, b: nat)
    ensures Xor(a, b) == Xor(b, a)
  {
    if a > 0 || b > 0 {
      XorSymmetric(a / 2, b / 2);
    }
  }

  function Parity(a: nat, b: nat): (r: nat)
    ensures r < 2
  {
    if a == b then 0 else 1
  }

  lemma XorCons(a0: nat, a: nat, b0: nat, b: nat)
    requires a0 < 2 && b0 < 2
    ensures Xor(a0 + 2 * a, b0 + 2 * b) == Parity(a0, b0) + 2 * Xor(a, b)
  {
  }

  lemma AssociativeCons(a0: nat, a: nat, b0: nat, b: nat, c0: nat, c: nat)
    requires a0 < 2 && b0 < 2 && c0 < 2 && Xor(Xor(a, b), c) == Xor(a, Xor(b, c))
    ensures Xor(Xor(a0 + 2 * a, b0 + 2 * b), c0 + 2 * c) == Xor(a0 + 2 * a, Xor(b0 + 2 * b, c0 + 2 * c))
  {
    XorCons(a0, a, b0, b);
    XorCons(b0, b, c0, c);
    XorCons(Parity(a0, b0), Xor(a, b), c0, c);
    XorCons(a0, a, Parity(b0, c0), Xor(b, c));
  }

  lemma {:induction false} XorAssociative(a: nat, b: nat, c: nat)
    ensures Xor(Xor(a, b), c) == Xor(a, Xor(b, c))
    decreases a + b + c
  {
    if a > 0 || b > 0 || c > 0 {
      XorAssociative(a / 2, b / 2, c / 2);
      AssociativeCons(a % 2, a / 2, b % 2, b / 2, c % 2, c / 2);
    }
  }

  lemma {:induction false} XorTwice(a: nat, b: nat)
    ensures Xor(Xor(a, b), b) == a
  {
    XorAssociative(a, b, b);
    XorSelf(b);
    XorZero(a);
  }

  /** (a ^ b) ^ (a ^ c) == b ^ c */
  lemma {:induction false} XorCancel(a: nat, b: nat, c: nat)
    ensures Xor(Xor(a, b), Xor(a, c)) == Xor(b, c)
  {
    XorSymmetric(a, b);
    XorAssociative(b, a, Xor(a, c));
    XorAssociative(a, a, c);
    XorSelf(a);
    XorZero(c);
  }

  /** (a ^ b) ^ (c ^ d) == (a ^ c) ^ (b ^ d) */
  lemma XorExchange(a: nat, b: nat, c: nat, d: nat)
    ensures Xor(Xor(a, b), Xor(c, d)) == Xor(Xor(a, c), Xor(b, d))
  {
    XorAssociative(a, b, Xor(c, d));
    XorAssociative(b, c, d);
    XorSymmetric(b, c);
    XorAssociative(c, b, d);
    XorAssociative(a, c, Xor(b, d));
  }

  lemma {:induction false} XorBelow(a: nat, b: nat, n: nat)
    requires a < Pow2(n) && b < Pow2(n)
    ensures Xor(a, b) < Pow2(n)
    decreases n
  {
    if n > 0 {
      XorBelow(a / 2, b / 2, n - 1);
      XorDigits(a, b);
    }
  }

  /** Bits above those of b stay. */
  lemma {:induction false} XorAbove(a: nat, b: nat, n: nat)
    requires b < Pow2(n) <= a
    ensures Xor(a, b) >= Pow2(n)
    decreases n
  {
    XorDigits(a, b);
    if n == 0 {
      XorZero(a);
    } else {
      XorAbove(a / 2, b / 2, n - 1);
    }
  }

  /** Equal top bits cancel. */
  lemma {:induction false} XorTop(a: nat, b: nat, n: nat)
    requires a < Pow2(n) && b < Pow2(n)
    ensures Xor(a + Pow2(n), b + Pow2(n)) == Xor(a, b)
    decreases n
  {
    if n == 0 {
      assert Xor(1, 1) == 0;
    } else {
      var p := Pow2(n - 1);
      XorTop(a / 2, b / 2, n - 1);
      TopCons(a % 2, a / 2, b % 2, b / 2, p);
      assert a + 2 * p == a % 2 + 2 * (a / 2 + p) && b + 2 * p == b % 2 + 2 * (b / 2 + p);
    }
  }

  lemma TopCons(a0: nat, a: nat, b0: nat, b: nat, p: nat)
    requires a0 < 2 && b0 < 2 && Xor(a + p, b + p) == Xor(a, b)
    ensures Xor(a0 + 2 * (a + p), b0 + 2 * (b + p)) == Xor(a0 + 2 * a, b0 + 2 * b)
  {
    XorCons(a0, a, b0, b);
    XorCons(a0, a + p, b0, b + p);
  }

  lemma XorEqual(a: nat, b: nat)
    requires Xor(a, b) == 0
    ensures a == b
  {
    XorAssociative(a, b, b);
    XorSelf(b);
    XorZero(a);
    XorZero(b);
  }

  /** a with n zero bits behind it. */
  function Shl(a: nat, n: nat): nat {
    if n == 0 then a else 2 * Shl(a, n - 1)
  }

  lemma {:induction false} ShlIsProduct(a: nat, n: nat)
    ensures Shl(a, n) == a * Pow2(n)
  {
    if n > 0 {
      ShlIsProduct(a, n - 1);
      assert a * (2 * Pow2(n - 1)) == 2 * (a * Pow2(n - 1));
    }
  }

  lemma {:induction false} ShlSum(a: nat, n: nat, m: nat)
    ensures Shl(Shl(a, n), m) == Shl(a, n + m)
  {
    if m > 0 {
      ShlSum(a, n, m - 1);
    }
  }

  lemma {:induction false} XorShl(a: nat, b: nat, n: nat)
    ensures Xor(Shl(a, n), Shl(b, n)) == Shl(Xor(a, b), n)
  {
    if n > 0 {
      XorShl(a, b, n - 1);
      XorDouble(Shl(a, n - 1), Shl(b, n - 1));
    }
  }
}
