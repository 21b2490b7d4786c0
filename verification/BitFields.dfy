/** Fields of a number: some of its bits, moved to the bottom. */
module BitFields {
  import opened Arith
  import opened Bits

  lemma DoubledProduct(p: nat, q: nat)
    ensures (2 * p) * q == 2 * (p * q)
  {
  }

  lemma {:induction false} Pow2Sum(a: nat, b: nat)
    ensures Pow2(a + b) == Pow2(a) * Pow2(b)
    decreases a
  {
    if a > 0 {
      Pow2Sum(a - 1, b);
      DoubledProduct(Pow2(a - 1), Pow2(b));
    }
  }

  /** w bits of x from bit p on. */
  function Field(x: nat, p: nat, w: nat): (r: nat) { x / Pow2(p) % Pow2(w) }

  lemma QuotientAbove(low: nat, x: nat, a: nat, p: nat)
    requires low < a && p > 0
    ensures a * p > 0 && (low + a * x) / (a * p) == x / p
  {
    var q, r := x / p, x % p;
    assert x == q * p + r;
    assert a * x == (a * p) * q + a * r by {
      assert a * (q * p + r) == a * (q * p) + a * r;
      assert a * (q * p) == (a * p) * q;
    }
    assert a * r + a <= a * p by {
      MulMono(r + 1, p, a);
      Distribute(r, 1, a);
    }
    assert low + a * x == q * (a * p) + (low + a * r);
    DivModUnique(low + a * x, a * p, q, low + a * r);
  }

  lemma QuotientBelow(x: nat, y: nat, p: nat, w: nat)
    requires p > 0 && w > 0
    ensures (x + p * (w * y)) / p % w == x / p % w
  {
    var q, r := x / p, x % p;
    assert x == q * p + r;
    assert x + p * (w * y) == (q + w * y) * p + r by {
      Distribute(q, w * y, p);
    }
    DivModUnique(x + p * (w * y), p, q + w * y, r);
    var k, l := q / w, q % w;
    assert q + w * y == (k + y) * w + l by {
      Distribute(k, y, w);
    }
    DivModUnique(q + w * y, w, k + y, l);
  }

  /** A field above lower bits. */
  lemma {:induction false} FieldAbove(y: nat, low: nat, x: nat, a: nat, p: nat, q: nat, w: nat)
    requires low < Pow2(a) && y == low + Pow2(a) * x && q == a + p
    ensures Field(y, q, w) == Field(x, p, w)
  {
    Pow2Sum(a, p);
    QuotientAbove(low, x, Pow2(a), Pow2(p));
  }

  /** A field below higher bits. */
  lemma {:induction false} FieldBelow(y: nat, x: nat, high: nat, m: nat, p: nat, w: nat)
    requires p + w <= m && y == x + Pow2(m) * high
    ensures Field(y, p, w) == Field(x, p, w)
  {
    var rest := Pow2(m - p - w);
    Pow2Sum(p + w, m - p - w);
    Pow2Sum(p, w);
    FourFactors(Pow2(p), Pow2(w), rest, high);
    QuotientBelow(x, rest * high, Pow2(p), Pow2(w));
  }

  lemma FourFactors(a: nat, b: nat, c: nat, d: nat)
    ensures (a * b * c) * d == a * (b * (c * d))
  {
    assert (a * b * c) * d == (a * b) * (c * d);
  }

  /** Lower bits, a field of w bits at bit p, and higher bits. */
  function Compose(low: nat, p: nat, field: nat, w: nat, high: nat): nat {
    low + Pow2(p) * (field + Pow2(w) * high)
  }

  lemma ComposedField(x: nat, low: nat, p: nat, field: nat, w: nat, high: nat)
    requires low < Pow2(p) && field < Pow2(w) && x == Compose(low, p, field, w, high)
    ensures Field(x, p, w) == field
  {
    var upper: nat := field + Pow2(w) * high;
    FieldAbove(x, low, upper, p, 0, p, w);
    FieldBelow(upper, field, high, w, 0, w);
    LowestField(field, w);
  }

  lemma LowestField(x: nat, w: nat)
    requires x < Pow2(w)
    ensures Field(x, 0, w) == x
  {
    assert Pow2(0) == 1;
    DivModUnique(x, Pow2(w), 0, x);
  }

  lemma FieldAboveComposed(x: nat, low: nat, p: nat, field: nat, w: nat, high: nat, q: nat, t: nat, v: nat)
    requires low < Pow2(p) && field < Pow2(w) && x == Compose(low, p, field, w, high) && q == p + (w + t)
    ensures Field(x, q, v) == Field(high, t, v)
  {
    var upper: nat := field + Pow2(w) * high;
    FieldAbove(x, low, upper, p, w + t, q, v);
    FieldAbove(upper, field, high, w, t, w + t, v);
  }

  lemma FieldBelowComposed(x: nat, low: nat, p: nat, field: nat, w: nat, high: nat, q: nat, v: nat)
    requires x == Compose(low, p, field, w, high) && q + v <= p
    ensures Field(x, q, v) == Field(low, q, v)
  {
    FieldBelow(x, low, field + Pow2(w) * high, p, q, v);
  }

  /** Fields beside the composed one do not depend on it. */
  lemma {:induction false} OtherFields(x: nat, x': nat, low: nat, p: nat, field: nat, field': nat, w: nat, high: nat, q: nat, v: nat)
    requires low < Pow2(p) && field < Pow2(w) && field' < Pow2(w)
    requires x == Compose(low, p, field, w, high) && x' == Compose(low, p, field', w, high)
    requires q + v <= p || p + w <= q
    ensures Field(x, q, v) == Field(x', q, v)
  {
    if q + v <= p {
      FieldBelowComposed(x, low, p, field, w, high, q, v);
      FieldBelowComposed(x', low, p, field', w, high, q, v);
    } else {
      FieldAboveComposed(x, low, p, field, w, high, q, q - p - w, v);
      FieldAboveComposed(x', low, p, field', w, high, q, q - p - w, v);
    }
  }

  lemma Division(x: nat, d: nat) returns (q: nat, r: nat)
    requires d > 0
    ensures q == x / d && r == x % d && r < d && x == r + d * q
  {
    q, r := x / d, x % d;
  }

  /** Every number is composed around any of its fields. */
  lemma {:induction false} Composed(x: nat, p: nat, w: nat) returns (low: nat, high: nat)
    ensures low < Pow2(p) && Field(x, p, w) < Pow2(w)
    ensures x == Compose(low, p, Field(x, p, w), w, high)
  {
    var upper, field;
    upper, low := Division(x, Pow2(p));
    high, field := Division(upper, Pow2(w));
  }

  /** A number composed in a window of m bits that itself stands at bit a. */
  lemma {:induction false} ComposeInWindow(y: nat, before: nat, a: nat, x: nat, low: nat, s: nat, field: nat, w: nat, high: nat,
                                           m: nat, after: nat, p: nat, low': nat, high': nat)
    requires s + w <= m && p == a + s && x == Compose(low, s, field, w, high)
    requires y == before + Pow2(a) * (x + Pow2(m) * after)
    requires low' == before + Pow2(a) * low && high' == high + Pow2(m - s - w) * after
    ensures y == Compose(low', p, field, w, high')
  {
    var r := m - s - w;
    Pow2Sum(a, s);
    Pow2Parts(s, w, r);
    WindowAlgebra(before, Pow2(a), low, Pow2(s), field, Pow2(w), high, Pow2(r), after, Pow2(w + r), Pow2(m));
  }

  lemma WindowAlgebra(before: nat, pa: nat, low: nat, ps: nat, field: nat, pw: nat, high: nat, pr: nat, after: nat,
                      pwr: nat, pm: nat)
    requires pwr == pw * pr && pm == ps * pwr
    ensures before + pa * ((low + ps * (field + pw * high)) + pm * after)
         == (before + pa * low) + (pa * ps) * (field + pw * (high + pr * after))
  {
    var x, y := field + pw * high, pr * after;
    Distribute3(pw, high, y);
    assert pwr * after == pw * y;
    assert pm * after == ps * (pw * y);
    Distribute3(ps, x, pw * y);
    var z := ps * (x + pw * y);
    Distribute3(pa, low, z);
    assert pa * z == (pa * ps) * (x + pw * y);
  }

  lemma Distribute3(a: nat, b: nat, c: nat)
    ensures a * (b + c) == a * b + a * c
  {
  }

  lemma WindowLow(before: nat, a: nat, low: nat, s: nat)
    requires before < Pow2(a) && low < Pow2(s)
    ensures before + Pow2(a) * low < Pow2(a + s)
  {
    Pow2Sum(a, s);
    MulMono(low + 1, Pow2(s), Pow2(a));
    Distribute(low, 1, Pow2(a));
  }

  /** x with the field replaced. */
  function Put(x: nat, p: nat, w: nat, field: nat): int {
    x - Field(x, p, w) * Pow2(p) + field * Pow2(p)
  }

  lemma PutIsCompose(x: nat, low: nat, p: nat, field: nat, w: nat, high: nat)
    requires x == Compose(low, p, Field(x, p, w), w, high)
    ensures Put(x, p, w, field) == Compose(low, p, field, w, high)
  {
    var was := Field(x, p, w);
    var upper := Pow2(w) * high;
    assert Pow2(p) * (was + upper) == was * Pow2(p) + Pow2(p) * upper;
    assert Pow2(p) * (field + upper) == field * Pow2(p) + Pow2(p) * upper;
  }

  /** low + a * x stays below a * b exactly when x stays below b. */
  lemma Stacked(low: nat, a: nat, x: nat, b: nat)
    requires low < a
    ensures low + a * x < a * b <==> x < b
  {
    if x < b {
      MulMono(x + 1, b, a);
      Distribute(x, 1, a);
    } else {
      MulMono(b, x, a);
    }
  }

  lemma Pow2Parts(p: nat, w: nat, r: nat)
    ensures Pow2(w + r) == Pow2(w) * Pow2(r)
    ensures Pow2(p + w + r) == Pow2(p) * Pow2(w + r)
  {
    Pow2Sum(w, r);
    Pow2Sum(p, w + r);
    assert p + (w + r) == p + w + r;
  }

  /** Replacing a field does not reach the bits behind the field and its upper neighbours. */
  lemma {:induction false} ComposeBelow(low: nat, p: nat, field: nat, field': nat, w: nat, high: nat, r: nat, total: nat)
    requires low < Pow2(p) && field < Pow2(w) && field' < Pow2(w) && total == Pow2(p + w + r)
    requires Compose(low, p, field, w, high) < total
    ensures Compose(low, p, field', w, high) < total
  {
    Pow2Parts(p, w, r);
    StackedTwice(low, Pow2(p), field, field', Pow2(w), high, Pow2(r), Pow2(w + r), total,
                 Compose(low, p, field, w, high), Compose(low, p, field', w, high));
  }

  lemma StackedTwice(low: nat, a: nat, x: nat, x': nat, b: nat, y: nat, c: nat, bc: nat, abc: nat, z: nat, z': nat)
    requires low < a && x < b && x' < b && bc == b * c && abc == a * bc
    requires z == low + a * (x + b * y) < abc && z' == low + a * (x' + b * y)
    ensures z' < abc
  {
    var top := b * y;
    Stacked(low, a, x + top, bc);
    Stacked(x, b, y, c);
    Stacked(x', b, y, c);
    Stacked(low, a, x' + top, bc);
  }

  /** A field replaced within m bits. */
  lemma {:induction false} PutComposes(x: nat, p: nat, w: nat, field: nat, m: nat) returns (low: nat, high: nat)
    requires p + w <= m && x < Pow2(m) && field < Pow2(w)
    ensures low < Pow2(p) && Field(x, p, w) < Pow2(w) && x == Compose(low, p, Field(x, p, w), w, high)
    ensures 0 <= Put(x, p, w, field) == Compose(low, p, field, w, high) < Pow2(m)
  {
    low, high := Composed(x, p, w);
    PutIsCompose(x, low, p, field, w, high);
    assert p + w + (m - p - w) == m;
    ComposeBelow(low, p, Field(x, p, w), field, w, high, m - p - w, Pow2(m));
  }

  /** Two numbers that differ in one field of a window, around that field. */
  lemma {:induction false} BothInWindow(before: nat, a: nat, x: nat, x': nat, l: nat, s: nat, field: nat, field': nat, w: nat,
                                        h: nat, m: nat, after: nat, p: nat, y: nat, y': nat) returns (low: nat, high: nat)
    requires s + w <= m && p == a + s && before < Pow2(a) && l < Pow2(s)
    requires x == Compose(l, s, field, w, h) && x' == Compose(l, s, field', w, h)
    requires y == before + Pow2(a) * (x + Pow2(m) * after) && y' == before + Pow2(a) * (x' + Pow2(m) * after)
    ensures low < Pow2(p)
    ensures y == Compose(low, p, field, w, high) && y' == Compose(low, p, field', w, high)
  {
    low := LowInWindow(before, a, l, s, p);
    high := h + Pow2(m - s - w) * after;
    ComposeInWindow(y, before, a, x, l, s, field, w, h, m, after, p, low, high);
    ComposeInWindow(y', before, a, x', l, s, field', w, h, m, after, p, low, high);
  }

  lemma LowInWindow(before: nat, a: nat, l: nat, s: nat, p: nat) returns (low: nat)
    requires before < Pow2(a) && l < Pow2(s) && p == a + s
    ensures low == before + Pow2(a) * l && low < Pow2(p)
  {
    WindowLow(before, a, l, s);
    low := before + Pow2(a) * l;
  }
}
