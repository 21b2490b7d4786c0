/** The 32-bit checksum as arithmetic on polynomials over the two-element field: a natural number
    stands for the polynomial whose coefficients are its bits. */
module Crc {
  import opened Wrappers
  import opened Bits

  function Coefficient(b: nat, g: nat): nat { if b == 1 then g else 0 }

  /** The product of two polynomials. */
  function Product(q: nat, g: nat): nat {
    if q == 0 then 0 else Xor(Coefficient(q % 2, g), 2 * Product(q / 2, g))
  }

  /** A generator of degree n that x does not divide. */
  ghost predicate Generator(g: nat, n: nat) { Pow2(n) <= g < Pow2(n + 1) && g % 2 == 1 }

  /** r is the remainder of p modulo g. */
  ghost predicate IsRemainder(p: nat, g: nat, n: nat, r: nat) {
    r < Pow2(n) && exists q: nat :: p == Xor(Product(q, g), r)
  }

  // ----- Products -----

  lemma ProductDouble(q: nat, b: nat, g: nat)
    requires b < 2
    ensures Product(2 * q + b, g) == Xor(Coefficient(b, g), 2 * Product(q, g))
  {
    if q == 0 && b == 0 {
      XorZero(0);
    }
  }

  lemma Coefficients(b: nat, c: nat, g: nat)
    requires b < 2 && c < 2
    ensures Xor(Coefficient(b, g), Coefficient(c, g)) == Coefficient(Parity(b, c), g)
  {
    XorSelf(g);
    XorZero(g);
    XorSelf(0);
  }

  lemma ProductSumCons(p0: nat, p: nat, q0: nat, q: nat, g: nat)
    requires p0 < 2 && q0 < 2 && Product(Xor(p, q), g) == Xor(Product(p, g), Product(q, g))
    ensures Product(Xor(2 * p + p0, 2 * q + q0), g) == Xor(Product(2 * p + p0, g), Product(2 * q + q0, g))
  {
    var x, y := Product(p, g), Product(q, g);
    XorCons(p0, p, q0, q);
    ProductDouble(p, p0, g);
    ProductDouble(q, q0, g);
    ProductDouble(Xor(p, q), Parity(p0, q0), g);
    XorDouble(x, y);
    Coefficients(p0, q0, g);
    XorExchange(Coefficient(p0, g), 2 * x, Coefficient(q0, g), 2 * y);
  }

  lemma {:induction false} ProductSum(p: nat, q: nat, g: nat)
    ensures Product(Xor(p, q), g) == Xor(Product(p, g), Product(q, g))
    decreases p + q
  {
    if p > 0 || q > 0 {
      ProductSum(p / 2, q / 2, g);
      ProductSumCons(p % 2, p / 2, q % 2, q / 2, g);
    }
  }

  /** A multiple other than zero has at least the generator's degree. */
  lemma {:induction false} ProductIsLarge(q: nat, g: nat, n: nat)
    requires q > 0 && Generator(g, n)
    ensures Product(q, g) >= Pow2(n)
  {
    if q == 1 {
      XorZero(g);
    } else {
      ProductIsLarge(q / 2, g, n);
      var high := 2 * Product(q / 2, g);
      if q % 2 == 1 {
        XorSymmetric(g, high);
        XorAbove(high, g, n + 1);
      } else {
        XorZero(high);
      }
    }
  }

  /** There is only one remainder. */
  lemma RemainderUnique(p: nat, g: nat, n: nat, r: nat, s: nat)
    requires Generator(g, n) && IsRemainder(p, g, n, r) && IsRemainder(p, g, n, s)
    ensures r == s
  {
    var q: nat :| p == Xor(Product(q, g), r);
    var t: nat :| p == Xor(Product(t, g), s);
    var m := Product(Xor(q, t), g);
    ProductSum(q, t, g);
    XorExchange(Product(q, g), r, Product(t, g), s);
    XorSelf(p);
    XorEqual(m, Xor(r, s));
    XorBelow(r, s, n);
    if Xor(q, t) > 0 {
      ProductIsLarge(Xor(q, t), g, n);
      assert false;
    }
    XorEqual(r, s);
  }

  // ----- Shifting the register -----

  /** One bit further: the register modulo the generator. */
  function Shift(state: nat, g: nat, n: nat): nat
    requires n > 0 && g >= Pow2(n)
  {
    if state >= Pow2(n - 1) then Xor(2 * state - Pow2(n), g - Pow2(n)) else 2 * state
  }

  function Shifts(state: nat, g: nat, n: nat, k: nat): nat
    requires n > 0 && g >= Pow2(n)
    decreases k
  {
    if k == 0 then state else Shift(Shifts(state, g, n, k - 1), g, n)
  }

  lemma ShiftStep(q: nat, state: nat, g: nat, n: nat)
    requires n > 0 && Generator(g, n) && state < Pow2(n)
    ensures Shift(state, g, n) < Pow2(n)
    ensures 2 * Xor(Product(q, g), state)
         == Xor(Product(2 * q + (if state >= Pow2(n - 1) then 1 else 0), g), Shift(state, g, n))
  {
    var p := Product(q, g);
    XorDouble(p, state);
    if state >= Pow2(n - 1) {
      ProductDouble(q, 1, g);
      ShiftHigh(state, g, n);
      XorCancel(g, 2 * p, 2 * state);
    } else {
      ProductDouble(q, 0, g);
      XorZero(2 * p);
    }
  }

  lemma {:induction false} ShiftHigh(state: nat, g: nat, n: nat)
    requires n > 0 && Generator(g, n) && Pow2(n - 1) <= state < Pow2(n)
    ensures Shift(state, g, n) == Xor(g, 2 * state) < Pow2(n)
  {
    XorBelow(2 * state - Pow2(n), g - Pow2(n), n);
    XorTop(2 * state - Pow2(n), g - Pow2(n), n);
    XorSymmetric(2 * state, g);
  }

  lemma {:induction false} ShiftsDivide(q: nat, state: nat, g: nat, n: nat, k: nat) returns (q': nat)
    requires n > 0 && Generator(g, n) && state < Pow2(n)
    ensures Shifts(state, g, n, k) < Pow2(n)
    ensures Shl(Xor(Product(q, g), state), k) == Xor(Product(q', g), Shifts(state, g, n, k))
    decreases k
  {
    q' := q;
    if k > 0 {
      q' := ShiftsDivide(q, state, g, n, k - 1);
      var s := Shifts(state, g, n, k - 1);
      ShiftStep(q', s, g, n);
      q' := 2 * q' + if s >= Pow2(n - 1) then 1 else 0;
    }
  }

  // ----- Messages -----

  /** The message as one number, first byte and highest bit first. */
  function Value(message: seq<byte>): nat {
    if message == [] then 0 else Shl(Value(message[..|message| - 1]), 8) + message[|message| - 1]
  }

  /** What is divided: the initial register in front of the message, and n zero bits after it. */
  function Dividend(init: nat, message: seq<byte>, n: nat): nat {
    Xor(Shl(init, 8 * |message|), Shl(Value(message), n))
  }

  /** The register after one byte, which comes in at the top. */
  function AddByte(state: nat, data: byte, g: nat, n: nat): nat
    requires n >= 8 && g >= Pow2(n)
  {
    Shifts(Xor(state, Shl(data, n - 8)), g, n, 8)
  }

  function Register(init: nat, message: seq<byte>, g: nat, n: nat): nat
    requires n >= 8 && g >= Pow2(n)
  {
    if message == [] then init else AddByte(Register(init, message[..|message| - 1], g, n), message[|message| - 1], g, n)
  }

  lemma {:induction false} ShlBelow(a: nat, k: nat, m: nat)
    requires a < Pow2(k)
    ensures Shl(a, m) < Pow2(k + m)
    decreases m
  {
    if m > 0 {
      ShlBelow(a, k, m - 1);
    }
  }

  lemma ByteBelow(data: byte, n: nat)
    requires n >= 8
    ensures Shl(data, n - 8) < Pow2(n)
  {
    assert Pow2(4) == 16;
    assert Pow2(8) == 256;
    ShlBelow(data, 8, n - 8);
  }

  /** Low bits in an empty place can be added with exclusive or. */
  lemma {:induction false} XorIsSum(a: nat, b: nat, k: nat)
    requires b < Pow2(k)
    ensures Xor(Shl(a, k), b) == Shl(a, k) + b
    decreases k
  {
    if k == 0 {
      XorZero(a);
    } else {
      XorIsSum(a, b / 2, k - 1);
      XorCons(0, Shl(a, k - 1), b % 2, b / 2);
    }
  }

  lemma ValueNext(message: seq<byte>, data: byte)
    ensures Value(message + [data]) == Xor(Shl(Value(message), 8), data)
  {
    assert (message + [data])[..|message|] == message;
    assert Pow2(4) == 16;
    assert Pow2(8) == 256;
    XorIsSum(Value(message), data, 8);
  }

  lemma ShiftedSum(i: nat, v: nat, data: nat, n: nat)
    requires n >= 8
    ensures Xor(Shl(i, 8), Shl(Xor(Shl(v, 8), data), n)) == Shl(Xor(Xor(i, Shl(v, n)), Shl(data, n - 8)), 8)
  {
    var x, y := Shl(v, n), Shl(data, n - 8);
    XorShl(Shl(v, 8), data, n);
    ShlSum(v, 8, n);
    ShlSum(v, n, 8);
    ShlSum(data, n - 8, 8);
    XorShl(x, y, 8);
    XorShl(i, Xor(x, y), 8);
    XorAssociative(i, x, y);
  }

  lemma DividendNext(init: nat, message: seq<byte>, data: byte, n: nat)
    requires n >= 8
    ensures Dividend(init, message + [data], n) == Shl(Xor(Dividend(init, message, n), Shl(data, n - 8)), 8)
  {
    ValueNext(message, data);
    ShlSum(init, 8 * |message|, 8);
    ShiftedSum(Shl(init, 8 * |message|), Value(message), data, n);
  }

  /** The register is a remainder of the dividend. */
  lemma {:induction false} RegisterDivides(init: nat, message: seq<byte>, g: nat, n: nat) returns (q: nat)
    requires n >= 8 && Generator(g, n) && init < Pow2(n)
    ensures Register(init, message, g, n) < Pow2(n)
    ensures Dividend(init, message, n) == Xor(Product(q, g), Register(init, message, g, n))
    decreases |message|
  {
    if message == [] {
      q := 0;
      ShlZero(n);
      XorZero(init);
    } else {
      var rest, data := message[..|message| - 1], message[|message| - 1];
      q := RegisterDivides(init, rest, g, n);
      var state, high := Register(init, rest, g, n), Shl(data, n - 8);
      ByteBelow(data, n);
      XorBelow(state, high, n);
      DividendNext(init, rest, data, n);
      assert rest + [data] == message;
      XorAssociative(Product(q, g), state, high);
      q := ShiftsDivide(q, Xor(state, high), g, n, 8);
    }
  }

  lemma {:induction false} ShlZero(n: nat)
    ensures Shl(0, n) == 0
  {
    if n > 0 {
      ShlZero(n - 1);
    }
  }

  /** Main result: for messages of any length, the register is the remainder of
      init * x^(8 * length) + message * x^n modulo the generator, and nothing else is. */
  lemma RegisterIsRemainder(init: nat, message: seq<byte>, g: nat, n: nat, r: nat)
    requires n >= 8 && Generator(g, n) && init < Pow2(n)
    ensures IsRemainder(Dividend(init, message, n), g, n, r) <==> r == Register(init, message, g, n)
  {
    var q := RegisterDivides(init, message, g, n);
    assert IsRemainder(Dividend(init, message, n), g, n, Register(init, message, g, n));
    if IsRemainder(Dividend(init, message, n), g, n, r) {
      RemainderUnique(Dividend(init, message, n), g, n, r, Register(init, message, g, n));
    }
  }

  // ----- What the checksum detects -----

  lemma OddSum(g: nat, p: nat, h: nat)
    requires g % 2 == 1
    ensures Xor(g, 2 * p) != 2 * h
  {
    XorCons(1, g / 2, 0, p);
    assert g == 1 + 2 * (g / 2);
  }

  lemma {:induction false} HalfMultiple(q: nat, h: nat, g: nat)
    requires g % 2 == 1 && Product(q, g) == 2 * h
    ensures Product(q / 2, g) == h
  {
    var p := Product(q / 2, g);
    ProductDouble(q / 2, q % 2, g);
    OddSum(g, p, h);
    XorZero(2 * p);
  }

  /** x does not divide the generator, so a multiple that x^k divides is a multiple times x^k. */
  lemma {:induction false} MultipleUnshifted(q: nat, e: nat, k: nat, g: nat, n: nat) returns (q': nat)
    requires Generator(g, n) && Product(q, g) == Shl(e, k)
    ensures Product(q', g) == e
    decreases k
  {
    q' := q;
    if k > 0 {
      HalfMultiple(q, Shl(e, k - 1), g);
      q' := MultipleUnshifted(q / 2, e, k - 1, g, n);
    }
  }

  lemma DividendsDiffer(init: nat, m1: seq<byte>, m2: seq<byte>, n: nat, e: nat, at: nat)
    requires |m1| == |m2| && Xor(Value(m1), Value(m2)) == Shl(e, at)
    ensures Xor(Dividend(init, m1, n), Dividend(init, m2, n)) == Shl(e, at + n)
  {
    XorCancel(Shl(init, 8 * |m1|), Shl(Value(m1), n), Shl(Value(m2), n));
    XorShl(Value(m1), Value(m2), n);
    ShlSum(e, at, n);
  }

  lemma SameRemainder(d1: nat, d2: nat, q1: nat, q2: nat, r: nat, g: nat)
    requires d1 == Xor(Product(q1, g), r) && d2 == Xor(Product(q2, g), r)
    ensures Xor(d1, d2) == Product(Xor(q1, q2), g)
  {
    XorExchange(Product(q1, g), r, Product(q2, g), r);
    XorSelf(r);
    XorZero(Product(Xor(q1, q2), g));
    ProductSum(q1, q2, g);
  }

  lemma NotMultiple(q: nat, e: nat, k: nat, g: nat, n: nat)
    requires Generator(g, n) && 0 < e < Pow2(n)
    ensures Product(q, g) != Shl(e, k)
  {
    if Product(q, g) == Shl(e, k) {
      var q' := MultipleUnshifted(q, e, k, g, n);
      if q' > 0 {
        ProductIsLarge(q', g, n);
      }
      assert false;
    }
  }

  lemma {:induction false} RemaindersDiffer(d1: nat, d2: nat, q1: nat, q2: nat, r1: nat, r2: nat, e: nat, k: nat, g: nat, n: nat)
    requires Generator(g, n) && 0 < e < Pow2(n) && Xor(d1, d2) == Shl(e, k)
    requires d1 == Xor(Product(q1, g), r1) && d2 == Xor(Product(q2, g), r2)
    ensures r1 != r2
  {
    if r1 == r2 {
      SameRemainder(d1, d2, q1, q2, r1, g);
    }
    NotMultiple(Xor(q1, q2), e, k, g, n);
  }

  lemma {:induction false} RegistersDiffer(a: nat, m1: seq<byte>, b: nat, m2: seq<byte>, e: nat, k: nat, g: nat, n: nat)
    requires n >= 8 && Generator(g, n) && a < Pow2(n) && b < Pow2(n)
    requires Xor(Dividend(a, m1, n), Dividend(b, m2, n)) == Shl(e, k) && 0 < e < Pow2(n)
    ensures Register(a, m1, g, n) != Register(b, m2, g, n)
  {
    var q1 := RegisterDivides(a, m1, g, n);
    var q2 := RegisterDivides(b, m2, g, n);
    RemaindersDiffer(Dividend(a, m1, n), Dividend(b, m2, n), q1, q2,
                     Register(a, m1, g, n), Register(b, m2, g, n), e, k, g, n);
  }

  /** Main result: two messages of one length that differ only within n consecutive bits have
      different checksums. */
  lemma {:induction false} BurstsAreDetected(init: nat, m1: seq<byte>, m2: seq<byte>, g: nat, n: nat, e: nat, at: nat)
    requires n >= 8 && Generator(g, n) && init < Pow2(n)
    requires |m1| == |m2| && Xor(Value(m1), Value(m2)) == Shl(e, at) && 0 < e < Pow2(n)
    ensures Register(init, m1, g, n) != Register(init, m2, g, n)
  {
    DividendsDiffer(init, m1, m2, n, e, at);
    RegistersDiffer(init, m1, init, m2, e, at + n, g, n);
  }

  // ----- Reading the checksum -----

  /** The register after k reads: each one complements it. */
  function Gets(state: nat, ones: nat, k: nat): nat {
    if k == 0 then state else Xor(Gets(state, ones, k - 1), ones)
  }

  predicate Even(k: nat) { k == 0 || !Even(k - 1) }

  lemma {:induction false} EvenMeans(k: nat)
    ensures Even(k) <==> k % 2 == 0
  {
    if k > 0 {
      EvenMeans(k - 1);
    }
  }

  lemma {:induction false} GetsAlternate(state: nat, ones: nat, k: nat)
    ensures Gets(state, ones, k) == if Even(k) then state else Xor(state, ones)
  {
    if k > 0 {
      GetsAlternate(state, ones, k - 1);
      XorTwice(state, ones);
    }
  }

  lemma ComplementDiffers(x: nat, ones: nat)
    requires ones > 0
    ensures Xor(x, ones) != x
  {
    if Xor(x, ones) == x {
      XorSymmetric(x, ones);
      XorAssociative(ones, x, x);
      XorSelf(x);
      XorZero(ones);
      assert false;
    }
  }

  lemma GetReads(r: nat, ones: nat, k: nat, state: nat)
    requires ones > 0
    ensures state == Gets(r, ones, k) ==>
              Xor(state, ones) == Gets(r, ones, k + 1) && (Xor(state, ones) == Xor(r, ones) <==> k % 2 == 0)
  {
    EvenMeans(k);
    GetsAlternate(r, ones, k);
    ComplementDiffers(r, ones);
    XorTwice(r, ones);
  }

  lemma {:induction false} RegisterConcat(init: nat, m1: seq<byte>, m2: seq<byte>, g: nat, n: nat)
    requires n >= 8 && g >= Pow2(n)
    ensures Register(init, m1 + m2, g, n) == Register(Register(init, m1, g, n), m2, g, n)
    decreases |m2|
  {
    if m2 == [] {
      assert m1 + m2 == m1;
    } else {
      assert (m1 + m2)[..|m1 + m2| - 1] == m1 + m2[..|m2| - 1];
      RegisterConcat(init, m1, m2[..|m2| - 1], g, n);
    }
  }

  /** Different registers stay different whatever is added. */
  lemma RegisterInjective(a: nat, b: nat, message: seq<byte>, g: nat, n: nat)
    requires n >= 8 && Generator(g, n) && a < Pow2(n) && b < Pow2(n) && a != b
    ensures Register(a, message, g, n) != Register(b, message, g, n)
  {
    var k, v := 8 * |message|, Shl(Value(message), n);
    XorSymmetric(Shl(a, k), v);
    XorSymmetric(Shl(b, k), v);
    XorCancel(v, Shl(a, k), Shl(b, k));
    XorShl(a, b, k);
    XorBelow(a, b, n);
    if Xor(a, b) == 0 {
      XorEqual(a, b);
    }
    RegistersDiffer(a, message, b, message, Xor(a, b), k, g, n);
  }

  /** Main result: after k reads in the middle of a message, reading at its end gives the checksum
      of the whole message exactly when k is even. */
  lemma {:induction false} ReadsHarmlessExactly(init: nat, m1: seq<byte>, k: nat, m2: seq<byte>, g: nat, n: nat, ones: nat)
    requires n >= 8 && Generator(g, n) && init < Pow2(n) && 0 < ones < Pow2(n)
    ensures Xor(Register(Gets(Register(init, m1, g, n), ones, k), m2, g, n), ones) == Xor(Register(init, m1 + m2, g, n), ones)
            <==> k % 2 == 0
  {
    var r := Register(init, m1, g, n);
    var _ := RegisterDivides(init, m1, g, n);
    EvenMeans(k);
    GetsAlternate(r, ones, k);
    RegisterConcat(init, m1, m2, g, n);
    if k % 2 != 0 {
      ComplementDiffers(r, ones);
      XorBelow(r, ones, n);
      RegisterInjective(Xor(r, ones), r, m2, g, n);
      ComplementInjective(Register(Xor(r, ones), m2, g, n), Register(r, m2, g, n), ones);
    }
  }

  lemma ComplementInjective(x: nat, y: nat, ones: nat)
    requires x != y
    ensures Xor(x, ones) != Xor(y, ones)
  {
    XorSymmetric(x, ones);
    XorSymmetric(y, ones);
    XorCancel(ones, x, y);
    if Xor(x, ones) == Xor(y, ones) {
      XorSelf(Xor(x, ones));
      XorEqual(x, y);
    }
  }

  // ----- The checksum in place -----

  /** What the checksum of a message should be. */
  ghost function Checksum(message: seq<byte>): nat
    requires Pow2(WIDTH) <= GENERATOR
  {
    Xor(Register(ONES, message, GENERATOR, WIDTH), ONES)
  }

  const WIDTH: nat := 32
  const GENERATOR: nat := 0x1_04C1_1DB7  // of section 3.2.9 of IEEE 802.3
  const ONES: nat := 0xFFFF_FFFF

  lemma Widths()
    ensures Pow2(31) == 0x8000_0000 && Pow2(32) == 0x1_0000_0000 && Pow2(33) == 0x2_0000_0000
    ensures Generator(GENERATOR, 32)
  {
    assert Pow2(8) == 0x100;
    assert Pow2(16) == 0x1_0000;
    assert Pow2(24) == 0x100_0000;
    assert Pow2(31) == 0x8000_0000;
  }

  lemma TopByte(data: nat)
    ensures Shl(data, 24) == data * 0x100_0000
  {
    ShlIsProduct(data, 24);
    assert Pow2(8) == 0x100;
    assert Pow2(12) == 0x1000;
    assert Pow2(16) == 0x1_0000;
  }

  lemma ShiftInPlace(state: nat, g: nat, n: nat, half: nat)
    requires n > 0 && Generator(g, n) && half == Pow2(n - 1) && state < 2 * half
    ensures Shift(state, g, n) < 2 * half
    ensures Shift(state, g, n) == if state >= half then Xor(2 * state - 2 * half, g - 2 * half) else 2 * state
  {
    ShiftStep(0, state, g, n);
  }

  class Crc32 {
    var state: nat
    ghost var message: seq<byte>
    ghost var gets: nat

    /** The register belongs to the bytes added so far and the reads since the last of them. */
    ghost predicate Valid()
      reads this
    {
      Pow2(32) <= GENERATOR && state == Gets(Register(ONES, message, GENERATOR, WIDTH), ONES, gets)
    }

    constructor ()
      ensures Valid() && message == [] && gets == 0 && state <= ONES
    {
      state := ONES;
      message, gets := [], 0;
      new;
      Widths();
    }

    /** One more byte of the message, or of whatever the register stands for. */
    method Add(data: byte)
      requires state <= ONES
      modifies this
      ensures Pow2(32) <= GENERATOR && state == AddByte(old(state), data, GENERATOR, WIDTH) <= ONES
      ensures message == old(message) + [data]
      ensures gets == 0 && (old(Valid()) && old(gets) % 2 == 0 ==> Valid())
    {
      Widths();
      TopByte(data);
      ByteBelow(data, WIDTH);
      XorBelow(state, Shl(data, WIDTH - 8), WIDTH);
      state := Xor(state, data * 0x100_0000);
      ShiftRegister(8, 0x04C1_1DB7, GENERATOR, WIDTH);
      EvenMeans(gets);
      GetsAlternate(Register(ONES, message, GENERATOR, WIDTH), ONES, gets);
      message, gets := message + [data], 0;
      assert message[..|message| - 1] == old(message);
    }

    /** Moves bits through the register; `low` is the generator without its top bit. */
    method ShiftRegister(bits: nat, low: nat, ghost g: nat, ghost n: nat)
      requires state <= ONES && g == 0x1_0000_0000 + low
      requires n > 0 && Pow2(n - 1) == 0x8000_0000 && Generator(g, n)
      modifies this`state
      ensures state == Shifts(old(state), g, n, bits) <= ONES
    {
      var b: nat := bits;
      ghost var k: nat := 0;
      while b > 0
        invariant b + k == bits && state == Shifts(old(state), g, n, k) <= ONES
      {
        ShiftOnce(low, g, n);
        b, k := b - 1, k + 1;
      }
    }

    method ShiftOnce(low: nat, ghost g: nat, ghost n: nat)
      requires state <= ONES && g == 0x1_0000_0000 + low
      requires n > 0 && Pow2(n - 1) == 0x8000_0000 && Generator(g, n)
      modifies this`state
      ensures state == Shift(old(state), g, n) <= ONES
    {
      ShiftInPlace(state, g, n, 0x8000_0000);
      if state >= 0x8000_0000 {
        state := Xor((2 * state) % 0x1_0000_0000, low);
      } else {
        state := 2 * state;
      }
    }

    /** Returns the complement of the register, and leaves it there. */
    method Get() returns (crc: nat)
      modifies this`state, this`gets
      ensures crc == state == Xor(old(state), ONES) && gets == old(gets) + 1
      ensures old(Valid()) ==> Valid()
      ensures old(Valid()) ==> (crc == Checksum(message) <==> old(gets) % 2 == 0)
    {
      Widths();
      GetReads(Register(ONES, message, GENERATOR, WIDTH), ONES, gets, state);
      state := Xor(state, ONES);
      crc := state;
      gets := gets + 1;
    }
  }
}
