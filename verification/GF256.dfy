/** Arithmetic in GF(2^8), the field of section 4.2 of FIPS 197: bytes are polynomials over
    GF(2), addition is xor and multiplication is taken modulo x^8 + x^4 + x^3 + x + 1. */
module GF256 {
  import opened Collections

  type Byte = bv8

  function Add(a: Byte, b: Byte): Byte { a ^ b }

  function Half(a: Byte): Byte { a >> 1 }

  /** Multiplication by x: a shift, reduced by 0x1b when bit 7 falls out. */
  function XTime(a: Byte): Byte {
    (a << 1) ^ (if a & 0x80 != 0 then 0x1b else 0)
  }

  function Gate(bit: Byte, b: Byte): Byte {
    if bit & 1 != 0 then b else 0
  }

  /** Multiplication, reading the bits of a from the highest down. */
  function Mul(a: Byte, b: Byte): Byte
    decreases a
  {
    if a == 0 then 0 else Add(XTime(Mul(Half(a), b)), Gate(a, b))
  }

  // ---- bit-level facts ------------------------------------------------------------------

  lemma XTimeLinear(a: Byte, b: Byte)
    ensures XTime(Add(a, b)) == Add(XTime(a), XTime(b))
  {
    assert (a ^ b) << 1 == (a << 1) ^ (b << 1);
    assert (a ^ b) & 0x80 == (a & 0x80) ^ (b & 0x80);
    assert a & 0x80 == 0 || a & 0x80 == 0x80;
    assert b & 0x80 == 0 || b & 0x80 == 0x80;
  }

  lemma GateLinear(a: Byte, b: Byte, c: Byte)
    ensures Gate(Add(a, b), c) == Add(Gate(a, c), Gate(b, c))
    ensures Gate(a, Add(b, c)) == Add(Gate(a, b), Gate(a, c))
  {
    assert (a ^ b) & 1 == (a & 1) ^ (b & 1);
    assert a & 1 == 0 || a & 1 == 1;
    assert b & 1 == 0 || b & 1 == 1;
  }

  lemma XTimeZero()
    ensures XTime(0) == 0
  {}

  /** A byte is its lowest bit plus x times its upper part. */
  lemma SplitLowBit(a: Byte)
    ensures a == Add(XTime(Half(a)), Gate(a, 1))
  {
    assert (a >> 1) & 0x80 == 0;
    assert a & 1 == 0 || a & 1 == 1;
    assert a == ((a >> 1) << 1) ^ (a & 1);
  }

  lemma HalfLinear(a: Byte, b: Byte)
    ensures Half(Add(a, b)) == Add(Half(a), Half(b))
  {}

  lemma AddZero(a: Byte)
    ensures Add(0, a) == a && Add(a, 0) == a && Add(a, a) == 0
  {}

  lemma AddCommutative(a: Byte, b: Byte)
    ensures Add(a, b) == Add(b, a)
  {}

  lemma AddAssociative(a: Byte, b: Byte, c: Byte)
    ensures Add(Add(a, b), c) == Add(a, Add(b, c))
  {}

  lemma Regroup(a: Byte, b: Byte, c: Byte, d: Byte)
    ensures Add(Add(a, b), Add(c, d)) == Add(Add(a, c), Add(b, d))
  {
    hide *;
    AddAssociative(a, b, Add(c, d));
    AddAssociative(b, c, d);
    AddCommutative(b, c);
    AddAssociative(c, b, d);
    AddAssociative(a, c, Add(b, d));
  }

  lemma MulStep(a: Byte, b: Byte)
    ensures Mul(a, b) == Add(XTime(Mul(Half(a), b)), Gate(a, b))
  {
    if a == 0 {
      XTimeZero();
      assert Mul(0, b) == 0;
    }
  }

  lemma Descent(a: Byte, b: Byte)
    requires a != 0
    ensures Half(a) | Half(b) < a | b
    ensures Half(a) < a
  {
    assert (a >> 1) | (b >> 1) == (a | b) >> 1;
  }

  // ---- the ring laws --------------------------------------------------------------------

  lemma {:induction false} DistributeLeft(a: Byte, b: Byte, c: Byte)
    ensures Mul(Add(a, b), c) == Add(Mul(a, c), Mul(b, c))
    decreases a | b
  {
    AddZero(b);
    AddZero(Mul(b, c));
    if a != 0 {
      Descent(a, b);
      DistributeLeft(Half(a), Half(b), c);
      hide *;
      MulStep(Add(a, b), c);
      MulStep(a, c);
      MulStep(b, c);
      HalfLinear(a, b);
      XTimeLinear(Mul(Half(a), c), Mul(Half(b), c));
      GateLinear(a, b, c);
      Regroup(XTime(Mul(Half(a), c)), XTime(Mul(Half(b), c)), Gate(a, c), Gate(b, c));
    }
  }

  lemma {:induction false} DistributeRight(a: Byte, b: Byte, c: Byte)
    ensures Mul(a, Add(b, c)) == Add(Mul(a, b), Mul(a, c))
    decreases a
  {
    AddZero(0);
    if a != 0 {
      Descent(a, a);
      DistributeRight(Half(a), b, c);
      hide *;
      MulStep(a, Add(b, c));
      MulStep(a, b);
      MulStep(a, c);
      XTimeLinear(Mul(Half(a), b), Mul(Half(a), c));
      GateLinear(a, b, c);
      Regroup(XTime(Mul(Half(a), b)), XTime(Mul(Half(a), c)), Gate(a, b), Gate(a, c));
    }
  }

  lemma MulOne(b: Byte)
    ensures Mul(1, b) == b && Mul(b, 1) == b && Mul(0, b) == 0 && Mul(b, 0) == 0
  {
    assert Mul(1, b) == b by { MulStep(1, b); assert Half(1) == 0 && Gate(1, b) == b; }
    MulByOne(b);
    MulByZero(b);
  }

  lemma {:induction false} MulByOne(b: Byte)
    ensures Mul(b, 1) == b
    decreases b
  {
    if b != 0 {
      Descent(b, b);
      MulByOne(Half(b));
      hide *;
      MulStep(b, 1);
      SplitLowBit(b);
    }
  }

  lemma {:induction false} MulByZero(b: Byte)
    ensures Mul(b, 0) == 0
    decreases b
  {
    if b != 0 {
      Descent(b, b);
      MulByZero(Half(b));
      XTimeZero();
      MulStep(b, 0);
    }
  }

  lemma MulOddEven(a: Byte, b: Byte)
    ensures a & 1 == 1 ==> Mul(a, b) == Add(XTime(Mul(a >> 1, b)), b)
    ensures a & 1 == 0 ==> Mul(a, b) == XTime(Mul(a >> 1, b))
  {
    MulStep(a, b);
    assert Half(a) == a >> 1;
    AddZero(XTime(Mul(a >> 1, b)));
  }

  /** The product of a small byte with the low part of the reduction polynomial. */
  function Fold(t: Byte): Byte {
    t ^ (t << 1) ^ (t << 3) ^ (t << 4)
  }

  /** n steps at once: a shift, with the bits that fall out folded back. */
  function Shifted(b: Byte, n: bv8): Byte
    requires n == 1 || n == 2 || n == 4
  {
    (b << n) ^ Fold(b >> (8 - n))
  }

  lemma OneStep(b: Byte)
    ensures XTime(b) == Shifted(b, 1)
  {}

  lemma TwoSteps(b: Byte)
    ensures XTime(XTime(b)) == Shifted(b, 2)
  {}

  lemma FourSteps(b: Byte)
    ensures XTime(XTime(XTime(XTime(b)))) == Shifted(b, 4)
  {
    TwoSteps(b);
    TwoSteps(XTime(XTime(b)));
    hide XTime;
  }

  lemma EightSteps(b: Byte)
    ensures Shifted(Shifted(b, 4), 4) == Add(Shifted(Add(Shifted(Add(Shifted(b, 1), b), 2), b), 1), b)
  {}

  /** x^8 acts as x^4 + x^3 + x + 1: the reduction polynomial of FIPS 197. */
  lemma ReductionPolynomial(b: Byte)
    ensures XTime(XTime(XTime(XTime(XTime(XTime(XTime(XTime(b)))))))) ==
            Add(XTime(Add(XTime(XTime(Add(XTime(b), b))), b)), b)
  {
    hide *;
    FourSteps(b);
    FourSteps(XTime(XTime(XTime(XTime(b)))));
    EightSteps(b);
    OneStep(b);
    TwoSteps(Add(XTime(b), b));
    OneStep(Add(XTime(XTime(Add(XTime(b), b))), b));
  }

  lemma MulTopAndReduction(b: Byte)
    ensures Mul(0x1b, b) == XTime(Mul(0x80, b))
  {
    hide *;
    MulOne(b);
    MulOddEven(0x03, b);
    MulOddEven(0x06, b);
    MulOddEven(0x0d, b);
    MulOddEven(0x1b, b);
    MulOddEven(0x02, b);
    MulOddEven(0x04, b);
    MulOddEven(0x08, b);
    MulOddEven(0x10, b);
    MulOddEven(0x20, b);
    MulOddEven(0x40, b);
    MulOddEven(0x80, b);
    ReductionPolynomial(b);
  }

  lemma ClearTop(a: Byte)
    ensures a & 0x80 == 0 ==> Half(XTime(a)) == a && (forall b :: Gate(XTime(a), b) == 0)
    ensures a & 0x80 != 0 ==> a == Add(a & 0x7f, 0x80) && XTime(0x80) == 0x1b
    ensures (a & 0x7f) & 0x80 == 0
  {}

  /** Multiplying commutes with multiplication by x on the left operand. */
  lemma MulXTimeLeft(a: Byte, b: Byte)
    ensures Mul(XTime(a), b) == XTime(Mul(a, b))
  {
    if a & 0x80 == 0 {
      ClearTop(a);
      MulStep(XTime(a), b);
      AddZero(XTime(Mul(a, b)));
    } else {
      var c := a & 0x7f;
      ClearTop(a);
      MulXTimeLow(c, b);
      hide *;
      XTimeLinear(c, 0x80);
      DistributeLeft(XTime(c), 0x1b, b);
      DistributeLeft(c, 0x80, b);
      MulTopAndReduction(b);
      XTimeLinear(Mul(c, b), Mul(0x80, b));
    }
  }

  lemma MulXTimeLow(a: Byte, b: Byte)
    requires a & 0x80 == 0
    ensures Mul(XTime(a), b) == XTime(Mul(a, b))
  {
    ClearTop(a);
    hide *;
    MulStep(XTime(a), b);
    AddZero(XTime(Mul(a, b)));
  }

  lemma GateXTime(a: Byte, b: Byte)
    ensures Gate(a, XTime(b)) == XTime(Gate(a, b))
  {
    XTimeZero();
  }

  lemma {:induction false} MulXTimeRight(a: Byte, b: Byte)
    ensures Mul(a, XTime(b)) == XTime(Mul(a, b))
    decreases a
  {
    XTimeZero();
    if a != 0 {
      Descent(a, a);
      MulXTimeRight(Half(a), b);
      hide *;
      MulStep(a, XTime(b));
      MulStep(a, b);
      GateXTime(a, b);
      XTimeLinear(XTime(Mul(Half(a), b)), Gate(a, b));
    }
  }

  lemma GateMul(bit: Byte, a: Byte, b: Byte)
    ensures Mul(a, Gate(bit, b)) == Gate(bit, Mul(a, b))
    ensures Mul(Gate(bit, a), b) == Gate(bit, Mul(a, b))
  {
    MulOne(a);
    MulOne(b);
  }

  lemma {:induction false} MulCommutative(a: Byte, b: Byte)
    ensures Mul(a, b) == Mul(b, a)
    decreases a
  {
    MulOne(b);
    if a != 0 {
      Descent(a, a);
      MulCommutative(Half(a), b);
      hide *;
      MulStep(a, b);
      SplitLowBit(a);
      DistributeRight(b, XTime(Half(a)), Gate(a, 1));
      MulXTimeRight(b, Half(a));
      GateMul(a, b, 1);
    }
  }

  lemma {:induction false} MulAssociative(a: Byte, b: Byte, c: Byte)
    ensures Mul(Mul(a, b), c) == Mul(a, Mul(b, c))
    decreases a
  {
    MulOne(c);
    if a != 0 {
      Descent(a, a);
      MulAssociative(Half(a), b, c);
      hide *;
      MulStep(a, b);
      MulStep(a, Mul(b, c));
      DistributeLeft(XTime(Mul(Half(a), b)), Gate(a, b), c);
      MulXTimeLeft(Mul(Half(a), b), c);
      GateMul(a, b, c);
    }
  }

  // ---- the reference: carry-less product and remainder ------------------------------------

  /** x^8 + x^4 + x^3 + x + 1. */
  const POLYNOMIAL: bv16 := 0x11b

  function Xor(a: bv16, b: bv16): bv16 { a ^ b }

  function Double(a: bv16): bv16 { a << 1 }

  function Widen(a: Byte): bv16 { a as bv16 }

  function Append(q: bv16, bit: bool): bv16 { (q << 1) | (if bit then 1 else 0) }

  predicate Odd(a: bv16) { a & 1 != 0 }

  predicate HighBit(a: Byte) { a & 0x80 != 0 }

  function If(c: bool, a: bv16): bv16 { if c then a else 0 }

  /** The product of two polynomials over GF(2), one bit of the left operand at a time. */
  function CarrylessProduct(a: bv16, b: bv16): bv16
    decreases a
  {
    if a == 0 then 0 else Xor(Double(CarrylessProduct(a >> 1, b)), If(Odd(a), b))
  }

  lemma XorAssociative(a: bv16, b: bv16, c: bv16)
    ensures Xor(Xor(a, b), c) == Xor(a, Xor(b, c))
  {}

  lemma XorCommutative(a: bv16, b: bv16)
    ensures Xor(a, b) == Xor(b, a) && Xor(a, Xor(a, b)) == b
  {}

  lemma DoubleXor(a: bv16, b: bv16)
    ensures Double(Xor(a, b)) == Xor(Double(a), Double(b))
  {}

  lemma XorRegroup(a: bv16, b: bv16, c: bv16, d: bv16)
    ensures Xor(Double(Xor(a, b)), d) == Xor(Xor(Double(a), c), Xor(Xor(Double(b), c), d))
  {
    hide *;
    DoubleXor(a, b);
    XorAssociative(Double(a), Double(b), d);
    XorAssociative(Double(a), c, Xor(Xor(Double(b), c), d));
    XorCommutative(Double(b), c);
    XorAssociative(c, Double(b), d);
    XorCommutative(c, Xor(Double(b), d));
  }

  lemma ProductStep(q: bv16, bit: bool, b: bv16)
    requires q <= 0x7f
    ensures CarrylessProduct(Append(q, bit), b) == Xor(Double(CarrylessProduct(q, b)), If(bit, b))
  {
    var q' := Append(q, bit);
    assert q' >> 1 == q && Odd(q') == bit;
    if q' == 0 {
      assert CarrylessProduct(0, b) == 0;
    }
  }

  lemma WidenAdd(a: Byte, b: Byte)
    ensures Widen(Add(a, b)) == Xor(Widen(a), Widen(b))
  {}

  lemma WidenGate(a: Byte, b: Byte)
    ensures Widen(a) == Append(Widen(Half(a)), Odd(Widen(a))) && Widen(Half(a)) <= 0x7f
    ensures Widen(Gate(a, b)) == If(Odd(Widen(a)), Widen(b))
  {}

  lemma WidenXTime(r: Byte)
    ensures Widen(XTime(r)) == Xor(Double(Widen(r)), If(HighBit(r), POLYNOMIAL))
  {}

  /** The quotient has fewer bits than the left operand. */
  predicate QuotientFits(q: bv16, a: Byte) {
    && (a <= 0x01 ==> q == 0) && (a <= 0x03 ==> q <= 0x01) && (a <= 0x07 ==> q <= 0x03)
    && (a <= 0x0f ==> q <= 0x07) && (a <= 0x1f ==> q <= 0x0f) && (a <= 0x3f ==> q <= 0x1f)
    && (a <= 0x7f ==> q <= 0x3f) && q <= 0x7f
  }

  lemma QuotientFitsStep(q: bv16, a: Byte, b: Byte)
    requires QuotientFits(q, Half(a))
    ensures q <= 0x7f && QuotientFits(Append(q, HighBit(Mul(Half(a), b))), a)
  {
    assert Half(a) <= 0x7f;
    assert a <= 0x01 ==> Half(a) == 0;
    assert Mul(0, b) == 0;
  }

  /** Mul is the product modulo the polynomial, the definition of section 4.2 of FIPS 197. The
      bound on the quotient keeps every product within 16 bits. */
  lemma {:induction false} MulIsRemainder(a: Byte, b: Byte) returns (q: bv16)
    ensures CarrylessProduct(Widen(a), Widen(b)) == Xor(CarrylessProduct(q, POLYNOMIAL), Widen(Mul(a, b)))
    ensures QuotientFits(q, a)
    decreases a
  {
    if a == 0 {
      q := 0;
      assert CarrylessProduct(0, POLYNOMIAL) == 0 && CarrylessProduct(0, Widen(b)) == 0;
    } else {
      Descent(a, a);
      var q' := MulIsRemainder(Half(a), b);
      hide *;
      var m := Mul(Half(a), b);
      q := Append(q', HighBit(m));
      QuotientFitsStep(q', a, b);
      WidenGate(a, b);
      ProductStep(Widen(Half(a)), Odd(Widen(a)), Widen(b));
      ProductStep(q', HighBit(m), POLYNOMIAL);
      WidenXTime(m);
      MulStep(a, b);
      WidenAdd(XTime(m), Gate(a, b));
      XorRegroup(CarrylessProduct(q', POLYNOMIAL), Widen(m), If(HighBit(m), POLYNOMIAL), Widen(Gate(a, b)));
    }
  }

  predicate Wide(q: bv16, w: bv16) {
    && (q == 0 ==> w == 0) && (q != 0 ==> w >= 0x100) && (q <= 0x01 ==> w <= 0x1ff) && (q <= 0x03 ==> w <= 0x3ff)
    && (q <= 0x07 ==> w <= 0x7ff) && (q <= 0x0f ==> w <= 0xfff) && (q <= 0x1f ==> w <= 0x1fff)
    && (q <= 0x3f ==> w <= 0x3fff) && w <= 0x7fff
  }

  /** A non-zero multiple of the polynomial has degree at least 8. */
  lemma {:induction false} MultipleIsWide(q: bv16)
    requires q <= 0x7f
    ensures Wide(q, CarrylessProduct(q, POLYNOMIAL))
    decreases q
  {
    if q != 0 {
      assert q >> 1 < q;
      MultipleIsWide(q >> 1);
    }
  }

  lemma ProductSplit(q: bv16, b: bv16)
    ensures CarrylessProduct(q, b) == Xor(Double(CarrylessProduct(q >> 1, b)), If(Odd(q), b))
  {
    if q == 0 {
      assert CarrylessProduct(0, b) == 0;
    }
  }

  lemma HalfXor(p: bv16, q: bv16, b: bv16)
    ensures Xor(p, q) >> 1 == Xor(p >> 1, q >> 1)
    ensures If(Odd(Xor(p, q)), b) == Xor(If(Odd(p), b), If(Odd(q), b))
  {
    OddXor(p, q);
    hide Odd;
  }

  lemma OddXor(p: bv16, q: bv16)
    ensures Odd(Xor(p, q)) <==> (Odd(p) != Odd(q))
  {
    assert (p ^ q) & 1 == (p & 1) ^ (q & 1);
    assert (p & 1 == 0 || p & 1 == 1) && (q & 1 == 0 || q & 1 == 1);
  }

  lemma XorSwapMiddle(a: bv16, b: bv16, c: bv16, d: bv16)
    ensures Xor(Xor(a, b), Xor(c, d)) == Xor(Xor(a, c), Xor(b, d))
  {
    hide *;
    XorAssociative(a, b, Xor(c, d));
    XorAssociative(b, c, d);
    XorCommutative(b, c);
    XorAssociative(c, b, d);
    XorAssociative(a, c, Xor(b, d));
  }

  lemma {:induction false} ProductLinear(p: bv16, q: bv16, b: bv16)
    ensures CarrylessProduct(Xor(p, q), b) == Xor(CarrylessProduct(p, b), CarrylessProduct(q, b))
    decreases p | q
  {
    if p | q == 0 {
      assert CarrylessProduct(0, b) == 0;
    } else {
      assert (p >> 1) | (q >> 1) == (p | q) >> 1;
      ProductLinear(p >> 1, q >> 1, b);
      hide *;
      var x, y := CarrylessProduct(p >> 1, b), CarrylessProduct(q >> 1, b);
      ProductSplit(p, b);
      ProductSplit(q, b);
      ProductSplit(Xor(p, q), b);
      HalfXor(p, q, b);
      DoubleXor(x, y);
      XorSwapMiddle(Double(x), If(Odd(p), b), Double(y), If(Odd(q), b));
    }
  }

  ghost predicate IsRemainder(w: bv16, r: Byte) {
    exists q: bv16 :: q <= 0x7f && w == Xor(CarrylessProduct(q, POLYNOMIAL), Widen(r))
  }

  lemma Disagree(w: bv16, c: bv16, d: bv16, r: Byte, s: Byte)
    requires w == Xor(c, Widen(r)) && w == Xor(d, Widen(s)) && Xor(w, w) == Xor(0, 0)
    ensures Xor(c, d) <= 0xff && (Xor(c, d) == 0 ==> r == s)
  {
    XorSwapMiddle(c, Widen(r), d, Widen(s));
    hide *;
    NarrowXor(Xor(c, d), r, s);
  }

  lemma NarrowXor(x: bv16, r: Byte, s: Byte)
    requires Xor(x, Xor(Widen(r), Widen(s))) == Xor(0, 0)
    ensures x <= 0xff && (x == 0 ==> r == s)
  {}

  /** Mul(a, b) is the one and only byte congruent to the carry-less product of a and b modulo
      x^8 + x^4 + x^3 + x + 1. */
  lemma MulIsTheRemainder(a: Byte, b: Byte, r: Byte)
    ensures IsRemainder(CarrylessProduct(Widen(a), Widen(b)), r) <==> r == Mul(a, b)
  {
    var w, m := CarrylessProduct(Widen(a), Widen(b)), Mul(a, b);
    var q := MulIsRemainder(a, b);
    assert IsRemainder(w, m);
    if IsRemainder(w, r) {
      var p: bv16 :| p <= 0x7f && w == Xor(CarrylessProduct(p, POLYNOMIAL), Widen(r));
      var c, d := CarrylessProduct(p, POLYNOMIAL), CarrylessProduct(q, POLYNOMIAL);
      hide CarrylessProduct, Mul;
      assert Xor(w, w) == Xor(0, 0);
      Disagree(w, c, d, r, m);
      ProductLinear(p, q, POLYNOMIAL);
      assert Xor(p, q) <= 0x7f;
      MultipleIsWide(Xor(p, q));
    }
  }

  // ---- the multiplicative group is generated by 3 ----------------------------------------

  function Pow(n: nat): Byte {
    if n == 0 then 1 else Mul(3, Pow(n - 1))
  }

  lemma {:induction false} PowAdd(m: nat, n: nat)
    ensures Pow(m + n) == Mul(Pow(m), Pow(n))
  {
    MulOne(Pow(n));
    if m > 0 {
      PowAdd(m - 1, n);
      assert Pow(m + n) == Mul(3, Pow(m - 1 + n));
      hide Mul;
      MulAssociative(3, Pow(m - 1), Pow(n));
    }
  }

  lemma {:induction false} PowMultiple(g: nat, k: nat)
    requires Pow(g) == 1
    ensures Pow(g * k) == 1
  {
    if k > 0 {
      PowMultiple(g, k - 1);
      hide *;
      assert g * k == g + g * (k - 1);
      PowAdd(g, g * (k - 1));
      MulOne(1);
    }
  }

  // The products that lead to the powers named.

  lemma Product2()
    ensures Mul(0x03, 0x03) == 0x05
  {}

  lemma Product4()
    ensures Mul(0x05, 0x05) == 0x11
  {}

  lemma Product6()
    ensures Mul(0x11, 0x05) == 0x55
  {}

  lemma Product7()
    ensures Mul(0x55, 0x03) == 0xff
  {}

  lemma Product8()
    ensures Mul(0x11, 0x11) == 0x1a
  {}

  lemma Product15()
    ensures Mul(0x1a, 0xff) == 0x35
  {}

  lemma Product16()
    ensures Mul(0x1a, 0x1a) == 0x5f
  {}

  lemma Product17()
    ensures Mul(0x03, 0x5f) == 0xe1
  {}

  lemma Product34()
    ensures Mul(0xe1, 0xe1) == 0x5c
  {}

  lemma Product51()
    ensures Mul(0x5c, 0xe1) == 0x0c
  {}

  lemma Product85()
    ensures Mul(0x0c, 0x5c) == 0xbd
  {}

  lemma Product170()
    ensures Mul(0xbd, 0xbd) == 0xbc
  {}

  lemma Product255()
    ensures Mul(0xbc, 0xbd) == 0x01
  {}

  lemma PowUnit()
    ensures Pow(0) == 1 && Pow(1) == 0x03
  {
    MulOne(0x03);
    MulCommutative(0x03, 0x01);
    hide Mul;
  }

  lemma PowLandmarks()
    ensures Pow(15) == 0x35 && Pow(51) == 0x0c && Pow(85) == 0xbd && Pow(255) == 1
  {
    hide *;
    PowUnit();
    Product2();
    Product4();
    Product6();
    Product7();
    Product8();
    Product15();
    Product16();
    Product17();
    Product34();
    Product51();
    Product85();
    Product170();
    Product255();
    PowAdd(1, 1);
    PowAdd(2, 2);
    PowAdd(4, 2);
    PowAdd(6, 1);
    PowAdd(4, 4);
    PowAdd(8, 7);
    PowAdd(8, 8);
    PowAdd(1, 16);
    PowAdd(17, 17);
    PowAdd(34, 17);
    PowAdd(51, 34);
    PowAdd(85, 85);
    PowAdd(170, 85);
  }

  /** Euclid's algorithm on two exponents that both give 1. */
  lemma {:induction false} CommonPeriod(a: nat, b: nat) returns (g: nat, k: nat, l: nat)
    requires b > 0 && Pow(a) == 1 && Pow(b) == 1
    ensures g > 0 && Pow(g) == 1 && a == g * k && b == g * l
    decreases b
  {
    hide *;
    var q, r := a / b, a % b;
    PowMultiple(b, q);
    assert a == b * q + r;
    PowAdd(b * q, r);
    MulOne(Pow(r));
    if r == 0 {
      g, k, l := b, q, 1;
    } else {
      var k', l';
      g, k', l' := CommonPeriod(b, r);
      k, l := k' * q + l', k';
      assert g * k == (g * k') * q + g * l';
    }
  }

  lemma DivisorsOf255(g: nat, k: nat)
    requires g * k == 255 && g < 255
    ensures g == 1 || g == 3 || g == 5 || g == 15 || g == 17 || g == 51 || g == 85
  {
    ProductGrows(g, k);
    if k <= 15 {
      assert k == 0 || k == 1 || k == 2 || k == 3 || k == 4 || k == 5 || k == 6 || k == 7 || k == 8 || k == 9
             || k == 10 || k == 11 || k == 12 || k == 13 || k == 14 || k == 15;
    } else {
      assert g == 0 || g == 1 || g == 2 || g == 3 || g == 4 || g == 5 || g == 6 || g == 7 || g == 8 || g == 9
             || g == 10 || g == 11 || g == 12 || g == 13 || g == 14 || g == 15;
    }
  }

  lemma ProductGrows(g: nat, k: nat)
    ensures g >= 16 && k >= 16 ==> g * k >= 256
    ensures k >= 1 ==> g * k >= g
  {}

  lemma NoSmallerPeriod(n: nat)
    requires 0 < n < 255
    ensures Pow(n) != 1
  {
    hide *;
    PowLandmarks();
    if Pow(n) == 1 {
      var g, k, l := CommonPeriod(255, n);
      assert l != 0;
      ProductGrows(g, l);
      DivisorsOf255(g, k);
      if g == 17 || g == 51 {
        PowMultiple(g, if g == 17 then 3 else 1);
      } else if g == 85 {
      } else {
        PowMultiple(g, if g == 1 then 15 else if g == 3 then 5 else if g == 5 then 3 else 1);
      }
      assert false;
    }
  }

  /** Three to the 255 is 1, so exponents may be taken modulo 255. */
  lemma PowModulo(n: nat)
    ensures Pow(n + 255) == Pow(n)
  {
    hide *;
    PowLandmarks();
    PowAdd(n, 255);
    MulOne(Pow(n));
  }

  /** The order of 3 is exactly 255. */
  lemma OrderOfThree(n: nat)
    ensures Pow(n) == 1 <==> n % 255 == 0
  {
    hide *;
    var q, r := n / 255, n % 255;
    assert n == 255 * q + r;
    PowLandmarks();
    PowMultiple(255, q);
    PowAdd(255 * q, r);
    MulOne(Pow(r));
    if r == 0 {
      PowUnit();
    } else {
      NoSmallerPeriod(r);
    }
  }

  lemma PowInverse(i: nat)
    requires i <= 255
    ensures Mul(Pow(255 - i), Pow(i)) == 1 && Pow(i) != 0
  {
    hide *;
    PowLandmarks();
    PowAdd(255 - i, i);
    MulOne(Pow(255 - i));
  }

  /** The 255 first powers of 3 are pairwise distinct. */
  lemma PowInjective(i: nat, j: nat)
    requires i < j < 255
    ensures Pow(i) != Pow(j)
  {
    hide *;
    PowInverse(i);
    PowAdd(255 - i, j);
    PowModulo(j - i);
    NoSmallerPeriod(j - i);
  }

  ghost function PowsBelow(n: nat): set<Byte> {
    if n == 0 then {} else PowsBelow(n - 1) + {Pow(n - 1)}
  }

  lemma {:induction false} PowsBelowMember(n: nat, b: Byte) returns (k: nat)
    requires b in PowsBelow(n)
    ensures k < n && Pow(k) == b
  {
    if b == Pow(n - 1) {
      k := n - 1;
    } else {
      k := PowsBelowMember(n - 1, b);
    }
  }

  lemma {:induction false} PowsBelowSize(n: nat)
    requires n <= 255
    ensures |PowsBelow(n)| == n
  {
    if n > 0 {
      PowsBelowSize(n - 1);
      hide Pow;
      if Pow(n - 1) in PowsBelow(n - 1) {
        var k := PowsBelowMember(n - 1, Pow(n - 1));
        PowInjective(k, n - 1);
        assert false;
      }
    }
  }

  ghost function BytesUpTo(b: Byte): set<Byte>
    decreases b
  {
    if b == 0 then {0} else BytesUpTo(b - 1) + {b}
  }

  lemma Predecessor(b: Byte)
    requires b != 0
    ensures b - 1 < b && (b - 1) as int == b as int - 1
  {}

  lemma {:induction false} BytesUpToSize(b: Byte)
    ensures |BytesUpTo(b)| <= b as int + 1
    ensures forall c: Byte :: c <= b ==> c in BytesUpTo(b)
    decreases b
  {
    if b != 0 {
      Predecessor(b);
      BytesUpToSize(b - 1);
      forall c: Byte | c <= b ensures c in BytesUpTo(b) {
        assert c == b || c <= b - 1;
      }
    }
  }

  lemma AtMost256Bytes(s: set<Byte>)
    ensures |s| <= 256
  {
    var all := BytesUpTo(0xff);
    BytesUpToSize(0xff);
    hide *;
    assert s <= all by {
      forall c | c in s ensures c in all { assert c <= 0xff; }
    }
    assert 0xff as Byte as int == 255;
    SubsetSize(s, all);
  }

  lemma ZeroIsNoPower()
    ensures 0 !in PowsBelow(255)
  {
    hide *;
    if 0 in PowsBelow(255) {
      var i := PowsBelowMember(255, 0);
      PowInverse(i);
      assert false;
    }
  }

  /** Every non-zero byte is a power of 3, by counting. */
  lemma PowSurjective(b: Byte) returns (k: nat)
    requires b != 0
    ensures k < 255 && Pow(k) == b
  {
    PowsBelowSize(255);
    hide *;
    ZeroIsNoPower();
    var powers := PowsBelow(255);
    if b !in powers {
      TwoMore(powers, 0, b);
      AtMost256Bytes(powers + {0, b});
      assert false;
    }
    k := PowsBelowMember(255, b);
  }

  lemma TwoMore<T>(s: set<T>, a: T, b: T)
    requires a != b && a !in s && b !in s
    ensures |s + {a, b}| == |s| + 2
  {
    assert s + {a, b} == s + {a} + {b};
  }

  // ---- inverses --------------------------------------------------------------------------

  lemma InverseExists(a: Byte) returns (i: Byte)
    requires a != 0
    ensures Mul(i, a) == 1 && Mul(a, i) == 1
  {
    hide *;
    var k := PowSurjective(a);
    PowInverse(k);
    i := Pow(255 - k);
    MulCommutative(i, a);
  }

  /** Multiplication by a non-zero byte can be cancelled, so there are no zero divisors. */
  lemma MulCancel(a: Byte, b: Byte, c: Byte)
    requires c != 0 && Mul(a, c) == Mul(b, c)
    ensures a == b
  {
    hide *;
    var i := InverseExists(c);
    MulAssociative(a, c, i);
    MulAssociative(b, c, i);
    MulOne(a);
    MulOne(b);
  }
}
