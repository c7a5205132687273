/** Polynomials over GF(2^8), constant term first: root counting, and interpolation through
    points with distinct abscissas. */
module Polynomial {
  import opened Collections
  import opened GF256

  type Poly = seq<Byte>

  /** The value of p at x, by Horner's rule. */
  function Eval(p: Poly, x: Byte): Byte {
    if p == [] then 0 else Add(Mul(Eval(p[1..], x), x), p[0])
  }

  function Power(x: Byte, n: nat): Byte {
    if n == 0 then 1 else Mul(Power(x, n - 1), x)
  }

  /** The sum of the first n terms p[i] * x^i, the textbook value of a polynomial. */
  function TermSum(p: Poly, x: Byte, n: nat): Byte
    requires n <= |p|
  {
    if n == 0 then 0 else Add(TermSum(p, x, n - 1), Mul(p[n - 1], Power(x, n - 1)))
  }

  function Zeros(n: nat): Poly { seq(n, _ => 0) }

  function Sum(p: Poly, q: Poly): Poly
    requires |p| == |q|
  {
    seq(|p|, i requires 0 <= i < |p| => Add(p[i], q[i]))
  }

  function Scale(c: Byte, p: Poly): Poly {
    seq(|p|, i requires 0 <= i < |p| => Mul(c, p[i]))
  }

  /** (x + r) * p. */
  function TimesLinear(p: Poly, r: Byte): Poly {
    Sum([0] + p, Scale(r, p) + [0])
  }

  /** The quotient of p by (x + r), by synthetic division. */
  function Quotient(p: Poly, r: Byte): Poly {
    if |p| <= 1 then [] else [Eval(p[1..], r)] + Quotient(p[1..], r)
  }

  /** p takes the value ys[i] at every xs[i]. */
  ghost predicate Fits(p: Poly, xs: seq<Byte>, ys: seq<Byte>)
    requires |xs| == |ys|
  {
    forall i :: 0 <= i < |xs| ==> Eval(p, xs[i]) == ys[i]
  }

  // ---- evaluation is a homomorphism ------------------------------------------------------

  lemma EvalStep(p: Poly, x: Byte)
    requires p != []
    ensures Eval(p, x) == Add(Mul(Eval(p[1..], x), x), p[0])
  {}

  lemma EvalEmpty(x: Byte)
    ensures Eval([], x) == 0
  {}

  lemma EvalConstant(c: Byte, x: Byte)
    ensures Eval([c], x) == c
  {
    assert [c][1..] == [];
    assert Mul(0, x) == 0;
    AddZero(c);
  }

  lemma EvalAtZero(p: Poly)
    requires p != []
    ensures Eval(p, 0) == p[0]
  {
    MulOne(Eval(p[1..], 0));
    AddZero(p[0]);
  }

  lemma SumTail(p: Poly, q: Poly)
    requires |p| == |q| > 0
    ensures Sum(p, q)[1..] == Sum(p[1..], q[1..]) && Sum(p, q)[0] == Add(p[0], q[0])
  {
    hide Add;
  }

  lemma {:induction false} EvalSum(p: Poly, q: Poly, x: Byte)
    requires |p| == |q|
    ensures Eval(Sum(p, q), x) == Add(Eval(p, x), Eval(q, x))
  {
    if p == [] {
      AddZero(0);
      assert p == [] && q == [] && Sum(p, q) == [];
    } else {
      EvalSum(p[1..], q[1..], x);
      SumTail(p, q);
      var a, b := Eval(p[1..], x), Eval(q[1..], x);
      hide *;
      EvalStep(p, x);
      EvalStep(q, x);
      assert |Sum(p, q)| > 0 by { SumSize(p, q); }
      EvalStep(Sum(p, q), x);
      DistributeLeft(a, b, x);
      Regroup(Mul(a, x), Mul(b, x), p[0], q[0]);
    }
  }

  lemma SumSize(p: Poly, q: Poly)
    requires |p| == |q|
    ensures |Sum(p, q)| == |p|
  {}

  lemma ScaleTail(c: Byte, p: Poly)
    requires p != []
    ensures |Scale(c, p)| == |p| && Scale(c, p)[1..] == Scale(c, p[1..]) && Scale(c, p)[0] == Mul(c, p[0])
  {
    hide Mul;
  }

  lemma {:induction false} EvalScale(c: Byte, p: Poly, x: Byte)
    ensures Eval(Scale(c, p), x) == Mul(c, Eval(p, x))
  {
    if p == [] {
      MulOne(c);
      assert Scale(c, p) == [];
    } else {
      EvalScale(c, p[1..], x);
      ScaleTail(c, p);
      var a := Eval(p[1..], x);
      hide *;
      EvalStep(p, x);
      EvalStep(Scale(c, p), x);
      DistributeRight(c, Mul(a, x), p[0]);
      MulAssociative(c, a, x);
    }
  }

  lemma {:induction false} EvalZeros(p: Poly, n: nat, x: Byte)
    ensures Eval(p + Zeros(n), x) == Eval(p, x)
  {
    if p != [] {
      EvalZeros(p[1..], n, x);
      assert (p + Zeros(n))[1..] == p[1..] + Zeros(n);
    } else {
      assert p + Zeros(n) == Zeros(n);
      AllZeroEval(Zeros(n), x);
    }
  }

  lemma {:induction false} AllZeroEval(p: Poly, x: Byte)
    requires forall i :: 0 <= i < |p| ==> p[i] == 0
    ensures Eval(p, x) == 0
  {
    if p != [] {
      AllZeroEval(p[1..], x);
      assert Mul(0, x) == 0;
      AddZero(0);
    }
  }

  lemma {:induction false} EvalAppend(p: Poly, c: Byte, x: Byte)
    ensures Eval(p + [c], x) == Add(Eval(p, x), Mul(c, Power(x, |p|)))
  {
    if p == [] {
      assert p + [c] == [c];
      EvalConstant(c, x);
      MulOne(c);
      AddZero(c);
    } else {
      EvalAppend(p[1..], c, x);
      assert (p + [c])[1..] == p[1..] + [c];
      var a, t := Eval(p[1..], x), Mul(c, Power(x, |p| - 1));
      assert Power(x, |p|) == Mul(Power(x, |p| - 1), x);
      hide *;
      EvalStep(p + [c], x);
      EvalStep(p, x);
      DistributeLeft(a, t, x);
      MulAssociative(c, Power(x, |p| - 1), x);
      AddAssociative(Mul(a, x), Mul(t, x), p[0]);
      AddCommutative(Mul(t, x), p[0]);
      AddAssociative(Mul(a, x), p[0], Mul(t, x));
    }
  }

  /** Horner's rule computes the sum of the terms p[i] * x^i. */
  lemma {:induction false} EvalIsTermSum(p: Poly, x: Byte)
    ensures Eval(p, x) == TermSum(p, x, |p|)
  {
    if p != [] {
      var q, c := p[..|p| - 1], p[|p| - 1];
      EvalIsTermSum(q, x);
      TermSumPrefix(p, x, |q|);
      assert p == q + [c];
      EvalAppend(q, c, x);
    }
  }

  lemma {:induction false} TermSumPrefix(p: Poly, x: Byte, n: nat)
    requires n < |p|
    ensures TermSum(p, x, n) == TermSum(p[..|p| - 1], x, n)
  {
    if n > 0 {
      TermSumPrefix(p, x, n - 1);
    }
  }

  lemma EvalTimesLinear(p: Poly, r: Byte, x: Byte)
    ensures Eval(TimesLinear(p, r), x) == Mul(Eval(p, x), Add(x, r))
  {
    assert |[0] + p| == |Scale(r, p) + [0]|;
    EvalSum([0] + p, Scale(r, p) + [0], x);
    assert ([0] + p)[1..] == p;
    EvalStep([0] + p, x);
    AddZero(Mul(Eval(p, x), x));
    assert Scale(r, p) + [0] == Scale(r, p) + Zeros(1);
    EvalZeros(Scale(r, p), 1, x);
    EvalScale(r, p, x);
    hide *;
    MulCommutative(r, Eval(p, x));
    DistributeRight(Eval(p, x), x, r);
  }

  // ---- root counting ---------------------------------------------------------------------

  /** p(x) == q(x) * (x + r) + p(r), where q is the quotient. */
  lemma {:induction false} Division(p: Poly, r: Byte, x: Byte)
    requires p != []
    ensures |Quotient(p, r)| == |p| - 1
    ensures Eval(p, x) == Add(Mul(Eval(Quotient(p, r), x), Add(x, r)), Eval(p, r))
  {
    var t := p[1..];
    if t == [] {
      assert p == [p[0]];
      EvalConstant(p[0], x);
      EvalConstant(p[0], r);
      MulOne(Add(x, r));
      AddZero(p[0]);
    } else {
      Division(t, r, x);
      var q, c := Quotient(t, r), Eval(t, r);
      assert Quotient(p, r) == [c] + q && ([c] + q)[1..] == q;
      var v := Eval(q, x);
      hide *;
      EvalStep(p, x);
      EvalStep(p, r);
      EvalStep([c] + q, x);
      DivisionAlgebra(v, x, r, c, p[0]);
    }
  }

  /** ((v(x + r) + c)x + a = (vx + c)(x + r) + (cr + a). */
  lemma DivisionAlgebra(v: Byte, x: Byte, r: Byte, c: Byte, a: Byte)
    ensures Add(Mul(Add(Mul(v, Add(x, r)), c), x), a) == Add(Mul(Add(Mul(v, x), c), Add(x, r)), Add(Mul(c, r), a))
  {
    hide *;
    var s := Add(x, r);
    var vsx := Mul(Mul(v, s), x);
    calc {
      Add(Mul(Add(Mul(v, s), c), x), a);
      { DistributeLeft(Mul(v, s), c, x); }
      Add(Add(vsx, Mul(c, x)), a);
      { AddZero(Mul(c, r)); AddZero(Mul(c, x)); AddAssociative(Mul(c, x), Mul(c, r), Mul(c, r)); }
      Add(Add(vsx, Add(Add(Mul(c, x), Mul(c, r)), Mul(c, r))), a);
      { DistributeRight(c, x, r); }
      Add(Add(vsx, Add(Mul(c, s), Mul(c, r))), a);
      { AddAssociative(vsx, Mul(c, s), Mul(c, r)); }
      Add(Add(Add(vsx, Mul(c, s)), Mul(c, r)), a);
      { AddAssociative(Add(vsx, Mul(c, s)), Mul(c, r), a); }
      Add(Add(vsx, Mul(c, s)), Add(Mul(c, r), a));
      { MulAssociative(v, s, x); MulCommutative(s, x); MulAssociative(v, x, s); }
      Add(Add(Mul(Mul(v, x), s), Mul(c, s)), Add(Mul(c, r), a));
      { DistributeLeft(Mul(v, x), c, s); }
      Add(Mul(Add(Mul(v, x), c), s), Add(Mul(c, r), a));
    }
  }

  ghost predicate AllZero(p: Poly) {
    forall i :: 0 <= i < |p| ==> p[i] == 0
  }

  lemma AddIsZero(a: Byte, b: Byte)
    ensures Add(a, b) == 0 <==> a == b
  {
    if Add(a, b) == 0 {
      AddZero(a);
      AddZero(b);
      AddAssociative(a, b, b);
    } else {
      AddZero(a);
    }
  }

  lemma {:induction false} ZeroQuotient(p: Poly, r: Byte)
    requires p != [] && AllZero(Quotient(p, r))
    ensures AllZero(p[1..])
  {
    if |p| > 1 {
      var t := p[1..];
      assert Quotient(p, r) == [Eval(t, r)] + Quotient(t, r);
      assert Eval(t, r) == 0 by { assert Quotient(p, r)[0] == 0; }
      forall i | 0 <= i < |Quotient(t, r)| ensures Quotient(t, r)[i] == 0 {
        assert Quotient(p, r)[i + 1] == 0;
      }
      ZeroQuotient(t, r);
      AllZeroEval(t[1..], r);
      assert Mul(0, r) == 0;
      AddZero(t[0]);
    }
  }

  /** A polynomial with at least as many distinct roots as coefficients is zero. */
  lemma {:induction false} TooManyRoots(p: Poly, xs: seq<Byte>)
    requires Distinct(xs) && |p| <= |xs|
    requires forall i :: 0 <= i < |xs| ==> Eval(p, xs[i]) == 0
    ensures AllZero(p)
    decreases |p|
  {
    if p != [] {
      var r, rest := xs[0], xs[1..];
      var q := Quotient(p, r);
      Division(p, r, r);
      forall i | 0 <= i < |rest| ensures Eval(q, rest[i]) == 0 {
        assert rest[i] == xs[i + 1] && rest[i] != r;
        Division(p, r, rest[i]);
        RootOfQuotient(Eval(q, rest[i]), rest[i], r);
      }
      TooManyRoots(q, rest);
      ZeroQuotient(p, r);
      AllZeroEval(p[1..], r);
      assert Mul(0, r) == 0;
      AddZero(p[0]);
      assert p[0] == 0;
      assert forall i :: 0 < i < |p| ==> p[i] == p[1..][i - 1];
    }
  }

  lemma RootOfQuotient(v: Byte, x: Byte, r: Byte)
    requires x != r && Add(Mul(v, Add(x, r)), 0) == 0
    ensures v == 0
  {
    hide *;
    AddZero(Mul(v, Add(x, r)));
    AddIsZero(x, r);
    MulOne(Add(x, r));
    MulCancel(v, 0, Add(x, r));
  }

  /** Two polynomials of the same length that agree at that many distinct points are equal. */
  lemma AgreementIsEquality(p: Poly, q: Poly, xs: seq<Byte>)
    requires Distinct(xs) && |p| == |q| <= |xs|
    requires forall i :: 0 <= i < |xs| ==> Eval(p, xs[i]) == Eval(q, xs[i])
    ensures p == q
  {
    var d := Sum(p, q);
    forall i | 0 <= i < |xs| ensures Eval(d, xs[i]) == 0 {
      EvalSum(p, q, xs[i]);
      AddZero(Eval(p, xs[i]));
    }
    TooManyRoots(d, xs);
    forall i | 0 <= i < |p| ensures p[i] == q[i] {
      assert d[i] == 0;
      AddIsZero(p[i], q[i]);
    }
  }

  // ---- interpolation ---------------------------------------------------------------------

  /** The product of (x + xs[j]) over all j. */
  function Product(xs: seq<Byte>, x: Byte): Byte {
    if xs == [] then 1 else Mul(Product(xs[..|xs| - 1], x), Add(x, xs[|xs| - 1]))
  }

  function ProductPoly(xs: seq<Byte>): Poly {
    if xs == [] then [1] else TimesLinear(ProductPoly(xs[..|xs| - 1]), xs[|xs| - 1])
  }

  function Others<T>(xs: seq<T>, i: nat): seq<T>
    requires i < |xs|
  {
    xs[..i] + xs[i + 1..]
  }

  lemma HasInverse(b: Byte)
    requires b != 0
    ensures exists i: Byte :: Mul(i, b) == 1
  {
    var i := InverseExists(b);
  }

  ghost function Inverse(b: Byte): (i: Byte)
    requires b != 0
    ensures Mul(i, b) == 1
  {
    HasInverse(b);
    var i :| Mul(i, b) == 1;
    i
  }

  /** The value at x of the i-th Lagrange basis polynomial. */
  ghost function Basis(xs: seq<Byte>, i: nat, x: Byte): Byte
    requires i < |xs| && Distinct(xs)
  {
    OthersNonZero(xs, i);
    Mul(Product(Others(xs, i), x), Inverse(Product(Others(xs, i), xs[i])))
  }

  /** The sum over i < n of ys[i] times the i-th basis value at x. */
  ghost function LagrangeSum(xs: seq<Byte>, ys: seq<Byte>, n: nat, x: Byte): Byte
    requires n <= |xs| == |ys| && Distinct(xs)
  {
    if n == 0 then 0 else Add(LagrangeSum(xs, ys, n - 1, x), Mul(ys[n - 1], Basis(xs, n - 1, x)))
  }

  ghost function Interpolate(xs: seq<Byte>, ys: seq<Byte>, x: Byte): Byte
    requires |xs| == |ys| && Distinct(xs)
  {
    LagrangeSum(xs, ys, |xs|, x)
  }

  lemma {:induction false} ProductZero(xs: seq<Byte>, x: Byte)
    ensures Product(xs, x) == 0 <==> x in xs
  {
    if xs != [] {
      var front, last := xs[..|xs| - 1], xs[|xs| - 1];
      ProductZero(front, x);
      assert xs == front + [last];
      var a, b := Product(front, x), Add(x, last);
      assert Product(xs, x) == Mul(a, b);
      hide *;
      AddIsZero(x, last);
      MulOne(a);
      MulOne(b);
      if Mul(a, b) == 0 && b != 0 {
        MulCancel(a, 0, b);
      }
    }
  }

  lemma OthersNonZero(xs: seq<Byte>, i: nat)
    requires i < |xs| && Distinct(xs)
    ensures Product(Others(xs, i), xs[i]) != 0
  {
    ProductZero(Others(xs, i), xs[i]);
  }

  lemma {:induction false} EvalProductPoly(xs: seq<Byte>, x: Byte)
    ensures |ProductPoly(xs)| == |xs| + 1
    ensures Eval(ProductPoly(xs), x) == Product(xs, x)
  {
    if xs == [] {
      EvalConstant(1, x);
    } else {
      EvalProductPoly(xs[..|xs| - 1], x);
      EvalTimesLinear(ProductPoly(xs[..|xs| - 1]), xs[|xs| - 1], x);
    }
  }

  ghost function LagrangePoly(xs: seq<Byte>, ys: seq<Byte>, n: nat): (p: Poly)
    requires n <= |xs| == |ys| && Distinct(xs)
    ensures |p| == |xs|
  {
    if n == 0 then Zeros(|xs|)
    else
      var i := n - 1;
      OthersNonZero(xs, i);
      EvalProductPoly(Others(xs, i), 0);
      Sum(LagrangePoly(xs, ys, i),
          Scale(Mul(ys[i], Inverse(Product(Others(xs, i), xs[i]))), ProductPoly(Others(xs, i))))
  }

  lemma {:induction false} EvalLagrangePoly(xs: seq<Byte>, ys: seq<Byte>, n: nat, x: Byte)
    requires n <= |xs| == |ys| && Distinct(xs)
    ensures Eval(LagrangePoly(xs, ys, n), x) == LagrangeSum(xs, ys, n, x)
  {
    if n == 0 {
      AllZeroEval(Zeros(|xs|), x);
    } else {
      var i := n - 1;
      EvalLagrangePoly(xs, ys, i, x);
      OthersNonZero(xs, i);
      var w, b := Inverse(Product(Others(xs, i), xs[i])), ProductPoly(Others(xs, i));
      EvalProductPoly(Others(xs, i), x);
      EvalSum(LagrangePoly(xs, ys, i), Scale(Mul(ys[i], w), b), x);
      EvalScale(Mul(ys[i], w), b, x);
      hide Mul, Add, Product, ProductPoly, Eval;
      MulAssociative(ys[i], w, Product(Others(xs, i), x));
      MulCommutative(w, Product(Others(xs, i), x));
    }
  }

  /** The i-th basis polynomial is 1 at xs[i] and 0 at the other points. */
  lemma BasisAtPoint(xs: seq<Byte>, i: nat, m: nat)
    requires i < |xs| && m < |xs| && Distinct(xs)
    ensures Basis(xs, i, xs[m]) == if i == m then 1 else 0
  {
    OthersNonZero(xs, i);
    var w := Inverse(Product(Others(xs, i), xs[i]));
    if i == m {
      MulCommutative(w, Product(Others(xs, i), xs[i]));
    } else {
      assert xs[m] in Others(xs, i) by {
        assert xs[m] == Others(xs, i)[if m < i then m else m - 1];
      }
      ProductZero(Others(xs, i), xs[m]);
      MulOne(w);
    }
  }

  lemma {:induction false} LagrangeSumAtPoint(xs: seq<Byte>, ys: seq<Byte>, n: nat, m: nat)
    requires n <= |xs| == |ys| && m < |xs| && Distinct(xs)
    ensures LagrangeSum(xs, ys, n, xs[m]) == if m < n then ys[m] else 0
  {
    if n > 0 {
      LagrangeSumAtPoint(xs, ys, n - 1, m);
      BasisAtPoint(xs, n - 1, m);
      hide Mul, Add, Product, Basis;
      MulOne(ys[n - 1]);
      AddZero(ys[m]);
      AddZero(0);
    }
  }

  /** Through n points with distinct abscissas there is exactly one polynomial with n
      coefficients, and Interpolate computes its values. */
  lemma InterpolationExists(xs: seq<Byte>, ys: seq<Byte>) returns (p: Poly)
    requires |xs| == |ys| && Distinct(xs)
    ensures |p| == |xs| && Fits(p, xs, ys)
    ensures forall x :: Eval(p, x) == Interpolate(xs, ys, x)
  {
    p := LagrangePoly(xs, ys, |xs|);
    forall x ensures Eval(p, x) == Interpolate(xs, ys, x) {
      EvalLagrangePoly(xs, ys, |xs|, x);
    }
    forall i | 0 <= i < |xs| ensures Eval(p, xs[i]) == ys[i] {
      LagrangeSumAtPoint(xs, ys, |xs|, i);
    }
  }

  lemma InterpolationUnique(xs: seq<Byte>, ys: seq<Byte>, p: Poly, q: Poly)
    requires |p| == |q| <= |xs| == |ys| && Distinct(xs)
    requires Fits(p, xs, ys) && Fits(q, xs, ys)
    ensures p == q
  {
    AgreementIsEquality(p, q, xs);
  }

  /** Interpolation recovers every polynomial short enough to be determined by the points. */
  lemma InterpolationRecovers(xs: seq<Byte>, ys: seq<Byte>, p: Poly, x: Byte)
    requires |p| <= |xs| == |ys| && Distinct(xs) && Fits(p, xs, ys)
    ensures Interpolate(xs, ys, x) == Eval(p, x)
  {
    var l := InterpolationExists(xs, ys);
    var padded := p + Zeros(|xs| - |p|);
    forall i | 0 <= i < |xs| ensures Eval(padded, xs[i]) == ys[i] {
      EvalZeros(p, |xs| - |p|, xs[i]);
    }
    InterpolationUnique(xs, ys, l, padded);
    EvalZeros(p, |xs| - |p|, x);
  }

  // ---- division by several roots -----------------------------------------------------------

  /** The quotient of p by the product of the (x + xs[j]). */
  function QuotientAll(p: Poly, xs: seq<Byte>): Poly
    decreases |xs|
  {
    if xs == [] then p else QuotientAll(Quotient(p, xs[|xs| - 1]), xs[..|xs| - 1])
  }

  /** p is a polynomial with as many coefficients as there are roots plus the product of the
      (x + xs[j]) times the quotient. */
  lemma {:induction false} DivisionAll(p: Poly, xs: seq<Byte>) returns (rest: Poly)
    requires |xs| <= |p|
    ensures |rest| == |xs| && |QuotientAll(p, xs)| == |p| - |xs|
    ensures forall x :: Eval(p, x) == Add(Eval(rest, x), Mul(Product(xs, x), Eval(QuotientAll(p, xs), x)))
    decreases |xs|
  {
    if xs == [] {
      rest := [];
      forall x ensures Eval(p, x) == Add(Eval(rest, x), Mul(Product(xs, x), Eval(QuotientAll(p, xs), x))) {
        MulOne(Eval(p, x));
        AddZero(Eval(p, x));
      }
    } else {
      var front, r := xs[..|xs| - 1], xs[|xs| - 1];
      Division(p, r, 0);
      var q, c := Quotient(p, r), Eval(p, r);
      var rest' := DivisionAll(q, front);
      var h := QuotientAll(q, front);
      TimesLinearSize(rest', r);
      var constant := [c] + Zeros(|front|);
      rest := Sum(TimesLinear(rest', r), constant);
      hide Eval, Add, Mul, Quotient, TimesLinear, Sum;
      forall x ensures Eval(p, x) == Add(Eval(rest, x), Mul(Product(xs, x), Eval(QuotientAll(p, xs), x))) {
        Division(p, r, x);
        EvalSum(TimesLinear(rest', r), constant, x);
        EvalTimesLinear(rest', r, x);
        EvalZeros([c], |front|, x);
        EvalConstant(c, x);
        NewtonAlgebra(Eval(rest', x), Product(front, x), Eval(h, x), Add(x, r), c);
      }
      SumSize(TimesLinear(rest', r), constant);
    }
  }

  lemma TimesLinearSize(p: Poly, r: Byte)
    ensures |TimesLinear(p, r)| == |p| + 1
  {}

  /** (n + ph)l + c == (nl + c) + (pl)h. */
  lemma NewtonAlgebra(n: Byte, p: Byte, h: Byte, l: Byte, c: Byte)
    ensures Add(Mul(Add(n, Mul(p, h)), l), c) == Add(Add(Mul(n, l), c), Mul(Mul(p, l), h))
  {
    hide *;
    var a, b := Mul(n, l), Mul(Mul(p, h), l);
    DistributeLeft(n, Mul(p, h), l);
    MulAssociative(p, h, l);
    MulCommutative(h, l);
    MulAssociative(p, l, h);
    AddAssociative(a, b, c);
    AddCommutative(b, c);
    AddAssociative(a, c, b);
  }
}
