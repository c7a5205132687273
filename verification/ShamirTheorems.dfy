/** What splitting and combining guarantee, for every secret, every draw of randomness and every
    choice of shares. */
module ShamirTheorems {
  import opened Wrappers
  import opened Collections
  import opened GF256
  import opened Polynomial
  import opened GFTables
  import opened Shamir

  /** Positions of pairwise different shares among n, in any order. */
  ghost predicate Selection(sel: seq<nat>, n: nat) {
    Distinct(sel) && forall i :: 0 <= i < |sel| ==> sel[i] < n
  }

  function Pick(shares: seq<Share>, sel: seq<nat>): seq<Share>
    requires forall i :: 0 <= i < |sel| ==> sel[i] < |shares|
  {
    seq(|sel|, i requires 0 <= i < |sel| => shares[sel[i]])
  }

  lemma XOfFacts(i: nat, j: nat)
    requires i < 255 && j < 255
    ensures XOf(i) != 0 && (XOf(i) == XOf(j) ==> i == j)
  {
    XIndex(i);
    XIndex(j);
    assert Index(0) == 0;
  }

  lemma XIndex(i: nat)
    requires i < 255
    ensures Index(XOf(i)) == i + 1
  {
    IndexOfByte(i + 1);
  }

  // ---- Combine is interpolation at 0 -------------------------------------------------------

  lemma AcceptableIffOk(shares: seq<Share>)
    ensures CombineResult(shares).Ok? <==> Acceptable(shares)
  {
    EmptyDistinct(Xs(shares[..0]));
    if |shares| >= 2 {
      FirstProblemNone(shares, 0);
    }
  }

  /** A refused set has a first bad share, and the error says what is wrong with it, in the order of
      the checks. */
  lemma CombineRefuses(shares: seq<Share>) returns (k: nat)
    requires !Acceptable(shares)
    ensures CombineResult(shares).Err?
    ensures |shares| < 2 ==> CombineResult(shares) == Err(TooFewShares)
    ensures |shares| >= 2 ==>
              && k < |shares| && (k > 0 ==> SameLength(shares[..k], |shares[0].Y|)) && Distinct(Xs(shares[..k]))
              && (forall i :: 0 <= i < k ==> shares[i].X != 0)
              && (CombineResult(shares) == Err(ZeroX) <==> shares[k].X == 0)
              && (CombineResult(shares) == Err(DuplicateX) <==>
                    shares[k].X != 0 && exists i :: 0 <= i < k && shares[i].X == shares[k].X)
              && (CombineResult(shares) == Err(InconsistentLength) <==>
                    shares[k].X != 0 && (forall i :: 0 <= i < k ==> shares[i].X != shares[k].X)
                    && |shares[k].Y| != |shares[0].Y|)
              && (CombineResult(shares) != Err(TooFewShares))
  {
    AcceptableIffOk(shares);
    k := 0;
    if |shares| >= 2 {
      EmptyDistinct(Xs(shares[..0]));
      k := FirstBad(shares, 0);
      assert forall i :: 0 <= i < k ==> Xs(shares[..k])[i] == shares[i].X;
    }
  }

  lemma {:induction false} FirstBad(shares: seq<Share>, j: nat) returns (k: nat)
    requires j <= |shares| && FirstProblem(shares, j).Some? && Distinct(Xs(shares[..j]))
    requires forall i :: 0 <= i < j ==> shares[i].X != 0 && |shares[i].Y| == |shares[0].Y|
    ensures j <= k < |shares| && Distinct(Xs(shares[..k]))
    ensures forall i :: 0 <= i < k ==> shares[i].X != 0 && |shares[i].Y| == |shares[0].Y|
    ensures FirstProblem(shares, j).value ==
            if shares[k].X == 0 then ZeroX
            else if shares[k].X in Xs(shares[..k]) then DuplicateX else InconsistentLength
    ensures shares[k].X == 0 || shares[k].X in Xs(shares[..k]) || |shares[k].Y| != |shares[0].Y|
    decreases |shares| - j
  {
    if shares[j].X == 0 || shares[j].X in Xs(shares[..j]) || |shares[j].Y| != |shares[0].Y| {
      k := j;
    } else {
      assert Xs(shares[..j + 1]) == Xs(shares[..j]) + [shares[j].X];
      k := FirstBad(shares, j + 1);
    }
  }

  /** An accepted share set, whatever produced it, determines for every byte position exactly one
      polynomial with as many coefficients as shares; the combined byte is its constant term. */
  lemma CombineIsUniqueInterpolation(shares: seq<Share>, b: nat) returns (p: Poly)
    requires Acceptable(shares) && b < |shares[0].Y|
    ensures CombineResult(shares).Ok? && |CombineResult(shares).value| == |shares[0].Y|
    ensures |p| == |shares| && Fits(p, Xs(shares), Ys(shares, b)) && CombineResult(shares).value[b] == p[0]
    ensures forall q :: |q| == |shares| && Fits(q, Xs(shares), Ys(shares, b)) ==> q == p
  {
    AcceptableIffOk(shares);
    var xs, ys := Xs(shares), Ys(shares, b);
    p := InterpolationExists(xs, ys);
    EvalAtZero(p);
    forall q | |q| == |shares| && Fits(q, xs, ys) ensures q == p {
      InterpolationUnique(xs, ys, q, p);
    }
  }

  /** Any polynomial with at most as many coefficients as shares through the points of byte b has
      the combined byte as constant term. */
  lemma CombineRecovers(shares: seq<Share>, b: nat, p: Poly)
    requires Acceptable(shares) && b < |shares[0].Y| && 0 < |p| <= |shares|
    requires Fits(p, Xs(shares), Ys(shares, b))
    ensures CombineResult(shares).Ok? && |CombineResult(shares).value| == |shares[0].Y|
    ensures CombineResult(shares).value[b] == p[0]
  {
    AcceptableIffOk(shares);
    InterpolationRecovers(Xs(shares), Ys(shares, b), p, 0);
    EvalAtZero(p);
  }

  lemma PickAcceptable(shares: seq<Share>, sel: seq<nat>)
    requires Selection(sel, |shares|) && |sel| >= 2 && Acceptable(shares)
    ensures Acceptable(Pick(shares, sel))
  {
    var picked := Pick(shares, sel);
    forall i, j | 0 <= i < j < |sel| ensures Xs(picked)[i] != Xs(picked)[j] {
      assert sel[i] != sel[j];
      assert Xs(shares)[sel[i]] == Xs(picked)[i] && Xs(shares)[sel[j]] == Xs(picked)[j];
    }
  }

  /** Combining does not depend on the order of the shares. */
  lemma OrderDoesNotMatter(shares: seq<Share>, order: seq<nat>)
    requires Acceptable(shares) && Selection(order, |shares|) && |order| == |shares|
    ensures CombineResult(Pick(shares, order)) == CombineResult(shares)
  {
    var picked := Pick(shares, order);
    PickAcceptable(shares, order);
    AcceptableIffOk(shares);
    AcceptableIffOk(picked);
    var u, v := CombineResult(shares).value, CombineResult(picked).value;
    forall b | 0 <= b < |shares[0].Y| ensures u[b] == v[b] {
      var p := CombineIsUniqueInterpolation(shares, b);
      forall i | 0 <= i < |picked| ensures Eval(p, Xs(picked)[i]) == Ys(picked, b)[i] {
        assert Xs(picked)[i] == Xs(shares)[order[i]] && Ys(picked, b)[i] == Ys(shares, b)[order[i]];
      }
      CombineRecovers(picked, b, p);
    }
    assert u == v;
  }

  // ---- round trip --------------------------------------------------------------------------

  lemma SplitAcceptable(secret: seq<Byte>, parts: int, threshold: int, rand: Randomness)
    requires SplitResult(secret, parts, threshold, rand).Ok?
    ensures var shares := SplitResult(secret, parts, threshold, rand).value;
            |shares| == parts && Acceptable(shares) && |shares[0].Y| == |secret| && SameLength(shares, |secret|)
  {
    var shares := SplitResult(secret, parts, threshold, rand).value;
    forall i | 0 <= i < parts ensures shares[i].X == XOf(i) && shares[i].X != 0 && |shares[i].Y| == |secret| {
      XOfFacts(i, i);
    }
    forall i, j | 0 <= i < j < parts ensures Xs(shares)[i] != Xs(shares)[j] {
      XOfFacts(i, j);
    }
  }

  lemma SharesLieOnPolynomial(secret: seq<Byte>, parts: int, threshold: int, rand: Randomness, sel: seq<nat>, b: nat)
    requires SplitResult(secret, parts, threshold, rand).Ok?
    requires Selection(sel, parts) && b < |secret|
    ensures var picked := Pick(SplitResult(secret, parts, threshold, rand).value, sel);
            && (forall i :: 0 <= i < |picked| ==> b < |picked[i].Y|)
            && Fits(Coefficients(secret, threshold, rand, b), Xs(picked), Ys(picked, b))
  {
    hide Eval;
  }

  /** Any selection of at least threshold shares, in any order, gives back exactly the secret. */
  lemma RoundTrip(secret: seq<Byte>, parts: int, threshold: int, rand: Randomness, sel: seq<nat>)
    requires SplitResult(secret, parts, threshold, rand).Ok?
    requires Selection(sel, parts) && |sel| >= threshold
    ensures CombineResult(Pick(SplitResult(secret, parts, threshold, rand).value, sel)) == Ok(secret)
  {
    var shares := SplitResult(secret, parts, threshold, rand).value;
    var picked := Pick(shares, sel);
    SplitAcceptable(secret, parts, threshold, rand);
    PickAcceptable(shares, sel);
    AcceptableIffOk(picked);
    forall b | 0 <= b < |secret| ensures CombineResult(picked).value[b] == secret[b] {
      SharesLieOnPolynomial(secret, parts, threshold, rand, sel, b);
      CombineRecovers(picked, b, Coefficients(secret, threshold, rand, b));
    }
    assert CombineResult(picked).value == secret;
  }

  /** Splitting succeeds exactly for the parameters the checks name, when the randomness does. */
  lemma SplitOk(secret: seq<Byte>, parts: int, threshold: int, rand: Randomness)
    ensures SplitResult(secret, parts, threshold, rand).Ok? <==>
            2 <= threshold <= parts <= 255 && secret != [] && forall b: nat :: b < |secret| ==> !rand.fails(b)
  {}

  /** Split hands out as many shares as asked for, numbered from 1, each as long as the secret. */
  lemma SplitShape(secret: seq<Byte>, parts: int, threshold: int, rand: Randomness)
    requires SplitResult(secret, parts, threshold, rand).Ok?
    ensures var shares := SplitResult(secret, parts, threshold, rand).value;
            |shares| == parts && forall i :: 0 <= i < parts ==> Index(shares[i].X) == i + 1 && |shares[i].Y| == |secret|
  {
    SplitCases(secret, parts, threshold, rand);
    hide SplitResult, Eval;
    var shares := SplitResult(secret, parts, threshold, rand).value;
    forall i | 0 <= i < parts ensures Index(shares[i].X) == i + 1 {
      IndexOfByte(i + 1);
    }
  }

  /** Why Split refuses, in the order of its checks. */
  lemma SplitRefuses(secret: seq<Byte>, parts: int, threshold: int, rand: Randomness)
    ensures var r := SplitResult(secret, parts, threshold, rand);
            && (r == Err(ThresholdTooSmall) <==> threshold < 2)
            && (r == Err(TooFewParts) <==> parts < threshold && threshold >= 2)
            && (r == Err(TooManyParts) <==> 255 < parts && 2 <= threshold <= parts)
            && (r == Err(EmptySecret) <==> secret == [] && 2 <= threshold <= parts <= 255)
            && (r == Err(NoRandomness) <==>
                  2 <= threshold <= parts <= 255 && exists b: nat :: b < |secret| && rand.fails(b))
  {
    SplitCases(secret, parts, threshold, rand);
    hide SplitResult;
  }

  // ---- secrecy -----------------------------------------------------------------------------

  /** The points a candidate constant term c adds to the shares held. */
  ghost function CoverXs(held: seq<Share>): seq<Byte> { [0 as Byte] + Xs(held) }

  ghost function CoverYs(held: seq<Share>, b: nat, c: Byte): seq<Byte>
    requires forall i :: 0 <= i < |held| ==> b < |held[i].Y|
  {
    [c] + Ys(held, b)
  }

  ghost predicate Held(held: seq<Share>, length: nat) {
    && Distinct(Xs(held))
    && forall i :: 0 <= i < |held| ==> held[i].X != 0 && |held[i].Y| == length
  }

  lemma CoverDistinct(held: seq<Share>, length: nat)
    requires Held(held, length)
    ensures Distinct(CoverXs(held))
  {
    var xs := CoverXs(held);
    forall i, j | 0 <= i < j < |xs| ensures xs[i] != xs[j] {
      assert xs[j] == Xs(held)[j - 1] == held[j - 1].X;
      if i > 0 {
        assert xs[i] == Xs(held)[i - 1];
      }
    }
  }

  /** For threshold - 1 shares and every candidate byte there is exactly one polynomial in the
      shape Split uses with that constant term through those shares. */
  lemma ExactlyOnePolynomial(held: seq<Share>, length: nat, b: nat, c: Byte) returns (p: Poly)
    requires Held(held, length) && b < length
    ensures |p| == |held| + 1 && p[0] == c && Fits(p, Xs(held), Ys(held, b))
    ensures forall q :: |q| == |held| + 1 && q[0] == c && Fits(q, Xs(held), Ys(held, b)) ==> q == p
    ensures p == CoverPoly(held, length, b, c)
  {
    var xs, ys := CoverXs(held), CoverYs(held, b, c);
    CoverDistinct(held, length);
    p := CoverPoly(held, length, b, c);
    forall i | 0 <= i < |xs| ensures Eval(p, xs[i]) == ys[i] {
      EvalLagrangePoly(xs, ys, |xs|, xs[i]);
      LagrangeSumAtPoint(xs, ys, |xs|, i);
    }
    EvalAtZero(p);
    assert p[0] == Eval(p, xs[0]) == c;
    forall i | 0 <= i < |held| ensures Eval(p, Xs(held)[i]) == Ys(held, b)[i] {
      assert Eval(p, xs[i + 1]) == ys[i + 1];
    }
    forall q | |q| == |held| + 1 && q[0] == c && Fits(q, Xs(held), Ys(held, b)) ensures q == p {
      EvalAtZero(q);
      forall i | 0 <= i < |xs| ensures Eval(q, xs[i]) == ys[i] {
        if i > 0 {
          assert xs[i] == Xs(held)[i - 1] && ys[i] == Ys(held, b)[i - 1];
        }
      }
      InterpolationUnique(xs, ys, q, p);
    }
  }

  ghost function CoverPoly(held: seq<Share>, length: nat, b: nat, c: Byte): Poly
    requires Held(held, length) && b < length
  {
    CoverDistinct(held, length);
    LagrangePoly(CoverXs(held), CoverYs(held, b, c), |held| + 1)
  }

  /** The draw that makes another secret produce the shares held. */
  ghost function CoverRandomness(other: seq<Byte>, held: seq<Share>): Randomness
    requires Held(held, |other|)
  {
    Randomness(
      (b: nat, k: nat) =>
        if b < |other| && k < |held| then CoverByte(held, |other|, b, other[b], k + 1) else 0,
      (b: nat) => false)
  }

  ghost function CoverByte(held: seq<Share>, length: nat, b: nat, c: Byte, k: nat): Byte
    requires Held(held, length) && b < length && k <= |held|
  {
    CoverSize(held, length, b, c);
    CoverPoly(held, length, b, c)[k]
  }

  lemma CoverSize(held: seq<Share>, length: nat, b: nat, c: Byte)
    requires Held(held, length) && b < length
    ensures |CoverPoly(held, length, b, c)| == |held| + 1
  {
    var p := ExactlyOnePolynomial(held, length, b, c);
  }

  lemma HeldShares(secret: seq<Byte>, parts: int, threshold: int, rand: Randomness, sel: seq<nat>)
    requires SplitResult(secret, parts, threshold, rand).Ok? && Selection(sel, parts)
    ensures Held(Pick(SplitResult(secret, parts, threshold, rand).value, sel), |secret|)
  {
    var shares := SplitResult(secret, parts, threshold, rand).value;
    var held := Pick(shares, sel);
    SplitAcceptable(secret, parts, threshold, rand);
    forall i, j | 0 <= i < j < |sel| ensures Xs(held)[i] != Xs(held)[j] {
      assert Xs(shares)[sel[i]] == Xs(held)[i] && Xs(shares)[sel[j]] == Xs(held)[j];
    }
  }

  /** threshold - 1 shares are compatible with every other secret of the same length: some draw
      makes that secret produce exactly the shares held. */
  lemma SharesFitEverySecret(secret: seq<Byte>, other: seq<Byte>, parts: int, threshold: int, rand: Randomness,
                             sel: seq<nat>) returns (rand': Randomness)
    requires SplitResult(secret, parts, threshold, rand).Ok? && |other| == |secret|
    requires Selection(sel, parts) && |sel| == threshold - 1
    ensures SplitResult(other, parts, threshold, rand').Ok?
    ensures Pick(SplitResult(other, parts, threshold, rand').value, sel)
            == Pick(SplitResult(secret, parts, threshold, rand).value, sel)
  {
    var held := Pick(SplitResult(secret, parts, threshold, rand).value, sel);
    HeldShares(secret, parts, threshold, rand, sel);
    rand' := CoverRandomness(other, held);
    var shares' := SplitResult(other, parts, threshold, rand').value;
    forall i | 0 <= i < |sel| ensures shares'[sel[i]] == held[i] {
      CoverShare(other, threshold, held, i);
    }
    assert Pick(shares', sel) == held;
  }

  /** Fewer shares say even less: they too fit every other secret. */
  lemma FewerSharesFitEverySecret(secret: seq<Byte>, other: seq<Byte>, parts: int, threshold: int, rand: Randomness,
                                  sel: seq<nat>) returns (rand': Randomness)
    requires SplitResult(secret, parts, threshold, rand).Ok? && |other| == |secret|
    requires Selection(sel, parts) && |sel| <= threshold - 1
    ensures SplitResult(other, parts, threshold, rand').Ok?
    ensures Pick(SplitResult(other, parts, threshold, rand').value, sel)
            == Pick(SplitResult(secret, parts, threshold, rand).value, sel)
  {
    var all := ExtendSelection(sel, parts, threshold - 1);
    rand' := SharesFitEverySecret(secret, other, parts, threshold, rand, all);
    var before := SplitResult(secret, parts, threshold, rand).value;
    var after := SplitResult(other, parts, threshold, rand').value;
    hide SplitResult;
    forall i | 0 <= i < |sel| ensures after[sel[i]] == before[sel[i]] {
      assert sel[i] == all[..|sel|][i] == all[i];
      assert Pick(after, all)[i] == Pick(before, all)[i];
    }
  }

  /** Distinct positions can be added up to any number there are. */
  lemma {:induction false} ExtendSelection(sel: seq<nat>, n: nat, k: nat) returns (all: seq<nat>)
    requires Selection(sel, n) && |sel| <= k <= n
    ensures Selection(all, n) && |all| == k && all[..|sel|] == sel
    decreases k - |sel|
  {
    if |sel| == k {
      all := sel;
    } else {
      var i := FreePosition(sel, n);
      all := ExtendSelection(sel + [i], n, k);
      assert sel == (sel + [i])[..|sel|] == all[..|sel| + 1][..|sel|];
    }
  }

  lemma FreePosition(sel: seq<nat>, n: nat) returns (i: nat)
    requires |sel| < n
    ensures i < n && i !in sel
  {
    if Below(n) <= Elements(sel) {
      SubsetSize(Below(n), Elements(sel));
      assert false;
    }
    i :| i in Below(n) && i !in Elements(sel);
  }

  function Elements(sel: seq<nat>): (s: set<nat>)
    ensures |s| <= |sel| && forall x :: x in s <==> x in sel
  {
    if sel == [] then {} else Elements(sel[1..]) + {sel[0]}
  }

  function Below(n: nat): (s: set<nat>)
    ensures |s| == n && forall x :: x in s <==> 0 <= x < n
  {
    if n == 0 then {}
    else
      assert n - 1 !in Below(n - 1);
      Below(n - 1) + {n - 1}
  }

  lemma CoverShare(other: seq<Byte>, threshold: nat, held: seq<Share>, i: nat)
    requires Held(held, |other|) && |held| == threshold - 1 && i < |held|
    ensures ShareAt(other, threshold, CoverRandomness(other, held), held[i].X) == held[i]
  {
    var rand := CoverRandomness(other, held);
    var s := ShareAt(other, threshold, rand, held[i].X);
    hide Eval, Held, CoverRandomness, Coefficients, Distinct;
    forall b | 0 <= b < |other| ensures s.Y[b] == Ys(held, b)[i] {
      var p := ExactlyOnePolynomial(held, |other|, b, other[b]);
      CoverCoefficients(other, threshold, held, b);
      assert Eval(p, Xs(held)[i]) == Ys(held, b)[i];
    }
    assert s.Y == held[i].Y;
  }

  lemma CoverCoefficients(other: seq<Byte>, threshold: nat, held: seq<Share>, b: nat)
    requires Held(held, |other|) && |held| == threshold - 1 && b < |other|
    ensures Coefficients(other, threshold, CoverRandomness(other, held), b) == CoverPoly(held, |other|, b, other[b])
  {
    hide Eval, Held, Distinct, CoverPoly, Fits;
    var p := ExactlyOnePolynomial(held, |other|, b, other[b]);
  }

  /** ... and that draw is unique, so every candidate secret is equally likely. */
  lemma CompatibleDrawIsUnique(other: seq<Byte>, parts: int, threshold: int, r1: Randomness, r2: Randomness,
                               sel: seq<nat>, b: nat, k: nat)
    requires SplitResult(other, parts, threshold, r1).Ok? && SplitResult(other, parts, threshold, r2).Ok?
    requires Selection(sel, parts) && |sel| == threshold - 1 && b < |other| && k < threshold - 1
    requires Pick(SplitResult(other, parts, threshold, r1).value, sel)
             == Pick(SplitResult(other, parts, threshold, r2).value, sel)
    ensures r1.bytes(b, k) == r2.bytes(b, k)
  {
    CoefficientAt(other, threshold, r1, b, k);
    CoefficientAt(other, threshold, r2, b, k);
    var held := Pick(SplitResult(other, parts, threshold, r1).value, sel);
    assert |held| == threshold - 1;
    hide *;
    HeldShares(other, parts, threshold, r1, sel);
    SharesLieOnPolynomial(other, parts, threshold, r1, sel, b);
    SharesLieOnPolynomial(other, parts, threshold, r2, sel, b);
    var p := ExactlyOnePolynomial(held, |other|, b, other[b]);
    var c1, c2 := Coefficients(other, threshold, r1, b), Coefficients(other, threshold, r2, b);
    assert c1 == p && c2 == p;
  }

  lemma CoefficientAt(secret: seq<Byte>, threshold: nat, rand: Randomness, b: nat, k: nat)
    requires b < |secret| && k + 1 < threshold
    ensures Coefficients(secret, threshold, rand, b)[k + 1] == rand.bytes(b, k)
  {}

  // ---- below the threshold -----------------------------------------------------------------

  lemma {:induction false} ProductPolyMonic(xs: seq<Byte>)
    ensures |ProductPoly(xs)| == |xs| + 1 && ProductPoly(xs)[|xs|] == 1
  {
    if xs != [] {
      var front, r := xs[..|xs| - 1], xs[|xs| - 1];
      ProductPolyMonic(front);
      var p := ProductPoly(front);
      hide Mul, Add, ProductPoly;
      assert ProductPoly(xs) == TimesLinear(p, r) by { ProductPolyUnfold(xs); }
      AddZero(1);
    }
  }

  lemma ProductPolyUnfold(xs: seq<Byte>)
    requires xs != []
    ensures ProductPoly(xs) == TimesLinear(ProductPoly(xs[..|xs| - 1]), xs[|xs| - 1])
  {}

  /** A polynomial with one coefficient more than there are roots is its top coefficient times the
      product of the (x + root). */
  lemma RootsDetermine(d: Poly, xs: seq<Byte>)
    requires Distinct(xs) && |d| == |xs| + 1
    requires forall i :: 0 <= i < |xs| ==> Eval(d, xs[i]) == 0
    ensures Eval(d, 0) == Mul(d[|xs|], Product(xs, 0))
  {
    var n := |xs|;
    ProductPolyMonic(xs);
    var s := Scale(d[n], ProductPoly(xs));
    var e := Sum(d, s);
    MulOne(d[n]);
    AddZero(d[n]);
    assert e[n] == 0;
    var low := e[..n];
    assert e == low + Zeros(1);
    forall i | 0 <= i < n ensures Eval(low, xs[i]) == 0 {
      EvalZeros(low, 1, xs[i]);
      EvalSum(d, s, xs[i]);
      EvalScale(d[n], ProductPoly(xs), xs[i]);
      EvalProductPoly(xs, xs[i]);
      ProductZero(xs, xs[i]);
      AddZero(0);
    }
    TooManyRoots(low, xs);
    AllZeroEval(low, 0);
    EvalZeros(low, 1, 0);
    EvalSum(d, s, 0);
    EvalScale(d[n], ProductPoly(xs), 0);
    EvalProductPoly(xs, 0);
    AddIsZero(Eval(d, 0), Eval(s, 0));
  }

  /** With one share too few, Combine still answers; the byte is right exactly when the top
      coefficient drawn for it happens to be zero. */
  lemma OneShareShort(secret: seq<Byte>, parts: int, threshold: int, rand: Randomness, sel: seq<nat>, b: nat)
    requires SplitResult(secret, parts, threshold, rand).Ok?
    requires Selection(sel, parts) && |sel| == threshold - 1 >= 2 && b < |secret|
    ensures var r := CombineResult(Pick(SplitResult(secret, parts, threshold, rand).value, sel));
            && r.Ok? && |r.value| == |secret|
            && (r.value[b] == secret[b] <==> rand.bytes(b, threshold - 2) == 0)
  {
    hide Acceptable, CombineResult, FirstProblem, Eval, Coefficients, ShareAt, XOf, Distinct, Xs, Ys;
    var held := Pick(SplitResult(secret, parts, threshold, rand).value, sel);
    var p := Coefficients(secret, threshold, rand, b);
    CoefficientAt(secret, threshold, rand, b, threshold - 2);
    ShortHeld(secret, parts, threshold, rand, sel);
    hide *;
    SharesLieOnPolynomial(secret, parts, threshold, rand, sel, b);
    var q := CombineIsUniqueInterpolation(held, b);
    YsLength(held, b);
    SameValues(p, q, Xs(held), Ys(held, b));
    ShortByOne(p, q, Xs(held));
  }

  /** With any number of shares too few, two or more, Combine still answers. The byte is right exactly
      when the polynomial drawn for it, divided by the product of the (x + X) of the shares held,
      happens to have constant term zero. */
  lemma SharesShort(secret: seq<Byte>, parts: int, threshold: int, rand: Randomness, sel: seq<nat>, b: nat)
    requires SplitResult(secret, parts, threshold, rand).Ok?
    requires Selection(sel, parts) && 2 <= |sel| < threshold && b < |secret|
    ensures var held := Pick(SplitResult(secret, parts, threshold, rand).value, sel);
            var h := QuotientAll(Coefficients(secret, threshold, rand, b), Xs(held));
            && CombineResult(held).Ok? && |CombineResult(held).value| == |secret| && |h| == threshold - |sel|
            && (CombineResult(held).value[b] == secret[b] <==> h[0] == 0)
  {
    hide Acceptable, CombineResult, FirstProblem, Eval, Coefficients, ShareAt, XOf, Distinct, Xs, Ys, QuotientAll;
    var held := Pick(SplitResult(secret, parts, threshold, rand).value, sel);
    var p := Coefficients(secret, threshold, rand, b);
    ShortHeld(secret, parts, threshold, rand, sel);
    hide *;
    SharesLieOnPolynomial(secret, parts, threshold, rand, sel, b);
    var q := CombineIsUniqueInterpolation(held, b);
    YsLength(held, b);
    ShortByAny(p, q, Xs(held), Ys(held, b));
  }

  /** A polynomial through some points of a longer one agrees with it at 0 only if the quotient of the
      longer one does not matter there. */
  lemma ShortByAny(p: Poly, q: Poly, xs: seq<Byte>, ys: seq<Byte>)
    requires 1 <= |xs| == |ys| == |q| < |p| && Distinct(xs) && 0 !in xs && Fits(p, xs, ys) && Fits(q, xs, ys)
    ensures |QuotientAll(p, xs)| == |p| - |xs|
    ensures q[0] == p[0] <==> QuotientAll(p, xs)[0] == 0
  {
    hide Eval, Mul, Add, Product, QuotientAll;
    var rest := DivisionAll(p, xs);
    var h := QuotientAll(p, xs);
    forall i | 0 <= i < |xs| ensures Eval(rest, xs[i]) == ys[i] {
      assert Eval(p, xs[i]) == Add(Eval(rest, xs[i]), Mul(Product(xs, xs[i]), Eval(h, xs[i])));
      ProductZero(xs, xs[i]);
      MulOne(Eval(h, xs[i]));
      AddZero(Eval(rest, xs[i]));
    }
    InterpolationUnique(xs, ys, rest, q);
    EvalAtZero(p);
    EvalAtZero(q);
    EvalAtZero(h);
    var c := Product(xs, 0);
    assert p[0] == Add(q[0], Mul(c, h[0]));
    ProductZero(xs, 0);
    OnlyZeroVanishes(q[0], c, h[0]);
  }

  lemma OnlyZeroVanishes(a: Byte, c: Byte, h: Byte)
    requires c != 0
    ensures a == Add(a, Mul(c, h)) <==> h == 0
  {
    hide *;
    MulOne(c);
    AddZero(a);
    MulCommutative(c, h);
    MulCommutative(c, 0);
    if a == Add(a, Mul(c, h)) {
      AddIsZero(a, a);
      AddAssociative(a, a, Mul(c, h));
      AddZero(Mul(c, h));
      MulCancel(h, 0, c);
    }
  }

  lemma YsLength(shares: seq<Share>, b: nat)
    requires forall i :: 0 <= i < |shares| ==> b < |shares[i].Y|
    ensures |Ys(shares, b)| == |shares|
  {}

  lemma SameValues(p: Poly, q: Poly, xs: seq<Byte>, ys: seq<Byte>)
    requires |xs| == |ys| && Fits(p, xs, ys) && Fits(q, xs, ys)
    ensures forall i :: 0 <= i < |xs| ==> Eval(p, xs[i]) == Eval(q, xs[i])
  {
    hide Eval;
  }

  /** What a holder of at least two shares has. */
  lemma ShortHeld(secret: seq<Byte>, parts: int, threshold: int, rand: Randomness, sel: seq<nat>)
    requires SplitResult(secret, parts, threshold, rand).Ok? && Selection(sel, parts) && |sel| >= 2
    ensures var held := Pick(SplitResult(secret, parts, threshold, rand).value, sel);
            && |held| == |sel| && Acceptable(held) && |held[0].Y| == |secret|
            && |Xs(held)| == |held| && Distinct(Xs(held)) && 0 !in Xs(held)
  {
    var shares := SplitResult(secret, parts, threshold, rand).value;
    SplitAcceptable(secret, parts, threshold, rand);
    PickAcceptable(shares, sel);
    assert Pick(shares, sel)[0] == shares[sel[0]];
  }

  /** A polynomial through n points of one of degree n agrees with it at 0 only if it is it. */
  lemma ShortByOne(p: Poly, q: Poly, xs: seq<Byte>)
    requires |xs| >= 1 && |p| == |xs| + 1 && |q| == |xs| && Distinct(xs) && 0 !in xs
    requires forall i :: 0 <= i < |xs| ==> Eval(p, xs[i]) == Eval(q, xs[i])
    ensures q[0] == p[0] <==> p[|xs|] == 0
  {
    var n := |xs|;
    var d := Sum(p, q + Zeros(1));
    hide Eval;
    forall i | 0 <= i < n ensures Eval(d, xs[i]) == 0 {
      EvalSum(p, q + Zeros(1), xs[i]);
      EvalZeros(q, 1, xs[i]);
      AddZero(Eval(p, xs[i]));
    }
    RootsDetermine(d, xs);
    AddZero(p[n]);
    assert d[n] == p[n];
    EvalAtZero(d);
    assert d[0] == Add(p[0], q[0]);
    hide Sum, Zeros;
    AddIsZero(p[0], q[0]);
    ProductZero(xs, 0);
    MulOne(Product(xs, 0));
    if Mul(d[n], Product(xs, 0)) == 0 {
      MulCancel(d[n], 0, Product(xs, 0));
    }
  }

  // ---- locality ----------------------------------------------------------------------------

  lemma BasisAtZeroNonZero(xs: seq<Byte>, i: nat)
    requires i < |xs| && Distinct(xs) && 0 !in xs
    ensures Basis(xs, i, 0) != 0
  {
    OthersNonZero(xs, i);
    ProductZero(Others(xs, i), 0);
    var a, den := Product(Others(xs, i), 0), Product(Others(xs, i), xs[i]);
    var w := Inverse(den);
    hide Mul, Product;
    if Mul(a, w) == 0 {
      MulAssociative(a, w, den);
      MulOne(a);
      MulOne(den);
      assert false;
    }
  }

  lemma {:induction false} LagrangeSumUpdate(xs: seq<Byte>, ys: seq<Byte>, i: nat, y: Byte, n: nat)
    requires n <= |xs| == |ys| && i < |xs| && Distinct(xs)
    ensures LagrangeSum(xs, ys[i := y], n, 0) ==
            if i < n then Add(LagrangeSum(xs, ys, n, 0), Mul(Add(ys[i], y), Basis(xs, i, 0)))
            else LagrangeSum(xs, ys, n, 0)
  {
    if n > 0 {
      LagrangeSumUpdate(xs, ys, i, y, n - 1);
      var s, w := LagrangeSum(xs, ys, n - 1, 0), Basis(xs, n - 1, 0);
      var change := Mul(Add(ys[i], y), Basis(xs, i, 0));
      var t := Mul(ys[n - 1], w);
      hide Mul, Add, Basis;
      if i < n - 1 {
        AddAssociative(s, change, t);
        AddCommutative(change, t);
        AddAssociative(s, t, change);
      } else if i == n - 1 {
        DistributeLeft(ys[i], y, w);
        AddAssociative(s, t, change);
        AddAssociative(t, t, Mul(y, w));
        AddZero(t);
        AddZero(Mul(y, w));
      }
    }
  }

  /** Changing one Y byte of one share changes exactly that byte of the result. */
  lemma OneByteChangesOneByte(shares: seq<Share>, i: nat, b: nat, y: Byte)
    requires Acceptable(shares) && i < |shares| && b < |shares[i].Y| && y != shares[i].Y[b]
    ensures var r, r' := CombineResult(shares), CombineResult(shares[i := WithByte(shares[i], b, y)]);
            && r.Ok? && r'.Ok? && |r.value| == |r'.value| == |shares[0].Y|
            && forall c :: 0 <= c < |r.value| ==> (r.value[c] == r'.value[c] <==> c != b)
  {
    var shares' := shares[i := WithByte(shares[i], b, y)];
    AcceptableIffOk(shares);
    assert Xs(shares') == Xs(shares);
    AcceptableIffOk(shares');
    var xs := Xs(shares);
    forall c | 0 <= c < |shares[0].Y|
      ensures CombineResult(shares).value[c] == CombineResult(shares').value[c] <==> c != b
    {
      var ys := Ys(shares, c);
      if c != b {
        assert Ys(shares', c) == ys;
      } else {
        assert Ys(shares', c) == ys[i := y];
        LagrangeSumUpdate(xs, ys, i, y, |xs|);
        BasisAtZeroNonZero(xs, i);
        var v, w := Interpolate(xs, ys, 0), Basis(xs, i, 0);
        var change := Mul(Add(ys[i], y), w);
        hide Mul, Add, Basis;
        AddIsZero(ys[i], y);
        MulOne(w);
        if change == 0 {
          MulCancel(Add(ys[i], y), 0, w);
          assert false;
        }
        AddIsZero(v, Add(v, change));
        AddAssociative(v, v, change);
        AddZero(v);
        AddZero(change);
      }
    }
  }
}
