/** Splitting a secret into shares and combining them again (core/shamir/shamir.go). */
module Shamir {
  import opened Wrappers
  import opened Collections
  import opened GF256
  import opened Polynomial
  import opened GFTables

  datatype Share = Share(X: Byte, Y: seq<Byte>)

  datatype SplitError = ThresholdTooSmall | TooFewParts | TooManyParts | EmptySecret | NoRandomness

  datatype CombineError = TooFewShares | ZeroX | DuplicateX | InconsistentLength

  /** Random bytes: Bytes(b, k) is the k-th byte drawn for secret byte b, unless that draw fails. */
  datatype Randomness = Randomness(bytes: (nat, nat) -> Byte, fails: nat -> bool)

  // ---- what Split and Combine compute ------------------------------------------------------

  /** The polynomial for secret byte b: the byte itself, then threshold - 1 random bytes. */
  function Coefficients(secret: seq<Byte>, threshold: nat, rand: Randomness, b: nat): (p: Poly)
    requires b < |secret| && threshold >= 1
    ensures |p| == threshold && p[0] == secret[b]
  {
    [secret[b]] + seq(threshold - 1, k requires 0 <= k => rand.bytes(b, k))
  }

  function ShareAt(secret: seq<Byte>, threshold: nat, rand: Randomness, x: Byte): Share
    requires threshold >= 1
  {
    Share(x, seq(|secret|, b requires 0 <= b < |secret| => Eval(Coefficients(secret, threshold, rand, b), x)))
  }

  function XOf(i: nat): Byte
    requires i < 255
  {
    (i + 1) as Byte
  }

  ghost function SplitResult(secret: seq<Byte>, parts: int, threshold: int, rand: Randomness)
    : Result<seq<Share>, SplitError>
  {
    if threshold < 2 then Err(ThresholdTooSmall)
    else if parts < threshold then Err(TooFewParts)
    else if parts > 255 then Err(TooManyParts)
    else if secret == [] then Err(EmptySecret)
    else if exists b: nat :: b < |secret| && rand.fails(b) then Err(NoRandomness)
    else Ok(seq(parts, i requires 0 <= i < parts => ShareAt(secret, threshold, rand, XOf(i))))
  }

  function Xs(shares: seq<Share>): seq<Byte> {
    seq(|shares|, i requires 0 <= i < |shares| => shares[i].X)
  }

  predicate SameLength(shares: seq<Share>, length: nat) {
    forall i :: 0 <= i < |shares| ==> |shares[i].Y| == length
  }

  function Ys(shares: seq<Share>, b: nat): seq<Byte>
    requires forall i :: 0 <= i < |shares| ==> b < |shares[i].Y|
  {
    seq(|shares|, i requires 0 <= i < |shares| => shares[i].Y[b])
  }

  /** The first complaint of the validation loop from position k on. */
  function FirstProblem(shares: seq<Share>, k: nat): Option<CombineError>
    requires k <= |shares|
    decreases |shares| - k
  {
    if k == |shares| then None
    else if shares[k].X == 0 then Some(ZeroX)
    else if shares[k].X in Xs(shares[..k]) then Some(DuplicateX)
    else if |shares[k].Y| != |shares[0].Y| then Some(InconsistentLength)
    else FirstProblem(shares, k + 1)
  }

  ghost predicate Acceptable(shares: seq<Share>) {
    && |shares| >= 2
    && (forall i :: 0 <= i < |shares| ==> shares[i].X != 0)
    && Distinct(Xs(shares))
    && SameLength(shares, |shares[0].Y|)
  }

  lemma {:induction false} FirstProblemNone(shares: seq<Share>, k: nat)
    requires k <= |shares|
    requires forall i :: 0 <= i < k ==> shares[i].X != 0 && |shares[i].Y| == |shares[0].Y|
    requires Distinct(Xs(shares[..k]))
    ensures FirstProblem(shares, k).None? <==>
            && (forall i :: 0 <= i < |shares| ==> shares[i].X != 0)
            && Distinct(Xs(shares))
            && (shares != [] ==> SameLength(shares, |shares[0].Y|))
    decreases |shares| - k
  {
    if k == |shares| {
      assert shares[..k] == shares;
    } else {
      var xs := Xs(shares[..k + 1]);
      assert xs == Xs(shares[..k]) + [shares[k].X];
      assert forall i :: 0 <= i < k ==> Xs(shares[..k])[i] == shares[i].X == Xs(shares)[i];
      assert Xs(shares)[k] == shares[k].X;
      if shares[k].X != 0 && shares[k].X !in Xs(shares[..k]) && |shares[k].Y| == |shares[0].Y| {
        FirstProblemNone(shares, k + 1);
      }
    }
  }

  /** The interpolated value at 0 of every byte position. */
  ghost function CombineResult(shares: seq<Share>): Result<seq<Byte>, CombineError> {
    if |shares| < 2 then Err(TooFewShares)
    else if FirstProblem(shares, 0).Some? then Err(FirstProblem(shares, 0).value)
    else
      FirstProblemNone(shares, 0);
      Ok(seq(|shares[0].Y|, b requires 0 <= b < |shares[0].Y| => Interpolate(Xs(shares), Ys(shares, b), 0)))
  }

  // ---- the algorithms ----------------------------------------------------------------------

  /** Evaluates by Horner's method, highest degree first. */
  method EvalHorner(t: Tables, coeffs: array<Byte>, x: Byte) returns (result: Byte)
    requires t.Valid()
    ensures result == Eval(coeffs[..], x)
  {
    hide *;
    result := 0;
    var i := coeffs.Length - 1;
    EvalEmpty(x);
    assert coeffs[coeffs.Length..] == [];
    while i >= 0
      invariant -1 <= i < coeffs.Length
      invariant result == Eval(coeffs[i + 1..], x)
    {
      EvalStep(coeffs[i..], x);
      assert coeffs[i..][1..] == coeffs[i + 1..];
      XorIsAdd(Mul(result, x), coeffs[i]);
      result := t.GfMul(result, x) ^ coeffs[i];
      i := i - 1;
    }
    assert coeffs[0..] == coeffs[..];
  }

  lemma XorIsAdd(a: Byte, b: Byte)
    ensures a ^ b == Add(a, b)
  {}

  /** The inner loop of Split: writes one byte position of every share. */
  method EvalColumn(t: Tables, coeffs: array<Byte>, shares: array<Share>, byteIdx: nat)
    requires t.Valid() && shares as object !in {t.gfExp as object, t.gfLog, coeffs}
    requires forall i :: 0 <= i < shares.Length ==> byteIdx < |shares[i].Y|
    modifies shares
    ensures forall i :: 0 <= i < shares.Length ==>
      shares[i] == WithByte(old(shares[i]), byteIdx, Eval(coeffs[..], old(shares[i].X)))
  {
    hide Eval, Mul, Add;
    for i := 0 to shares.Length
      invariant t.Valid()
      invariant forall j :: 0 <= j < i ==>
        shares[j] == WithByte(old(shares[j]), byteIdx, Eval(coeffs[..], old(shares[j].X)))
      invariant forall j :: i <= j < shares.Length ==> shares[j] == old(shares[j])
    {
      var y := EvalHorner(t, coeffs, shares[i].X);
      shares[i] := WithByte(shares[i], byteIdx, y);
    }
  }

  function WithByte(s: Share, b: nat, y: Byte): Share
    requires b < |s.Y|
  {
    s.(Y := s.Y[b := y])
  }

  /** The shares once the first n byte positions are written. */
  ghost function PartialShare(secret: seq<Byte>, threshold: nat, rand: Randomness, x: Byte, n: nat): Share
    requires threshold >= 1 && n <= |secret|
  {
    Share(x, ShareAt(secret, threshold, rand, x).Y[..n] + seq(|secret| - n, _ => 0))
  }

  lemma PartialShareStep(secret: seq<Byte>, threshold: nat, rand: Randomness, x: Byte, n: nat)
    requires threshold >= 1 && n < |secret|
    ensures n < |PartialShare(secret, threshold, rand, x, n).Y|
    ensures WithByte(PartialShare(secret, threshold, rand, x, n), n, Eval(Coefficients(secret, threshold, rand, n), x))
            == PartialShare(secret, threshold, rand, x, n + 1)
  {
    hide Eval;
    var full := ShareAt(secret, threshold, rand, x).Y;
    assert full[..n + 1] == full[..n] + [full[n]];
    assert PartialShare(secret, threshold, rand, x, n).Y[n := full[n]] == full[..n + 1] + seq(|secret| - n - 1, _ => 0);
  }

  lemma PartialShareEnds(secret: seq<Byte>, threshold: nat, rand: Randomness, x: Byte)
    requires threshold >= 1
    ensures PartialShare(secret, threshold, rand, x, 0) == Share(x, seq(|secret|, _ => 0))
    ensures PartialShare(secret, threshold, rand, x, |secret|) == ShareAt(secret, threshold, rand, x)
  {
    hide Eval;
    var full := ShareAt(secret, threshold, rand, x).Y;
    assert full[..|secret|] == full;
  }

  method Split(t: Tables, secret: seq<Byte>, parts: int, threshold: int, rand: Randomness)
    returns (r: Result<seq<Share>, SplitError>)
    requires t.Valid()
    ensures r == SplitResult(secret, parts, threshold, rand)
  {
    hide *;
    SplitCases(secret, parts, threshold, rand);
    if threshold < 2 {
      return Err(ThresholdTooSmall);
    }
    if parts < threshold {
      return Err(TooFewParts);
    }
    if parts > 255 {
      return Err(TooManyParts);
    }
    if |secret| == 0 {
      return Err(EmptySecret);
    }
    var shares := new Share[parts](i requires 0 <= i < parts => Share(XOf(i), seq(|secret|, _ => 0)));
    forall i | 0 <= i < parts ensures shares[i] == PartialShare(secret, threshold, rand, XOf(i), 0) {
      PartialShareEnds(secret, threshold, rand, XOf(i));
    }
    var coeffs := new Byte[threshold];
    for byteIdx := 0 to |secret|
      invariant t.Valid()
      invariant forall b: nat :: b < byteIdx ==> !rand.fails(b)
      invariant forall i :: 0 <= i < parts ==> shares[i] == PartialShare(secret, threshold, rand, XOf(i), byteIdx)
    {
      coeffs[0] := secret[byteIdx];
      if rand.fails(byteIdx) {
        return Err(NoRandomness);
      }
      forall k | 1 <= k < threshold {
        coeffs[k] := rand.bytes(byteIdx, k - 1);
      }
      CoefficientsAre(secret, threshold, rand, byteIdx, coeffs[..]);
      ColumnStep(secret, threshold, rand, byteIdx, shares[..]);
      EvalColumn(t, coeffs, shares, byteIdx);
    }
    ColumnsDone(secret, threshold, rand, shares[..]);
    r := Ok(shares[..]);
  }

  lemma SplitCases(secret: seq<Byte>, parts: int, threshold: int, rand: Randomness)
    ensures var r := SplitResult(secret, parts, threshold, rand);
            if threshold < 2 then r == Err(ThresholdTooSmall)
            else if parts < threshold then r == Err(TooFewParts)
            else if parts > 255 then r == Err(TooManyParts)
            else if secret == [] then r == Err(EmptySecret)
            else if exists b: nat :: b < |secret| && rand.fails(b) then r == Err(NoRandomness)
            else r == Ok(seq(parts, i requires 0 <= i < parts => ShareAt(secret, threshold, rand, XOf(i))))
  {
    hide ShareAt, XOf;
  }

  /** Writing one byte position of shares that are written up to there. */
  lemma ColumnStep(secret: seq<Byte>, threshold: nat, rand: Randomness, n: nat, shares: seq<Share>)
    requires threshold >= 1 && n < |secret| && |shares| <= 255
    requires forall i :: 0 <= i < |shares| ==> shares[i] == PartialShare(secret, threshold, rand, XOf(i), n)
    ensures forall i :: 0 <= i < |shares| ==>
      && n < |shares[i].Y| && shares[i].X == XOf(i)
      && WithByte(shares[i], n, Eval(Coefficients(secret, threshold, rand, n), XOf(i)))
         == PartialShare(secret, threshold, rand, XOf(i), n + 1)
  {
    hide *;
    forall i | 0 <= i < |shares|
      ensures n < |shares[i].Y| && shares[i].X == XOf(i)
      ensures WithByte(shares[i], n, Eval(Coefficients(secret, threshold, rand, n), XOf(i)))
              == PartialShare(secret, threshold, rand, XOf(i), n + 1)
    {
      PartialShareStep(secret, threshold, rand, XOf(i), n);
      PartialShareX(secret, threshold, rand, XOf(i), n);
    }
  }

  lemma ColumnsDone(secret: seq<Byte>, threshold: nat, rand: Randomness, shares: seq<Share>)
    requires threshold >= 1 && |shares| <= 255
    requires forall i :: 0 <= i < |shares| ==> shares[i] == PartialShare(secret, threshold, rand, XOf(i), |secret|)
    ensures shares == seq(|shares|, i requires 0 <= i < |shares| => ShareAt(secret, threshold, rand, XOf(i)))
  {
    hide *;
    forall i | 0 <= i < |shares| ensures shares[i] == ShareAt(secret, threshold, rand, XOf(i)) {
      PartialShareEnds(secret, threshold, rand, XOf(i));
    }
  }

  lemma PartialShareX(secret: seq<Byte>, threshold: nat, rand: Randomness, x: Byte, n: nat)
    requires threshold >= 1 && n <= |secret|
    ensures PartialShare(secret, threshold, rand, x, n).X == x
  {}

  lemma CoefficientsAre(secret: seq<Byte>, threshold: nat, rand: Randomness, b: nat, p: Poly)
    requires b < |secret| && |p| == threshold >= 1 && p[0] == secret[b]
    requires forall k :: 1 <= k < threshold ==> p[k] == rand.bytes(b, k - 1)
    ensures p == Coefficients(secret, threshold, rand, b)
  {}

  // ---- combining ---------------------------------------------------------------------------

  /** The X coordinates of the first j shares other than share i. */
  function OtherXs(shares: seq<Share>, i: nat, j: nat): seq<Byte>
    requires i < |shares| && j <= |shares|
  {
    if j <= i then Xs(shares)[..j] else Xs(shares)[..i] + Xs(shares)[i + 1..j]
  }

  lemma ProductStep(xs: seq<Byte>, y: Byte, x: Byte)
    ensures Product([], x) == 1
    ensures Product(xs + [y], x) == Mul(Product(xs, x), Add(x, y))
  {
    assert (xs + [y])[..|xs|] == xs;
  }

  lemma OtherXsStep(shares: seq<Share>, i: nat, j: nat)
    requires i < |shares| && j < |shares|
    ensures OtherXs(shares, i, 0) == []
    ensures OtherXs(shares, i, j + 1) == if i == j then OtherXs(shares, i, j) else OtherXs(shares, i, j) + [shares[j].X]
    ensures OtherXs(shares, i, |shares|) == Others(Xs(shares), i)
  {}

  /** The innermost loop of Combine: numerator and denominator of the i-th basis value at 0. */
  method BasisAtZero(t: Tables, shares: seq<Share>, i: nat) returns (num: Byte, den: Byte)
    requires t.Valid() && i < |shares|
    ensures num == Product(Others(Xs(shares), i), 0)
    ensures den == Product(Others(Xs(shares), i), shares[i].X)
  {
    hide *;
    num, den := 1, 1;
    ProductStep([], 0, 0);
    ProductStep([], 0, shares[i].X);
    OtherXsStep(shares, i, 0);
    for j := 0 to |shares|
      invariant num == Product(OtherXs(shares, i, j), 0)
      invariant den == Product(OtherXs(shares, i, j), shares[i].X)
    {
      OtherXsStep(shares, i, j);
      if i == j {
        continue;
      }
      ProductStep(OtherXs(shares, i, j), shares[j].X, 0);
      ProductStep(OtherXs(shares, i, j), shares[j].X, shares[i].X);
      AddZero(shares[j].X);
      XorIsAdd(shares[i].X, shares[j].X);
      num := t.GfMul(num, shares[j].X);
      den := t.GfMul(den, shares[i].X ^ shares[j].X);
    }
  }

  lemma QuotientIsBasis(xs: seq<Byte>, i: nat, q: Byte)
    requires i < |xs| && Distinct(xs)
    requires Mul(q, Product(Others(xs, i), xs[i])) == Product(Others(xs, i), 0)
    ensures q == Basis(xs, i, 0)
  {
    OthersNonZero(xs, i);
    var den := Product(Others(xs, i), xs[i]);
    var w := Inverse(den);
    hide Product, Mul, Distinct;
    MulAssociative(Product(Others(xs, i), 0), w, den);
    MulOne(Product(Others(xs, i), 0));
    MulCancel(q, Mul(Product(Others(xs, i), 0), w), den);
  }

  /** The middle loop of Combine: one byte of the secret. The division never panics. */
  method CombineByte(t: Tables, shares: seq<Share>, byteIdx: nat) returns (acc: Byte)
    requires t.Valid() && Distinct(Xs(shares))
    requires forall i :: 0 <= i < |shares| ==> byteIdx < |shares[i].Y|
    ensures acc == Interpolate(Xs(shares), Ys(shares, byteIdx), 0)
  {
    acc := 0;
    ghost var xs, ys := Xs(shares), Ys(shares, byteIdx);
    for i := 0 to |shares|
      invariant acc == LagrangeSum(xs, ys, i, 0)
    {
      hide Mul, Add, Product, Basis, Distinct;
      var num, den := BasisAtZero(t, shares, i);
      OthersNonZero(xs, i);
      var q := t.GfDiv(num, den);
      QuotientIsBasis(xs, i, q.value);
      XorIsAdd(acc, Mul(shares[i].Y[byteIdx], q.value));
      acc := acc ^ t.GfMul(shares[i].Y[byteIdx], q.value);
    }
  }

  lemma FirstProblemStep(shares: seq<Share>, k: nat)
    requires k < |shares|
    ensures Xs(shares[..k + 1]) == Xs(shares[..k]) + [shares[k].X]
    ensures shares[k].X == 0 ==> FirstProblem(shares, k) == Some(ZeroX)
    ensures shares[k].X != 0 && shares[k].X in Xs(shares[..k]) ==> FirstProblem(shares, k) == Some(DuplicateX)
    ensures shares[k].X != 0 && shares[k].X !in Xs(shares[..k]) && |shares[k].Y| != |shares[0].Y|
            ==> FirstProblem(shares, k) == Some(InconsistentLength)
    ensures shares[k].X != 0 && shares[k].X !in Xs(shares[..k]) && |shares[k].Y| == |shares[0].Y|
            ==> FirstProblem(shares, k) == FirstProblem(shares, k + 1)
  {}

  method Combine(t: Tables, shares: seq<Share>) returns (r: Result<seq<Byte>, CombineError>)
    requires t.Valid()
    ensures r == CombineResult(shares)
  {
    hide Interpolate, Distinct;
    if |shares| < 2 {
      return Err(TooFewShares);
    }
    var length := |shares[0].Y|;
    var seenX: set<Byte> := {};
    for k := 0 to |shares|
      invariant forall x :: x in seenX <==> x in Xs(shares[..k])
      invariant FirstProblem(shares, 0) == FirstProblem(shares, k)
    {
      FirstProblemStep(shares, k);
      var s := shares[k];
      if s.X == 0 {
        return Err(ZeroX);
      }
      if s.X in seenX {
        return Err(DuplicateX);
      }
      seenX := seenX + {s.X};
      if |s.Y| != length {
        return Err(InconsistentLength);
      }
    }
    EmptyDistinct(Xs(shares[..0]));
    FirstProblemNone(shares, 0);
    var secret := new Byte[length];
    for byteIdx := 0 to length
      invariant forall b :: 0 <= b < byteIdx ==> secret[b] == Interpolate(Xs(shares), Ys(shares, b), 0)
      invariant t.Valid()
    {
      secret[byteIdx] := CombineByte(t, shares, byteIdx);
    }
    assert secret[..] == CombineResult(shares).value;
    r := Ok(secret[..]);
  }

  lemma EmptyDistinct(xs: seq<Byte>)
    requires xs == []
    ensures Distinct(xs)
  {}
}
