/** The logarithm and exponential tables of core/shamir/shamir.go and the operations on them. */
module GFTables {
  import opened Wrappers
  import opened GF256

  function Index(b: Byte): (i: nat)
    ensures i < 256
  {
    b as int
  }

  lemma IndexInjective(a: Byte, b: Byte)
    ensures Index(a) == Index(b) ==> a == b
  {}

  lemma IndexOfByte(k: nat)
    requires k < 256
    ensures Index(k as Byte) == k
  {}

  lemma TripleByShift(x: Byte)
    ensures (if x & 0x80 != 0 then (x << 1) ^ 0x1b else x << 1) ^ x == Mul(3, x)
  {
    MulOne(x);
    MulOddEven(3, x);
    assert (3 as Byte) >> 1 == 1;
    assert (x << 1) ^ 0 == x << 1;
  }

  /** The step of the table loop: double x, reduce it, and add the entry x just written. */
  method TimesThree(x: Byte, entry: Byte) returns (y: Byte)
    requires entry == x
    ensures y == Mul(3, x)
  {
    hide *;
    TripleByShift(x);
    var hi := x & 0x80;
    y := x << 1;
    if hi != 0 {
      y := y ^ 0x1b;
    }
    y := y ^ entry;
  }

  lemma PowStep(n: nat)
    ensures Pow(0) == 1 && Pow(n + 1) == Mul(3, Pow(n))
  {}

  class Tables {
    const gfExp: array<Byte>
    const gfLog: array<Byte>

    ghost predicate Valid()
      reads gfExp, gfLog
    {
      && gfExp.Length == 512 && gfLog.Length == 256 && gfExp != gfLog
      && (forall k: nat :: k < 512 ==> gfExp[k] == Pow(k))
      && (forall b: Byte :: b != 0 ==> IsLog(gfLog[Index(b)], b))
    }

    static ghost predicate IsLog(l: Byte, b: Byte) {
      Index(l) < 255 && Pow(Index(l)) == b
    }

    constructor ()
      ensures Valid() && fresh(gfExp) && fresh(gfLog)
    {
      gfExp := new Byte[512];
      gfLog := new Byte[256];
      new;
      hide Pow, Mul;
      FillPowers();
      ghost var logs := gfLog[..];
      RepeatPowers();
      assert forall i :: 0 <= i < 256 ==> gfLog[i] == logs[i];
      forall b: Byte | b != 0 ensures IsLog(gfLog[Index(b)], b) {
        var k := PowSurjective(b);
        assert Index(logs[Index(Pow(k))]) == k;
      }
    }

    /** First loop of init: walks through the powers of 3, filling both tables. */
    method FillPowers()
      requires gfExp.Length == 512 && gfLog.Length == 256 && gfExp != gfLog
      modifies gfExp, gfLog
      ensures forall k: nat :: k < 255 ==> gfExp[k] == Pow(k)
      ensures forall k: nat :: k < 255 ==> Index(gfLog[Index(Pow(k))]) == k
    {
      hide *;
      var x: Byte := 1;
      PowStep(0);
      for i := 0 to 255
        invariant x == Pow(i)
        invariant forall k: nat :: k < i ==> gfExp[k] == Pow(k)
        invariant forall k: nat :: k < i ==> Index(gfLog[Index(Pow(k))]) == k
      {
        forall k: nat | k < i ensures Index(Pow(k)) != Index(x) {
          PowInjective(k, i);
          IndexInjective(Pow(k), x);
        }
        IndexOfByte(i);
        PowStep(i);
        gfExp[i] := x;
        gfLog[Index(x)] := i as Byte;
        x := TimesThree(x, gfExp[i]);
      }
    }

    /** Second loop of init: the exponents repeat with period 255. */
    method RepeatPowers()
      requires gfExp.Length == 512 && gfExp != gfLog
      requires forall k: nat :: k < 255 ==> gfExp[k] == Pow(k)
      modifies gfExp
      ensures forall k: nat :: k < 512 ==> gfExp[k] == Pow(k)
    {
      hide *;
      for i := 255 to 512
        invariant forall k: nat :: k < i ==> gfExp[k] == Pow(k)
      {
        PowModulo(i - 255);
        gfExp[i] := gfExp[i - 255];
      }
    }

    /** gfExp and gfLog undo each other on the non-zero bytes. */
    lemma MutualInverses(b: Byte, k: nat)
      requires Valid() && k < 255
      ensures b != 0 ==> Index(gfLog[Index(b)]) < 255 && gfExp[Index(gfLog[Index(b)])] == b
      ensures gfExp[k] != 0 && Index(gfLog[Index(gfExp[k])]) == k
    {
      hide Pow;
      PowInverse(k);
      var l := Index(gfLog[Index(Pow(k))]);
      assert IsLog(gfLog[Index(Pow(k))], Pow(k));
      if l < k {
        PowInjective(l, k);
      } else if l > k {
        PowInjective(k, l);
      }
    }

    function GfMul(a: Byte, b: Byte): (r: Byte)
      requires Valid()
      reads gfExp, gfLog
      ensures r == Mul(a, b)
    {
      MulOne(a);
      MulOne(b);
      if a == 0 || b == 0 then 0
      else
        var la, lb := Index(gfLog[Index(a)]), Index(gfLog[Index(b)]);
        PowAdd(la, lb);
        gfExp[la + lb]
    }

    /** None stands for the panic on a zero divisor. */
    function GfDiv(a: Byte, b: Byte): (r: Option<Byte>)
      requires Valid()
      reads gfExp, gfLog
      ensures r.None? <==> b == 0
      ensures r.Some? ==> Mul(r.value, b) == a
    {
      MulOne(b);
      if b == 0 then None
      else if a == 0 then Some(0)
      else
        var la, lb := Index(gfLog[Index(a)]), Index(gfLog[Index(b)]);
        PowAdd(la - lb + 255, lb);
        PowModulo(la);
        Some(gfExp[la - lb + 255])
    }
  }
}
