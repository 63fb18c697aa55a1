/** The Reed-Solomon code of a data block: codewords, distance, and the errors as a list. A block
    holds the coefficients of a polynomial, highest power first. */
module BlockCode {
  import opened Gf256
  import opened GfTables
  import opened Sums
  import opened Horner
  import opened Recurrence
  import opened Decoding

  /** The value of the block's polynomial at the i-th power of the generator. */
  ghost function Syndrome(block: seq<bv8>, i: nat): bv8 {
    Hor(block, |block| - 1, Alpha(i))
  }

  ghost predicate IsCodeword(block: seq<bv8>, npar: nat) {
    forall i | 0 <= i < npar :: Syndrome(block, i) == 0
  }

  /** The number of places in which two blocks differ. */
  ghost function Distance(a: seq<bv8>, b: seq<bv8>): nat
    requires |a| == |b|
  {
    if a == [] then 0 else (if a[0] == b[0] then 0 else 1) + Distance(a[1..], b[1..])
  }

  ghost function Difference(a: seq<bv8>, b: seq<bv8>): (e: seq<bv8>)
    requires |a| == |b|
    ensures |e| == |a| && forall i | 0 <= i < |a| :: e[i] == Add(a[i], b[i])
  {
    seq(|a|, i requires 0 <= i < |a| => Add(a[i], b[i]))
  }

  lemma {:induction false} HorAdd(a: seq<bv8>, b: seq<bv8>, e: seq<bv8>, k: int, z: bv8)
    requires |a| == |b| == |e| && k < |a| && forall i | 0 <= i < |a| :: e[i] == Add(a[i], b[i])
    ensures Hor(e, k, z) == Add(Hor(a, k, z), Hor(b, k, z))
    decreases k
  {
    hide Add, Mul;
    if k < 0 {
      AddZero(0);
    } else {
      HorAdd(a, b, e, k - 1, z);
      MulAddRight(z, Hor(a, k - 1, z), Hor(b, k - 1, z));
      AddSwap(Mul(z, Hor(a, k - 1, z)), Mul(z, Hor(b, k - 1, z)), a[k], b[k]);
    }
  }

  /** The leading coefficient counts with the highest power. */
  lemma {:induction false} HorCons(p: seq<bv8>, k: nat, z: bv8)
    requires k < |p|
    ensures Hor(p, k, z) == Add(Mul(p[0], Pow(z, k)), Hor(p[1..], k - 1, z))
  {
    hide Add, Mul;
    if k == 0 {
      HorStep(p, 0, z);
      MulZero(z); MulOneRight(p[0]); AddComm(0, p[0]);
    } else {
      HorCons(p, k - 1, z);
      var t, h := Mul(p[0], Pow(z, k - 1)), Hor(p[1..], k - 2, z);
      HorStep(p, k, z); HorStep(p[1..], k - 1, z);
      MulAddRight(z, t, h);
      MulAssoc(z, p[0], Pow(z, k - 1)); MulComm(z, p[0]); MulAssoc(p[0], z, Pow(z, k - 1));
      AddAssoc(Mul(z, t), Mul(z, h), p[k]);
    }
  }

  // ----- the errors

  /** The locators of the nonzero places of e, lowest power first. */
  ghost function Locators(e: seq<bv8>): seq<bv8> {
    if e == [] then [] else Locators(e[1..]) + (if e[0] == 0 then [] else [Alpha(|e| - 1)])
  }

  ghost function Values(e: seq<bv8>): seq<bv8> {
    if e == [] then [] else Values(e[1..]) + (if e[0] == 0 then [] else [e[0]])
  }

  lemma {:induction false} ErrorCount(a: seq<bv8>, b: seq<bv8>)
    requires |a| == |b|
    ensures |Locators(Difference(a, b))| == |Values(Difference(a, b))| == Distance(a, b)
  {
    hide Add;
    if a != [] {
      ErrorCount(a[1..], b[1..]);
      assert Difference(a, b)[1..] == Difference(a[1..], b[1..]);
      AddEq(a[0], b[0]);
    }
  }

  lemma {:induction false} ErrorPowerSum(e: seq<bv8>, n: nat)
    ensures |Locators(e)| == |Values(e)|
    ensures PowerSum(Locators(e), Values(e), n) == Hor(e, |e| - 1, Alpha(n))
  {
    hide Add, Mul, PowerSum, Hor;
    var xs, ys := Locators(e), Values(e);
    if e == [] {
      PowerSumEmpty(n);
      HorStep(e, 0, Alpha(n));
    } else {
      var k := |e| - 1;
      ErrorPowerSum(e[1..], n);
      HorCons(e, k, Alpha(n));
      if e[0] == 0 {
        MulZeroLeft(Pow(Alpha(n), k));
        AddZero(Hor(e[1..], k - 1, Alpha(n)));
        assert xs == Locators(e[1..]) && ys == Values(e[1..]);
      } else {
        PowerSumLast(xs, ys, n);
        assert xs[..|xs| - 1] == Locators(e[1..]) && ys[..|ys| - 1] == Values(e[1..]);
        PowAlpha(k, n); PowAlpha(n, k);
        assert k * n == n * k;
        AddComm(Mul(e[0], Pow(Alpha(n), k)), Hor(e[1..], k - 1, Alpha(n)));
      }
    }
  }

  lemma {:induction false} ErrorList(e: seq<bv8>)
    requires |e| <= 255
    ensures |Locators(e)| == |Values(e)|
    ensures IsErrorList(Locators(e), Values(e))
    ensures forall p | |e| <= p < 255 :: Alpha(p) !in Locators(e)
  {
    hide Alpha;
    if e != [] {
      var k := |e| - 1;
      ErrorList(e[1..]);
      AlphaNonZero(k);
      forall p | |e| <= p < 255 ensures Alpha(p) !in Locators(e) {
        AlphaInjective(k, p);
      }
    }
  }

  /** Where the list holds the locator of place |e|-1-p, and what value goes with it. */
  lemma {:induction false} ErrorAtPlace(e: seq<bv8>, p: nat)
    requires p < |e| <= 255
    ensures |Locators(e)| == |Values(e)|
    ensures Alpha(p) in Locators(e) <==> e[|e| - 1 - p] != 0
    ensures forall l | 0 <= l < |Locators(e)| && Locators(e)[l] == Alpha(p) :: Values(e)[l] == e[|e| - 1 - p]
  {
    hide Alpha;
    var k := |e| - 1;
    if p < k {
      ErrorAtPlace(e[1..], p);
      AlphaInjective(p, k);
      assert e[1..][|e[1..]| - 1 - p] == e[|e| - 1 - p];
    } else {
      ErrorList(e[1..]);
    }
  }

  // ----- minimum distance

  /** A codeword with at most npar nonzero places is zero. */
  lemma LightCodeword(e: seq<bv8>, npar: nat)
    requires |e| <= 255 && IsCodeword(e, npar) && |Locators(e)| <= npar
    ensures forall i | 0 <= i < |e| :: e[i] == 0
  {
    hide Add, Mul, Alpha, PowerSum, Hor;
    ErrorList(e);
    forall n | 0 <= n < |Locators(e)| ensures PowerSum(Locators(e), Values(e), n) == 0 {
      ErrorPowerSum(e, n);
      assert Syndrome(e, n) == 0;
    }
    OnlyZeros(Locators(e), Values(e));
    forall i | 0 <= i < |e| ensures e[i] == 0 {
      var p := |e| - 1 - i;
      ErrorAtPlace(e, p);
    }
  }

  lemma SyndromeDifference(a: seq<bv8>, b: seq<bv8>, i: nat)
    requires |a| == |b|
    ensures Syndrome(Difference(a, b), i) == Add(Syndrome(a, i), Syndrome(b, i))
  {
    hide Add, Hor, Alpha;
    HorAdd(a, b, Difference(a, b), |a| - 1, Alpha(i));
  }

  /** Two codewords that differ in at most npar places are the same. */
  lemma MinimumDistance(a: seq<bv8>, b: seq<bv8>, npar: nat)
    requires |a| == |b| <= 255 && IsCodeword(a, npar) && IsCodeword(b, npar)
    requires Distance(a, b) <= npar
    ensures a == b
  {
    hide Add, Hor, Alpha, Syndrome;
    var e := Difference(a, b);
    ErrorCount(a, b);
    forall i | 0 <= i < npar ensures Syndrome(e, i) == 0 {
      SyndromeDifference(a, b, i);
      AddZero(0);
    }
    LightCodeword(e, npar);
    forall i | 0 <= i < |a| ensures a[i] == b[i] {
      AddEq(a[i], b[i]);
    }
  }
}
