/** Why a shortest recurrence for the syndromes locates and measures the errors. The errors are
    given by their locators xs (distinct, nonzero) and values ys (nonzero); syndrome n is the sum
    of ys[l] xs[l]^n. */
module Decoding {
  import opened Gf256
  import opened GfTables
  import opened Sums
  import opened Horner
  import opened Recurrence

  ghost predicate Distinct(xs: seq<bv8>) {
    forall i, j | 0 <= i < j < |xs| :: xs[i] != xs[j]
  }

  ghost function PowerTerm(xs: seq<bv8>, ys: seq<bv8>, n: nat): int -> bv8 {
    l => Mul(Coef(ys, l), Pow(Coef(xs, l), n))
  }

  /** The n-th power sum of the errors: the n-th syndrome. */
  ghost function PowerSum(xs: seq<bv8>, ys: seq<bv8>, n: nat): bv8 {
    Sum(PowerTerm(xs, ys, n), |xs|)
  }

  ghost predicate IsErrorList(xs: seq<bv8>, ys: seq<bv8>) {
    && |xs| == |ys| && Distinct(xs)
    && (forall l | 0 <= l < |xs| :: xs[l] != 0)
    && (forall l | 0 <= l < |ys| :: ys[l] != 0)
  }

  ghost predicate AreSyndromes(xs: seq<bv8>, ys: seq<bv8>, s: seq<bv8>, n: nat) {
    n <= |s| && forall i | 0 <= i < n :: s[i] == PowerSum(xs, ys, i)
  }

  // ----- power sums that vanish

  lemma PowerSumEmpty(n: nat)
    ensures PowerSum([], [], n) == 0
  {}

  lemma PowerSumLast(xs: seq<bv8>, ys: seq<bv8>, n: nat)
    requires |xs| == |ys| > 0
    ensures var k := |xs| - 1;
            PowerSum(xs, ys, n) == Add(PowerSum(xs[..k], ys[..k], n), Mul(ys[k], Pow(xs[k], n)))
  {
    hide Add, Mul, Pow;
    var k := |xs| - 1;
    SumEq(PowerTerm(xs, ys, n), PowerTerm(xs[..k], ys[..k], n), k);
  }

  lemma {:induction false} PowerSumVanishesFor(xs: seq<bv8>, ys: seq<bv8>, n: nat)
    requires |xs| == |ys| && forall l | 0 <= l < |ys| :: ys[l] == 0
    ensures PowerSum(xs, ys, n) == 0
  {
    hide Add, Mul, Pow;
    forall l: int | 0 <= l < |xs| ensures PowerTerm(xs, ys, n)(l) == 0 {
      MulZeroLeft(Pow(xs[l], n));
    }
    SumZero(PowerTerm(xs, ys, n), |xs|);
  }

  /** The values multiplied by (locator + x). */
  ghost function Twisted(xs: seq<bv8>, ys: seq<bv8>, x: bv8): (r: seq<bv8>)
    requires |xs| == |ys|
    ensures |r| == |xs| && forall l | 0 <= l < |xs| :: r[l] == Mul(ys[l], Add(xs[l], x))
  {
    seq(|xs|, l requires 0 <= l < |xs| => Mul(ys[l], Add(xs[l], x)))
  }

  lemma TwistedTerm(x: bv8, y: bv8, z: bv8, p: bv8)
    ensures Mul(Mul(y, Add(x, z)), p) == Add(Mul(y, Mul(x, p)), Mul(z, Mul(y, p)))
  {
    hide *;
    MulAddRight(y, x, z);
    MulAddLeft(Mul(y, x), Mul(y, z), p);
    MulAssoc(y, x, p);
    MulComm(y, z);
    MulAssoc(z, y, p);
  }

  lemma PowerTermAt(xs: seq<bv8>, ys: seq<bv8>, n: nat, l: nat)
    requires l < |xs| == |ys|
    ensures PowerTerm(xs, ys, n)(l) == Mul(ys[l], Pow(xs[l], n))
  {
    hide Mul, Pow;
    assert Coef(xs, l) == xs[l] && Coef(ys, l) == ys[l];
  }

  lemma TwistedAt(xs: seq<bv8>, ys: seq<bv8>, x: bv8, n: nat, l: nat)
    requires l < |xs| == |ys|
    ensures PowerTerm(xs, Twisted(xs, ys, x), n)(l) ==
            Add(PowerTerm(xs, ys, n + 1)(l), Mul(x, PowerTerm(xs, ys, n)(l)))
  {
    hide Add, Mul, PowerTerm;
    PowerTermAt(xs, ys, n, l); PowerTermAt(xs, ys, n + 1, l); PowerTermAt(xs, Twisted(xs, ys, x), n, l);
    PowStep(xs[l], n);
    TwistedTerm(xs[l], ys[l], x, Pow(xs[l], n));
  }

  lemma TwistedSum(xs: seq<bv8>, ys: seq<bv8>, x: bv8, n: nat)
    requires |xs| == |ys|
    ensures PowerSum(xs, Twisted(xs, ys, x), n) == Add(PowerSum(xs, ys, n + 1), Mul(x, PowerSum(xs, ys, n)))
  {
    hide Add, Mul, Sum, PowerTerm;
    var scaled := l => Mul(x, PowerTerm(xs, ys, n)(l));
    var t := PowerTerm(xs, Twisted(xs, ys, x), n);
    forall l: int | 0 <= l < |xs| ensures t(l) == Add(PowerTerm(xs, ys, n + 1)(l), scaled(l)) {
      TwistedAt(xs, ys, x, n, l);
    }
    SumAdd(PowerTerm(xs, ys, n + 1), scaled, t, |xs|);
    SumScale(x, PowerTerm(xs, ys, n), scaled, |xs|);
  }

  /** As many vanishing power sums as there are distinct locators leave no values (Vandermonde). */
  lemma {:induction false} OnlyZeros(xs: seq<bv8>, ys: seq<bv8>)
    requires |xs| == |ys| && Distinct(xs)
    requires forall n | 0 <= n < |xs| :: PowerSum(xs, ys, n) == 0
    ensures forall l | 0 <= l < |ys| :: ys[l] == 0
    decreases |xs|
  {
    hide Add, Mul, Pow, PowerSum;
    if |xs| > 0 {
      var k := |xs| - 1;
      var x := xs[k];
      var us, ws := xs[..k], Twisted(xs, ys, x);
      AddZero(x); MulZero(ys[k]);
      forall n | 0 <= n < k ensures PowerSum(us, ws[..k], n) == 0 {
        TwistedSum(xs, ys, x, n);
        assert PowerSum(xs, ys, n + 1) == 0 && PowerSum(xs, ys, n) == 0;
        MulZero(x); AddZero(0);
        PowerSumLast(xs, ws, n);
        MulZeroLeft(Pow(x, n));
        AddZero(PowerSum(us, ws[..k], n));
      }
      OnlyZeros(us, ws[..k]);
      forall l | 0 <= l < k ensures ys[l] == 0 {
        assert ws[..k][l] == 0;
        MulNonZero(ys[l], Add(xs[l], x));
        AddEq(xs[l], x);
      }
      LastZero(xs, ys);
    }
  }

  lemma LastZero(xs: seq<bv8>, ys: seq<bv8>)
    requires |xs| == |ys| > 0 && PowerSum(xs, ys, 0) == 0
    requires forall l | 0 <= l < |ys| - 1 :: ys[l] == 0
    ensures ys[|ys| - 1] == 0
  {
    hide Add, Mul, PowerSum;
    var k := |xs| - 1;
    PowerSumLast(xs, ys, 0);
    PowerSumVanishesFor(xs[..k], ys[..k], 0);
    MulOneRight(ys[k]);
    AddZero(ys[k]);
  }

  // ----- convolving a polynomial with the syndromes

  ghost function ConvTerm(c: seq<bv8>, xs: seq<bv8>, ys: seq<bv8>, n: int): int -> bv8 {
    i => Mul(Coef(c, i), if i <= n then PowerSum(xs, ys, n - i) else 0)
  }

  /** The values multiplied by Hor(c, k, locator). */
  ghost function Weighted(c: seq<bv8>, k: int, xs: seq<bv8>, ys: seq<bv8>): (r: seq<bv8>)
    requires |xs| == |ys|
    ensures |r| == |xs| && forall l | 0 <= l < |xs| :: r[l] == Mul(ys[l], Hor(c, k, xs[l]))
  {
    seq(|xs|, l requires 0 <= l < |xs| => Mul(ys[l], Hor(c, k, xs[l])))
  }

  /** c[0] s[n] + ... + c[k] s[n-k] is a power sum with reweighted values. */
  lemma {:induction false} Convolution(c: seq<bv8>, k: int, xs: seq<bv8>, ys: seq<bv8>, n: nat)
    requires |xs| == |ys| && -1 <= k <= n
    ensures Sum(ConvTerm(c, xs, ys, n), k + 1) == PowerSum(xs, Weighted(c, k, xs, ys), n - k)
    decreases k + 1
  {
    hide Add, Mul, Hor, Pow, PowerSum;
    if k == -1 {
      forall l | 0 <= l < |xs| ensures Weighted(c, k, xs, ys)[l] == 0 {
        HorStep(c, 0, xs[l]); MulZero(ys[l]);
      }
      PowerSumVanishesFor(xs, Weighted(c, k, xs, ys), n - k);
    } else {
      Convolution(c, k - 1, xs, ys, n);
      WeightedStep(c, k, xs, ys, n - k);
    }
  }

  lemma WeightedStepTerm(z: bv8, y: bv8, h: bv8, c: bv8, p: bv8)
    ensures Mul(Mul(y, Add(Mul(z, h), c)), p) == Add(Mul(Mul(y, h), Mul(z, p)), Mul(c, Mul(y, p)))
  {
    hide *;
    MulAddRight(y, Mul(z, h), c);
    MulAddLeft(Mul(y, Mul(z, h)), Mul(y, c), p);
    MulComm(y, c); MulAssoc(c, y, p);
    MulComm(z, h); MulAssoc(y, h, z); MulAssoc(Mul(y, h), z, p);
  }

  lemma WeightedAt(c: seq<bv8>, k: nat, xs: seq<bv8>, ys: seq<bv8>, m: nat, l: nat)
    requires l < |xs| == |ys|
    ensures PowerTerm(xs, Weighted(c, k, xs, ys), m)(l) ==
            Add(PowerTerm(xs, Weighted(c, k - 1, xs, ys), m + 1)(l), Mul(Coef(c, k), PowerTerm(xs, ys, m)(l)))
  {
    hide Add, Mul, Hor, PowerTerm;
    PowerTermAt(xs, Weighted(c, k, xs, ys), m, l);
    PowerTermAt(xs, Weighted(c, k - 1, xs, ys), m + 1, l);
    PowerTermAt(xs, ys, m, l);
    HorStep(c, k, xs[l]);
    PowStep(xs[l], m);
    WeightedStepTerm(xs[l], ys[l], Hor(c, k - 1, xs[l]), Coef(c, k), Pow(xs[l], m));
  }

  lemma WeightedStep(c: seq<bv8>, k: nat, xs: seq<bv8>, ys: seq<bv8>, m: nat)
    requires |xs| == |ys|
    ensures PowerSum(xs, Weighted(c, k, xs, ys), m) ==
            Add(PowerSum(xs, Weighted(c, k - 1, xs, ys), m + 1), Mul(Coef(c, k), PowerSum(xs, ys, m)))
  {
    hide Add, Mul, Hor, Sum, Weighted, PowerTerm;
    var now, before := Weighted(c, k, xs, ys), Weighted(c, k - 1, xs, ys);
    var scaled := l => Mul(Coef(c, k), PowerTerm(xs, ys, m)(l));
    forall l: int | 0 <= l < |xs|
      ensures PowerTerm(xs, now, m)(l) == Add(PowerTerm(xs, before, m + 1)(l), scaled(l))
    {
      WeightedAt(c, k, xs, ys, m, l);
    }
    SumAdd(PowerTerm(xs, before, m + 1), scaled, PowerTerm(xs, now, m), |xs|);
    SumScale(Coef(c, k), PowerTerm(xs, ys, m), scaled, |xs|);
  }

  /** The discrepancy of a polynomial of degree at most k against the syndromes. */
  lemma DiscIsPowerSum(c: seq<bv8>, k: nat, xs: seq<bv8>, ys: seq<bv8>, s: seq<bv8>, n: nat, size: nat)
    requires |c| == MAX_POLY && k < MAX_POLY && k <= n < size
    requires forall i | k < i < MAX_POLY :: c[i] == 0
    requires |xs| == |ys| && AreSyndromes(xs, ys, s, size)
    ensures Disc(c, s, n) == PowerSum(xs, Weighted(c, k, xs, ys), n - k)
  {
    hide Add, Mul, Hor, Sum, PowerSum;
    forall i: int | k + 1 <= i < MAX_POLY ensures RecTerm(c, s, n)(i) == 0 {
      MulZeroLeft(Coef(s, n - i));
    }
    SumTail(RecTerm(c, s, n), k + 1, MAX_POLY);
    SumEq(RecTerm(c, s, n), ConvTerm(c, xs, ys, n), k + 1);
    Convolution(c, k, xs, ys, n);
  }

  // ----- the locator polynomial

  /** The product of (1 + xs[l] z), with room for MAX_POLY coefficients. */
  ghost function Locator(xs: seq<bv8>): (r: seq<bv8>)
    ensures |r| == MAX_POLY
  {
    if xs == [] then seq(MAX_POLY, i => if i == 0 then 1 else 0)
    else PolyAdded(Locator(xs[..|xs| - 1]), Locator(xs[..|xs| - 1]), xs[|xs| - 1], 1)
  }

  lemma {:induction false} LocatorShape(xs: seq<bv8>)
    ensures Locator(xs)[0] == 1
    ensures forall i | |xs| < i < MAX_POLY :: Locator(xs)[i] == 0
  {
    hide Add, Mul;
    if xs != [] {
      var k := |xs| - 1;
      LocatorShape(xs[..k]);
      MulZero(xs[k]);
      AddZero(0); AddZero(1);
    }
  }

  lemma {:induction false} HorLocatorStep(p: seq<bv8>, r: seq<bv8>, x: bv8, z: bv8, k: nat)
    requires |p| == MAX_POLY && k < MAX_POLY && r == PolyAdded(p, p, x, 1)
    ensures Hor(r, k, z) == Add(Hor(p, k, z), Mul(x, Hor(p, k - 1, z)))
  {
    hide Add, Mul, PolyAdded;
    if k == 0 {
      MulZero(x); MulZero(z); AddZero(p[0]);
    } else {
      HorLocatorStep(p, r, x, z, k - 1);
      var a, b := Hor(p, k - 1, z), Hor(p, k - 2, z);
      MulAddRight(z, a, Mul(x, b));
      MulAssoc(z, x, b); MulComm(z, x); MulAssoc(x, z, b);
      MulAddRight(x, Mul(z, b), p[k - 1]);
      AddSwap(Mul(z, a), Mul(x, Mul(z, b)), p[k], Mul(x, p[k - 1]));
      assert r[k] == Add(p[k], Mul(x, p[k - 1]));
    }
  }

  /** The locator, reversed, has the locators as roots. */
  lemma {:induction false} LocatorRoots(xs: seq<bv8>, l: nat)
    requires l < |xs| < MAX_POLY
    ensures Hor(Locator(xs), |xs|, xs[l]) == 0
    decreases |xs|
  {
    hide Add, Mul, Hor;
    var k := |xs| - 1;
    var p, x, z := Locator(xs[..k]), xs[k], xs[l];
    LocatorShape(xs[..k]);
    HorLocatorStep(p, Locator(xs), x, z, k + 1);
    HorStep(p, k + 1, z);
    AddZero(Mul(z, Hor(p, k, z)));
    if l == k {
      AddZero(Mul(x, Hor(p, k, x)));
    } else {
      LocatorRoots(xs[..k], l);
      MulZero(z); MulZero(x); AddZero(0);
    }
  }

  /** The locator is a recurrence for the syndromes, of length the number of errors. */
  lemma LocatorFits(xs: seq<bv8>, ys: seq<bv8>, s: seq<bv8>, n: nat)
    requires |xs| == |ys| < MAX_POLY && AreSyndromes(xs, ys, s, n)
    ensures IsRecurrence(Locator(xs), |xs|, s, n)
  {
    hide Add, Mul, Hor, Disc, PowerSum, Locator;
    var c, k := Locator(xs), |xs|;
    LocatorShape(xs);
    forall j | k <= j < n ensures Disc(c, s, j) == 0 {
      DiscIsPowerSum(c, k, xs, ys, s, j, n);
      forall l | 0 <= l < k ensures Weighted(c, k, xs, ys)[l] == 0 {
        LocatorRoots(xs, l);
        MulZero(ys[l]);
      }
      PowerSumVanishesFor(xs, Weighted(c, k, xs, ys), j - k);
    }
  }

  // ----- a shortest recurrence has exactly the locators as roots

  /** Setting of the remaining lemmas: c is a shortest recurrence, of length len, for n syndromes
      of at most n / 2 errors. */
  ghost predicate Solves(c: seq<bv8>, len: nat, s: seq<bv8>, n: nat, xs: seq<bv8>, ys: seq<bv8>) {
    && IsErrorList(xs, ys) && AreSyndromes(xs, ys, s, n) && 2 * |xs| <= n < MAX_POLY
    && IsRecurrence(c, len, s, n) && IsShortest(len, s, n)
  }

  lemma NoLongerThanLocator(c: seq<bv8>, len: nat, s: seq<bv8>, n: nat, xs: seq<bv8>, ys: seq<bv8>)
    requires Solves(c, len, s, n, xs, ys)
    ensures len <= |xs|
  {
    hide Disc, PowerSum, Locator, IsRecurrence;
    LocatorFits(xs, ys, s, n);
  }

  lemma LocatorsAreRoots(c: seq<bv8>, len: nat, s: seq<bv8>, n: nat, xs: seq<bv8>, ys: seq<bv8>)
    requires Solves(c, len, s, n, xs, ys)
    ensures forall l | 0 <= l < |xs| :: Hor(c, len, xs[l]) == 0
  {
    hide Add, Mul, Hor, Disc, PowerSum, Weighted;
    NoLongerThanLocator(c, len, s, n, xs, ys);
    var ws := Weighted(c, len, xs, ys);
    forall m | 0 <= m < |xs| ensures PowerSum(xs, ws, m) == 0 {
      DiscIsPowerSum(c, len, xs, ys, s, m + len, n);
      assert Disc(c, s, m + len) == 0;
    }
    OnlyZeros(xs, ws);
    forall l | 0 <= l < |xs| ensures Hor(c, len, xs[l]) == 0 {
      assert ws[l] == 0;
      MulNonZero(ys[l], Hor(c, len, xs[l]));
    }
  }

  /** The roots are exactly the locators, and the length is exactly the number of errors. */
  lemma RootsAreLocators(c: seq<bv8>, len: nat, s: seq<bv8>, n: nat, xs: seq<bv8>, ys: seq<bv8>, x: bv8)
    requires Solves(c, len, s, n, xs, ys)
    ensures len == |xs|
    ensures Hor(c, len, x) == 0 <==> x in xs
  {
    hide Hor, Disc, PowerSum;
    LocatorsAreRoots(c, len, s, n, xs, ys);
    NoLongerThanLocator(c, len, s, n, xs, ys);
    RootBound(c, len, xs);
    if Hor(c, len, x) == 0 && x !in xs {
      RootBound(c, len, xs + [x]);
      assert false;
    }
  }

  // ----- magnitudes

  /** omega[k] is c[0] s[k+1] + ... + c[k] s[1], for k < n - 1. */
  ghost predicate IsEvaluator(omega: seq<bv8>, c: seq<bv8>, s: seq<bv8>, n: nat) {
    && |omega| == MAX_POLY
    && (forall k: nat | k < MAX_POLY && k + 1 < n :: omega[k] == Sum(RecTerm(c, s, k + 1), k + 1))
    && (forall k: nat | k < MAX_POLY && n <= k + 1 :: omega[k] == 0)
  }

  /** The evaluator's coefficients are power sums with weights Hor(c, k, .) times the locator. */
  lemma EvaluatorCoefficient(omega: seq<bv8>, c: seq<bv8>, s: seq<bv8>, n: nat, xs: seq<bv8>, ys: seq<bv8>, k: nat)
    requires IsEvaluator(omega, c, s, n) && |xs| == |ys| && AreSyndromes(xs, ys, s, n)
    requires k + 1 < n < MAX_POLY
    ensures omega[k] == PowerSum(xs, Weighted(c, k, xs, ys), 1)
  {
    hide Add, Mul, Hor, Sum, PowerSum;
    SumEq(RecTerm(c, s, k + 1), ConvTerm(c, xs, ys, k + 1), k + 1);
    Convolution(c, k, xs, ys, k + 1);
  }

  /** Summing the coefficients at z: the power sum of the quotients at z. */
  ghost function Quotients(c: seq<bv8>, k: int, xs: seq<bv8>, ys: seq<bv8>, z: bv8): (r: seq<bv8>)
    requires |xs| == |ys| && k >= -1
    ensures |r| == |xs|
    ensures forall l | 0 <= l < |xs| :: r[l] == Mul(ys[l], Hor(Quotient(c, k + 1, xs[l]), k, z))
  {
    seq(|xs|, l requires 0 <= l < |xs| => Mul(ys[l], Hor(Quotient(c, k + 1, xs[l]), k, z)))
  }

  lemma {:induction false} HorPrefix(q: seq<bv8>, r: seq<bv8>, k: int, z: bv8)
    requires k < |q| && k < |r| && forall i | 0 <= i <= k :: q[i] == r[i]
    ensures Hor(q, k, z) == Hor(r, k, z)
    decreases k
  {
    hide Add, Mul;
    if k >= 0 {
      HorPrefix(q, r, k - 1, z);
    }
  }

  lemma QuotientTerm(y: bv8, z: bv8, h: bv8, w: bv8, p: bv8)
    ensures Mul(Mul(y, Add(Mul(z, h), w)), p) == Add(Mul(z, Mul(Mul(y, h), p)), Mul(Mul(y, w), p))
  {
    hide *;
    MulAddRight(y, Mul(z, h), w);
    MulAddLeft(Mul(y, Mul(z, h)), Mul(y, w), p);
    MulAssoc(y, z, h); MulComm(y, z); MulAssoc(z, y, h); MulAssoc(z, Mul(y, h), p);
  }

  lemma QuotientsAt(c: seq<bv8>, k: nat, xs: seq<bv8>, ys: seq<bv8>, z: bv8, l: nat)
    requires l < |xs| == |ys|
    ensures PowerTerm(xs, Quotients(c, k, xs, ys, z), 1)(l) ==
            Add(Mul(z, PowerTerm(xs, Quotients(c, k - 1, xs, ys, z), 1)(l)),
                PowerTerm(xs, Weighted(c, k, xs, ys), 1)(l))
  {
    hide Add, Mul, Hor, PowerTerm, Pow;
    PowerTermAt(xs, Quotients(c, k, xs, ys, z), 1, l);
    PowerTermAt(xs, Quotients(c, k - 1, xs, ys, z), 1, l);
    PowerTermAt(xs, Weighted(c, k, xs, ys), 1, l);
    var q, r := Quotient(c, k + 1, xs[l]), Quotient(c, k, xs[l]);
    assert Coef(q, k) == q[k] == Hor(c, k, xs[l]);
    HorStep(q, k, z);
    HorPrefix(q, r, k - 1, z);
    QuotientTerm(ys[l], z, Hor(r, k - 1, z), Hor(c, k, xs[l]), Pow(xs[l], 1));
  }

  lemma QuotientsStep(c: seq<bv8>, k: nat, xs: seq<bv8>, ys: seq<bv8>, z: bv8)
    requires |xs| == |ys|
    ensures PowerSum(xs, Quotients(c, k, xs, ys, z), 1) ==
            Add(Mul(z, PowerSum(xs, Quotients(c, k - 1, xs, ys, z), 1)), PowerSum(xs, Weighted(c, k, xs, ys), 1))
  {
    hide Add, Mul, Hor, Sum, Weighted, Quotients, Pow, PowerTerm;
    var now, before, w := Quotients(c, k, xs, ys, z), Quotients(c, k - 1, xs, ys, z), Weighted(c, k, xs, ys);
    var scaled := l => Mul(z, PowerTerm(xs, before, 1)(l));
    forall l: int | 0 <= l < |xs|
      ensures PowerTerm(xs, now, 1)(l) == Add(scaled(l), PowerTerm(xs, w, 1)(l))
    {
      QuotientsAt(c, k, xs, ys, z, l);
    }
    SumAdd(scaled, PowerTerm(xs, w, 1), PowerTerm(xs, now, 1), |xs|);
    SumScale(z, PowerTerm(xs, before, 1), scaled, |xs|);
  }

  lemma {:induction false} HorEvaluator(omega: seq<bv8>, c: seq<bv8>, s: seq<bv8>, n: nat, xs: seq<bv8>, ys: seq<bv8>,
      k: int, z: bv8)
    requires IsEvaluator(omega, c, s, n) && |xs| == |ys| && AreSyndromes(xs, ys, s, n)
    requires -1 <= k && k + 1 < n < MAX_POLY
    ensures Hor(omega, k, z) == PowerSum(xs, Quotients(c, k, xs, ys, z), 1)
    decreases k + 1
  {
    hide Add, Mul, Hor, PowerSum, IsEvaluator, AreSyndromes;
    if k == -1 {
      HorStep(omega, 0, z);
      forall l | 0 <= l < |xs| ensures Quotients(c, k, xs, ys, z)[l] == 0 {
        HorStep(Quotient(c, 0, xs[l]), 0, z); MulZero(ys[l]);
      }
      PowerSumVanishesFor(xs, Quotients(c, k, xs, ys, z), 1);
    } else {
      HorEvaluator(omega, c, s, n, xs, ys, k - 1, z);
      EvaluatorCoefficient(omega, c, s, n, xs, ys, k);
      HorStep(omega, k, z);
      assert Coef(omega, k) == omega[k] by { assert IsEvaluator(omega, c, s, n); EvaluatorLength(omega, c, s, n); }
      QuotientsStep(c, k, xs, ys, z);
    }
  }

  lemma EvaluatorLength(omega: seq<bv8>, c: seq<bv8>, s: seq<bv8>, n: nat)
    requires IsEvaluator(omega, c, s, n)
    ensures |omega| == MAX_POLY
  {}

  /** At a locator only that error's own quotient survives. */
  lemma EvaluatorAtLocator(omega: seq<bv8>, c: seq<bv8>, s: seq<bv8>, n: nat, xs: seq<bv8>, ys: seq<bv8>, l: nat)
    requires Solves(c, |xs|, s, n, xs, ys) && IsEvaluator(omega, c, s, n) && l < |xs|
    ensures var q := Quotient(c, |xs|, xs[l]);
            Hor(omega, |xs| - 1, xs[l]) == Mul(ys[l], Mul(xs[l], Hor(q, |xs| - 1, xs[l])))
  {
    hide Add, Mul, Hor, Disc, Sum, IsEvaluator;
    var k, z := |xs| - 1, xs[l];
    LocatorsAreRoots(c, |xs|, s, n, xs, ys);
    HorEvaluator(omega, c, s, n, xs, ys, k, z);
    var ws := Quotients(c, k, xs, ys, z);
    forall i: int | 0 <= i < |xs| && i != l ensures PowerTerm(xs, ws, 1)(i) == 0 {
      RootOfQuotient(c, Quotient(c, |xs|, xs[i]), |xs|, xs[i], z);
      MulZero(ys[i]); MulZeroLeft(Pow(xs[i], 1));
    }
    SumSingle(PowerTerm(xs, ws, 1), |xs|, l);
    PowStep(z, 0); MulOneRight(z);
    var h := Hor(Quotient(c, |xs|, z), k, z);
    MulAssoc(ys[l], h, z); MulComm(h, z);
  }

  /** The locators are simple roots. */
  lemma SimpleRoot(c: seq<bv8>, s: seq<bv8>, n: nat, xs: seq<bv8>, ys: seq<bv8>, l: nat)
    requires Solves(c, |xs|, s, n, xs, ys) && l < |xs|
    ensures Hor(Quotient(c, |xs|, xs[l]), |xs| - 1, xs[l]) != 0
  {
    hide Add, Mul, Hor, Disc, PowerSum;
    var k, z := |xs| - 1, xs[l];
    var q := Quotient(c, |xs|, z);
    LocatorsAreRoots(c, |xs|, s, n, xs, ys);
    if Hor(q, k, z) == 0 {
      HorStep(c, 0, z); MulZero(z); AddZero(1);
      forall i | 0 <= i < |xs| ensures Hor(q, k, xs[i]) == 0 {
        if i != l {
          RootOfQuotient(c, q, |xs|, z, xs[i]);
        }
      }
      RootBound(q, k, xs);
      assert false;
    }
  }

  /** Forney's formula: evaluator over derivative is the error value, and neither vanishes. */
  lemma Magnitude(omega: seq<bv8>, deriv: seq<bv8>, c: seq<bv8>, s: seq<bv8>, n: nat, xs: seq<bv8>, ys: seq<bv8>,
      l: nat)
    requires Solves(c, |xs|, s, n, xs, ys) && IsEvaluator(omega, c, s, n) && l < |xs|
    requires deriv == Derivative(c, MAX_POLY)
    ensures Hor(deriv, |xs| - 1, xs[l]) != 0
    ensures Hor(omega, |xs| - 1, xs[l]) == Mul(ys[l], Hor(deriv, |xs| - 1, xs[l])) != 0
  {
    hide Add, Mul, Hor, Disc, PowerSum, IsEvaluator;
    var k, z := |xs|, xs[l];
    var q := Quotient(c, k, z);
    EvaluatorAtLocator(omega, c, s, n, xs, ys, l);
    SimpleRoot(c, s, n, xs, ys, l);
    LocatorsAreRoots(c, |xs|, s, n, xs, ys);
    DerivativeAtRoot(c, deriv, q, k, z);
    AddZero(Hor(deriv, k - 1, z));
    MulNonZero(z, Hor(q, k - 1, z));
    MulNonZero(ys[l], Hor(deriv, k - 1, z));
  }

  // ----- from Horner's scheme to evaluation at the inverse

  lemma EvalTail(p: seq<bv8>, y: bv8, k: nat)
    requires |p| == MAX_POLY && k < MAX_POLY && forall i | k < i < MAX_POLY :: p[i] == 0
    ensures Eval(p, y, MAX_POLY) == Eval(p, y, k + 1)
  {
    hide Add, Mul, Pow;
    forall i: int | k + 1 <= i < MAX_POLY ensures EvalTerm(p, y)(i) == 0 {
      MulZeroLeft(Pow(y, i));
    }
    SumTail(EvalTerm(p, y), k + 1, MAX_POLY);
  }

  lemma EvalIsHor(p: seq<bv8>, x: bv8, y: bv8, k: nat)
    requires |p| == MAX_POLY && k < MAX_POLY && forall i | k < i < MAX_POLY :: p[i] == 0
    requires x != 0 && Mul(x, y) == 1
    ensures Mul(Pow(x, k), Eval(p, y, MAX_POLY)) == Hor(p, k, x)
    ensures Pow(x, k) != 0
    ensures Eval(p, y, MAX_POLY) == 0 <==> Hor(p, k, x) == 0
  {
    hide *;
    EvalTail(p, y, k);
    EvalInverse(p, k, x, y);
    PowNonZero(x, k);
    MulNonZero(Pow(x, k), Eval(p, y, k + 1));
  }

  /** What the decoder computes at the inverse y of a nonzero x, in terms of the errors: sigma
      vanishes exactly at the locators, and there omega is the error value times the derivative. */
  lemma ErrorFound(sigma: seq<bv8>, deriv: seq<bv8>, omega: seq<bv8>, len: nat, s: seq<bv8>, n: nat,
                   xs: seq<bv8>, ys: seq<bv8>, x: bv8, y: bv8)
    requires Solves(sigma, len, s, n, xs, ys) && IsEvaluator(omega, sigma, s, n)
    requires deriv == Derivative(sigma, MAX_POLY)
    requires x != 0 && Mul(x, y) == 1
    ensures Eval(sigma, y, MAX_POLY) == 0 <==> x in xs
    ensures forall l | 0 <= l < |xs| && xs[l] == x ::
              && Eval(deriv, y, MAX_POLY) != 0
              && Eval(omega, y, MAX_POLY) == Mul(ys[l], Eval(deriv, y, MAX_POLY)) != 0
  {
    hide Add, Mul, Hor, Disc, PowerSum, Eval, IsEvaluator;
    RootsAreLocators(sigma, len, s, n, xs, ys, x);
    EvalIsHor(sigma, x, y, len);
    forall l | 0 <= l < |xs| && xs[l] == x
      ensures Eval(deriv, y, MAX_POLY) != 0
      ensures Eval(omega, y, MAX_POLY) == Mul(ys[l], Eval(deriv, y, MAX_POLY)) != 0
    {
      var k := |xs| - 1;
      EvaluatorDegree(omega, sigma, s, n, xs, ys);
      DerivativeDegree(sigma, deriv, |xs|);
      EvalIsHor(deriv, x, y, k);
      EvalIsHor(omega, x, y, k);
      Magnitude(omega, deriv, sigma, s, n, xs, ys, l);
      var p, d, w := Pow(x, k), Eval(deriv, y, MAX_POLY), Eval(omega, y, MAX_POLY);
      assert Mul(p, w) == Mul(ys[l], Mul(p, d));
      MulAssoc(ys[l], p, d); MulComm(ys[l], p); MulAssoc(p, ys[l], d);
      MulComm(p, w); MulComm(p, Mul(ys[l], d));
      MulCancel(w, Mul(ys[l], d), p);
      MulNonZero(ys[l], d);
    }
  }

  lemma DerivativeDegree(c: seq<bv8>, deriv: seq<bv8>, d: nat)
    requires |c| == MAX_POLY && deriv == Derivative(c, MAX_POLY)
    requires forall i | d < i < MAX_POLY :: c[i] == 0
    ensures forall i | d <= i < MAX_POLY :: deriv[i] == 0
  {
    forall i | d <= i < MAX_POLY ensures deriv[i] == 0 {
      assert Coef(c, i + 1) == 0;
    }
  }

  lemma EvaluatorDegree(omega: seq<bv8>, c: seq<bv8>, s: seq<bv8>, n: nat, xs: seq<bv8>, ys: seq<bv8>)
    requires Solves(c, |xs|, s, n, xs, ys) && IsEvaluator(omega, c, s, n)
    ensures |omega| == MAX_POLY && forall k | |xs| <= k < MAX_POLY :: omega[k] == 0
  {
    hide Add, Mul, Hor, Disc, Sum, PowerSum;
    forall k: nat | |xs| <= k < MAX_POLY ensures omega[k] == 0 {
      if k + 1 < n {
        EvaluatorCoefficient(omega, c, s, n, xs, ys, k);
        forall l | 0 <= l < |xs| ensures Weighted(c, k, xs, ys)[l] == 0 {
          LocatorsAreRoots(c, |xs|, s, n, xs, ys);
          HorBeyond(c, |xs|, k, xs[l]);
          MulZero(ys[l]);
        }
        PowerSumVanishesFor(xs, Weighted(c, k, xs, ys), 1);
      }
    }
  }

  lemma {:induction false} HorBeyond(c: seq<bv8>, d: nat, k: nat, x: bv8)
    requires |c| == MAX_POLY && d <= k && forall i | d < i < MAX_POLY :: c[i] == 0
    requires Hor(c, d, x) == 0
    ensures Hor(c, k, x) == 0
  {
    hide Add, Mul;
    if d < k {
      HorBeyond(c, d, k - 1, x);
      MulZero(x); AddZero(0);
    }
  }
}
