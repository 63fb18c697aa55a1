/** Polynomials in Horner form: Hor(c, k, z) is c[0] z^k + c[1] z^(k-1) + ... + c[k]. It is the
    reversed polynomial c at z, and its values for k = 0, 1, ... are the coefficients of the
    quotient of synthetic division by z. */
module Horner {
  import opened Gf256
  import opened GfTables
  import opened Sums

  ghost function Hor(c: seq<bv8>, k: int, z: bv8): bv8
    decreases k
  {
    if k < 0 then 0 else Add(Mul(z, Hor(c, k - 1, z)), Coef(c, k))
  }

  /** The quotient of c by the root candidate x: its coefficient k is Hor(c, k, x). */
  ghost function Quotient(c: seq<bv8>, n: nat, x: bv8): (q: seq<bv8>)
    ensures |q| == n && forall k | 0 <= k < n :: q[k] == Hor(c, k, x)
  {
    seq(n, k requires 0 <= k => Hor(c, k, x))
  }

  lemma HorStep(c: seq<bv8>, k: nat, z: bv8)
    ensures Hor(c, k, z) == Add(Mul(z, Hor(c, k - 1, z)), Coef(c, k))
    ensures Hor(c, -1, z) == 0
  {
    hide Add, Mul;
  }

  /** Synthetic division: the polynomial is (z + x) times the quotient plus its value at x. */
  lemma {:induction false} SyntheticDivision(c: seq<bv8>, q: seq<bv8>, k: nat, x: bv8, z: bv8)
    requires k <= |q|
    requires forall j | 0 <= j < k :: q[j] == Hor(c, j, x)
    ensures Hor(c, k, z) == Add(Mul(Add(z, x), Hor(q, k - 1, z)), Hor(c, k, x))
  {
    hide Add, Mul;
    if k == 0 {
      MulZero(z); MulZero(x); MulZero(Add(z, x));
      AddZero(Coef(c, 0));
    } else {
      SyntheticDivision(c, q, k - 1, x, z);
      var w, h := Add(z, x), Hor(q, k - 2, z);
      var p := Hor(c, k - 1, x);
      assert Coef(q, k - 1) == p;
      // z(w h + p) + c  ==  w(z h + p) + (x p + c)
      DivisionStep(z, x, w, h, p, Coef(c, k));
    }
  }

  lemma DivisionStep(z: bv8, x: bv8, w: bv8, h: bv8, p: bv8, c: bv8)
    requires w == Add(z, x)
    ensures Add(Mul(z, Add(Mul(w, h), p)), c) == Add(Mul(w, Add(Mul(z, h), p)), Add(Mul(x, p), c))
  {
    hide Add, Mul;
    var t := Mul(z, Mul(w, h));
    assert t == Mul(w, Mul(z, h)) by {
      MulAssoc(z, w, h); MulComm(z, w); MulAssoc(w, z, h);
    }
    MulAddRight(z, Mul(w, h), p);
    MulAddRight(w, Mul(z, h), p);
    MulAddLeft(z, x, p);
    Regroup(t, Mul(z, p), Mul(x, p), c);
  }

  lemma Regroup(t: bv8, a: bv8, b: bv8, c: bv8)
    ensures Add(Add(t, a), c) == Add(Add(t, Add(a, b)), Add(b, c))
  {
    hide *;
    AddAssoc(t, a, c); AddAssoc(t, Add(a, b), Add(b, c)); AddAssoc(a, b, Add(b, c));
    AddAssoc(b, b, c); AddZero(b); AddZero(c);
  }

  /** A polynomial with leading coefficient 1 has at most as many roots as its degree. */
  lemma {:induction false} RootBound(c: seq<bv8>, d: nat, xs: seq<bv8>)
    requires Coef(c, 0) == 1
    requires forall i | 0 <= i < |xs| :: Hor(c, d, xs[i]) == 0
    requires forall i, j | 0 <= i < j < |xs| :: xs[i] != xs[j]
    ensures |xs| <= d
    decreases d
  {
    hide Add, Mul;
    if d == 0 {
      if |xs| > 0 {
        HorStep(c, 0, xs[0]);
        MulZero(xs[0]);
        AddZero(1);
      }
    } else if |xs| > 0 {
      var x := xs[0];
      var q := Quotient(c, d, x);
      HorStep(c, 0, x); MulZero(x); AddZero(1);
      forall i | 0 <= i < |xs[1..]| ensures Hor(q, d - 1, xs[1..][i]) == 0 {
        RootOfQuotient(c, q, d, x, xs[i + 1]);
      }
      RootBound(q, d - 1, xs[1..]);
    }
  }

  /** A second root of c is a root of the quotient by the first. */
  lemma RootOfQuotient(c: seq<bv8>, q: seq<bv8>, d: nat, x: bv8, z: bv8)
    requires 0 < d <= |q|
    requires forall j | 0 <= j < d :: q[j] == Hor(c, j, x)
    requires Hor(c, d, x) == 0 && Hor(c, d, z) == 0 && x != z
    ensures Hor(q, d - 1, z) == 0
  {
    hide Add, Mul, Hor;
    SyntheticDivision(c, q, d, x, z);
    AddZero(Mul(Add(z, x), Hor(q, d - 1, z)));
    AddEq(z, x);
    MulNonZero(Add(z, x), Hor(q, d - 1, z));
  }

  // ----- the formal derivative

  /** The derivative as the decoder forms it: the odd coefficients, one place down. */
  function Derivative(c: seq<bv8>, n: nat): (d: seq<bv8>)
    ensures |d| == n && forall i | 0 <= i < n :: d[i] == if i % 2 == 0 then Coef(c, i + 1) else 0
  {
    seq(n, i requires 0 <= i => if i % 2 == 0 then Coef(c, i + 1) else 0)
  }

  /** At a root, the derivative is the root times the quotient (characteristic 2). */
  lemma {:induction false} DerivativeAtRoot(c: seq<bv8>, d: seq<bv8>, q: seq<bv8>, k: nat, x: bv8)
    requires k <= |q| && k <= |d|
    requires forall j | 0 <= j < k :: q[j] == Hor(c, j, x)
    requires forall i | 0 <= i < k :: d[i] == if i % 2 == 0 then Coef(c, i + 1) else 0
    ensures Mul(x, Hor(q, k - 1, x)) == Add(Hor(d, k - 1, x), if k % 2 == 1 then Hor(c, k, x) else 0)
  {
    hide Add, Mul, Hor;
    HorStep(c, k, x);
    if k == 0 {
      HorStep(q, 0, x); HorStep(d, 0, x);
      MulZero(x); AddZero(0);
    } else {
      HorStep(q, k - 1, x); HorStep(d, k - 1, x);
      DerivativeAtRoot(c, d, q, k - 1, x);
      var a, b, p := Mul(x, Hor(q, k - 2, x)), Hor(d, k - 2, x), Hor(c, k - 1, x);
      assert Coef(q, k - 1) == p && Coef(d, k - 1) == if k % 2 == 1 then Coef(c, k) else 0;
      assert Mul(x, Hor(q, k - 1, x)) == Mul(x, Add(a, p));
      assert Hor(d, k - 1, x) == Add(Mul(x, b), Coef(d, k - 1));
      assert Hor(c, k, x) == Add(Mul(x, p), Coef(c, k));
      DerivativeStep(x, a, b, p, Coef(c, k), k % 2 == 1);
    }
  }

  lemma DerivativeStep(x: bv8, a: bv8, b: bv8, p: bv8, c: bv8, odd: bool)
    requires a == Add(b, if odd then 0 else p)
    ensures Mul(x, Add(a, p)) ==
            Add(Add(Mul(x, b), if odd then c else 0), if odd then Add(Mul(x, p), c) else 0)
  {
    hide Add, Mul;
    AddZero(b);
    AddZero(Mul(x, b));
    if odd {
      MulAddRight(x, b, p);
      Regroup2(Mul(x, b), c, Mul(x, p));
    } else {
      AddAssoc(b, p, p);
      AddZero(p);
    }
  }

  lemma Regroup2(b: bv8, c: bv8, p: bv8)
    ensures Add(b, p) == Add(Add(b, c), Add(p, c))
  {
    hide *;
    AddSwap(b, c, p, c); AddZero(c); AddZero(Add(b, p));
  }

  // ----- evaluation at an inverse

  ghost function EvalTerm(p: seq<bv8>, y: bv8): int -> bv8 {
    i => if i < 0 then 0 else Mul(Coef(p, i), Pow(y, i))
  }

  /** The value of p at y: the sum of p[i] y^i for i < n. */
  ghost function Eval(p: seq<bv8>, y: bv8, n: nat): bv8 {
    Sum(EvalTerm(p, y), n)
  }

  lemma EvalStep(p: seq<bv8>, y: bv8, k: nat)
    ensures Eval(p, y, 0) == 0 && Eval(p, y, k + 1) == Add(Eval(p, y, k), Mul(Coef(p, k), Pow(y, k)))
  {
    hide Add, Mul, Coef, Pow;
  }

  lemma TermInverse(c: bv8, k: nat, x: bv8, y: bv8)
    requires Mul(x, y) == 1
    ensures Mul(Pow(x, k), Mul(c, Pow(y, k))) == c
  {
    hide *;
    MulComm(c, Pow(y, k));
    MulAssoc(Pow(x, k), Pow(y, k), c);
    PowMul(x, y, k);
    PowOne(k);
    MulOneLeft(c);
  }

  /** Evaluating at the inverse of x is Horner's scheme at x, up to a power of x. */
  lemma {:induction false} EvalInverse(p: seq<bv8>, k: nat, x: bv8, y: bv8)
    requires Mul(x, y) == 1
    ensures Mul(Pow(x, k), Eval(p, y, k + 1)) == Hor(p, k, x)
  {
    hide Add, Mul, Coef, Eval, Hor;
    var term := Mul(Coef(p, k), Pow(y, k));
    EvalStep(p, y, k);
    TermInverse(Coef(p, k), k, x, y);
    MulAddRight(Pow(x, k), Eval(p, y, k), term);
    HorStep(p, k, x);
    if k == 0 {
      MulZero(Pow(x, 0)); MulZero(x);
    } else {
      EvalInverse(p, k - 1, x, y);
      MulAssoc(x, Pow(x, k - 1), Eval(p, y, k));
    }
  }
}
