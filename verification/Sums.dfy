/** Finite sums, powers and polynomials over GF(256). A polynomial is the sequence of its
    coefficients, lowest power first; coefficients outside the sequence count as 0. */
module Sums {
  import opened Gf256
  import opened GfTables

  function Coef(p: seq<bv8>, i: int): bv8 {
    if 0 <= i < |p| then p[i] else 0
  }

  ghost function Sum(f: int -> bv8, n: nat): bv8 {
    if n == 0 then 0 else Add(Sum(f, n - 1), f(n - 1))
  }

  ghost function Pow(x: bv8, n: nat): bv8 {
    if n == 0 then 1 else Mul(x, Pow(x, n - 1))
  }

  // ----- sums

  lemma {:induction false} SumEq(f: int -> bv8, g: int -> bv8, n: nat)
    requires forall i | 0 <= i < n :: f(i) == g(i)
    ensures Sum(f, n) == Sum(g, n)
  {
    hide Add;
    if n > 0 {
      SumEq(f, g, n - 1);
    }
  }

  lemma {:induction false} SumZero(f: int -> bv8, n: nat)
    requires forall i | 0 <= i < n :: f(i) == 0
    ensures Sum(f, n) == 0
  {
    hide Add;
    if n > 0 {
      SumZero(f, n - 1);
      AddZero(0);
    }
  }

  /** A sum with at most one nonzero term is that term. */
  lemma {:induction false} SumSingle(f: int -> bv8, n: nat, k: nat)
    requires k < n
    requires forall i | 0 <= i < n && i != k :: f(i) == 0
    ensures Sum(f, n) == f(k)
  {
    hide Add;
    if k == n - 1 {
      SumZero(f, n - 1);
      AddZero(f(k));
    } else {
      SumSingle(f, n - 1, k);
      AddZero(f(k));
    }
  }

  /** Terms that are 0 can be dropped at the end. */
  lemma {:induction false} SumTail(f: int -> bv8, m: nat, n: nat)
    requires m <= n
    requires forall i | m <= i < n :: f(i) == 0
    ensures Sum(f, n) == Sum(f, m)
  {
    hide Add;
    if m < n {
      SumTail(f, m, n - 1);
      AddZero(Sum(f, m));
    }
  }

  lemma {:induction false} SumAdd(f: int -> bv8, g: int -> bv8, h: int -> bv8, n: nat)
    requires forall i | 0 <= i < n :: h(i) == Add(f(i), g(i))
    ensures Sum(h, n) == Add(Sum(f, n), Sum(g, n))
  {
    hide Add;
    if n == 0 {
      AddZero(0);
    } else {
      SumAdd(f, g, h, n - 1);
      AddSwap(Sum(f, n - 1), Sum(g, n - 1), f(n - 1), g(n - 1));
    }
  }

  lemma {:induction false} SumScale(c: bv8, f: int -> bv8, h: int -> bv8, n: nat)
    requires forall i | 0 <= i < n :: h(i) == Mul(c, f(i))
    ensures Sum(h, n) == Mul(c, Sum(f, n))
  {
    hide Add, Mul;
    if n == 0 {
      MulZero(c);
    } else {
      SumScale(c, f, h, n - 1);
      MulAddRight(c, Sum(f, n - 1), f(n - 1));
    }
  }

  ghost function Row(f: (int, int) -> bv8, n: nat): int -> bv8 {
    i => Sum(k => f(i, k), n)
  }

  ghost function Column(f: (int, int) -> bv8, m: nat): int -> bv8 {
    k => Sum(i => f(i, k), m)
  }

  /** The order of summation does not matter. */
  lemma {:induction false} SumSwap(f: (int, int) -> bv8, m: nat, n: nat)
    ensures Sum(Row(f, n), m) == Sum(Column(f, m), n)
  {
    hide Add;
    if m == 0 {
      SumZero(Column(f, m), n);
    } else {
      SumSwap(f, m - 1, n);
      var last := k => f(m - 1, k);
      assert Row(f, n)(m - 1) == Sum(last, n);
      SumAdd(Column(f, m - 1), last, Column(f, m), n);
    }
  }

  /** Moving the summation index by m. */
  lemma {:induction false} SumShift(f: int -> bv8, g: int -> bv8, m: nat, n: nat)
    requires forall i | 0 <= i < m :: g(i) == 0
    requires forall i | 0 <= i < n :: g(m + i) == f(i)
    ensures Sum(g, m + n) == Sum(f, n)
  {
    hide Add;
    if n == 0 {
      SumZero(g, m);
    } else {
      SumShift(f, g, m, n - 1);
      assert g(m + (n - 1)) == f(n - 1);
    }
  }

  // ----- powers

  lemma PowStep(x: bv8, n: nat)
    ensures Pow(x, n + 1) == Mul(x, Pow(x, n)) && Pow(x, 0) == 1
  {
    hide Mul;
  }

  lemma {:induction false} PowAdd(x: bv8, m: nat, n: nat)
    ensures Pow(x, m + n) == Mul(Pow(x, m), Pow(x, n))
  {
    hide Mul;
    if m == 0 {
      MulOneLeft(Pow(x, n));
    } else {
      PowAdd(x, m - 1, n);
      MulAssoc(x, Pow(x, m - 1), Pow(x, n));
    }
  }

  lemma {:induction false} PowAlpha(j: nat, n: nat)
    ensures Pow(Alpha(j), n) == Alpha(j * n)
  {
    hide Mul, XTime;
    if n > 0 {
      PowAlpha(j, n - 1);
      AlphaAdd(j, j * (n - 1));
      assert j + j * (n - 1) == j * n;
    }
  }

  lemma {:induction false} PowNonZero(x: bv8, n: nat)
    requires x != 0
    ensures Pow(x, n) != 0
  {
    hide Mul;
    if n > 0 {
      PowNonZero(x, n - 1);
      MulNonZero(x, Pow(x, n - 1));
    }
  }

  lemma {:induction false} PowMul(x: bv8, y: bv8, n: nat)
    ensures Pow(Mul(x, y), n) == Mul(Pow(x, n), Pow(y, n))
  {
    hide Mul;
    if n == 0 {
      MulOneLeft(1);
    } else {
      PowMul(x, y, n - 1);
      MulSwap(x, y, Pow(x, n - 1), Pow(y, n - 1));
    }
  }

  lemma MulSwap(a: bv8, b: bv8, c: bv8, d: bv8)
    ensures Mul(Mul(a, b), Mul(c, d)) == Mul(Mul(a, c), Mul(b, d))
  {
    hide *;
    MulAssoc(a, b, Mul(c, d)); MulAssoc(b, c, d); MulComm(b, c);
    MulAssoc(c, b, d); MulAssoc(a, c, Mul(b, d));
  }

  lemma {:induction false} PowOne(n: nat)
    ensures Pow(1, n) == 1
  {
    hide Mul;
    if n > 0 {
      PowOne(n - 1);
      MulOneLeft(1);
    }
  }
}
