/** Linear recurrences over GF(256) and the invariant of the Berlekamp-Massey iteration. */
module Recurrence {
  import opened Gf256
  import opened GfTables
  import opened Sums

  /** The number of coefficients a decoder polynomial has room for. */
  const MAX_POLY: nat := 64

  ghost function RecTerm(c: seq<bv8>, s: seq<bv8>, n: int): int -> bv8 {
    i => Mul(Coef(c, i), Coef(s, n - i))
  }

  /** The discrepancy of c at position n of s: c[0] s[n] + c[1] s[n-1] + ... */
  ghost function Disc(c: seq<bv8>, s: seq<bv8>, n: int): bv8 {
    Sum(RecTerm(c, s, n), MAX_POLY)
  }

  /** c is a connection polynomial of length len for s[..n]: every element from position len on
      is determined by the len elements before it. */
  ghost predicate IsRecurrence(c: seq<bv8>, len: nat, s: seq<bv8>, n: nat) {
    && |c| == MAX_POLY && c[0] == 1
    && (forall i | len < i < MAX_POLY :: c[i] == 0)
    && (forall j | len <= j < n :: Disc(c, s, j) == 0)
  }

  /** The result of adding m times src, moved up by shift places, to dst. */
  ghost function PolyAdded(dst: seq<bv8>, src: seq<bv8>, m: bv8, shift: int): (r: seq<bv8>)
    requires |dst| == MAX_POLY
    ensures |r| == MAX_POLY
    ensures forall p | 0 <= p < MAX_POLY :: r[p] == Add(dst[p], Mul(m, Coef(src, p - shift)))
  {
    seq(MAX_POLY, p requires 0 <= p < MAX_POLY => Add(dst[p], Mul(m, Coef(src, p - shift))))
  }

  // ----- the length of a recurrence

  ghost function DoubleTerm(c: seq<bv8>, d: seq<bv8>, s: seq<bv8>, n: int): (int, int) -> bv8 {
    (i, k) => Mul(Coef(c, i), Mul(Coef(d, k), Coef(s, n - i - k)))
  }

  /** One row of the double sum is a multiple of a discrepancy of d. */
  lemma DoubleRow(c: seq<bv8>, d: seq<bv8>, s: seq<bv8>, n: int, i: int)
    ensures Row(DoubleTerm(c, d, s, n), MAX_POLY)(i) == Mul(Coef(c, i), Disc(d, s, n - i))
  {
    hide Add, Mul, Sum, Coef;
    var row := k => DoubleTerm(c, d, s, n)(i, k);
    assert Row(DoubleTerm(c, d, s, n), MAX_POLY)(i) == Sum(row, MAX_POLY);
    SumScale(Coef(c, i), RecTerm(d, s, n - i), row, MAX_POLY);
  }

  lemma DoubleColumnTerm(c: seq<bv8>, d: seq<bv8>, s: seq<bv8>, n: int, i: int, k: int)
    ensures DoubleTerm(c, d, s, n)(i, k) == Mul(Coef(d, k), RecTerm(c, s, n - k)(i))
  {
    hide Add, Mul;
    var x, y, z := Coef(c, i), Coef(d, k), Coef(s, n - i - k);
    MulAssoc(x, y, z); MulComm(x, y); MulAssoc(y, x, z);
    assert n - i - k == n - k - i;
  }

  /** One column of it is a multiple of a discrepancy of c. */
  lemma DoubleColumn(c: seq<bv8>, d: seq<bv8>, s: seq<bv8>, n: int, k: int)
    ensures Column(DoubleTerm(c, d, s, n), MAX_POLY)(k) == Mul(Coef(d, k), Disc(c, s, n - k))
  {
    hide Add, Mul;
    var column := i => DoubleTerm(c, d, s, n)(i, k);
    assert Column(DoubleTerm(c, d, s, n), MAX_POLY)(k) == Sum(column, MAX_POLY);
    forall i ensures column(i) == Mul(Coef(d, k), RecTerm(c, s, n - k)(i)) {
      DoubleColumnTerm(c, d, s, n, i, k);
    }
    SumScale(Coef(d, k), RecTerm(c, s, n - k), column, MAX_POLY);
  }

  /** A coefficient of c against a discrepancy of d vanishes where d fits. */
  lemma ProductVanishes(c: seq<bv8>, len: nat, i: nat, x: bv8)
    requires |c| == MAX_POLY && forall i | len < i < MAX_POLY :: c[i] == 0
    requires i < MAX_POLY && (i <= len ==> x == 0)
    ensures Mul(Coef(c, i), x) == 0
  {
    hide Mul;
    MulZero(Coef(c, i)); MulZeroLeft(x);
  }

  /** Massey's lemma: if c of length lc fits s[..n] but not position n, then no recurrence that
      fits s[..n+1] is shorter than n + 1 - lc. */
  lemma LengthBound(c: seq<bv8>, lc: nat, d: seq<bv8>, ld: nat, s: seq<bv8>, n: nat)
    requires IsRecurrence(c, lc, s, n) && Disc(c, s, n) != 0
    requires IsRecurrence(d, ld, s, n + 1)
    ensures n + 1 <= lc + ld
  {
    hide Add, Mul, Disc, Sum, Row, Column, DoubleTerm;
    if lc + ld <= n {
      var f := DoubleTerm(c, d, s, n);
      forall i: int | 0 <= i < MAX_POLY ensures Row(f, MAX_POLY)(i) == 0 {
        DoubleRow(c, d, s, n, i);
        ProductVanishes(c, lc, i, Disc(d, s, n - i));
      }
      SumZero(Row(f, MAX_POLY), MAX_POLY);
      forall k: int | 0 < k < MAX_POLY ensures Column(f, MAX_POLY)(k) == 0 {
        DoubleColumn(c, d, s, n, k);
        ProductVanishes(d, ld, k, Disc(c, s, n - k));
      }
      SumSingle(Column(f, MAX_POLY), MAX_POLY, 0);
      DoubleColumn(c, d, s, n, 0);
      MulOneLeft(Disc(c, s, n));
      SumSwap(f, MAX_POLY, MAX_POLY);
      assert false;
    }
  }

  // ----- discrepancies of the polynomials the iteration forms

  ghost function MovedTerm(src: seq<bv8>, s: seq<bv8>, shift: int, n: int): int -> bv8 {
    i => Mul(Coef(src, i - shift), Coef(s, n - i))
  }

  lemma DiscMoved(src: seq<bv8>, shift: nat, s: seq<bv8>, n: int)
    requires |src| == MAX_POLY && shift <= MAX_POLY
    requires forall i | MAX_POLY - shift <= i < MAX_POLY :: src[i] == 0
    ensures Sum(MovedTerm(src, s, shift, n), MAX_POLY) == Disc(src, s, n - shift)
  {
    hide Add, Mul, Sum;
    var moved, term := MovedTerm(src, s, shift, n), RecTerm(src, s, n - shift);
    var kept := MAX_POLY - shift;
    forall i: int | 0 <= i < shift ensures moved(i) == 0 {
      MulZeroLeft(Coef(s, n - i));
    }
    forall i: int | 0 <= i < kept ensures moved(shift + i) == term(i) {
      assert n - (shift + i) == n - shift - i;
    }
    SumShift(term, moved, shift, kept);
    forall i: int | kept <= i < MAX_POLY ensures term(i) == 0 {
      MulZeroLeft(Coef(s, n - shift - i));
    }
    SumTail(term, kept, MAX_POLY);
  }

  lemma AddedTerm(dst: seq<bv8>, src: seq<bv8>, m: bv8, shift: nat, s: seq<bv8>, n: int, i: nat)
    requires |dst| == MAX_POLY && i < MAX_POLY
    ensures RecTerm(PolyAdded(dst, src, m, shift), s, n)(i) ==
            Add(RecTerm(dst, s, n)(i), Mul(m, MovedTerm(src, s, shift, n)(i)))
  {
    hide Add, Mul;
    var x := Coef(src, i - shift);
    MulAddLeft(dst[i], Mul(m, x), Coef(s, n - i));
    MulAssoc(m, x, Coef(s, n - i));
  }

  lemma DiscAdded(dst: seq<bv8>, src: seq<bv8>, m: bv8, shift: nat, s: seq<bv8>, n: int)
    requires |dst| == MAX_POLY && |src| == MAX_POLY && shift <= MAX_POLY
    requires forall i | MAX_POLY - shift <= i < MAX_POLY :: src[i] == 0
    ensures Disc(PolyAdded(dst, src, m, shift), s, n) == Add(Disc(dst, s, n), Mul(m, Disc(src, s, n - shift)))
  {
    hide Add, Mul, Sum, RecTerm, MovedTerm, PolyAdded;
    var scaled := i => Mul(m, MovedTerm(src, s, shift, n)(i));
    var whole := RecTerm(PolyAdded(dst, src, m, shift), s, n);
    forall i: int | 0 <= i < MAX_POLY ensures whole(i) == Add(RecTerm(dst, s, n)(i), scaled(i)) {
      AddedTerm(dst, src, m, shift, s, n, i);
    }
    SumAdd(RecTerm(dst, s, n), scaled, whole, MAX_POLY);
    SumScale(m, MovedTerm(src, s, shift, n), scaled, MAX_POLY);
    DiscMoved(src, shift, s, n);
  }

  // ----- the invariant

  /** The variables of the iteration before it looks at s[n], with the length lb of the saved
      polynomial b as a ghost. bd is b's discrepancy, m positions ago. */
  datatype State = State(c: seq<bv8>, b: seq<bv8>, len: nat, lb: nat, m: nat, bd: bv8)

  ghost predicate IsShortest(len: nat, s: seq<bv8>, n: nat) {
    forall d, ld: nat | IsRecurrence(d, ld, s, n) :: len <= ld
  }

  ghost predicate SavedFits(st: State, s: seq<bv8>, n: nat)
    requires |st.b| == MAX_POLY
  {
    && (forall i | st.lb < i < MAX_POLY :: st.b[i] == 0)
    && st.bd != 0 && 1 <= st.m && st.len + st.lb + st.m == n + 1
    && if st.m == n + 1 then st.bd == 1 else
         && st.m <= n && Disc(st.b, s, n - st.m) == st.bd
         && forall j | st.lb <= j < n - st.m :: Disc(st.b, s, j) == 0
  }

  ghost predicate Invariant(st: State, s: seq<bv8>, n: nat) {
    && IsRecurrence(st.c, st.len, s, n) && st.len <= n && n < MAX_POLY
    && IsShortest(st.len, s, n)
    && |st.b| == MAX_POLY && SavedFits(st, s, n)
  }

  lemma InvariantStart(c: seq<bv8>, s: seq<bv8>)
    requires |c| == MAX_POLY && c[0] == 1 && forall i | 0 < i < MAX_POLY :: c[i] == 0
    ensures Invariant(State(c, c, 0, 0, 1, 1), s, 0)
  {}

  lemma StillShortest(len: nat, s: seq<bv8>, n: nat)
    requires IsShortest(len, s, n)
    ensures IsShortest(len, s, n + 1)
  {
    hide Disc;
    var next := n + 1;
    forall d, ld: nat | IsRecurrence(d, ld, s, next) ensures len <= ld {
      assert IsRecurrence(d, ld, s, n);
    }
  }

  /** No discrepancy: the recurrence already covers position n. */
  lemma StepFits(st: State, s: seq<bv8>, n: nat)
    requires Invariant(st, s, n) && n + 1 < MAX_POLY && Disc(st.c, s, n) == 0
    ensures Invariant(st.(m := st.m + 1), s, n + 1)
  {
    hide Disc;
    StillShortest(st.len, s, n);
  }

  /** Moving the saved polynomial up drops none of its terms. */
  lemma NothingDropped(st: State, s: seq<bv8>, n: nat)
    requires Invariant(st, s, n) && n + 1 < MAX_POLY
    ensures st.m <= MAX_POLY && forall i | MAX_POLY - st.m <= i < MAX_POLY :: st.b[i] == 0
  {}

  /** The corrected polynomial cancels the discrepancy at n and keeps the earlier positions. */
  lemma Corrected(st: State, s: seq<bv8>, n: nat, mult: bv8, len: nat)
    requires Invariant(st, s, n) && n + 1 < MAX_POLY
    requires Mul(mult, st.bd) == Disc(st.c, s, n)
    requires st.len <= len && n + 1 - st.len <= len
    ensures IsRecurrence(PolyAdded(st.c, st.b, mult, st.m), len, s, n + 1)
  {
    hide Add, Mul, Disc;
    var r := PolyAdded(st.c, st.b, mult, st.m);
    NothingDropped(st, s, n);
    MulZero(mult);
    AddZero(0); AddZero(1);
    forall j | len <= j < n + 1 ensures Disc(r, s, j) == 0 {
      DiscAdded(st.c, st.b, mult, st.m, s, j);
      if j < n {
        assert Disc(st.c, s, j) == 0 && Disc(st.b, s, j - st.m) == 0;
      } else {
        AddZero(Disc(st.c, s, n));
      }
    }
  }

  /** A discrepancy that makes the recurrence longer. */
  lemma StepLonger(st: State, s: seq<bv8>, n: nat, mult: bv8)
    requires Invariant(st, s, n) && n + 1 < MAX_POLY
    requires Disc(st.c, s, n) != 0 && Mul(mult, st.bd) == Disc(st.c, s, n)
    requires 2 * st.len <= n
    ensures var next := State(PolyAdded(st.c, st.b, mult, st.m), st.c, n + 1 - st.len, st.len, 1, Disc(st.c, s, n));
            Invariant(next, s, n + 1)
  {
    hide Add, Mul, Disc;
    Corrected(st, s, n, mult, n + 1 - st.len);
    var next := n + 1;
    forall d, ld: nat | IsRecurrence(d, ld, s, next) ensures n + 1 - st.len <= ld {
      LengthBound(st.c, st.len, d, ld, s, n);
    }
  }

  /** A discrepancy that is repaired without changing the length. */
  lemma StepSameLength(st: State, s: seq<bv8>, n: nat, mult: bv8)
    requires Invariant(st, s, n) && n + 1 < MAX_POLY
    requires Mul(mult, st.bd) == Disc(st.c, s, n)
    requires 2 * st.len > n
    ensures Invariant(st.(c := PolyAdded(st.c, st.b, mult, st.m), m := st.m + 1), s, n + 1)
  {
    hide Add, Mul, Disc;
    Corrected(st, s, n, mult, st.len);
    StillShortest(st.len, s, n);
  }

  // ----- the iteration as a function

  ghost function Begin(): State {
    var one: seq<bv8> := seq(MAX_POLY, i => if i == 0 then 1 else 0);
    State(one, one, 0, 0, 1, 1)
  }

  ghost predicate HasRoom(st: State) {
    |st.c| == |st.b| == MAX_POLY && st.bd != 0
  }

  /** One round: the discrepancy, if there is one, is cancelled with the saved polynomial. */
  ghost function Next(st: State, s: seq<bv8>, n: nat): (r: State)
    requires HasRoom(st)
    ensures HasRoom(r)
  {
    var d := Disc(st.c, s, n);
    if d == 0 then st.(m := st.m + 1)
    else
      var c := PolyAdded(st.c, st.b, Mul(d, Inv(st.bd)), st.m);
      if 2 * st.len <= n then State(c, st.c, n + 1 - st.len, st.len, 1, d) else st.(c := c, m := st.m + 1)
  }

  /** The variables after n rounds. */
  ghost function Massey(s: seq<bv8>, n: nat): (r: State)
    ensures HasRoom(r)
  {
    if n == 0 then Begin() else Next(Massey(s, n - 1), s, n - 1)
  }

  /** The multiplier is the only one that cancels the discrepancy. */
  lemma Multiplier(mult: bv8, d: bv8, bd: bv8)
    requires bd != 0
    ensures mult == Mul(d, Inv(bd)) <==> Mul(mult, bd) == d
  {
    hide Mul, Inv;
    var inv := Inv(bd);
    MulInv(bd);
    MulAssoc(d, inv, bd); MulComm(inv, bd); MulOneRight(d);
    if Mul(mult, bd) == d {
      MulCancel(mult, Mul(d, inv), bd);
    }
  }

  /** Every round keeps the invariant. */
  lemma {:induction false} MasseyHolds(s: seq<bv8>, n: nat)
    requires n < MAX_POLY
    ensures Invariant(Massey(s, n), s, n)
  {
    hide Mul, Inv, Disc, Invariant, PolyAdded;
    if n == 0 {
      var one := Begin().c;
      InvariantStart(one, s);
    } else {
      var st := Massey(s, n - 1);
      var d := Disc(st.c, s, n - 1);
      MasseyHolds(s, n - 1);
      Multiplier(Mul(d, Inv(st.bd)), d, st.bd);
      if d == 0 {
        StepFits(st, s, n - 1);
      } else if 2 * st.len <= n - 1 {
        StepLonger(st, s, n - 1, Mul(d, Inv(st.bd)));
      } else {
        StepSameLength(st, s, n - 1, Mul(d, Inv(st.bd)));
      }
    }
  }

  /** What comes out is a recurrence for the first n elements, and none is shorter. */
  lemma MasseyIsShortest(s: seq<bv8>, n: nat)
    requires n < MAX_POLY
    ensures IsRecurrence(Massey(s, n).c, Massey(s, n).len, s, n) && IsShortest(Massey(s, n).len, s, n)
  {
    hide Massey;
    MasseyHolds(s, n);
  }

  lemma NextFits(s: seq<bv8>, n: nat)
    requires Disc(Massey(s, n).c, s, n) == 0
    ensures var st := Massey(s, n); Massey(s, n + 1) == st.(m := st.m + 1)
  {}

  lemma NextCorrects(s: seq<bv8>, n: nat, mult: bv8)
    requires var st := Massey(s, n); Disc(st.c, s, n) != 0 && Mul(mult, st.bd) == Disc(st.c, s, n)
    ensures var st := Massey(s, n);
            var c := PolyAdded(st.c, st.b, mult, st.m);
            Massey(s, n + 1) == if 2 * st.len <= n then State(c, st.c, n + 1 - st.len, st.len, 1, Disc(st.c, s, n))
                                else st.(c := c, m := st.m + 1)
  {
    hide Disc, Mul, Inv, PolyAdded;
    Multiplier(mult, Disc(Massey(s, n).c, s, n), Massey(s, n).bd);
  }
}
