/** The encoder's Reed-Solomon arithmetic: the divisor polynomial and the remainder by it. */
module ReedSolomon {
  import opened Gf256
  import opened GfTables
  import opened Sums
  import opened Horner
  import opened BlockCode

  // ----- multiplication

  /** y shifted right by i bits. */
  function Shr(y: bv8, i: nat): bv8
    requires i <= 8
  {
    y >> (i as bv4)
  }

  lemma ShrNext(y: bv8, i: nat)
    requires i < 8
    ensures Shr(y, i + 1) == Half(Shr(y, i))
    ensures Shr(y, 0) == y && Shr(y, 8) == 0
  {
    match i
    case 0 => case 1 => case 2 => case 3 => case 4 => case 5 => case 6 => case _ =>
  }

  /** The product, by Russian peasant multiplication. */
  method Multiply(x: bv8, y: bv8) returns (z: bv8)
    ensures z == Mul(x, y)
  {
    hide *;
    z := 0;
    MulZero(x);
    ShrNext(y, 7);
    var i := 7;
    while i >= 0
      invariant -1 <= i <= 7
      invariant z == Mul(x, Shr(y, i + 1))
    {
      ShrNext(y, i);
      MulStep(x, Shr(y, i));
      z := XTime(z);
      z := Add(z, Odd(Shr(y, i), x));
      i := i - 1;
    }
    ShrNext(y, 0);
  }

  // ----- Horner's scheme on concatenations

  lemma {:induction false} HorConcat(a: seq<bv8>, b: seq<bv8>, z: bv8)
    ensures Hor(a + b, |a + b| - 1, z) ==
            Add(Mul(Pow(z, |b|), Hor(a, |a| - 1, z)), Hor(b, |b| - 1, z))
    decreases |b|
  {
    hide Add, Mul;
    if b == [] {
      assert a + b == a;
      MulOneLeft(Hor(a, |a| - 1, z));
      AddZero(Hor(a, |a| - 1, z));
    } else {
      var k := |b| - 1;
      var c, h := b[..k], Hor(a, |a| - 1, z);
      HorConcat(a, c, z);
      assert (a + b)[..|a| + k] == a + c;
      HorPrefixEq(a + b, a + c, |a| + k - 1, z);
      HorPrefixEq(b, c, k - 1, z);
      HorStep(a + b, |a| + k, z);
      HorStep(b, k, z);
      assert Coef(a + b, |a| + k) == b[k] && Coef(b, k) == b[k];
      MulAddRight(z, Mul(Pow(z, k), h), Hor(c, k - 1, z));
      MulAssoc(z, Pow(z, k), h);
      AddAssoc(Mul(Pow(z, |b|), h), Mul(z, Hor(c, k - 1, z)), b[k]);
    }
  }

  lemma {:induction false} HorPrefixEq(p: seq<bv8>, q: seq<bv8>, k: int, z: bv8)
    requires k < |q| <= |p| && p[..|q|] == q
    ensures Hor(p, k, z) == Hor(q, k, z)
    decreases k
  {
    hide Add, Mul;
    if k >= 0 {
      HorPrefixEq(p, q, k - 1, z);
      assert p[k] == p[..|q|][k];
    }
  }

  lemma {:induction false} HorScale(a: seq<bv8>, f: bv8, e: seq<bv8>, k: int, z: bv8)
    requires |a| == |e| && k < |a| && forall i | 0 <= i < |a| :: e[i] == Mul(a[i], f)
    ensures Hor(e, k, z) == Mul(Hor(a, k, z), f)
    decreases k
  {
    hide Add, Mul;
    if k < 0 {
      MulZeroLeft(f);
    } else {
      HorScale(a, f, e, k - 1, z);
      MulAddLeft(Mul(z, Hor(a, k - 1, z)), a[k], f);
      MulAssoc(z, Hor(a, k - 1, z), f);
    }
  }

  /** Shifting a polynomial of fixed room up by one drops its leading term. */
  lemma HorShift(r: seq<bv8>, up: seq<bv8>, z: bv8)
    requires |r| > 0 && up == r[1..] + [0]
    ensures Hor(up, |r| - 1, z) == Add(Mul(z, Hor(r, |r| - 1, z)), Mul(r[0], Pow(z, |r|)))
  {
    hide Add, Mul, Hor;
    var k := |r| - 1;
    var rest := Hor(r[1..], k - 1, z);
    HorPrefixEq(up, r[1..], k - 1, z);
    HorStep(up, k, z);
    AddZero(Mul(z, rest));
    assert Coef(up, k) == 0;
    HorCons(r, k, z);
    var t := Mul(r[0], Pow(z, k));
    MulAddRight(z, t, rest);
    MulAssoc(z, r[0], Pow(z, k)); MulComm(z, r[0]); MulAssoc(r[0], z, Pow(z, k));
    AddComm(Mul(z, t), Mul(z, rest));
    AddAssoc(Mul(z, rest), Mul(z, t), Mul(z, t));
    AddZero(Mul(z, t));
    AddZero(Mul(z, rest));
    assert Pow(z, |r|) == Mul(z, Pow(z, k)) by { PowStep(z, k); }
  }

  // ----- the divisor

  /** One round of the divisor computation: times (z + root), dropping the leading term. */
  ghost function TimesRoot(r: seq<bv8>, root: bv8): (t: seq<bv8>)
    ensures |t| == |r|
    ensures forall j | 0 <= j < |r| :: t[j] == Add(Mul(r[j], root), Coef(r, j + 1))
  {
    seq(|r|, j requires 0 <= j < |r| => Add(Mul(r[j], root), Coef(r, j + 1)))
  }

  lemma HorTimesRoot(r: seq<bv8>, root: bv8, z: bv8)
    requires |r| > 0
    ensures Hor(TimesRoot(r, root), |r| - 1, z) ==
            Add(Mul(Add(z, root), Hor(r, |r| - 1, z)), Mul(r[0], Pow(z, |r|)))
  {
    hide Add, Mul, Hor;
    var k := |r| - 1;
    var up, scaled := r[1..] + [0], seq(|r|, j requires 0 <= j < |r| => Mul(r[j], root));
    HorShift(r, up, z);
    HorScale(r, root, scaled, k, z);
    HorAdd(scaled, up, TimesRoot(r, root), k, z);
    var h := Hor(r, k, z);
    MulAddLeft(z, root, h);
    MulComm(h, root);
    AddAssoc(Mul(root, h), Mul(z, h), Mul(r[0], Pow(z, |r|)));
    AddComm(Mul(root, h), Mul(z, h));
  }

  /** The divisor after i rounds: its value at z, with the leading term once it has been dropped. */
  ghost function DivisorValue(r: seq<bv8>, i: nat, z: bv8): bv8 {
    Add(Hor(r, |r| - 1, z), if i == |r| then Pow(z, |r|) else 0)
  }

  ghost predicate DivisorInvariant(r: seq<bv8>, i: nat) {
    && i <= |r|
    && (forall j | 0 <= j < |r| - 1 - i :: r[j] == 0)
    && (i < |r| ==> r[|r| - 1 - i] == 1)
    && forall k | 0 <= k < i :: DivisorValue(r, i, Alpha(k)) == 0
  }

  lemma DivisorStep(r: seq<bv8>, i: nat)
    requires i < |r| && DivisorInvariant(r, i)
    ensures DivisorInvariant(TimesRoot(r, Alpha(i)), i + 1)
  {
    hide Add, Mul, Alpha, DivisorValue, TimesRoot;
    var t, root := TimesRoot(r, Alpha(i)), Alpha(i);
    DivisorShape(r, i, root);
    assert r[0] == if i == |r| - 1 then 1 else 0;
    forall k | 0 <= k < i + 1 ensures DivisorValue(t, i + 1, Alpha(k)) == 0 {
      var z := Alpha(k);
      assert k == i || DivisorValue(r, i, z) == 0;
      DivisorStepValue(r, i, root, z);
    }
  }

  lemma DivisorShape(r: seq<bv8>, i: nat, root: bv8)
    requires i < |r| && forall j | 0 <= j < |r| - 1 - i :: r[j] == 0
    requires r[|r| - 1 - i] == 1
    ensures forall j | 0 <= j < |r| - 2 - i :: TimesRoot(r, root)[j] == 0
    ensures i + 1 < |r| ==> TimesRoot(r, root)[|r| - 2 - i] == 1
  {
    hide Add, Mul;
    MulZeroLeft(root); AddZero(0); AddZero(1);
    forall j | 0 <= j < |r| - 1 ensures TimesRoot(r, root)[j] == Add(Mul(r[j], root), r[j + 1]) {
      assert Coef(r, j + 1) == r[j + 1];
    }
  }

  lemma DivisorStepValue(r: seq<bv8>, i: nat, root: bv8, z: bv8)
    requires i < |r|
    requires r[0] == if i == |r| - 1 then 1 else 0
    requires z == root || DivisorValue(r, i, z) == 0
    ensures DivisorValue(TimesRoot(r, root), i + 1, z) == 0
  {
    hide Add, Mul, Hor, Pow;
    var h, p := Hor(r, |r| - 1, z), Pow(z, |r|);
    HorTimesRoot(r, root, z);
    AddZero(h);
    assert Mul(Add(z, root), h) == 0 by {
      if z == root {
        AddZero(z); MulZeroLeft(h);
      } else {
        MulZero(Add(z, root));
      }
    }
    var q := Mul(r[0], p);
    AddZero(q);
    if i == |r| - 1 {
      MulOneLeft(p); AddZero(p);
    } else {
      MulZeroLeft(p);
    }
  }

  /** The coefficients, after the leading 1, of the product of (z + 2^i) for i < degree. */
  method ComputeDivisor(degree: nat) returns (result: array<bv8>)
    requires 1 <= degree <= 255
    ensures fresh(result) && result.Length == degree
    ensures IsCodeword([1] + result[..], degree)
  {
    hide *;
    result := new bv8[degree](i => 0);
    result[result.Length - 1] := 1;
    var root: bv8 := 1;
    DivisorStart(result[..]);
    for i := 0 to degree
      invariant DivisorInvariant(result[..], i)
      invariant root == Alpha(i)
    {
      ghost var r := result[..];
      for j := 0 to degree
        invariant forall k | 0 <= k < j :: result[k] == TimesRoot(r, root)[k]
        invariant forall k | j <= k < degree :: result[k] == r[k]
      {
        var t := Multiply(result[j], root);
        TimesRootAt(r, root, j);
        if j + 1 < degree {
          t := Add(t, result[j + 1]);
        }
        result[j] := t;
      }
      assert result[..] == TimesRoot(r, root);
      DivisorStep(r, i);
      NextRoot(i);
      root := Multiply(root, 2);
    }
    DivisorDone(result[..]);
  }

  lemma TimesRootAt(r: seq<bv8>, root: bv8, j: nat)
    requires j < |r|
    ensures |TimesRoot(r, root)| == |r|
    ensures TimesRoot(r, root)[j] == if j + 1 < |r| then Add(Mul(r[j], root), r[j + 1]) else Mul(r[j], root)
  {
    hide Add, Mul;
    AddZero(Mul(r[j], root));
  }

  lemma DivisorStart(r: seq<bv8>)
    requires |r| > 0 && r[|r| - 1] == 1 && forall j | 0 <= j < |r| - 1 :: r[j] == 0
    ensures DivisorInvariant(r, 0) && Alpha(0) == 1
  {}

  lemma NextRoot(i: nat)
    ensures Mul(Alpha(i), 2) == Alpha(i + 1)
  {
    hide Mul;
    MulXTimeRight(Alpha(i), 1);
    MulOneRight(Alpha(i));
    assert XTime(1) == 2;
  }

  lemma DivisorDone(r: seq<bv8>)
    requires DivisorInvariant(r, |r|)
    ensures IsCodeword([1] + r, |r|)
  {
    hide Add, Mul, Hor, Alpha, Pow;
    forall i | 0 <= i < |r| ensures Syndrome([1] + r, i) == 0 {
      var z := Alpha(i);
      assert DivisorValue(r, |r|, z) == 0;
      HorConcat([1], r, z);
      HorStep([1], 0, z);
      MulZero(z); AddZero(1); AddZero(0);
      assert Coef([1], 0) == 1;
      MulOneRight(Pow(z, |r|));
      AddComm(Hor(r, |r| - 1, z), Pow(z, |r|));
    }
  }

  // ----- the remainder

  ghost function NextRemainder(r: seq<bv8>, divisor: seq<bv8>, b: bv8): (t: seq<bv8>)
    requires |r| == |divisor| > 0
    ensures |t| == |r|
    ensures forall i | 0 <= i < |r| ::
              t[i] == Add(Coef(r, i + 1), Mul(divisor[i], Add(b, r[0])))
  {
    seq(|r|, i requires 0 <= i < |r| => Add(Coef(r, i + 1), Mul(divisor[i], Add(b, r[0]))))
  }

  /** Every step of the division keeps "data so far followed by remainder" a codeword. */
  lemma RemainderStep(data: seq<bv8>, b: bv8, r: seq<bv8>, divisor: seq<bv8>)
    requires |r| == |divisor| > 0
    requires IsCodeword([1] + divisor, |divisor|) && IsCodeword(data + r, |r|)
    ensures IsCodeword(data + [b] + NextRemainder(r, divisor, b), |r|)
  {
    hide Add, Mul, Hor, Alpha, Pow;
    forall i | 0 <= i < |r| ensures Syndrome(data + [b] + NextRemainder(r, divisor, b), i) == 0 {
      assert Syndrome([1] + divisor, i) == 0 && Syndrome(data + r, i) == 0;
      RemainderValue(data, b, r, divisor, Alpha(i));
    }
  }

  lemma RemainderValue(data: seq<bv8>, b: bv8, r: seq<bv8>, divisor: seq<bv8>, z: bv8)
    requires |r| == |divisor| > 0
    requires Hor([1] + divisor, |divisor|, z) == 0 && Hor(data + r, |data + r| - 1, z) == 0
    ensures var s := data + [b] + NextRemainder(r, divisor, b);
            Hor(s, |s| - 1, z) == 0
  {
    hide *;
    var p, t := Pow(z, |r|), NextRemainder(r, divisor, b);
    var v, h := Hor(data, |data| - 1, z), Hor(r, |r| - 1, z);
    DivisorPower(divisor, z);
    HorConcat(data, r, z);
    HorConcat(data + [b], t, z);
    AppendedValue(data, b, z);
    NextRemainderValue(r, divisor, b, z);
    AddEq(Mul(p, v), h);
    DivisionIdentity(z, p, v, b, r[0], h);
  }

  lemma NextRemainderValue(r: seq<bv8>, divisor: seq<bv8>, b: bv8, z: bv8)
    requires |r| == |divisor| > 0
    ensures |NextRemainder(r, divisor, b)| == |r|
    ensures Hor(NextRemainder(r, divisor, b), |r| - 1, z) ==
            Add(Add(Mul(z, Hor(r, |r| - 1, z)), Mul(r[0], Pow(z, |r|))),
                Mul(Hor(divisor, |r| - 1, z), Add(b, r[0])))
  {
    hide Add, Mul, Hor, Pow;
    var k, f := |r| - 1, Add(b, r[0]);
    var up, scaled := r[1..] + [0], seq(|r|, i requires 0 <= i < |r| => Mul(divisor[i], f));
    forall i | 0 <= i < |r| ensures NextRemainder(r, divisor, b)[i] == Add(up[i], scaled[i]) {
      assert Coef(r, i + 1) == up[i];
    }
    HorShift(r, up, z);
    HorScale(divisor, f, scaled, k, z);
    HorAdd(up, scaled, NextRemainder(r, divisor, b), k, z);
  }

  /** With h = p v: p (z v + b) + z h + r p + p (b + r) is 0. */
  lemma DivisionIdentity(z: bv8, p: bv8, v: bv8, b: bv8, r: bv8, h: bv8)
    requires h == Mul(p, v)
    ensures Add(Mul(p, Add(Mul(z, v), b)), Add(Add(Mul(z, h), Mul(r, p)), Mul(p, Add(b, r)))) == 0
  {
    hide *;
    MulAddRight(p, Mul(z, v), b);
    MulAssoc(p, z, v); MulComm(p, z); MulAssoc(z, p, v);
    MulAddRight(p, b, r);
    MulComm(r, p);
    Cancel(Mul(z, h), Mul(p, b), Mul(p, r));
  }

  /** At a root of the divisor the leading power equals the value of the rest. */
  lemma DivisorPower(divisor: seq<bv8>, z: bv8)
    requires Hor([1] + divisor, |divisor|, z) == 0
    ensures Hor(divisor, |divisor| - 1, z) == Pow(z, |divisor|)
  {
    hide Add, Mul, Hor, Pow;
    var p := Pow(z, |divisor|);
    HorConcat([1], divisor, z);
    HorStep([1], 0, z);
    MulZero(z); AddZero(1);
    assert Coef([1], 0) == 1;
    MulOneRight(p);
    AddEq(p, Hor(divisor, |divisor| - 1, z));
  }

  lemma AppendedValue(data: seq<bv8>, b: bv8, z: bv8)
    ensures Hor(data + [b], |data|, z) == Add(Mul(z, Hor(data, |data| - 1, z)), b)
  {
    hide Add, Mul, Hor;
    HorPrefixEq(data + [b], data, |data| - 1, z);
    HorStep(data + [b], |data|, z);
    assert Coef(data + [b], |data|) == b;
  }

  lemma Cancel(h: bv8, b: bv8, r: bv8)
    ensures Add(Add(h, b), Add(Add(h, r), Add(b, r))) == 0
  {
    hide *;
    AddSwap(h, r, b, r); AddZero(r); AddZero(Add(h, b));
  }

  /** The check bytes of data: with them appended the data is a codeword. */
  method ComputeRemainder(data: seq<bv8>, divisor: array<bv8>) returns (result: array<bv8>)
    requires divisor.Length > 0 && IsCodeword([1] + divisor[..], divisor.Length)
    ensures fresh(result) && result.Length == divisor.Length
    ensures IsCodeword(data + result[..], divisor.Length)
  {
    hide *;
    var n := divisor.Length;
    ghost var div := divisor[..];
    result := new bv8[n](i => 0);
    ZeroCodeword(result[..], n);
    assert data[..0] + result[..] == result[..];
    for d := 0 to |data|
      invariant divisor[..] == div
      invariant IsCodeword(data[..d] + result[..], n)
    {
      var b := data[d];
      ghost var r := result[..];
      var factor := Add(b, result[0]);
      ShiftUp(result);
      AddMultiple(result, divisor, factor);
      assert result[..] == NextRemainder(r, div, b) by {
        NextRemainderAt(result[..], r, div, b);
      }
      RemainderStep(data[..d], b, r, div);
      assert data[..d] + [b] == data[..d + 1];
    }
    assert data[..|data|] == data;
  }

  /** Drops the first entry and appends 0. */
  method ShiftUp(r: array<bv8>)
    requires r.Length > 0
    modifies r
    ensures r[..] == old(r[1..]) + [0]
  {
    for i := 0 to r.Length - 1
      invariant forall k | 0 <= k < i :: r[k] == old(r[k + 1])
      invariant forall k | i <= k < r.Length :: r[k] == old(r[k])
    {
      r[i] := r[i + 1];
    }
    r[r.Length - 1] := 0;
  }

  method AddMultiple(r: array<bv8>, divisor: array<bv8>, factor: bv8)
    requires r.Length == divisor.Length && r != divisor
    modifies r
    ensures forall i | 0 <= i < r.Length :: r[i] == Add(old(r[i]), Mul(divisor[i], factor))
  {
    hide *;
    for i := 0 to r.Length
      invariant forall k | 0 <= k < i :: r[k] == Add(old(r[k]), Mul(divisor[k], factor))
      invariant forall k | i <= k < r.Length :: r[k] == old(r[k])
    {
      var t := Multiply(divisor[i], factor);
      r[i] := Add(r[i], t);
    }
  }

  lemma NextRemainderAt(t: seq<bv8>, r: seq<bv8>, divisor: seq<bv8>, b: bv8)
    requires |t| == |r| == |divisor| > 0
    requires forall i | 0 <= i < |r| :: t[i] == Add((r[1..] + [0])[i], Mul(divisor[i], Add(b, r[0])))
    ensures t == NextRemainder(r, divisor, b)
  {
    hide Add, Mul;
    forall i | 0 <= i < |r| ensures t[i] == NextRemainder(r, divisor, b)[i] {
      assert Coef(r, i + 1) == (r[1..] + [0])[i];
    }
  }

  lemma ZeroCodeword(r: seq<bv8>, n: nat)
    requires forall i | 0 <= i < |r| :: r[i] == 0
    ensures IsCodeword(r, n)
  {
    hide Alpha, Hor;
    forall i | 0 <= i < n ensures Syndrome(r, i) == 0 {
      HorZero(r, |r| - 1, Alpha(i));
    }
  }

  lemma {:induction false} HorZero(r: seq<bv8>, k: int, z: bv8)
    requires forall i | 0 <= i < |r| :: r[i] == 0
    ensures Hor(r, k, z) == 0
    decreases k
  {
    hide Add, Mul;
    if k >= 0 {
      HorZero(r, k - 1, z);
      MulZero(z); AddZero(0);
    }
  }
}
