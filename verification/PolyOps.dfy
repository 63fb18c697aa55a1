/** The decoder's polynomial routines, over either field. Polynomials are arrays of MAX_POLY
    coefficients; what a routine computes is stated for the images of its arguments in GF(256). */
module PolyOps {
  import opened Gf256
  import opened GfTables
  import opened Sums
  import Horner
  import opened Recurrence
  import opened Galois

  /** Adds c times src, moved up by shift, to dst; terms moved out of range are dropped. */
  method PolyAdd(dst: array<bv8>, src: array<bv8>, c: bv8, shift: int, gf: Field)
    requires dst.Length == src.Length == MAX_POLY && dst != src
    requires HasAll(gf, dst[..]) && HasAll(gf, src[..]) && gf.Has(c)
    modifies dst
    ensures HasAll(gf, dst[..])
    ensures Image(gf, dst[..]) == PolyAdded(Image(gf, old(dst[..])), Image(gf, src[..]), gf.Embed(c), shift)
  {
    hide Add, Mul, Field.Embed, Field.Exp, Field.Log, Field.Has;
    ghost var was, from, m := old(dst[..]), Image(gf, src[..]), gf.Embed(c);
    EmbedOne(gf);
    MulZero(m);
    var logC := gf.Log(c);
    if c == 0 {
      forall p | 0 <= p < MAX_POLY
        ensures Image(gf, dst[..])[p] == PolyAdded(Image(gf, was), from, m, shift)[p]
      {
        MulZeroLeft(Coef(from, p - shift));
        AddZero(gf.Embed(was[p]));
      }
      return;
    }
    forall p | 0 <= p < MAX_POLY ensures Add(gf.Embed(was[p]), 0) == gf.Embed(was[p]) {
      AddZero(gf.Embed(was[p]));
    }
    for i := 0 to MAX_POLY
      invariant forall p | 0 <= p < MAX_POLY :: gf.Has(dst[p])
      invariant forall p | 0 <= p < MAX_POLY :: gf.Embed(dst[p]) ==
                  Add(gf.Embed(was[p]), (if 0 <= p - shift < i then Mul(m, from[p - shift]) else 0))
    {
      var p := i + shift;
      var v := src[i];
      if p < 0 || p >= MAX_POLY {
        continue;
      }
      if v == 0 {
        continue;
      }
      var term := gf.Exp((gf.Log(v) + logC) % gf.p);
      Product(gf, v, c);
      MulComm(gf.Embed(v), m);
      AddZero(gf.Embed(was[p]));
      EmbedAdd(gf, dst[p], term);
      dst[p] := Add(dst[p], term);
    }
    assert forall p | 0 <= p < MAX_POLY :: Image(gf, dst[..])[p] == gf.Embed(dst[p]);
  }

  /** The value of s at x. */
  method PolyEval(s: array<bv8>, x: bv8, gf: Field) returns (sum: bv8)
    requires s.Length == MAX_POLY && HasAll(gf, s[..]) && gf.Has(x)
    ensures gf.Has(sum)
    ensures gf.Embed(sum) == Horner.Eval(Image(gf, s[..]), gf.Embed(x), MAX_POLY)
  {
    hide Add, Mul, Field.Embed, Field.Exp, Field.Log, Field.Has, Pow;
    ghost var image, y := Image(gf, s[..]), gf.Embed(x);
    ghost var term := Horner.EvalTerm(image, y);
    EmbedOne(gf);
    sum := 0;
    var logX := gf.Log(x);
    if x == 0 {
      EvalAtZero(image);
      return s[0];
    }
    for i := 0 to MAX_POLY
      invariant gf.Has(sum)
      invariant gf.Embed(sum) == Sum(term, i)
    {
      var c := s[i];
      assert term(i) == Mul(gf.Embed(c), Pow(y, i)) by {
        assert Coef(image, i) == image[i];
      }
      if c == 0 {
        MulZeroLeft(Pow(y, i));
        AddZero(Sum(term, i));
        continue;
      }
      var t := gf.Exp((gf.Log(c) + logX * i) % gf.p);
      TermByTables(gf, c, x, i);
      EmbedAdd(gf, sum, t);
      sum := Add(sum, t);
    }
  }

  lemma EvalAtZero(p: seq<bv8>)
    requires |p| == MAX_POLY
    ensures Horner.Eval(p, 0, MAX_POLY) == p[0]
  {
    hide Add, Mul;
    var term := Horner.EvalTerm(p, 0);
    forall i: int | 0 <= i < MAX_POLY && i != 0 ensures term(i) == 0 {
      MulZeroLeft(Pow(0, i - 1));
      MulZero(Coef(p, i));
    }
    SumSingle(term, MAX_POLY, 0);
    MulOneRight(p[0]);
  }

  lemma Distribute(a: nat, m: nat, n: nat, i: nat)
    ensures a * (m + n * i) == a * m + a * n * i
  {}

  /** A term c x^i as the decoder forms it from logarithms. */
  lemma TermByTables(gf: Field, c: bv8, x: bv8, i: nat)
    requires gf.Has(c) && gf.Has(x) && c != 0 && x != 0
    ensures gf.Embed(gf.Exp((gf.Log(c) + gf.Log(x) * i) % gf.p)) == Mul(gf.Embed(c), Pow(gf.Embed(x), i))
  {
    hide *;
    EmbedOne(gf);
    var m, n := gf.Log(c), gf.Log(x);
    LogIsPower(gf, c); LogIsPower(gf, x);
    PowAlpha(gf.step * n, i);
    AlphaAdd(gf.step * m, gf.step * n * i);
    Distribute(gf.step, m, n, i);
    PowerMod(gf, m + n * i);
    ExpIsPower(gf, (m + n * i) % gf.p);
  }

  /** The discrepancy at position n, summed over the first len coefficients only. */
  method Discrepancy(c: array<bv8>, s: array<bv8>, n: nat, len: nat, gf: Field) returns (d: bv8)
    requires c.Length == s.Length == MAX_POLY && HasAll(gf, c[..]) && HasAll(gf, s[..])
    requires len <= n < MAX_POLY && c[0] == 1 && forall i | len < i < MAX_POLY :: c[i] == 0
    ensures gf.Has(d)
    ensures gf.Embed(d) == Disc(Image(gf, c[..]), Image(gf, s[..]), n)
  {
    hide Add, Mul, Sum, Disc, RecTerm, Coef, Field.Embed, Field.Exp, Field.Log, Field.Has;
    ghost var ci, si := Image(gf, c[..]), Image(gf, s[..]);
    ghost var term := RecTerm(ci, si, n);
    EmbedOne(gf);
    d := s[n];
    RecTermAt(ci, si, n, 0);
    MulOneLeft(si[n]);
    for i := 1 to len + 1
      invariant gf.Has(d)
      invariant gf.Embed(d) == Sum(term, i)
    {
      RecTermAt(ci, si, n, i);
      if c[i] == 0 || s[n - i] == 0 {
        MulZero(gf.Embed(c[i])); MulZeroLeft(gf.Embed(s[n - i]));
        AddZero(Sum(term, i));
        continue;
      }
      var t := gf.Exp((gf.Log(c[i]) + gf.Log(s[n - i])) % gf.p);
      Product(gf, c[i], s[n - i]);
      EmbedAdd(gf, d, t);
      d := Add(d, t);
    }
    DiscPrefix(ci, si, n, len);
  }

  lemma RecTermAt(c: seq<bv8>, s: seq<bv8>, n: nat, i: nat)
    requires i < |c| && i <= n < |s|
    ensures RecTerm(c, s, n)(i) == Mul(c[i], s[n - i])
    ensures Sum(RecTerm(c, s, n), i + 1) == Add(Sum(RecTerm(c, s, n), i), Mul(c[i], s[n - i]))
    ensures i == 0 ==> Sum(RecTerm(c, s, n), i + 1) == Mul(c[i], s[n - i])
  {
    hide Add, Mul;
    assert Coef(c, i) == c[i] && Coef(s, n - i) == s[n - i];
    AddZero(Mul(c[i], s[n - i]));
  }

  lemma DiscPrefix(c: seq<bv8>, s: seq<bv8>, n: nat, len: nat)
    requires |c| == MAX_POLY && len < MAX_POLY && forall i | len < i < MAX_POLY :: c[i] == 0
    ensures Disc(c, s, n) == Sum(RecTerm(c, s, n), len + 1)
  {
    hide Mul, Sum;
    forall i: int | len + 1 <= i < MAX_POLY ensures RecTerm(c, s, n)(i) == 0 {
      MulZeroLeft(Coef(s, n - i));
    }
    SumTail(RecTerm(c, s, n), len + 1, MAX_POLY);
  }

  /** Finds a shortest recurrence for s[..count]. */
  method BerlekampMassey(s: array<bv8>, count: nat, gf: Field, sigma: array<bv8>)
    requires s.Length == sigma.Length == MAX_POLY && sigma != s
    requires count < MAX_POLY && HasAll(gf, s[..])
    modifies sigma
    ensures HasAll(gf, sigma[..])
    ensures Image(gf, sigma[..]) == Massey(Image(gf, s[..]), count).c
  {
    hide *;
    var C := new bv8[MAX_POLY](i => 0);
    var B := new bv8[MAX_POLY](i => 0);
    var L, m := 0, 1;
    var b: bv8 := 1;
    B[0] := 1;
    C[0] := 1;
    ghost var si := Image(gf, s[..]);
    EmbedOne(gf);
    assert C[..] == B[..];
    StartState(gf, C[..], si);
    for n := 0 to count
      invariant HasAll(gf, C[..]) && HasAll(gf, B[..]) && gf.Has(b)
      invariant var st := Massey(si, n);
                st.c == Image(gf, C[..]) && st.b == Image(gf, B[..]) && st.bd == gf.Embed(b) && st.len == L && st.m == m
    {
      ghost var st := Massey(si, n);
      MasseyHolds(si, n);
      InvariantShape(st, si, n);
      ImageZeros(gf, C[..], L, st.c, si, n);
      var d := Discrepancy(C, s, n, L, gf);
      var mult := gf.Exp((gf.p - gf.Log(b) + gf.Log(d)) % gf.p);
      EmbedZero(gf, d); EmbedZero(gf, b);
      if d == 0 {
        NextFits(si, n);
        m := m + 1;
      } else if L * 2 <= n {
        Quotient(gf, b, d);
        NextCorrects(si, n, gf.Embed(mult));
        var T := new bv8[MAX_POLY](i => 0);
        Copy(T, C);
        PolyAdd(C, B, mult, m, gf);
        Copy(B, T);
        L := n + 1 - L;
        b := d;
        m := 1;
      } else {
        Quotient(gf, b, d);
        NextCorrects(si, n, gf.Embed(mult));
        PolyAdd(C, B, mult, m, gf);
        m := m + 1;
      }
    }
    Copy(sigma, C);
  }

  lemma StartState(gf: Field, c: seq<bv8>, s: seq<bv8>)
    requires |c| == MAX_POLY && c[0] == 1 && forall i | 0 < i < MAX_POLY :: c[i] == 0
    ensures HasAll(gf, c)
    ensures Massey(s, 0) == State(Image(gf, c), Image(gf, c), 0, 0, 1, 1)
  {
    hide Field.Embed, Field.Has;
    EmbedOne(gf);
    assert Begin().c == Image(gf, c);
  }

  method Copy(dst: array<bv8>, src: array<bv8>)
    requires dst.Length == src.Length && dst != src
    modifies dst
    ensures dst[..] == src[..]
  {
    for i := 0 to dst.Length
      invariant dst[..i] == src[..i]
    {
      dst[i] := src[i];
    }
  }

  lemma InvariantShape(st: State, s: seq<bv8>, n: nat)
    requires Invariant(st, s, n)
    ensures st.len <= n < MAX_POLY && |st.c| == |st.b| == MAX_POLY && st.bd != 0
    ensures IsRecurrence(st.c, st.len, s, n) && IsShortest(st.len, s, n)
  {}

  /** Coefficients beyond the length are 0 in the array because they are in the image. */
  lemma ImageZeros(gf: Field, c: seq<bv8>, len: nat, image: seq<bv8>, s: seq<bv8>, n: nat)
    requires HasAll(gf, c) && image == Image(gf, c) && IsRecurrence(image, len, s, n)
    ensures c[0] == 1 && forall i | len < i < MAX_POLY :: c[i] == 0
  {
    hide Disc, Field.Embed, Field.Has;
    forall i | len < i < MAX_POLY ensures c[i] == 0 {
      EmbedZero(gf, c[i]);
    }
    EmbedOne(gf);
    EmbedInjective(gf, c[0], 1);
  }

  lemma EmbedInjective(gf: Field, a: bv8, b: bv8)
    requires gf.Has(a) && gf.Embed(a) == gf.Embed(b)
    requires b == 1
    ensures a == b
  {
    EmbedOne(gf);
    EmbedAdd(gf, a, b);
    hide Add, Field.Embed;
    AddEq(gf.Embed(a), gf.Embed(b));
    EmbedZero(gf, Add(a, b));
    AddEq(a, b);
  }
}
