/** Correction of one data block, in place in the decoder's buffer. */
module BlockCorrection {
  import opened Results
  import opened Gf256
  import opened GfTables
  import opened Sums
  import opened Horner
  import opened Recurrence
  import opened Decoding
  import opened Galois
  import opened PolyOps
  import opened BlockCode

  /** Computes the first npar syndromes of the block at data[at..at+bs] into s, and whether any of
      them is nonzero. */
  method BlockSyndromes(data: array<bv8>, at: nat, bs: nat, npar: nat, s: array<bv8>) returns (nonzero: bool)
    requires s.Length == MAX_POLY && s != data && npar <= MAX_POLY && at + bs <= data.Length
    modifies s
    ensures nonzero <==> !IsCodeword(data[at..at + bs], npar)
    ensures forall i | 0 <= i < MAX_POLY :: s[i] == if i < npar then Syndrome(data[at..at + bs], i) else 0
  {
    hide *;
    ghost var block := data[at..at + bs];
    nonzero := false;
    for i := 0 to MAX_POLY
      invariant forall k | 0 <= k < i :: s[k] == 0
    {
      s[i] := 0;
    }
    for i := 0 to npar
      invariant data[at..at + bs] == block
      invariant forall k | 0 <= k < MAX_POLY :: s[k] == if k < i then Syndrome(block, k) else 0
      invariant nonzero <==> exists k :: 0 <= k < i && Syndrome(block, k) != 0
    {
      SuffixStart(block, i);
      for j := 0 to bs
        invariant data[at..at + bs] == block
        invariant forall k | 0 <= k < MAX_POLY && k != i :: s[k] == if k < i then Syndrome(block, k) else 0
        invariant s[i] == Hor(block[bs - j..], j - 1, Alpha(i))
      {
        var c := data[at + bs - j - 1];
        assert c == block[bs - j - 1];
        SuffixStep(block, i, j);
        if c == 0 {
          continue;
        }
        s[i] := Add(s[i], Exp((Log(c) + i * j) % 255));
      }
      assert block[bs - bs..] == block;
      SyndromeDef(block, i);
      if s[i] != 0 {
        nonzero := true;
      }
    }
    CodewordDef(block, npar);
  }

  lemma SyndromeDef(block: seq<bv8>, i: nat)
    ensures Syndrome(block, i) == Hor(block, |block| - 1, Alpha(i))
  {}

  lemma CodewordDef(block: seq<bv8>, npar: nat)
    ensures IsCodeword(block, npar) <==> forall i | 0 <= i < npar :: Syndrome(block, i) == 0
  {}

  lemma SuffixStart(block: seq<bv8>, i: nat)
    ensures Hor(block[|block| - 0..], -1, Alpha(i)) == 0
  {}

  /** Taking one more coefficient of the block into the syndrome, as the decoder forms the term. */
  lemma SuffixStep(block: seq<bv8>, i: nat, j: nat)
    requires j < |block|
    ensures var c := block[|block| - j - 1];
            var rest := Hor(block[|block| - j..], j - 1, Alpha(i));
            Hor(block[|block| - (j + 1)..], j, Alpha(i)) ==
            if c == 0 then rest else Add(rest, Exp((Log(c) + i * j) % 255))
  {
    hide Add, Mul, Hor, Alpha, Exp, Log;
    var c, n := block[|block| - j - 1], |block|;
    var rest := Hor(block[n - j..], j - 1, Alpha(i));
    var p := block[n - (j + 1)..];
    assert p[0] == c && p[1..] == block[n - j..];
    HorCons(p, j, Alpha(i));
    PowAlpha(i, j);
    if c == 0 {
      MulZeroLeft(Alpha(i * j));
      AddZero(rest);
    } else {
      LogIsLogarithm(c);
      AlphaAdd(Log(c), i * j);
      AlphaMod(Log(c) + i * j);
      ExpIsAlpha((Log(c) + i * j) % 255);
      AddComm(Mul(c, Alpha(i * j)), rest);
    }
  }

  /** Computes the evaluator: sigma times the syndromes moved down by one, up to npar terms. */
  method ElocPoly(omega: array<bv8>, s: array<bv8>, sigma: array<bv8>, npar: nat)
    requires omega.Length == s.Length == sigma.Length == MAX_POLY && omega != s && omega != sigma
    requires npar < MAX_POLY - 1
    modifies omega
    ensures IsEvaluator(omega[..], sigma[..], s[..], npar + 1)
  {
    hide Add, Mul, Sum, RecTerm, Exp, Log, LogTable, ExpTable;
    ghost var c, t := sigma[..], s[..];
    for i := 0 to MAX_POLY
      invariant forall k | 0 <= k < i :: omega[k] == 0
    {
      omega[i] := 0;
    }
    PartialStart(c, t, npar);
    for i := 0 to npar
      invariant sigma[..] == c && s[..] == t
      invariant forall k: nat | k < MAX_POLY :: omega[k] == Partial(c, t, npar, k, i)
    {
      var a := sigma[i];
      var logA := Log(a);
      if a == 0 {
        forall k: nat | k < MAX_POLY ensures Partial(c, t, npar, k, i + 1) == Partial(c, t, npar, k, i) {
          PartialSkip(c, t, npar, k, i, 0);
        }
        continue;
      }
      var j := 0;
      while j + 1 < MAX_POLY
        invariant 0 <= j <= MAX_POLY - 1 && i + j <= npar
        invariant sigma[..] == c && s[..] == t
        invariant forall k: nat | k < MAX_POLY ::
          omega[k] == Partial(c, t, npar, k, if i <= k < i + j then i + 1 else i)
        decreases MAX_POLY - j
      {
        var b := s[j + 1];
        if i + j >= npar {
          break;
        }
        PartialStep(c, t, npar, i, j);
        if b != 0 {
          TableProduct(a, b);
          omega[i + j] := Add(omega[i + j], Exp((logA + Log(b)) % 255));
        }
        j := j + 1;
      }
      forall k: nat | k < MAX_POLY && !(i <= k < npar)
        ensures Partial(c, t, npar, k, i + 1) == Partial(c, t, npar, k, i)
      {
        PartialSkip(c, t, npar, k, i, 1);
      }
    }
  }

  /** Coefficient k of the evaluator after the first i coefficients of sigma. */
  ghost function Partial(c: seq<bv8>, s: seq<bv8>, npar: nat, k: nat, i: nat): bv8 {
    if k < npar then Sum(RecTerm(c, s, k + 1), if i <= k then i else k + 1) else 0
  }

  lemma PartialStart(c: seq<bv8>, s: seq<bv8>, npar: nat)
    ensures forall k: nat | k < MAX_POLY :: Partial(c, s, npar, k, 0) == 0
  {}

  lemma PartialSkip(c: seq<bv8>, s: seq<bv8>, npar: nat, k: nat, i: nat, a: bv8)
    requires i < |c| && (c[i] == 0 || !(i <= k < npar))
    ensures Partial(c, s, npar, k, i + 1) == Partial(c, s, npar, k, i)
  {
    hide Add, Mul;
    if i <= k < npar {
      MulZeroLeft(Coef(s, k + 1 - i));
      AddZero(Sum(RecTerm(c, s, k + 1), i));
    }
  }

  lemma PartialStep(c: seq<bv8>, s: seq<bv8>, npar: nat, i: nat, j: nat)
    requires i < |c| && j + 1 < |s| && i + j < npar
    ensures Partial(c, s, npar, i + j, i + 1) ==
            Add(Partial(c, s, npar, i + j, i), Mul(c[i], s[j + 1]))
    ensures s[j + 1] == 0 ==> Partial(c, s, npar, i + j, i + 1) == Partial(c, s, npar, i + j, i)
  {
    hide Add, Mul;
    assert Coef(c, i) == c[i] && Coef(s, i + j + 1 - i) == s[j + 1];
    MulZero(c[i]);
    AddZero(Partial(c, s, npar, i + j, i));
  }

  // ----- correction

  /** What the decoder adds at the place with locator power i. */
  ghost function ErrorAt(sigma: seq<bv8>, deriv: seq<bv8>, omega: seq<bv8>, i: nat): bv8
    requires i <= 255
  {
    var y := Exp(255 - i);
    if Eval(sigma, y, MAX_POLY) != 0 then 0
    else Exp((255 - Log(Eval(deriv, y, MAX_POLY)) + Log(Eval(omega, y, MAX_POLY))) % 255)
  }

  /** Stores the derivative of sigma in deriv, whose entries are 0. */
  method Differentiate(deriv: array<bv8>, sigma: array<bv8>)
    requires deriv.Length == sigma.Length == MAX_POLY && deriv != sigma
    requires forall k | 0 <= k < MAX_POLY :: deriv[k] == 0
    modifies deriv
    ensures deriv[..] == Derivative(sigma[..], MAX_POLY)
  {
    hide Derivative;
    ghost var c := sigma[..];
    var i := 0;
    while i + 1 < MAX_POLY
      invariant i % 2 == 0 && i <= MAX_POLY && sigma[..] == c
      invariant forall k | 0 <= k < MAX_POLY :: deriv[k] == if k < i && k % 2 == 0 then c[k + 1] else 0
    {
      deriv[i] := sigma[i + 1];
      i := i + 2;
    }
    DerivativeDef(c, deriv[..]);
  }

  /** Finds the error places among the roots of sigma and adds the error values there. */
  method ApplyErrors(data: array<bv8>, at: nat, bs: nat, sigma: array<bv8>, deriv: array<bv8>, omega: array<bv8>)
    requires at + bs <= data.Length && bs <= 255
    requires sigma.Length == deriv.Length == omega.Length == MAX_POLY
    requires data != sigma && data != deriv && data != omega
    modifies data
    ensures data[..at] == old(data[..at]) && data[at + bs..] == old(data[at + bs..])
    ensures forall q | at <= q < at + bs :: data[q] ==
              Add(old(data[q]), ErrorAt(sigma[..], deriv[..], omega[..], at + bs - q - 1))
  {
    hide *;
    ghost var c, d, w := sigma[..], deriv[..], omega[..];
    AllInField(c); AllInField(d); AllInField(w);
    for i := 0 to bs
      invariant forall q | 0 <= q < data.Length && !(at + bs - i <= q < at + bs) :: data[q] == old(data[q])
      invariant forall q | at + bs - i <= q < at + bs :: data[q] == Add(old(data[q]), ErrorAt(c, d, w, at + bs - q - 1))
      invariant sigma[..] == c && deriv[..] == d && omega[..] == w
    {
      var xinv := Exp(255 - i);
      InField(xinv);
      ErrorAtDef(c, d, w, i, data[at + bs - i - 1]);
      var root := PolyEval(sigma, xinv, Field.Gf256);
      InField(root);
      if root == 0 {
        var sdX := PolyEval(deriv, xinv, Field.Gf256);
        var omegaX := PolyEval(omega, xinv, Field.Gf256);
        InField(sdX); InField(omegaX);
        var error := Exp((255 - Log(sdX) + Log(omegaX)) % 255);
        data[at + bs - i - 1] := Add(data[at + bs - i - 1], error);
      }
    }
  }

  /** ok and result are right for every codeword that differs from the block in at most half as
      many places as there are check bytes. */
  ghost predicate Repairs(block: seq<bv8>, npar: nat, ok: bool, result: seq<bv8>) {
    forall c: seq<bv8> ::
      |c| == |block| && IsCodeword(c, npar) && 2 * Distance(block, c) <= npar ==> ok && result == c
  }

  ghost function Syndromes(block: seq<bv8>, npar: nat): (t: seq<bv8>)
    ensures |t| == MAX_POLY
  {
    seq(MAX_POLY, i => if 0 <= i < npar then Syndrome(block, i) else 0)
  }

  ghost function EvaluatorOf(c: seq<bv8>, s: seq<bv8>, n: nat): (w: seq<bv8>)
    ensures IsEvaluator(w, c, s, n)
  {
    seq(MAX_POLY, k => if k >= 0 && k + 1 < n then Sum(RecTerm(c, s, k + 1), k + 1) else 0)
  }

  /** What becomes of a block: a codeword stays, and any other gets the errors computed for it. */
  ghost function Corrected(block: seq<bv8>, npar: nat): (r: seq<bv8>)
    requires |block| <= 255
    ensures |r| == |block|
  {
    if IsCodeword(block, npar) then block
    else
      var t := Syndromes(block, npar);
      var c := Massey(t, npar).c;
      WithErrors(block, c, Derivative(c, MAX_POLY), EvaluatorOf(c, t, npar))
  }

  ghost function WithErrors(block: seq<bv8>, sigma: seq<bv8>, deriv: seq<bv8>, omega: seq<bv8>): (r: seq<bv8>)
    requires |block| <= 255
    ensures |r| == |block|
  {
    seq(|block|, i requires 0 <= i < |block| => Add(block[i], ErrorAt(sigma, deriv, omega, |block| - i - 1)))
  }

  lemma WithErrorsAt(block: seq<bv8>, sigma: seq<bv8>, deriv: seq<bv8>, omega: seq<bv8>)
    requires |block| <= 255
    ensures forall i | 0 <= i < |block| ::
              WithErrors(block, sigma, deriv, omega)[i] == Add(block[i], ErrorAt(sigma, deriv, omega, |block| - i - 1))
  {
    hide Add, ErrorAt;
  }

  /** The corrected block is the codeword next to the block, if there is one near enough. */
  lemma CorrectedRepairs(block: seq<bv8>, npar: nat)
    requires |block| <= 255 && npar < MAX_POLY
    ensures Repairs(block, npar, IsCodeword(Corrected(block, npar), npar), Corrected(block, npar))
  {
    hide IsCodeword, Syndrome, Distance, Derivative, EvaluatorOf, Massey, ErrorAt, IsRecurrence, IsShortest,
      IsEvaluator, Add, WithErrors;
    var result := Corrected(block, npar);
    forall v: seq<bv8> | |v| == |block| && IsCodeword(v, npar) && 2 * Distance(block, v) <= npar ensures result == v {
      if IsCodeword(block, npar) {
        MinimumDistance(block, v, npar);
      } else {
        var t := Syndromes(block, npar);
        var st := Massey(t, npar);
        MasseyIsShortest(t, npar);
        var d, w := Derivative(st.c, MAX_POLY), EvaluatorOf(st.c, t, npar);
        WithErrorsAt(block, st.c, d, w);
        CorrectionIsRight(block, v, result, npar, st.c, st.len, d, w, t);
      }
    }
    RepairsDef(block, npar, IsCodeword(result, npar), result);
  }

  /** Corrects the block of dw data and bs - dw check bytes at data[at..at+bs]. */
  method CorrectBlock(data: array<bv8>, at: nat, bs: nat, dw: nat) returns (outcome: DecodeError)
    requires at + bs <= data.Length && dw <= bs <= 255 && bs - dw < MAX_POLY
    modifies data
    ensures data[..at] == old(data[..at]) && data[at + bs..] == old(data[at + bs..])
    ensures data[at..at + bs] == Corrected(old(data[at..at + bs]), bs - dw)
    ensures outcome == Success || outcome == DataEcc
    ensures outcome.Success? <==> IsCodeword(data[at..at + bs], bs - dw)
    ensures Repairs(old(data[at..at + bs]), bs - dw, outcome.Success?, data[at..at + bs])
  {
    hide *;
    var npar := bs - dw;
    ghost var block := data[at..at + bs];
    CorrectedRepairs(block, npar);
    var s := new bv8[MAX_POLY](i => 0);
    var sigma := new bv8[MAX_POLY](i => 0);
    var deriv := new bv8[MAX_POLY](i => 0);
    var omega := new bv8[MAX_POLY](i => 0);
    var nonzero := BlockSyndromes(data, at, bs, npar, s);
    if !nonzero {
      CodewordStays(block, npar);
      return Success;
    }
    ghost var t := s[..];
    SyndromesDef(block, npar, t);
    AllInField(t);
    BerlekampMassey(s, npar, Field.Gf256, sigma);
    ghost var c := sigma[..];
    AllInField(c);
    Differentiate(deriv, sigma);
    ghost var d := deriv[..];
    CodewordDef(block, npar);
    ElocPoly(omega, s, sigma, npar - 1);
    ghost var w := omega[..];
    SameEvaluator(w, c, t, npar);
    ApplyErrors(data, at, bs, sigma, deriv, omega);
    ghost var result := data[at..at + bs];
    forall i | 0 <= i < bs ensures result[i] == Add(block[i], ErrorAt(c, d, w, bs - i - 1)) {
      assert result[i] == data[at + i] && block[i] == old(data[at + i]);
    }
    CorrectedIs(block, npar, t, c, d, w, result);
    nonzero := BlockSyndromes(data, at, bs, npar, s);
    if nonzero {
      return DataEcc;
    }
    return Success;
  }

  lemma CodewordStays(block: seq<bv8>, npar: nat)
    requires |block| <= 255 && IsCodeword(block, npar)
    ensures Corrected(block, npar) == block
  {
    hide IsCodeword;
  }

  lemma SyndromesDef(block: seq<bv8>, npar: nat, t: seq<bv8>)
    requires |t| == MAX_POLY && forall i | 0 <= i < MAX_POLY :: t[i] == if i < npar then Syndrome(block, i) else 0
    ensures t == Syndromes(block, npar)
  {
    hide Syndrome;
  }

  lemma SameEvaluator(w: seq<bv8>, c: seq<bv8>, s: seq<bv8>, n: nat)
    requires IsEvaluator(w, c, s, n)
    ensures w == EvaluatorOf(c, s, n)
  {
    hide Sum, RecTerm;
  }

  lemma CorrectedIs(block: seq<bv8>, npar: nat, t: seq<bv8>, c: seq<bv8>, d: seq<bv8>, w: seq<bv8>, result: seq<bv8>)
    requires |block| == |result| <= 255 && !IsCodeword(block, npar)
    requires t == Syndromes(block, npar) && c == Massey(t, npar).c
    requires d == Derivative(c, MAX_POLY) && w == EvaluatorOf(c, t, npar)
    requires forall i | 0 <= i < |block| :: result[i] == Add(block[i], ErrorAt(c, d, w, |block| - i - 1))
    ensures result == Corrected(block, npar)
  {
    hide IsCodeword, Syndromes, Massey, Derivative, EvaluatorOf, ErrorAt, Add, WithErrors;
    WithErrorsAt(block, c, d, w);
  }

  lemma RepairsDef(block: seq<bv8>, npar: nat, ok: bool, result: seq<bv8>)
    requires forall c: seq<bv8> | |c| == |block| && IsCodeword(c, npar) && 2 * Distance(block, c) <= npar ::
               result == c && (result == c ==> ok)
    ensures Repairs(block, npar, ok, result)
  {}

  lemma InField(a: bv8)
    ensures Field.Gf256.Has(a) && Field.Gf256.Embed(a) == a
  {}

  lemma DerivativeDef(c: seq<bv8>, d: seq<bv8>)
    requires |c| == |d| == MAX_POLY
    requires forall k | 0 <= k < MAX_POLY :: d[k] == if k < MAX_POLY && k % 2 == 0 then c[k + 1] else 0
    ensures d == Derivative(c, MAX_POLY)
  {}

  lemma ErrorAtDef(sigma: seq<bv8>, deriv: seq<bv8>, omega: seq<bv8>, i: nat, b: bv8)
    requires i <= 255
    ensures ErrorAt(sigma, deriv, omega, i) ==
            var y := Exp(255 - i);
            if Eval(sigma, y, MAX_POLY) != 0 then 0
            else Exp((255 - Log(Eval(deriv, y, MAX_POLY)) + Log(Eval(omega, y, MAX_POLY))) % 255)
    ensures Add(b, 0) == b
  {
    hide Exp, Log, Eval;
  }

  /** If some codeword v is near enough, the corrections turn the block into v. */
  lemma CorrectionIsRight(block: seq<bv8>, v: seq<bv8>, result: seq<bv8>, npar: nat,
                          c: seq<bv8>, len: nat, d: seq<bv8>, w: seq<bv8>, t: seq<bv8>)
    requires |block| == |v| == |result| <= 255 && npar < MAX_POLY && |t| == MAX_POLY
    requires IsCodeword(v, npar) && 2 * Distance(block, v) <= npar
    requires forall i | 0 <= i < npar :: t[i] == Syndrome(block, i)
    requires IsRecurrence(c, len, t, npar) && IsShortest(len, t, npar)
    requires d == Derivative(c, MAX_POLY) && IsEvaluator(w, c, t, npar)
    requires forall i | 0 <= i < |v| :: result[i] == Add(block[i], ErrorAt(c, d, w, |v| - i - 1))
    ensures result == v
  {
    hide Add, ErrorAt, IsRecurrence, IsShortest, IsEvaluator, Derivative;
    forall i | 0 <= i < |v| ensures result[i] == v[i] {
      var k := |v| - i - 1;
      ErrorIsRight(block, v, npar, c, len, d, w, t, k);
      var e := Add(block[i], v[i]);
      AddAssoc(block[i], block[i], v[i]); AddZero(block[i]); AddZero(v[i]);
    }
  }

  /** The syndromes are the power sums of the errors. */
  lemma DifferenceSyndromes(block: seq<bv8>, v: seq<bv8>, npar: nat, t: seq<bv8>)
    requires |block| == |v| <= 255 && IsCodeword(v, npar) && npar <= |t|
    requires forall i | 0 <= i < npar :: t[i] == Syndrome(block, i)
    ensures AreSyndromes(Locators(Difference(block, v)), Values(Difference(block, v)), t, npar)
  {
    hide Add, Mul, Exp, Log, Alpha, Hor, PowerSum, Syndrome;
    var e := Difference(block, v);
    var xs, ys := Locators(e), Values(e);
    forall i | 0 <= i < npar ensures t[i] == PowerSum(xs, ys, i) {
      SyndromeDifference(block, v, i);
      AddZero(Syndrome(block, i));
      ErrorPowerSum(e, i);
      SyndromeDef(e, i);
    }
  }

  /** At every place the decoder adds exactly the difference between block and codeword. */
  lemma ErrorIsRight(block: seq<bv8>, v: seq<bv8>, npar: nat,
                     c: seq<bv8>, len: nat, d: seq<bv8>, w: seq<bv8>, t: seq<bv8>, k: nat)
    requires |block| == |v| <= 255 && npar < MAX_POLY && |t| == MAX_POLY && k < |v|
    requires IsCodeword(v, npar) && 2 * Distance(block, v) <= npar
    requires forall i | 0 <= i < npar :: t[i] == Syndrome(block, i)
    requires IsRecurrence(c, len, t, npar) && IsShortest(len, t, npar)
    requires d == Derivative(c, MAX_POLY) && IsEvaluator(w, c, t, npar)
    ensures ErrorAt(c, d, w, k) == Add(block[|v| - k - 1], v[|v| - k - 1])
  {
    hide Add, Mul, Exp, Log, Alpha, Eval, IsRecurrence, IsShortest, IsEvaluator, Derivative, IsErrorList, Hor,
      PowerSum, Syndrome, IsCodeword, AreSyndromes, Locators, Values, Distance;
    var e := Difference(block, v);
    var xs, ys := Locators(e), Values(e);
    var x, y := Alpha(k), Exp(255 - k);
    ErrorCount(block, v);
    ErrorList(e);
    DifferenceSyndromes(block, v, npar, t);
    ExpIsAlpha(255 - k);
    AlphaAdd(k, 255 - k); Alpha255();
    AlphaNonZero(k);
    ErrorFound(c, d, w, len, t, npar, xs, ys, x, y);
    ErrorAtPlace(e, k);
    if x in xs {
      var l :| 0 <= l < |xs| && xs[l] == x;
      var sd, om := Eval(d, y, MAX_POLY), Eval(w, y, MAX_POLY);
      TableQuotient(sd, om);
      MulCancel(Exp((255 - Log(sd) + Log(om)) % 255), ys[l], sd);
    }
  }

  lemma AllInField(s: seq<bv8>)
    ensures HasAll(Field.Gf256, s) && Image(Field.Gf256, s) == s
  {}
}
