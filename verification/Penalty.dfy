/** The penalty score of a grid, and the one-pass scan that computes it. */
module Penalty {
  import opened Grids

  const N1: nat := 3
  const N2: nat := 3
  const N3: nat := 40
  const N4: nat := 10

  // ----- runs of equal modules

  predicate StartsRun(l: seq<bool>, s: nat)
    requires s < |l|
  {
    s == 0 || l[s - 1] != l[s]
  }

  function RunLength(l: seq<bool>, s: nat): nat
    requires s < |l|
    decreases |l| - s
  {
    if s + 1 < |l| && l[s + 1] == l[s] then 1 + RunLength(l, s + 1) else 1
  }

  function RunScore(n: nat): nat {
    if n < 5 then 0 else N1 + (n - 5)
  }

  /** The score of the runs that start among the first n modules. */
  function RunPenalty(l: seq<bool>, n: nat): nat
    requires n <= |l|
  {
    if n == 0 then 0
    else RunPenalty(l, n - 1) + (if StartsRun(l, n - 1) then RunScore(RunLength(l, n - 1)) else 0)
  }

  // ----- finder-like patterns

  ghost predicate Uniform(l: seq<bool>, lo: int, hi: int, c: bool) {
    (lo < hi ==> 0 <= lo && hi <= |l|) && forall p | lo <= p < hi :: l[p] == c
  }

  /** Dark, light, dark, light, dark in the ratio 1:1:3:1:1 from p on, with light modules before and
      after. */
  ghost predicate FinderAt(l: seq<bool>, p: int, n: int, before: int, after: int) {
    && n >= 1 && Uniform(l, p - before, p, false)
    && Uniform(l, p, p + n, true) && Uniform(l, p + n, p + 2 * n, false) && Uniform(l, p + 2 * n, p + 5 * n, true)
    && Uniform(l, p + 5 * n, p + 6 * n, false) && Uniform(l, p + 6 * n, p + 7 * n, true)
    && Uniform(l, p + 7 * n, p + 7 * n + after, false)
  }

  ghost function FindersAt(l: seq<bool>, p: int): nat {
    (if exists n: int :: FinderAt(l, p, n, 4 * n, n) then 1 else 0) +
    (if exists n: int :: FinderAt(l, p, n, n, 4 * n) then 1 else 0)
  }

  /** The patterns that start among the first n modules. */
  ghost function Finders(l: seq<bool>, n: nat): nat {
    if n == 0 then 0 else Finders(l, n - 1) + FindersAt(l, n - 1)
  }

  function Lights(n: nat): seq<bool> {
    seq(n, i => false)
  }

  /** A line between light borders as wide as the line. */
  function Padded(line: seq<bool>): seq<bool> {
    Lights(|line|) + line + Lights(|line|)
  }

  ghost function LinePenalty(line: seq<bool>): nat {
    RunPenalty(line, |line|) + N3 * Finders(Padded(line), 3 * |line|)
  }

  // ----- the runs of the padded line

  /** cuts are the starts of the first runs of l, light and dark in turn, and the end of the last. */
  ghost predicate AreCuts(l: seq<bool>, cuts: seq<int>) {
    && |cuts| > 0 && cuts[0] == 0
    && forall i | 0 <= i < |cuts| - 1 :: IsRun(l, cuts[i], cuts[i + 1], i % 2 == 1)
  }

  ghost predicate IsRun(l: seq<bool>, lo: int, hi: int, c: bool) {
    0 <= lo < hi <= |l| && Uniform(l, lo, hi, c) && (hi < |l| ==> l[hi] != c)
  }

  function RunOf(cuts: seq<int>, i: int): int
    requires 0 <= i < |cuts| - 1
  {
    cuts[i + 1] - cuts[i]
  }

  /** A run ends where the colour changes. */
  lemma RunEnds(l: seq<bool>, cuts: seq<int>, i: int, e: int, c: bool)
    requires AreCuts(l, cuts) && 0 <= i < |cuts| - 1 && cuts[i] < e && c == (i % 2 == 1)
    requires Uniform(l, cuts[i], e, c) && Uniform(l, e, e + 1, !c)
    ensures cuts[i + 1] == e
  {
    assert IsRun(l, cuts[i], cuts[i + 1], c);
    UniformAt(l, e, e + 1, !c, e);
  }

  lemma UniformAt(l: seq<bool>, lo: int, hi: int, c: bool, p: int)
    requires Uniform(l, lo, hi, c) && lo <= p < hi
    ensures 0 <= p < |l| && l[p] == c
  {}

  /** Each part of a pattern is followed by a module of the other colour. */
  lemma PatternParts(l: seq<bool>, p: int, n: int, before: int, after: int)
    requires FinderAt(l, p, n, before, after) && after >= 1
    ensures n >= 1 && p + 7 * n < |l| && Uniform(l, p - before, p, false)
    ensures Uniform(l, p, p + n, true) && Uniform(l, p + n, p + n + 1, false)
    ensures Uniform(l, p + n, p + 2 * n, false) && Uniform(l, p + 2 * n, p + 2 * n + 1, true)
    ensures Uniform(l, p + 2 * n, p + 5 * n, true) && Uniform(l, p + 5 * n, p + 5 * n + 1, false)
    ensures Uniform(l, p + 5 * n, p + 6 * n, false) && Uniform(l, p + 6 * n, p + 6 * n + 1, true)
    ensures Uniform(l, p + 6 * n, p + 7 * n, true) && Uniform(l, p + 7 * n, p + 7 * n + 1, false)
    ensures Uniform(l, p + 7 * n, p + 7 * n + after, false)
  {}

  /** The lengths that make a pattern of unit n at dark run i. */
  ghost predicate IsCore(cuts: seq<int>, i: int, n: int)
    requires 0 <= i && i + 5 < |cuts|
  {
    n >= 1 && RunOf(cuts, i) == n && RunOf(cuts, i + 1) == n && RunOf(cuts, i + 2) == 3 * n
    && RunOf(cuts, i + 3) == n && RunOf(cuts, i + 4) == n
  }

  lemma PatternFromRuns(l: seq<bool>, cuts: seq<int>, i: int, n: int, before: int, after: int)
    requires AreCuts(l, cuts) && 1 <= i && i % 2 == 1 && i + 6 < |cuts|
    requires IsCore(cuts, i, n) && RunOf(cuts, i - 1) >= before && RunOf(cuts, i + 5) >= after
    ensures FinderAt(l, cuts[i], n, before, after)
  {
    forall k | i - 1 <= k <= i + 5 ensures Uniform(l, cuts[k], cuts[k + 1], k % 2 == 1) {
      assert IsRun(l, cuts[k], cuts[k + 1], k % 2 == 1);
    }
    assert i % 2 == (i + 2) % 2 == (i + 4) % 2 == 1 && (i - 1) % 2 == (i + 1) % 2 == (i + 3) % 2 == (i + 5) % 2 == 0;
  }

  lemma LightRunAtLeast(l: seq<bool>, cuts: seq<int>, k: int, lo: int, hi: int)
    requires AreCuts(l, cuts) && 0 <= k < |cuts| - 1 && k % 2 == 0 && Uniform(l, lo, hi, false) && lo < hi
    ensures hi == cuts[k + 1] ==> lo >= cuts[k]
    ensures lo == cuts[k] ==> hi <= cuts[k + 1]
  {
    assert IsRun(l, cuts[k], cuts[k + 1], false);
    if k > 0 {
      assert IsRun(l, cuts[k - 1], cuts[k], true);
      UniformAt(l, cuts[k - 1], cuts[k], true, cuts[k] - 1);
    }
  }

  lemma Parities(i: int)
    requires i % 2 == 1
    ensures (i - 1) % 2 == 0 && (i + 1) % 2 == 0 && (i + 2) % 2 == 1 && (i + 3) % 2 == 0 && (i + 4) % 2 == 1
        && (i + 5) % 2 == 0
  {}

  lemma RunsFromPattern(l: seq<bool>, cuts: seq<int>, i: int, n: int, before: int, after: int)
    requires AreCuts(l, cuts) && 1 <= i && i % 2 == 1 && i + 6 < |cuts|
    requires FinderAt(l, cuts[i], n, before, after) && before >= 1 && after >= 1
    ensures IsCore(cuts, i, n) && RunOf(cuts, i - 1) >= before && RunOf(cuts, i + 5) >= after
  {
    var p := cuts[i];
    PatternParts(l, p, n, before, after);
    Parities(i);
    hide FinderAt, Uniform, AreCuts, IsRun;
    RunEnds(l, cuts, i, p + n, true);
    RunEnds(l, cuts, i + 1, p + 2 * n, false);
    RunEnds(l, cuts, i + 2, p + 5 * n, true);
    RunEnds(l, cuts, i + 3, p + 6 * n, false);
    RunEnds(l, cuts, i + 4, p + 7 * n, true);
    LightRunAtLeast(l, cuts, i - 1, p - before, p);
    LightRunAtLeast(l, cuts, i + 5, p + 7 * n, p + 7 * n + after);
  }

  // ----- the run history

  /** How many patterns a run history ends with: its entries are run lengths, the last one first. */
  function CountPatterns(h: seq<nat>): nat
    requires |h| == 7
  {
    var n := h[1];
    var core := n > 0 && h[2] == n && h[3] == n * 3 && h[4] == n && h[5] == n;
    (if core && h[0] >= n * 4 && h[6] >= n then 1 else 0) +
    (if core && h[6] >= n * 4 && h[0] >= n then 1 else 0)
  }

  /** The history after the runs of cuts. */
  ghost predicate IsHistory(cuts: seq<int>, h: seq<nat>) {
    && |h| == 7 && |cuts| > 0
    && forall k | 0 <= k < 7 :: h[k] == if k < |cuts| - 1 then cuts[|cuts| - 1 - k] - cuts[|cuts| - 2 - k] else 0
  }

  lemma NoPatternAt(l: seq<bool>, p: int)
    requires 0 <= p < |l| && (!l[p] || p == 0 || l[p - 1])
    ensures FindersAt(l, p) == 0
  {
    forall n: int | FinderAt(l, p, n, 4 * n, n) || FinderAt(l, p, n, n, 4 * n) ensures false {
      UniformAt(l, p, p + n, true, p);
      UniformAt(l, p - n, p, false, p - 1);
    }
  }

  /** A pattern can only start where a dark run does. */
  lemma {:induction false} FindersInRun(l: seq<bool>, cuts: seq<int>, i: nat, q: nat)
    requires AreCuts(l, cuts) && i < |cuts| - 1 && cuts[i] < q <= cuts[i + 1]
    ensures Finders(l, q) == Finders(l, cuts[i]) + (if i % 2 == 1 then FindersAt(l, cuts[i]) else 0)
  {
    assert IsRun(l, cuts[i], cuts[i + 1], i % 2 == 1);
    if q > cuts[i] + 1 {
      FindersInRun(l, cuts, i, q - 1);
      NoPatternAt(l, q - 1);
    } else if i % 2 == 0 {
      NoPatternAt(l, cuts[i]);
    }
  }

  lemma WideBefore(l: seq<bool>, cuts: seq<int>, i: int, n: int)
    requires AreCuts(l, cuts) && 1 <= i && i % 2 == 1 && i + 6 < |cuts| && n == RunOf(cuts, i + 4)
    ensures (exists k: int :: FinderAt(l, cuts[i], k, 4 * k, k)) <==>
            IsCore(cuts, i, n) && RunOf(cuts, i - 1) >= 4 * n && RunOf(cuts, i + 5) >= n
  {
    if IsCore(cuts, i, n) && RunOf(cuts, i - 1) >= 4 * n && RunOf(cuts, i + 5) >= n {
      PatternFromRuns(l, cuts, i, n, 4 * n, n);
    }
    hide AreCuts, FinderAt, RunOf, IsCore;
    forall k: int | FinderAt(l, cuts[i], k, 4 * k, k)
      ensures IsCore(cuts, i, n) && RunOf(cuts, i - 1) >= 4 * n && RunOf(cuts, i + 5) >= n
    {
      PatternUnit(l, cuts[i], k, 4 * k, k);
      RunsFromPattern(l, cuts, i, k, 4 * k, k);
      CoreUnit(cuts, i, k);
    }
  }

  lemma WideAfter(l: seq<bool>, cuts: seq<int>, i: int, n: int)
    requires AreCuts(l, cuts) && 1 <= i && i % 2 == 1 && i + 6 < |cuts| && n == RunOf(cuts, i + 4)
    ensures (exists k: int :: FinderAt(l, cuts[i], k, k, 4 * k)) <==>
            IsCore(cuts, i, n) && RunOf(cuts, i - 1) >= n && RunOf(cuts, i + 5) >= 4 * n
  {
    if IsCore(cuts, i, n) && RunOf(cuts, i - 1) >= n && RunOf(cuts, i + 5) >= 4 * n {
      PatternFromRuns(l, cuts, i, n, n, 4 * n);
    }
    hide AreCuts, FinderAt, RunOf, IsCore;
    forall k: int | FinderAt(l, cuts[i], k, k, 4 * k)
      ensures IsCore(cuts, i, n) && RunOf(cuts, i - 1) >= n && RunOf(cuts, i + 5) >= 4 * n
    {
      PatternUnit(l, cuts[i], k, k, 4 * k);
      RunsFromPattern(l, cuts, i, k, k, 4 * k);
      CoreUnit(cuts, i, k);
    }
  }

  lemma CoreUnit(cuts: seq<int>, i: int, k: int)
    requires 0 <= i && i + 5 < |cuts| && IsCore(cuts, i, k)
    ensures k == RunOf(cuts, i + 4)
  {}

  /** The patterns at dark run i are those the history shows once five more runs are complete. */
  lemma FindersAtRun(l: seq<bool>, cuts: seq<int>, h: seq<nat>, i: int)
    requires AreCuts(l, cuts) && IsHistory(cuts, h) && i == |cuts| - 7 && 1 <= i && i % 2 == 1
    ensures FindersAt(l, cuts[i]) == CountPatterns(h)
  {
    assert h[0] == RunOf(cuts, i + 5) && h[1] == RunOf(cuts, i + 4) && h[2] == RunOf(cuts, i + 3);
    assert h[3] == RunOf(cuts, i + 2) && h[4] == RunOf(cuts, i + 1) && h[5] == RunOf(cuts, i)
        && h[6] == RunOf(cuts, i - 1);
    hide RunOf, AreCuts, IsHistory, FinderAt;
    WideBefore(l, cuts, i, h[1]);
    WideAfter(l, cuts, i, h[1]);
  }

  lemma PatternUnit(l: seq<bool>, p: int, n: int, before: int, after: int)
    requires FinderAt(l, p, n, before, after)
    ensures n >= 1
  {}

  /** A pattern needs five complete runs after its first. */
  lemma NoPatternLate(l: seq<bool>, cuts: seq<int>, i: int)
    requires AreCuts(l, cuts) && 1 <= i < |cuts| - 1 && i % 2 == 1 && cuts[|cuts| - 1] == |l| && i + 6 >= |cuts|
    ensures FindersAt(l, cuts[i]) == 0
  {
    forall n: int ensures !FinderAt(l, cuts[i], n, 4 * n, n) && !FinderAt(l, cuts[i], n, n, 4 * n) {
      if n >= 1 {
        TooFewRuns(l, cuts, i, n, 4 * n, n);
        TooFewRuns(l, cuts, i, n, n, 4 * n);
      }
    }
  }

  lemma TooFewRuns(l: seq<bool>, cuts: seq<int>, i: int, n: int, before: int, after: int)
    requires AreCuts(l, cuts) && 1 <= i < |cuts| - 1 && i % 2 == 1 && cuts[|cuts| - 1] == |l| && i + 6 >= |cuts|
    requires after >= 1
    ensures !FinderAt(l, cuts[i], n, before, after)
  {
    var p := cuts[i];
    if FinderAt(l, p, n, before, after) {
      PatternParts(l, p, n, before, after);
      Parities(i);
      hide FinderAt, Uniform, AreCuts, IsRun;
      RunEnds(l, cuts, i, p + n, true);
      if i + 2 < |cuts| {
        RunEnds(l, cuts, i + 1, p + 2 * n, false);
        if i + 3 < |cuts| {
          RunEnds(l, cuts, i + 2, p + 5 * n, true);
          if i + 4 < |cuts| {
            RunEnds(l, cuts, i + 3, p + 6 * n, false);
            if i + 5 < |cuts| {
              RunEnds(l, cuts, i + 4, p + 7 * n, true);
            }
          }
        }
      }
    }
  }

  // ----- scanning one line

  /** A run put in front of the history, the oldest dropped. */
  predicate Pushes(h: seq<nat>, run: int, next: seq<nat>) {
    |h| == 7 && run >= 0 && next == [run] + h[..6]
  }

  /** The first run gets the light border. */
  function Bordered(run: nat, h: seq<nat>, size: nat): nat
    requires |h| == 7
  {
    run + (if h[0] == 0 then size else 0)
  }

  /** Puts a run in front of the history. */
  method AddHistory(run: nat, h: array<nat>, size: nat)
    requires h.Length == 7
    modifies h
    ensures Pushes(old(h[..]), Bordered(run, old(h[..]), size), h[..])
  {
    var currentRunLength := run;
    if h[0] == 0 {
      currentRunLength := currentRunLength + size;
    }
    var k := 6;
    while k > 0
      invariant 0 <= k <= 6
      invariant forall j | 0 <= j <= k :: h[j] == old(h[j])
      invariant forall j | k < j < 7 :: h[j] == old(h[j - 1])
    {
      h[k] := h[k - 1];
      k := k - 1;
    }
    h[0] := currentRunLength;
  }

  /** Adding the run from the last cut to e. */
  lemma HistoryStep(l: seq<bool>, cuts: seq<int>, h: seq<nat>, e: int, next: seq<nat>)
    requires AreCuts(l, cuts) && IsHistory(cuts, h)
    requires IsRun(l, cuts[|cuts| - 1], e, |cuts| % 2 == 0)
    requires Pushes(h, e - cuts[|cuts| - 1], next)
    ensures AreCuts(l, cuts + [e]) && IsHistory(cuts + [e], next)
  {
    var all := cuts + [e];
    forall k | 0 <= k < 7
      ensures next[k] == if k < |all| - 1 then all[|all| - 1 - k] - all[|all| - 2 - k] else 0
    {
      if k > 0 {
        assert next[k] == h[k - 1];
      }
    }
  }

  /** The runs of the history lie side by side in the line, so together they are no longer than it. */
  lemma HistoryBound(l: seq<bool>, cuts: seq<int>, h: seq<nat>)
    requires AreCuts(l, cuts) && IsHistory(cuts, h)
    ensures |h| == 7 && h[0] + h[1] + h[2] + h[3] + h[4] + h[5] + h[6] <= |l|
  {
    var n := |cuts| - 1;
    if n > 0 {
      assert IsRun(l, cuts[n - 1], cuts[n], (n - 1) % 2 == 1);
    }
    CutsPositive(l, cuts, if n < 7 then 0 else n - 7);
    hide AreCuts;
  }

  /** The length of a padded line. */
  lemma PaddedLength(line: seq<bool>)
    ensures |Padded(line)| == 3 * |line|
  {}

  /** Where the patterns counted after the runs of cuts end. */
  function Settled(cuts: seq<int>): int
    requires |cuts| > 0
  {
    if |cuts| < 7 then cuts[0] else cuts[|cuts| - 6]
  }

  lemma CutsPositive(l: seq<bool>, cuts: seq<int>, i: nat)
    requires AreCuts(l, cuts) && i < |cuts|
    ensures cuts[i] >= 0
  {
    if i > 0 {
      assert IsRun(l, cuts[i - 1], cuts[i], (i - 1) % 2 == 1);
    }
  }

  /** One more run settles one more: its patterns are those the history shows, if the run was light. */
  lemma SettleOne(l: seq<bool>, cuts: seq<int>, h: seq<nat>, e: int)
    requires AreCuts(l, cuts + [e]) && IsHistory(cuts + [e], h) && |cuts| > 0
    ensures 0 <= Settled(cuts) && 0 <= Settled(cuts + [e])
    ensures Finders(l, Settled(cuts + [e])) ==
            Finders(l, Settled(cuts)) + (if |cuts| % 2 == 1 then CountPatterns(h) else 0)
  {
    hide AreCuts, IsHistory, CountPatterns, FindersAt;
    var all := cuts + [e];
    if |all| < 7 {
      ShortHistory(all, h);
      CutsPositive(l, all, 0);
    } else {
      SettleRun(l, all, h);
    }
  }

  /** Fewer than six runs make no pattern. */
  lemma ShortHistory(cuts: seq<int>, h: seq<nat>)
    requires IsHistory(cuts, h) && |cuts| < 7
    ensures |h| == 7 && CountPatterns(h) == 0
  {
    assert h[5] == 0 || |cuts| > 6;
  }

  lemma SettleRun(l: seq<bool>, cuts: seq<int>, h: seq<nat>)
    requires AreCuts(l, cuts) && IsHistory(cuts, h) && |cuts| >= 7
    ensures 0 <= cuts[|cuts| - 7] && 0 <= cuts[|cuts| - 6]
    ensures Finders(l, cuts[|cuts| - 6]) == Finders(l, cuts[|cuts| - 7])
        + (if |cuts| % 2 == 0 then CountPatterns(h) else 0)
  {
    hide CountPatterns, IsHistory, FindersAt, Uniform;
    var i := |cuts| - 7;
    assert i % 2 == 1 <==> |cuts| % 2 == 0;
    assert IsRun(l, cuts[i], cuts[i + 1], i % 2 == 1);
    hide AreCuts;
    FindersInRun(l, cuts, i, cuts[i + 1]);
    if i % 2 == 1 {
      FindersAtRun(l, cuts, h, i);
    }
  }

  /** At the end of the line, the runs not yet settled have no patterns. */
  lemma {:induction false} SettleRest(l: seq<bool>, cuts: seq<int>, i: nat)
    requires AreCuts(l, cuts) && i < |cuts| && cuts[|cuts| - 1] == |l| && i + 6 >= |cuts|
    ensures cuts[i] >= 0 && Finders(l, |l|) == Finders(l, cuts[i])
    decreases |cuts| - i
  {
    CutsPositive(l, cuts, i);
    if i + 1 < |cuts| {
      SettleRest(l, cuts, i + 1);
      assert IsRun(l, cuts[i], cuts[i + 1], i % 2 == 1);
      hide AreCuts;
      FindersInRun(l, cuts, i, cuts[i + 1]);
      if i % 2 == 1 {
        NoPatternLate(l, cuts, i);
      }
    }
  }

  // ----- the run penalties of a line

  lemma {:induction false} RunLengthIs(l: seq<bool>, s: nat, e: nat)
    requires s < e <= |l| && Uniform(l, s, e, l[s]) && (e < |l| ==> l[e] != l[s])
    ensures RunLength(l, s) == e - s
    decreases e - s
  {
    if s + 1 < e {
      RunLengthIs(l, s + 1, e);
    }
  }

  /** The runs that start before e are those that start up to s, if s to e is one run. */
  lemma {:induction false} OneRun(l: seq<bool>, s: nat, e: nat)
    requires s < e <= |l| && Uniform(l, s, e, l[s]) && StartsRun(l, s)
    ensures RunPenalty(l, e) == RunPenalty(l, s) + RunScore(RunLength(l, s))
  {
    if s + 1 < e {
      OneRun(l, s, e - 1);
      assert l[e - 2] == l[e - 1];
    }
  }

  /** The state of the scan after x modules, of which the last run ones are the current run; cuts are
      the complete runs of the padded line, and result the penalty so far. */
  ghost predicate Scanned(line: seq<bool>, x: nat, runColor: bool, run: nat, cuts: seq<int>, h: seq<nat>, result: nat) {
    && run <= x <= |line| && InRun(line, x, runColor, run)
    && AreCuts(Padded(line), cuts) && IsHistory(cuts, h)
    && Current(line, x, runColor, run, cuts)
    && 0 <= Settled(cuts)
    && result == RunPenalty(line, x - run) + RunScore(run) + N3 * Finders(Padded(line), Settled(cuts))
  }

  ghost predicate InRun(line: seq<bool>, x: nat, runColor: bool, run: nat)
    requires run <= x <= |line|
  {
    Uniform(line, x - run, x, runColor) && (if run > 0 then StartsRun(line, x - run) else x == 0)
  }

  ghost predicate Current(line: seq<bool>, x: nat, runColor: bool, run: nat, cuts: seq<int>)
    requires |cuts| > 0
  {
    && runColor == (|cuts| % 2 == 0)
    && cuts[|cuts| - 1] + run + (if |cuts| == 1 then |line| else 0) == |line| + x
    && Uniform(Padded(line), cuts[|cuts| - 1], |line| + x, runColor)
  }

  lemma FirstRun(cuts: seq<int>, h: seq<nat>, l: seq<bool>)
    requires AreCuts(l, cuts) && IsHistory(cuts, h)
    ensures |h| == 7 && (h[0] == 0 <==> |cuts| == 1)
  {
    if |cuts| > 1 {
      assert IsRun(l, cuts[|cuts| - 2], cuts[|cuts| - 1], (|cuts| - 2) % 2 == 1);
    }
  }

  lemma RunDone(line: seq<bool>, x: nat, runColor: bool, run: nat)
    requires run <= x <= |line| && InRun(line, x, runColor, run) && (x < |line| ==> line[x] != runColor)
    ensures RunPenalty(line, x) == RunPenalty(line, x - run) + RunScore(run)
  {
    if run > 0 {
      UniformAt(line, x - run, x, runColor, x - run);
      RunLengthIs(line, x - run, x);
      OneRun(line, x - run, x);
    }
  }

  lemma ScanSame(line: seq<bool>, x: nat, runColor: bool, run: nat, cuts: seq<int>, h: seq<nat>, result: nat)
    requires Scanned(line, x, runColor, run, cuts, h, result) && x < |line| && line[x] == runColor
    ensures Scanned(line, x + 1, runColor, run + 1, cuts, h, result + RunScore(run + 1) - RunScore(run))
  {
    hide AreCuts, IsHistory, Finders, RunPenalty;
    assert Padded(line)[|line| + x] == line[x];
    assert InRun(line, x + 1, runColor, run + 1);
  }

  /** The current run ends at e of the padded line. */
  lemma ScanRun(line: seq<bool>, cuts: seq<int>, e: int, h: seq<nat>, next: seq<nat>)
    requires |cuts| > 0 && AreCuts(Padded(line), cuts) && IsHistory(cuts, h)
    requires IsRun(Padded(line), cuts[|cuts| - 1], e, |cuts| % 2 == 0)
    requires Pushes(h, e - cuts[|cuts| - 1], next)
    ensures AreCuts(Padded(line), cuts + [e]) && IsHistory(cuts + [e], next)
    ensures next[1] <= 3 * |line| && 0 <= Settled(cuts) && 0 <= Settled(cuts + [e])
    ensures Finders(Padded(line), Settled(cuts + [e])) ==
            Finders(Padded(line), Settled(cuts)) + (if |cuts| % 2 == 1 then CountPatterns(next) else 0)
  {
    hide *;
    HistoryStep(Padded(line), cuts, h, e, next);
    SettleOne(Padded(line), cuts, next, e);
    HistoryBound(Padded(line), cuts + [e], next);
    PaddedLength(line);
  }

  lemma ScanChange(line: seq<bool>, x: nat, runColor: bool, run: nat, cuts: seq<int>, h: seq<nat>, result: nat,
      next: seq<nat>)
    requires Scanned(line, x, runColor, run, cuts, h, result) && x < |line| && line[x] != runColor && |h| == 7
    requires Pushes(h, Bordered(run, h, |line|), next)
    ensures var more := if runColor then 0 else CountPatterns(next) * N3;
            Scanned(line, x + 1, line[x], 1, cuts + [|line| + x], next, result + more)
    ensures next[1] <= 3 * |line|
  {
    hide *;
    ScannedParts(line, x, runColor, run, cuts, h, result);
    FirstRun(cuts, h, Padded(line));
    CutsPositive(Padded(line), cuts, |cuts| - 1);
    RunDone(line, x, runColor, run);
    LastCut(Padded(line), cuts);
    RunChanges(line, x, runColor, run, cuts);
    BorderedMeans(run, h, |line|);
    ScanRun(line, cuts, |line| + x, h, next);
    ScannedNext(line, x + 1, line[x], cuts + [|line| + x], next);
  }

  lemma ScannedParts(line: seq<bool>, x: nat, runColor: bool, run: nat, cuts: seq<int>, h: seq<nat>, result: nat)
    requires Scanned(line, x, runColor, run, cuts, h, result)
    ensures run <= x <= |line| && |cuts| > 0 && |h| == 7 && runColor == (|cuts| % 2 == 0)
    ensures InRun(line, x, runColor, run) && AreCuts(Padded(line), cuts) && IsHistory(cuts, h)
    ensures Current(line, x, runColor, run, cuts) && 0 <= Settled(cuts)
    ensures result == RunPenalty(line, x - run) + RunScore(run) + N3 * Finders(Padded(line), Settled(cuts))
  {
    hide AreCuts, InRun, Padded, Finders, RunPenalty, RunScore, Settled;
  }

  lemma BorderedMeans(run: nat, h: seq<nat>, size: nat)
    requires |h| == 7
    ensures Bordered(run, h, size) == run + (if h[0] == 0 then size else 0)
  {}

  /** The scan when a run has just started. */
  lemma ScannedNext(line: seq<bool>, x: nat, runColor: bool, cuts: seq<int>, h: seq<nat>)
    requires 1 <= x <= |line| && |cuts| > 0 && InRun(line, x, runColor, 1)
    requires AreCuts(Padded(line), cuts) && IsHistory(cuts, h) && Current(line, x, runColor, 1, cuts)
    requires 0 <= Settled(cuts)
    ensures Scanned(line, x, runColor, 1, cuts, h,
                    RunPenalty(line, x - 1) + N3 * Finders(Padded(line), Settled(cuts)))
  {
    hide AreCuts, IsHistory, Current, InRun, Padded, Finders, RunPenalty, Settled;
  }

  /** The last cut is where the colour changed. */
  lemma LastCut(l: seq<bool>, cuts: seq<int>)
    requires AreCuts(l, cuts) && cuts[|cuts| - 1] >= 0
    ensures |cuts| > 1 && cuts[|cuts| - 1] < |l| ==> l[cuts[|cuts| - 1]] == (|cuts| % 2 == 0)
  {
    if |cuts| > 1 {
      assert IsRun(l, cuts[|cuts| - 2], cuts[|cuts| - 1], (|cuts| - 2) % 2 == 1);
    }
  }

  /** The current run ends at x, and another one starts. */
  lemma RunChanges(line: seq<bool>, x: nat, runColor: bool, run: nat, cuts: seq<int>)
    requires run <= x < |line| && |cuts| > 0 && cuts[|cuts| - 1] >= 0 && line[x] != runColor
    requires InRun(line, x, runColor, run) && Current(line, x, runColor, run, cuts)
    requires |cuts| > 1 && cuts[|cuts| - 1] < |Padded(line)| ==> Padded(line)[cuts[|cuts| - 1]] == (|cuts| % 2 == 0)
    ensures IsRun(Padded(line), cuts[|cuts| - 1], |line| + x, |cuts| % 2 == 0)
    ensures |line| + x - cuts[|cuts| - 1] == run + (if |cuts| == 1 then |line| else 0)
    ensures InRun(line, x + 1, line[x], 1) && Current(line, x + 1, line[x], 1, cuts + [|line| + x])
  {
    assert Padded(line)[|line| + x] == line[x];
    assert StartsRun(line, x) by {
      if x > 0 && run > 0 { UniformAt(line, x - run, x, runColor, x - 1); }
    }
  }

  /** At the end of the line a last dark run is complete. */
  lemma EndDark(line: seq<bool>, run: nat, cuts: seq<int>, h: seq<nat>, next: seq<nat>)
    requires |line| > 0 && |cuts| > 0 && |cuts| % 2 == 0 && run <= |line| && InRun(line, |line|, true, run)
    requires AreCuts(Padded(line), cuts) && IsHistory(cuts, h) && Current(line, |line|, true, run, cuts)
    requires |h| == 7 && Pushes(h, Bordered(run, h, |line|), next)
    ensures var done := cuts + [2 * |line|];
            && AreCuts(Padded(line), done) && IsHistory(done, next) && Current(line, |line|, false, 0, done)
            && 0 <= Settled(cuts) && 0 <= Settled(done)
            && Finders(Padded(line), Settled(done)) == Finders(Padded(line), Settled(cuts))
  {
    hide Finders, RunPenalty, CountPatterns, Settled, Pushes, AreCuts, IsHistory, InRun;
    FirstRun(cuts, h, Padded(line));
    CutsPositive(Padded(line), cuts, |cuts| - 1);
    LastRun(line, cuts, run, true);
    ScanRun(line, cuts, 2 * |line|, h, next);
  }

  lemma LastRun(line: seq<bool>, cuts: seq<int>, run: nat, c: bool)
    requires |line| > 0 && |cuts| > 0 && run <= |line| && cuts[|cuts| - 1] >= 0 && c == (|cuts| % 2 == 0)
    requires AreCuts(Padded(line), cuts) && InRun(line, |line|, c, run) && Current(line, |line|, c, run, cuts)
    ensures c ==> IsRun(Padded(line), cuts[|cuts| - 1], 2 * |line|, c)
    ensures 2 * |line| - cuts[|cuts| - 1] == run + (if |cuts| == 1 then |line| else 0)
  {
    if run == 0 && |cuts| > 1 {
      LastCut(Padded(line), cuts);
    }
  }

  /** The last light run includes the border, and everything is settled then. */
  lemma EndLight(line: seq<bool>, run: nat, cuts: seq<int>, h: seq<nat>, next: seq<nat>)
    requires |line| > 0 && |cuts| > 0 && run <= |line| && 0 <= Settled(cuts) && |cuts| % 2 == 1
    requires AreCuts(Padded(line), cuts) && IsHistory(cuts, h) && Current(line, |line|, false, run, cuts)
    requires |h| == 7 && Pushes(h, Bordered(run + |line|, h, |line|), next)
    ensures |next| == 7 && next[1] <= 3 * |line|
    ensures Finders(Padded(line), Settled(cuts)) + CountPatterns(next) == Finders(Padded(line), 3 * |line|)
  {
    hide Finders, RunPenalty, CountPatterns, Pushes, AreCuts, IsHistory;
    var l, done := Padded(line), cuts + [3 * |line|];
    FirstRun(cuts, h, l);
    CutsPositive(l, cuts, |cuts| - 1);
    ScanRun(line, cuts, 3 * |line|, h, next);
    CutsPositive(l, done, 0);
    FirstRun(done, next, l);
    PaddedLength(line);
    SettleRest(l, done, if |done| < 7 then 0 else |done| - 6);
  }

  /** The end of the line. */
  lemma ScanEnd(line: seq<bool>, runColor: bool, run: nat, cuts: seq<int>, h: seq<nat>, result: nat, middle: seq<nat>,
      last: seq<nat>)
    requires Scanned(line, |line|, runColor, run, cuts, h, result) && |line| > 0 && |h| == |middle| == 7
    requires if runColor then Pushes(h, Bordered(run, h, |line|), middle) else middle == h
    requires Pushes(middle, Bordered((if runColor then 0 else run) + |line|, middle, |line|), last)
    ensures |last| == 7 && last[1] <= 3 * |line|
    ensures result + CountPatterns(last) * N3 == LinePenalty(line)
  {
    assert |cuts| > 0;
    assert runColor == (|cuts| % 2 == 0);
    hide AreCuts, IsHistory, Finders, RunPenalty, CountPatterns, Settled, Current, InRun, Pushes, Bordered, Padded;
    RunDone(line, |line|, runColor, run);
    if runColor {
      EndDark(line, run, cuts, h, middle);
      EndLight(line, 0, cuts + [2 * |line|], middle, last);
    } else {
      EndLight(line, run, cuts, h, last);
    }
  }

  /** Counts the patterns that the history ends with. No run is longer than a line with its borders. */
  method CountHistory(h: array<nat>, size: nat) returns (count: nat)
    requires h.Length == 7 && h[1] <= size * 3
    ensures count == CountPatterns(h[..])
  {
    var n := h[1];
    var core := n > 0 && h[2] == n && h[3] == n * 3 && h[4] == n && h[5] == n;
    count := (if core && h[0] >= n * 4 && h[6] >= n then 1 else 0) +
             (if core && h[6] >= n * 4 && h[0] >= n then 1 else 0);
  }

  method ScanLine(line: seq<bool>) returns (result: nat)
    requires |line| > 0
    ensures result == LinePenalty(line)
  {
    hide LinePenalty, Scanned;
    var runColor, run := false, 0;
    var runHistory := new nat[7](i => 0);
    result := 0;
    ghost var cuts := [0];
    ScanStart(line, runHistory[..]);
    for x := 0 to |line|
      invariant Scanned(line, x, runColor, run, cuts, runHistory[..], result)
    {
      ghost var h, before := runHistory[..], result;
      if line[x] == runColor {
        ScanSame(line, x, runColor, run, cuts, h, result);
        run := run + 1;
        if run == 5 {
          result := result + N1;
        } else if run > 5 {
          result := result + 1;
        }
      } else {
        AddHistory(run, runHistory, |line|);
        ScanChange(line, x, runColor, run, cuts, h, result, runHistory[..]);
        if !runColor {
          var count := CountHistory(runHistory, |line|);
          result := result + count * N3;
        }
        cuts := cuts + [|line| + x];
        runColor := line[x];
        run := 1;
      }
    }
    ghost var h := runHistory[..];
    var currentRunLength := run;
    if runColor {
      AddHistory(currentRunLength, runHistory, |line|);
      currentRunLength := 0;
    }
    ghost var middle := runHistory[..];
    currentRunLength := currentRunLength + |line|;
    AddHistory(currentRunLength, runHistory, |line|);
    ScanEnd(line, runColor, run, cuts, h, result, middle, runHistory[..]);
    var count := CountHistory(runHistory, |line|);
    result := result + count * N3;
  }

  lemma ScanStart(line: seq<bool>, h: seq<nat>)
    requires |h| == 7 && forall k | 0 <= k < 7 :: h[k] == 0
    ensures Scanned(line, 0, false, 0, [0], h, 0)
  {}

  // ----- the whole score

  function Total(f: int -> int, n: nat): int {
    if n == 0 then 0 else Total(f, n - 1) + f(n - 1)
  }

  function Row(m: Grid, size: nat, y: int): (line: seq<bool>)
    ensures |line| == size
  {
    seq(size, x => At(m, x, y))
  }

  function Column(m: Grid, size: nat, x: int): (line: seq<bool>)
    ensures |line| == size
  {
    seq(size, y => At(m, x, y))
  }

  ghost function RowPenalty(m: Grid, size: nat): int -> int { y => LinePenalty(Row(m, size, y)) }

  ghost function ColumnPenalty(m: Grid, size: nat): int -> int { x => LinePenalty(Column(m, size, x)) }

  /** The four modules from (x, y) on are equal. */
  predicate IsBlock(m: Grid, x: int, y: int) {
    At(m, x, y) == At(m, x + 1, y) == At(m, x, y + 1) == At(m, x + 1, y + 1)
  }

  ghost function BlockAt(m: Grid, y: int): int -> int { x => if IsBlock(m, x, y) then 1 else 0 }

  ghost function BlocksInRow(m: Grid, size: nat): int -> int
    requires size > 0
  {
    y => Total(BlockAt(m, y), size - 1)
  }

  ghost function DarkAt(m: Grid, y: int): int -> int { x => if At(m, x, y) then 1 else 0 }

  ghost function DarkInRow(m: Grid, size: nat): int -> int { y => Total(DarkAt(m, y), size) }

  /** The share of dark modules is at most 5k percent outside 45 to 55 percent. */
  predicate IsBalanced(dark: int, total: int, k: int) {
    (45 - 5 * k) * total <= 100 * dark <= (55 + 5 * k) * total
  }

  /** The least level from k on at which the modules are balanced. */
  ghost function Imbalance(dark: int, total: int, k: nat): nat
    requires 0 <= dark <= total && k <= 9
    decreases 9 - k
  {
    if IsBalanced(dark, total, k) || k == 9 then k else Imbalance(dark, total, k + 1)
  }

  ghost function Penalty(m: Grid, size: nat): int
    requires size > 0
  {
    DarkBounds(m, size, size);
    Total(RowPenalty(m, size), size) + Total(ColumnPenalty(m, size), size)
    + N2 * Total(BlocksInRow(m, size), size - 1)
    + N4 * Imbalance(Total(DarkInRow(m, size), size), size * size, 0)
  }

  lemma {:induction false} RowDarkBounds(m: Grid, y: int, n: nat)
    ensures 0 <= Total(DarkAt(m, y), n) <= n
  {
    if n > 0 {
      RowDarkBounds(m, y, n - 1);
    }
  }

  lemma {:induction false} DarkBounds(m: Grid, size: nat, n: nat)
    ensures 0 <= Total(DarkInRow(m, size), n) <= n * size
  {
    if n > 0 {
      DarkBounds(m, size, n - 1);
      RowDarkBounds(m, n - 1, size);
      assert n * size == (n - 1) * size + size;
    }
  }

  lemma {:induction false} LeastLevel(dark: int, total: int, k: nat, from: nat)
    requires 0 <= dark <= total && from <= k <= 9 && IsBalanced(dark, total, k)
    requires k == 0 || !IsBalanced(dark, total, k - 1)
    ensures Imbalance(dark, total, from) == k
    decreases k - from
  {
    if from < k {
      NotBelow(dark, total, from, k - 1);
      LeastLevel(dark, total, k, from + 1);
    }
  }

  lemma NotBelow(dark: int, total: int, j: int, k: int)
    requires total >= 0 && j <= k && !IsBalanced(dark, total, k)
    ensures !IsBalanced(dark, total, j)
  {
    assert (45 - 5 * j) * total >= (45 - 5 * k) * total;
    assert (55 + 5 * j) * total <= (55 + 5 * k) * total;
  }

  /** The level by one division: the total is odd, so the modules are never balanced exactly. */
  method BalanceLevel(dark: int, total: int) returns (k: int)
    requires 0 <= dark <= total && total % 2 == 1
    ensures 0 <= k <= 9 && k == Imbalance(dark, total, 0)
  {
    var off := dark * 20 - total * 10;
    var distance := if off < 0 then -off else off;
    k := (distance + total - 1) / total - 1;
    LevelFacts(dark, total, distance, k);
    LeastLevel(dark, total, k, 0);
  }

  lemma LevelFacts(dark: int, total: int, distance: int, k: int)
    requires 0 <= dark <= total && total % 2 == 1
    requires distance == (if dark * 20 - total * 10 < 0 then total * 10 - dark * 20 else dark * 20 - total * 10)
    requires k == (distance + total - 1) / total - 1
    ensures 0 <= k <= 9 && IsBalanced(dark, total, k) && (k == 0 || !IsBalanced(dark, total, k - 1))
  {
    hide IsBalanced;
    var q := k + 1;
    assert distance > 0;
    DivisionBounds(distance + total - 1, total);
    QuotientRange(distance, total, q);
    BalancedMeans(dark, total, k);
    BalancedMeans(dark, total, k - 1);
    Predecessor(q, total);
  }

  lemma Predecessor(q: int, d: int)
    ensures (q - 1) * d == q * d - d
  {}

  lemma QuotientRange(n: int, d: int, q: int)
    requires 0 < n <= 10 * d && q * d <= n + d - 1 < q * d + d
    ensures 1 <= q <= 10
  {
    if q <= 0 { Ordered(q, 0, d); }
    if q >= 11 { Ordered(11, q, d); }
  }

  lemma Ordered(a: int, b: int, d: int)
    requires a <= b && d >= 0
    ensures a * d <= b * d
  {}

  lemma DivisionBounds(n: int, d: int)
    requires d > 0
    ensures (n / d) * d <= n < (n / d) * d + d
  {}

  lemma BalancedMeans(dark: int, total: int, k: int)
    ensures IsBalanced(dark, total, k) <==>
            -((k + 1) * total) <= dark * 20 - total * 10 <= (k + 1) * total
  {
    assert (45 - 5 * k) * total == 50 * total - 5 * ((k + 1) * total);
    assert (55 + 5 * k) * total == 50 * total + 5 * ((k + 1) * total);
  }

  method CountBlocks(m: Grid, size: nat) returns (count: int)
    requires IsSquare(m, size) && size > 0
    ensures count == Total(BlocksInRow(m, size), size - 1)
  {
    count := 0;
    for y := 0 to size - 1
      invariant count == Total(BlocksInRow(m, size), y)
    {
      ghost var before := count;
      for x := 0 to size - 1
        invariant count == before + Total(BlockAt(m, y), x)
      {
        var color := At(m, x, y);
        if color == At(m, x + 1, y) && color == At(m, x, y + 1) && color == At(m, x + 1, y + 1) {
          count := count + 1;
        }
      }
    }
  }

  method CountDark(m: Grid, size: nat) returns (dark: int)
    requires IsSquare(m, size)
    ensures dark == Total(DarkInRow(m, size), size)
  {
    dark := 0;
    for y := 0 to size
      invariant dark == Total(DarkInRow(m, size), y)
    {
      ghost var before := dark;
      for x := 0 to size
        invariant dark == before + Total(DarkAt(m, y), x)
      {
        if At(m, x, y) {
          dark := dark + 1;
        }
      }
    }
  }

  /** The one-pass score of a grid is its penalty. */
  method GetPenaltyScore(m: Grid, size: nat) returns (result: int)
    requires IsSquare(m, size) && size % 2 == 1
    ensures result == Penalty(m, size)
    ensures size <= 177 ==> 0 <= result <= PENALTY_BOUND
  {
    hide LinePenalty, Imbalance, IsBlock, Penalty, BlocksInRow, DarkInRow;
    result := 0;
    for y := 0 to size
      invariant result == Total(RowPenalty(m, size), y)
    {
      var line := ScanLine(Row(m, size, y));
      result := result + line;
    }
    ghost var rows := result;
    for x := 0 to size
      invariant result == rows + Total(ColumnPenalty(m, size), x)
    {
      var line := ScanLine(Column(m, size, x));
      result := result + line;
    }
    var blocks := CountBlocks(m, size);
    result := result + blocks * N2;
    var dark := CountDark(m, size);
    DarkBounds(m, size, size);
    OddSquare(size);
    var k := BalanceLevel(dark, size * size);
    result := result + k * N4;
    PenaltyParts(m, size);
    if size <= 177 {
      PenaltyBound(m, size);
    }
  }

  lemma PenaltyParts(m: Grid, size: nat)
    requires size > 0
    ensures 0 <= Total(DarkInRow(m, size), size) <= size * size
    ensures Penalty(m, size) == Total(RowPenalty(m, size), size) + Total(ColumnPenalty(m, size), size)
                                + N2 * Total(BlocksInRow(m, size), size - 1)
                                + N4 * Imbalance(Total(DarkInRow(m, size), size), size * size, 0)
  {
    DarkBounds(m, size, size);
  }

  lemma OddSquare(n: int)
    requires n % 2 == 1
    ensures n * n % 2 == 1
  {
    var h := n / 2;
    assert n * n == 2 * (2 * h * h + 2 * h) + 1;
  }

  // ----- the score of a symbol has a bound

  const LONG_MAX: int := 0x7FFF_FFFF
  const PENALTY_BOUND: int := 2568888

  /** The runs up to the one that module n - 1 is in score at most their length. */
  lemma {:induction false} RunPenaltyBound(l: seq<bool>, n: nat)
    requires 0 < n <= |l|
    ensures RunPenalty(l, n) < n + RunLength(l, n - 1)
  {
    if n > 1 {
      RunPenaltyBound(l, n - 1);
    } else {
      assert RunPenalty(l, 0) == 0;
    }
  }

  /** A pattern that starts less than six modules after another does not exist: the only dark run that
      starts there is the first one's middle, and its next light run is too short. */
  lemma PatternsApart(l: seq<bool>, p: int, q: int)
    requires 0 <= p < q < p + 6 && FindersAt(l, p) > 0
    ensures FindersAt(l, q) == 0
  {
    hide FinderAt;
    var n: int :| FinderAt(l, p, n, 4 * n, n) || FinderAt(l, p, n, n, 4 * n);
    forall k: int ensures !FinderAt(l, q, k, 4 * k, k) && !FinderAt(l, q, k, k, 4 * k) {
      PatternUnits(l, p, n, q, k);
      if FinderAt(l, p, n, 4 * n, n) {
        NotBothPatterns(l, p, n, 4 * n, n, q, k, 4 * k, k);
        NotBothPatterns(l, p, n, 4 * n, n, q, k, k, 4 * k);
      } else {
        NotBothPatterns(l, p, n, n, 4 * n, q, k, 4 * k, k);
        NotBothPatterns(l, p, n, n, 4 * n, q, k, k, 4 * k);
      }
    }
  }

  lemma PatternUnits(l: seq<bool>, p: int, n: int, q: int, k: int)
    requires FinderAt(l, p, n, 4 * n, n) || FinderAt(l, p, n, n, 4 * n)
    ensures n >= 1 && (FinderAt(l, q, k, 4 * k, k) || FinderAt(l, q, k, k, 4 * k) ==> k >= 1)
  {}

  lemma NotBothPatterns(l: seq<bool>, p: int, n: int, before: int, after: int, q: int, k: int, before': int,
      after': int)
    requires FinderAt(l, p, n, before, after) && before >= 1 && after >= 1 && n >= 1 && p < q < p + 6
    requires FinderAt(l, q, k, before', after') ==> before' >= 1 && after' >= 1
    ensures !FinderAt(l, q, k, before', after')
  {
    hide FinderAt;
    if FinderAt(l, q, k, before', after') {
      FirstDarkRun(l, q, k, before', after');
      OnlyMiddle(l, p, n, before, after, q, k);
      FirstLightRun(l, q, k, before', after', q + k + n);
    }
  }

  lemma FirstDarkRun(l: seq<bool>, q: int, k: int, before: int, after: int)
    requires FinderAt(l, q, k, before, after) && before >= 1 && after >= 1
    ensures k >= 1 && 1 <= q && q + k < |l| && !l[q - 1] && !l[q + k] && forall i | q <= i < q + k :: l[i]
  {
    assert !l[q + k];
  }

  lemma FirstLightRun(l: seq<bool>, q: int, k: int, before: int, after: int, i: int)
    requires FinderAt(l, q, k, before, after) && q + k <= i < q + 2 * k
    ensures 0 <= i < |l| && !l[i]
  {}

  /** Inside a pattern a dark run starts only in the middle; one unit after it there is dark again. */
  lemma OnlyMiddle(l: seq<bool>, p: int, n: int, before: int, after: int, q: int, k: int)
    requires FinderAt(l, p, n, before, after) && n >= 1 && p < q < p + 6
    requires k >= 1 && 1 <= q && q + k < |l| && !l[q - 1] && !l[q + k] && forall i | q <= i < q + k :: l[i]
    ensures n < k && q + k + n < |l| && l[q + k + n]
  {
    assert l[q];
    assert q == p + 2 * n;
    assert l[p + 5 * n - 1] && !l[p + 5 * n] && l[p + 6 * n];
    assert k == 3 * n;
  }

  /** In any six modules at most one place starts patterns, and at most two of them. */
  lemma {:induction false} FindersBound(l: seq<bool>, m: nat, n: nat)
    requires m <= n
    ensures Finders(l, n) <= Finders(l, m) + 2 * ((n - m + 5) / 6)
    decreases n
  {
    hide FindersAt;
    if m < n {
      if FindersAt(l, n - 1) == 0 {
        FindersBound(l, m, n - 1);
      } else {
        var start := if n - m < 6 then m else n - 6;
        NoFinders(l, start, n - 1);
        FindersBound(l, m, start);
        AtMostTwo(l, n - 1);
      }
    }
  }

  lemma AtMostTwo(l: seq<bool>, p: int)
    ensures FindersAt(l, p) <= 2
  {}

  lemma {:induction false} NoFinders(l: seq<bool>, m: nat, n: nat)
    requires m <= n <= m + 5 && FindersAt(l, n) > 0
    ensures Finders(l, n) == Finders(l, m)
  {
    hide FindersAt;
    forall p | m <= p < n ensures FindersAt(l, p) == 0 {
      if FindersAt(l, p) > 0 {
        PatternsApart(l, p, n);
      }
    }
    NoneThere(l, m, n);
  }

  lemma {:induction false} NoneThere(l: seq<bool>, m: nat, n: nat)
    requires m <= n && forall p | m <= p < n :: FindersAt(l, p) == 0
    ensures Finders(l, n) == Finders(l, m)
    decreases n
  {
    hide FindersAt;
    if m < n {
      NoneThere(l, m, n - 1);
    }
  }

  /** No pattern starts in the light borders. */
  lemma BorderBound(line: seq<bool>)
    ensures Finders(Padded(line), 3 * |line|) <= 2 * ((|line| + 5) / 6)
  {
    hide Finders;
    var l, w := Padded(line), |line|;
    forall p | 0 <= p < w || 2 * w <= p < 3 * w ensures FindersAt(l, p) == 0 {
      NoPatternAt(l, p);
    }
    NoneThere(l, 0, w);
    NoneThere(l, 2 * w, 3 * w);
    FindersBound(l, w, 2 * w);
    NoFindersYet(l);
  }

  lemma NoFindersYet(l: seq<bool>)
    ensures Finders(l, 0) == 0
  {}

  lemma LineBound(line: seq<bool>)
    requires 0 < |line| <= 177
    ensures LinePenalty(line) <= 2577
  {
    hide Finders, RunPenalty, Padded;
    RunPenaltyBound(line, |line|);
    BorderBound(line);
  }

  lemma {:induction false} TotalBound(f: int -> int, n: nat, bound: nat, most: nat)
    requires n <= most && forall i | 0 <= i < n :: 0 <= f(i) <= bound
    ensures 0 <= Total(f, n) <= most * bound
    decreases n
  {
    if n > 0 {
      TotalBound(f, n - 1, bound, most - 1);
      assert most * bound == (most - 1) * bound + bound;
    } else {
      assert most * bound >= 0;
    }
  }

  lemma {:induction false} ImbalanceBound(dark: int, total: int, k: nat)
    requires 0 <= dark <= total && k <= 9
    ensures Imbalance(dark, total, k) <= 9
    decreases 9 - k
  {
    if k < 9 {
      ImbalanceBound(dark, total, k + 1);
    }
  }

  /** The bound that the scoring asserts. */
  lemma PenaltyBound(m: Grid, size: nat)
    requires 0 < size <= 177
    ensures 0 <= Penalty(m, size) <= PENALTY_BOUND
  {
    hide LinePenalty, IsBlock, Imbalance;
    forall y: int ensures 0 <= RowPenalty(m, size)(y) <= 2577 && 0 <= ColumnPenalty(m, size)(y) <= 2577 {
      LineBound(Row(m, size, y)); LineBound(Column(m, size, y));
    }
    forall y: int ensures 0 <= BlocksInRow(m, size)(y) <= 177 {
      TotalBound(BlockAt(m, y), size - 1, 1, 177);
    }
    DarkBounds(m, size, size);
    TotalBound(RowPenalty(m, size), size, 2577, 177);
    TotalBound(ColumnPenalty(m, size), size, 2577, 177);
    TotalBound(BlocksInRow(m, size), size - 1, 177, 177);
    ImbalanceBound(Total(DarkInRow(m, size), size), size * size, 0);
  }
}
