// The strategy engine of src/helpers/sumory-strategy.ts. A strategy "explore
// e" takes the first e cards it meets and then, for the remaining turns,
// takes again the best value seen. `EvaluateStrategy` scores it against one
// order of the cards; the Monte Carlo profile averages that score over
// shuffles; the deterministic profile computes the expectation in closed
// form, with binomial weights built incrementally.
//
// JavaScript numbers are modelled as exact integers, and the averages as
// exact reals.
module Strategy {
  import opened Common
  import opened SeqMath
  import opened Binomial
  import Aux

  /** JavaScript's `total + null`: null counts as 0. */
  function NullAsZero(max: Option<int>): (r: int)
    ensures max.None? ==> r == 0
    ensures max.Some? ==> r == max.value
  {
    if max.Some? then max.value else 0
  }

  /** The score of "explore e, then exploit" against the order `perm`: the
      first e values plus, for every later turn, the best of them. With
      e == 0 nothing is seen and every exploit turn adds `null`, i.e. 0. */
  function StrategyScore(perm: seq<int>, turns: int, e: nat): (r: int)
    requires e <= |perm|
    ensures e == 0 ==> r == 0
    ensures e >= turns ==> r == Sum(perm[..e])
    ensures 0 < e < turns ==>
      exists k :: 0 <= k < e && r == Sum(perm[..e]) + (turns - e) * perm[k]
    ensures 0 < e < turns ==>
      forall k :: 0 <= k < e ==> Sum(perm[..e]) + (turns - e) * perm[k] <= r
  {
    if e == 0 then 0
    else
      var seen := perm[..e];
      ExploitBeatsAnySeen(seen, turns - e);
      Sum(seen) + (if e < turns then (turns - e) * Max(seen) else 0)
  }

  /** Exploiting the best card seen is worth at least exploiting any one of
      them, and is worth exactly exploiting one of them. */
  lemma ExploitBeatsAnySeen(seen: seq<int>, rest: int)
    requires seen != []
    ensures exists k :: 0 <= k < |seen| && seen[k] == Max(seen)
    ensures rest >= 0 ==> forall k :: 0 <= k < |seen| ==> rest * seen[k] <= rest * Max(seen)
  {
    var m := Max(seen);
    var k :| 0 <= k < |seen| && seen[k] == m;
    if rest >= 0 {
      forall k | 0 <= k < |seen|
        ensures rest * seen[k] <= rest * m
      {
        MulMonotone(rest, seen[k], m);
      }
    }
  }

  /** `evaluateStrategy` (sumory-strategy.ts:3-19). */
  method EvaluateStrategy(values: seq<int>, turns: int, exploitStart: nat) returns (total: int)
    requires exploitStart <= |values|
    ensures total == StrategyScore(values, turns, exploitStart)
    ensures exploitStart == turns ==> total == Sum(values[..exploitStart])
  {
    total := 0;
    var max: Option<int> := None;
    for k := 0 to exploitStart
      invariant total == Sum(values[..k])
      invariant max == if k == 0 then None else Some(Max(values[..k]))
    {
      PrefixStep(values, k);
      total := total + values[k];
      if max.None? || values[k] > max.value {
        max := Some(values[k]);
      }
    }
    var explored := total;
    var k := exploitStart;
    while k < turns
      invariant exploitStart <= k
      invariant exploitStart < turns ==> k <= turns
      invariant exploitStart >= turns ==> k == exploitStart
      invariant total == explored + (k - exploitStart) * NullAsZero(max)
    {
      SplitFactor(k - exploitStart, 1, NullAsZero(max));
      total := total + NullAsZero(max);
      k := k + 1;
    }
    if exploitStart == 0 {
      assert NullAsZero(max) == 0;
      MulZero(k);
    } else if exploitStart >= turns {
      assert k == exploitStart;
    }
  }

  lemma MulZero(a: int)
    ensures a * 0 == 0
  {
  }

  lemma MulMonotone(a: int, b: int, c: int)
    requires a >= 0 && b <= c
    ensures a * b <= a * c
  {
    assert a * c - a * b == a * (c - b);
  }

  /** With every value in [lo, hi], a strategy that explores at least one card
      and at most `turns` scores between turns * lo and turns * hi. */
  lemma StrategyScoreBounds(perm: seq<int>, turns: int, e: nat, lo: int, hi: int)
    requires 1 <= e <= |perm| && e <= turns
    requires forall k :: 0 <= k < |perm| ==> lo <= perm[k] <= hi
    ensures turns * lo <= StrategyScore(perm, turns, e) <= turns * hi
  {
    var prefix := perm[..e];
    SumBounds(prefix, lo, hi);
    var m := Max(prefix);
    assert lo <= m <= hi;
    ExploreExploitEnvelope(Sum(prefix), m, turns, e, lo, hi);
  }

  /** e explored cards summing to s, then turns - e picks of m, all within
      [lo, hi]. */
  lemma ExploreExploitEnvelope(s: int, m: int, turns: int, e: nat, lo: int, hi: int)
    requires e <= turns && e * lo <= s <= e * hi && lo <= m <= hi
    ensures turns * lo <= s + (if e < turns then (turns - e) * m else 0) <= turns * hi
  {
    MulMonotone(turns - e, lo, m);
    MulMonotone(turns - e, m, hi);
    assert (turns - e) * lo + e * lo == turns * lo;
    assert (turns - e) * hi + e * hi == turns * hi;
  }

  // ---------------------------------------------------------------------
  // Monte Carlo estimate (sumory-strategy.ts:21-39)

  /** One list of shuffle draws per iteration, each as long as `values`. */
  predicate ValidDraws(values: seq<int>, draws: seq<seq<real>>)
  {
    forall it :: 0 <= it < |draws| ==> |draws[it]| == |values| && AreDraws(draws[it])
  }

  /** The summed score of "explore e" over the shuffles the draws produce. */
  function MonteCarloTotal(values: seq<int>, turns: int, draws: seq<seq<real>>, e: nat): int
    requires e <= |values| && ValidDraws(values, draws)
  {
    if draws == [] then 0
    else
      var n := |draws| - 1;
      MonteCarloTotal(values, turns, draws[..n], e)
        + StrategyScore(Aux.FisherYates(values, draws[n]), turns, e)
  }

  /** Profile entry e - 1 of the Monte Carlo estimate. */
  function MonteCarloEntry(values: seq<int>, turns: int, draws: seq<seq<real>>, e: nat): real
    requires e <= |values| && ValidDraws(values, draws) && |draws| > 0
  {
    MonteCarloTotal(values, turns, draws, e) as real / |draws| as real
  }

  /** `calculateStrategiesMonteCarlo`, with iterations == |draws| and the
      draws of each iteration's shuffle supplied by the caller. */
  method CalculateStrategiesMonteCarlo(values: seq<int>, turns: nat, draws: seq<seq<real>>)
    returns (strategies: seq<real>)
    requires turns <= |values|
    requires |draws| > 0 && ValidDraws(values, draws)
    ensures |strategies| == turns
    ensures forall l :: 0 <= l < turns ==> strategies[l] == MonteCarloEntry(values, turns, draws, l + 1)
  {
    var sums := new real[turns](_ => 0.0);
    for i := 0 to |draws|
      invariant forall l :: 0 <= l < turns ==> sums[l] == MonteCarloTotal(values, turns, draws[..i], l + 1) as real
    {
      var permutation := Aux.Shuffle(values, draws[i]);
      AddScores(sums, permutation, turns);
      forall l | 0 <= l < turns
        ensures sums[l] == MonteCarloTotal(values, turns, draws[..i + 1], l + 1) as real
      {
        MonteCarloStep(values, turns, draws, i, l + 1);
      }
    }
    assert draws[..|draws|] == draws;
    DivideAll(sums, |draws|);
    strategies := sums[..];
  }

  /** The inner loop of sumory-strategy.ts:30-32: entry l gains the score of
      "explore l + 1" against one permutation. */
  method AddScores(sums: array<real>, permutation: seq<int>, turns: int)
    requires sums.Length <= |permutation|
    modifies sums
    ensures forall l :: 0 <= l < sums.Length ==>
      sums[l] == old(sums[l]) + StrategyScore(permutation, turns, l + 1) as real
  {
    for l := 0 to sums.Length
      invariant forall m :: 0 <= m < l ==>
        sums[m] == old(sums[m]) + StrategyScore(permutation, turns, m + 1) as real
      invariant forall m :: l <= m < sums.Length ==> sums[m] == old(sums[m])
    {
      var score := EvaluateStrategy(permutation, turns, l + 1);
      sums[l] := sums[l] + score as real;
    }
  }

  /** The final loop of sumory-strategy.ts:35-37. */
  method DivideAll(sums: array<real>, iterations: nat)
    requires iterations > 0
    modifies sums
    ensures forall l :: 0 <= l < sums.Length ==> sums[l] == old(sums[l]) / iterations as real
  {
    for l := 0 to sums.Length
      invariant forall m :: 0 <= m < l ==> sums[m] == old(sums[m]) / iterations as real
      invariant forall m :: l <= m < sums.Length ==> sums[m] == old(sums[m])
    {
      sums[l] := sums[l] / iterations as real;
    }
  }

  /** One more iteration adds the score against one more shuffle. */
  lemma MonteCarloStep(values: seq<int>, turns: int, draws: seq<seq<real>>, i: nat, e: nat)
    requires e <= |values| && ValidDraws(values, draws) && i < |draws|
    ensures MonteCarloTotal(values, turns, draws[..i + 1], e)
      == MonteCarloTotal(values, turns, draws[..i], e)
         + StrategyScore(Aux.FisherYates(values, draws[i]), turns, e)
  {
    assert draws[..i + 1][..i] == draws[..i];
  }

  lemma {:induction false} MonteCarloTotalBounds(values: seq<int>, turns: int, draws: seq<seq<real>>, e: nat, lo: int, hi: int)
    requires 1 <= e <= |values| && e <= turns && ValidDraws(values, draws)
    requires forall k :: 0 <= k < |values| ==> lo <= values[k] <= hi
    ensures |draws| * (turns * lo) <= MonteCarloTotal(values, turns, draws, e) <= |draws| * (turns * hi)
  {
    if draws != [] {
      var n := |draws| - 1;
      MonteCarloTotalBounds(values, turns, draws[..n], e, lo, hi);
      var perm := Aux.FisherYates(values, draws[n]);
      Aux.FisherYatesPermutes(values, draws[n]);
      forall k | 0 <= k < |perm| ensures lo <= perm[k] <= hi {
        PermutationMembers(perm, values, k);
      }
      StrategyScoreBounds(perm, turns, e, lo, hi);
      SplitFactor(n, 1, turns * lo);
      SplitFactor(n, 1, turns * hi);
    }
  }

  lemma DivisionBounds(w: int, c: int, lo: int, hi: int)
    requires c > 0 && c * lo <= w <= c * hi
    ensures lo as real <= w as real / c as real <= hi as real
  {
    var cr := c as real;
    assert w as real / cr - lo as real == (w - c * lo) as real / cr;
    assert hi as real - w as real / cr == (c * hi - w) as real / cr;
  }

  /** Every Monte Carlo entry lies between turns * min and turns * max. */
  lemma MonteCarloEntryBounds(values: seq<int>, turns: int, draws: seq<seq<real>>, e: nat, lo: int, hi: int)
    requires 1 <= e <= |values| && e <= turns && ValidDraws(values, draws) && |draws| > 0
    requires forall k :: 0 <= k < |values| ==> lo <= values[k] <= hi
    ensures (turns * lo) as real <= MonteCarloEntry(values, turns, draws, e) <= (turns * hi) as real
  {
    MonteCarloTotalBounds(values, turns, draws, e, lo, hi);
    DivisionBounds(MonteCarloTotal(values, turns, draws, e), |draws|, turns * lo, turns * hi);
  }

  // ---------------------------------------------------------------------
  // Exact profile (sumory-strategy.ts:41-94)

  /** `values.reduce((a, b) => a + b, 0) / values.length`: whatever bounds
      hold for every card hold for the average. */
  function Average(values: seq<int>): (r: real)
    requires |values| > 0
    ensures forall lo, hi {:trigger InRange(values, lo, hi)} ::
      InRange(values, lo, hi) ==> lo as real <= r <= hi as real
  {
    var r := Sum(values) as real / |values| as real;
    assert forall lo, hi {:trigger InRange(values, lo, hi)} ::
      InRange(values, lo, hi) ==> lo as real <= r <= hi as real
    by {
      forall lo, hi | InRange(values, lo, hi)
        ensures lo as real <= r <= hi as real
      {
        SumBounds(values, lo, hi);
        DivisionBounds(Sum(values), |values|, lo, hi);
      }
    }
    r
  }

  /** C(k, k) * s[k] + ... + C(n-1, k) * s[n-1]. */
  function WeightedSum(s: seq<int>, k: nat, n: nat): int
    requires n <= |s|
  {
    if n <= k then 0 else WeightedSum(s, k, n - 1) + Binom(n - 1, k) * s[n - 1]
  }

  /** The weighted mean of s with the weights C(i, e - 1) over C(N, e). The
      intended reading: position i is the largest of C(i, e - 1) of the
      C(N, e) e-subsets of positions, so for s ascending this is the mean,
      over all e-subsets, of the largest value in the subset. The two ends
      are proved: e = 1 gives the plain mean (`ExpectedMaxOfOne`) and e = N
      the maximum (`ExploreAllFindsMax`). */
  function WeightedMean(s: seq<int>, e: nat): real
    requires 1 <= e <= |s|
  {
    BinomPositive(|s|, e);
    WeightedSum(s, e - 1, |s|) as real / Binom(|s|, e) as real
  }

  /** The best value among e cards drawn without replacement, in
      expectation: the weighted mean of the values sorted ascending. */
  function ExpectedMax(values: seq<int>, e: nat): real
    requires 1 <= e <= |values|
  {
    WeightedMean(SortAscending(values), e)
  }

  /** Expected score of "explore e": e average picks, then turns - e times
      the expected best of e cards. */
  function ExpectedScore(values: seq<int>, turns: int, e: nat): real
    requires 1 <= e <= |values|
  {
    Average(values) * e as real + (turns - e) as real * ExpectedMax(values, e)
  }

  /** `calculateStrategiesDeterministically`. The profile is built in the
      array `profile`; entry e - 1 is written once, in round e. */
  method CalculateStrategiesDeterministically(values: seq<int>, turns: nat)
    returns (strategies: seq<real>)
    requires 0 < |values| && turns <= |values|
    ensures |strategies| == turns
    ensures forall l :: 0 <= l < turns ==> strategies[l] == ExpectedScore(values, turns, l + 1)
  {
    var profile := new real[turns](_ => 0.0);
    var valuesSorted := SortAscending(values);
    var average := Average(values);
    for exploitStart := 1 to turns + 1
      invariant forall l :: 0 <= l < exploitStart - 1 ==> profile[l] == ExpectedScore(values, turns, l + 1)
    {
      var exploitTotal, totalPicks := ExploitWeights(valuesSorted, exploitStart - 1);
      RoundRatioIsWeightedMean(valuesSorted, exploitStart, exploitTotal, totalPicks);
      var exploreTotal := average * exploitStart as real;
      var ratio := exploitTotal as real / totalPicks as real;
      ExpectedScoreFromMax(values, average, turns, exploitStart, ratio);
      var exploitValue := (turns - exploitStart) as real * ratio;
      profile[exploitStart - 1] := exploreTotal + exploitValue;
    }
    strategies := profile[..];
  }

  /** The inner loop of sumory-strategy.ts:72-86: with k = exploitStart - 1,
      it walks indexOfMax from k to N - 1, keeping pickedAsMax == C(indexOfMax, k)
      by the exact update C(n+1, k) == C(n, k) * (n+1) / (n+1-k), and sums the
      weights and the weighted values. */
  method ExploitWeights(valuesSorted: seq<int>, k: nat) returns (exploitTotal: int, totalPicks: int)
    requires k <= |valuesSorted|
    ensures exploitTotal == WeightedSum(valuesSorted, k, |valuesSorted|)
    ensures totalPicks == ColumnSum(k, |valuesSorted|)
  {
    var pickedAsMax := 1;
    totalPicks := 0;
    exploitTotal := 0;
    BinomDiagonal(k);
    var indexOfMax := k;
    while indexOfMax < |valuesSorted|
      invariant k <= indexOfMax <= |valuesSorted|
      invariant pickedAsMax == Binom(indexOfMax, k)
      invariant totalPicks == ColumnSum(k, indexOfMax)
      invariant exploitTotal == WeightedSum(valuesSorted, k, indexOfMax)
    {
      exploitTotal := exploitTotal + pickedAsMax * valuesSorted[indexOfMax];
      totalPicks := totalPicks + pickedAsMax;
      BinomUpdate(indexOfMax, k);
      pickedAsMax := pickedAsMax * (indexOfMax + 1) / (indexOfMax + 1 - k);
      indexOfMax := indexOfMax + 1;
    }
  }

  /** The expected score in terms of the average and the expected best. */
  lemma ExpectedScoreFromMax(values: seq<int>, a: real, turns: int, e: nat, q: real)
    requires 1 <= e <= |values| && a == Average(values) && ExpectedMax(values, e) == q
    ensures ExpectedScore(values, turns, e) == a * e as real + (turns - e) as real * q
  {
  }

  /** The last entry, "explore every turn", is turns times the average. */
  lemma LastEntryIsAverage(values: seq<int>, turns: nat)
    requires 1 <= turns <= |values|
    ensures ExpectedScore(values, turns, turns) == Average(values) * turns as real
  {
    ExpectedScoreFromMax(values, Average(values), turns, turns, ExpectedMax(values, turns));
  }

  /** The ratio one round of the outer loop computes is the weighted mean:
      the column sum it divides by is C(N, e) by the hockey-stick identity,
      so the denominator is positive. */
  lemma RoundRatioIsWeightedMean(s: seq<int>, e: nat, exploitTotal: int, totalPicks: int)
    requires 1 <= e <= |s|
    requires exploitTotal == WeightedSum(s, e - 1, |s|)
    requires totalPicks == ColumnSum(e - 1, |s|)
    ensures totalPicks > 0
    ensures WeightedMean(s, e) == exploitTotal as real / totalPicks as real
  {
    HockeyStick(e - 1, |s|);
    BinomPositive(|s|, e);
  }

  lemma {:induction false} WeightedSumBounds(s: seq<int>, k: nat, n: nat, lo: int, hi: int)
    requires n <= |s|
    requires forall i :: 0 <= i < |s| ==> lo <= s[i] <= hi
    ensures ColumnSum(k, n) * lo <= WeightedSum(s, k, n) <= ColumnSum(k, n) * hi
  {
    if n > k {
      WeightedSumBounds(s, k, n - 1, lo, hi);
      var c := Binom(n - 1, k);
      MulMonotone(c, lo, s[n - 1]);
      MulMonotone(c, s[n - 1], hi);
      SplitFactor(ColumnSum(k, n - 1), c, lo);
      SplitFactor(ColumnSum(k, n - 1), c, hi);
    }
  }

  /** The expected best of e cards lies between the smallest and the largest
      value: it is a weighted average with non-negative weights. */
  lemma ExpectedMaxBounds(values: seq<int>, e: nat, lo: int, hi: int)
    requires 1 <= e <= |values|
    requires forall k :: 0 <= k < |values| ==> lo <= values[k] <= hi
    ensures lo as real <= ExpectedMax(values, e) <= hi as real
  {
    var sorted := SortAscending(values);
    forall i | 0 <= i < |sorted| ensures lo <= sorted[i] <= hi {
      PermutationMembers(sorted, values, i);
    }
    WeightedSumBounds(sorted, e - 1, |values|, lo, hi);
    HockeyStick(e - 1, |values|);
    BinomPositive(|values|, e);
    DivisionBounds(WeightedSum(sorted, e - 1, |values|), Binom(|values|, e), lo, hi);
  }

  lemma IntToRealMul(a: int, b: int)
    ensures (a * b) as real == a as real * b as real
  {
  }

  lemma RealMulMonotone(a: real, b: real, c: real)
    requires a >= 0.0 && b <= c
    ensures a * b <= a * c
  {
    assert a * c - a * b == a * (c - b);
  }

  /** Every exact profile entry lies between turns * min and turns * max,
      the same envelope as the Monte Carlo estimate. */
  lemma ExpectedScoreBounds(values: seq<int>, turns: int, e: nat, lo: int, hi: int)
    requires 1 <= e <= |values| && e <= turns
    requires forall k :: 0 <= k < |values| ==> lo <= values[k] <= hi
    ensures (turns * lo) as real <= ExpectedScore(values, turns, e) <= (turns * hi) as real
  {
    var a, m := Average(values), ExpectedMax(values, e);
    ExpectedScoreFromMax(values, a, turns, e, m);
    assert InRange(values, lo, hi);
    ExpectedMaxBounds(values, e, lo, hi);
    ScoreEnvelope(turns, e, a, m, lo, hi);
  }

  lemma ScoreEnvelope(turns: int, e: nat, a: real, m: real, lo: int, hi: int)
    requires e <= turns && lo as real <= a <= hi as real && lo as real <= m <= hi as real
    ensures (turns * lo) as real <= a * e as real + (turns - e) as real * m <= (turns * hi) as real
  {
    var x, y := e as real, (turns - e) as real;
    CombineBounds(x, y, a, m, lo as real, hi as real);
    assert a * x == x * a;
    assert x + y == turns as real;
    IntToRealMul(turns, lo);
    IntToRealMul(turns, hi);
  }

  lemma CombineBounds(x: real, y: real, a: real, m: real, lo: real, hi: real)
    requires x >= 0.0 && y >= 0.0 && lo <= a <= hi && lo <= m <= hi
    ensures (x + y) * lo <= x * a + y * m <= (x + y) * hi
  {
    CombineBelow(x, y, a, m, lo);
    CombineAbove(x, y, a, m, hi);
  }

  lemma CombineAbove(x: real, y: real, a: real, m: real, hi: real)
    requires x >= 0.0 && y >= 0.0 && a <= hi && m <= hi
    ensures x * a + y * m <= (x + y) * hi
  {
    RealMulMonotone(x, a, hi);
    RealMulMonotone(y, m, hi);
    RealSplitFactor(x, y, hi);
  }

  lemma CombineBelow(x: real, y: real, a: real, m: real, lo: real)
    requires x >= 0.0 && y >= 0.0 && lo <= a && lo <= m
    ensures (x + y) * lo <= x * a + y * m
  {
    RealMulMonotone(x, lo, a);
    RealMulMonotone(y, lo, m);
    RealSplitFactor(x, y, lo);
  }

  lemma RealSplitFactor(x: real, y: real, c: real)
    ensures (x + y) * c == x * c + y * c
  {
  }

  /** If every card holds v, every strategy scores turns * v, exactly and
      in the Monte Carlo estimate alike. */
  lemma ConstantValuesProfile(values: seq<int>, turns: int, draws: seq<seq<real>>, e: nat, v: int)
    requires 1 <= e <= |values| && e <= turns && ValidDraws(values, draws) && |draws| > 0
    requires forall k :: 0 <= k < |values| ==> values[k] == v
    ensures ExpectedScore(values, turns, e) == (turns * v) as real
    ensures MonteCarloEntry(values, turns, draws, e) == (turns * v) as real
  {
    ExpectedScoreBounds(values, turns, e, v, v);
    MonteCarloEntryBounds(values, turns, draws, e, v, v);
  }

  lemma {:induction false} WeightedSumColumnZero(s: seq<int>, n: nat)
    requires n <= |s|
    ensures WeightedSum(s, 0, n) == Sum(s[..n])
  {
    if n > 0 {
      WeightedSumColumnZero(s, n - 1);
      assert s[..n][..n - 1] == s[..n - 1];
    }
  }

  /** With weights C(i, 0) == 1 the weighted mean is the plain mean. */
  lemma WeightedMeanOfOne(s: seq<int>)
    requires |s| > 0
    ensures WeightedMean(s, 1) == Average(s)
  {
    var n := |s|;
    WeightedSumColumnZero(s, n);
    assert s[..n] == s;
    BinomShift(n, 0);
    assert Binom(n, 1) == n;
  }

  /** Reordering the cards does not change their average. */
  lemma AveragePermutation(a: seq<int>, b: seq<int>)
    requires |a| == |b| > 0 && multiset(a) == multiset(b)
    ensures Average(a) == Average(b)
  {
    SumPermutation(a, b);
  }

  /** The expected best of one card drawn at random is the mean. */
  lemma ExpectedMaxOfOne(values: seq<int>)
    requires |values| > 0
    ensures ExpectedMax(values, 1) == Average(values)
  {
    var sorted := SortAscending(values);
    WeightedMeanOfOne(sorted);
    AveragePermutation(sorted, values);
  }

  /** Exploring every card is sure to see the best one. */
  lemma ExploreAllFindsMax(values: seq<int>)
    requires |values| > 0
    ensures ExpectedMax(values, |values|) == Max(values) as real
  {
    var sorted := SortAscending(values);
    WeightedMeanOfAll(sorted);
    SortedLastIsMax(values);
  }

  /** With e = N only the last position has a nonzero weight. */
  lemma WeightedMeanOfAll(s: seq<int>)
    requires |s| > 0
    ensures WeightedMean(s, |s|) == s[|s| - 1] as real
  {
    var n := |s|;
    BinomDiagonal(n);
    BinomDiagonal(n - 1);
    assert WeightedSum(s, n - 1, n - 1) == 0;
  }

  /** The last of the sorted values is the largest value. */
  lemma SortedLastIsMax(values: seq<int>)
    requires |values| > 0
    ensures SortAscending(values)[|values| - 1] == Max(values)
  {
    SortAscendingIsSorted(values);
    LastOfSortedIsMax(SortAscending(values), values);
  }

  lemma LastOfSortedIsMax(sorted: seq<int>, values: seq<int>)
    requires |sorted| == |values| > 0
    requires IsSorted(sorted) && multiset(sorted) == multiset(values)
    ensures sorted[|sorted| - 1] == Max(values)
  {
    var n := |sorted|;
    PermutationMembers(sorted, values, n - 1);
    var m := Max(values);
    assert m in multiset(sorted);
    var k :| 0 <= k < n && sorted[k] == m;
    assert sorted[k] <= sorted[n - 1];
  }

  /** Exploring a single card and then repeating it is worth the average on
      every turn. */
  lemma ExploreOneIsAverage(values: seq<int>, turns: int)
    requires |values| > 0
    ensures ExpectedMax(values, 1) == Average(values)
    ensures ExpectedScore(values, turns, 1) == Average(values) * turns as real
  {
    ExpectedMaxOfOne(values);
    var a, q := Average(values), ExpectedMax(values, 1);
    ExpectedScoreFromMax(values, a, turns, 1, q);
    OnceThenRest(ExpectedScore(values, turns, 1), a, q, turns);
  }

  /** One pick worth a, then turns - 1 picks worth q == a, make turns * a. */
  lemma OnceThenRest(score: real, a: real, q: real, turns: int)
    requires q == a && score == a * 1 as real + (turns - 1) as real * q
    ensures score == a * turns as real
  {
  }
}
