// The value and rating generators of src/helpers/sumory-random.ts. Each
// `Math.random()` call is a caller-supplied draw in [0, 1): a range draw,
// one or two draws per generated element, and the draws of the final
// shuffle, which `Aux.Shuffle` indexes by loop step.
module Random {
  import opened Common
  import opened SeqMath
  import Aux

  // ---------------------------------------------------------------------
  // generateValues (sumory-random.ts:3-15)

  /** The range R = floor(random() * 89) + 10 of the whole value set. */
  function ValueRange(u: real): (r: int)
    requires IsDraw(u)
    ensures 10 <= r <= 98
  {
    FloorScaledBounds(u, 89);
    FloorScaled(u, 89) + 10
  }

  /** One card value: floor(random() * R * 2) - floor(random() * R * 2), a
      difference of two integers in [0, 2R - 1]. */
  function Difference(range: int, a: real, b: real): (v: int)
    requires range >= 1 && IsDraw(a) && IsDraw(b)
    ensures -(2 * range - 1) <= v <= 2 * range - 1
  {
    FloorScaledBounds(a, range * 2);
    FloorScaledBounds(b, range * 2);
    FloorScaled(a, range * 2) - FloorScaled(b, range * 2)
  }

  predicate ArePairDraws(pairs: seq<(real, real)>)
  {
    forall i :: 0 <= i < |pairs| ==> IsDraw(pairs[i].0) && IsDraw(pairs[i].1)
  }

  /** The values in the order the loop pushes them. */
  function PushedValues(range: int, pairs: seq<(real, real)>): (vs: seq<int>)
    requires range >= 1 && ArePairDraws(pairs)
    ensures |vs| == |pairs|
  {
    seq(|pairs|, i requires 0 <= i < |pairs| => Difference(range, pairs[i].0, pairs[i].1))
  }

  /** `generateValues(count)`: `pairs[i]` are the two draws of element i. */
  method GenerateValues(count: nat, rangeDraw: real, pairs: seq<(real, real)>, shuffleDraws: seq<real>)
    returns (r: seq<int>)
    requires IsDraw(rangeDraw)
    requires |pairs| == count && ArePairDraws(pairs)
    requires |shuffleDraws| == count && AreDraws(shuffleDraws)
    ensures |r| == count
    ensures r == Aux.FisherYates(PushedValues(ValueRange(rangeDraw), pairs), shuffleDraws)
    ensures multiset(r) == multiset(PushedValues(ValueRange(rangeDraw), pairs))
    ensures forall k :: 0 <= k < |r| ==>
      -(2 * ValueRange(rangeDraw) - 1) <= r[k] <= 2 * ValueRange(rangeDraw) - 1
  {
    var answer := [];
    var range := ValueRange(rangeDraw);
    for i := 0 to count
      invariant answer == PushedValues(range, pairs)[..i]
    {
      answer := answer + [Difference(range, pairs[i].0, pairs[i].1)];
    }
    assert answer == PushedValues(range, pairs);
    r := Aux.Shuffle(answer, shuffleDraws);
    PermutationInRange(r, answer, -(2 * range - 1), 2 * range - 1);
  }

  /** Every range 10 .. 98 is possible. */
  lemma ValueRangeReachable(range: int)
    requires 10 <= range <= 98
    ensures IsDraw((range - 10) as real / 89.0)
    ensures ValueRange((range - 10) as real / 89.0) == range
  {
    FloorScaledExact(range - 10, 89);
  }

  /** Every value in [-(2R - 1), 2R - 1] is possible, so the bound of
      `Difference` is tight: a non-negative v from (v / 2R, 0), a negative one
      from (0, -v / 2R). */
  lemma DifferenceReachable(range: int, v: int)
    requires range >= 1 && -(2 * range - 1) <= v <= 2 * range - 1
    ensures v >= 0 ==> (IsDraw(v as real / (range * 2) as real)
      && Difference(range, v as real / (range * 2) as real, 0.0) == v)
    ensures v < 0 ==> (IsDraw((-v) as real / (range * 2) as real)
      && Difference(range, 0.0, (-v) as real / (range * 2) as real) == v)
  {
    FloorScaledExact(0, range * 2);
    assert FloorScaled(0.0, range * 2) == 0;
    if v >= 0 {
      FloorScaledExact(v, range * 2);
    } else {
      FloorScaledExact(-v, range * 2);
    }
  }

  // ---------------------------------------------------------------------
  // generateRatings (sumory-random.ts:17-36)

  /** The curated distribution returned for 11 ratings and no maximum. */
  const FiveStarRatings: seq<int> := [0, 1, 1, 1, 2, 2, 2, 3, 3, 4, 5]

  /** The curated ratings are 0 to 5 stars. */
  lemma FiveStarRatingsInRange()
    ensures InRange(FiveStarRatings, 0, 5)
  {
    var s := FiveStarRatings;
    assert s[..6] == [0, 1, 1, 1, 2, 2] && InRange(s[..6], 0, 5);
    assert s[6..] == [2, 3, 3, 4, 5] && InRange(s[6..], 0, 5);
    forall k | 0 <= k < |s| ensures 0 <= s[k] <= 5 {
      if k < 6 {
        assert s[k] == s[..6][k];
      } else {
        assert s[k] == s[6..][k - 6];
      }
    }
  }

  /** With no maximum: range = floor(random() * 10) + 2. */
  function RatingRange(u: real): (r: int)
    requires IsDraw(u)
    ensures 2 <= r <= 11
  {
    FloorScaledBounds(u, 10);
    FloorScaled(u, 10) + 2
  }

  /** One rating: ceil(random() * range) with no maximum, and
      floor(random() * (range + 1)) with maximum range. */
  function Rate(maxRating: Option<nat>, range: nat, u: real): (v: int)
    requires IsDraw(u) && (maxRating.None? ==> range >= 1)
    ensures 0 <= v <= range
  {
    if maxRating.None? then
      CeilScaledBounds(u, range);
      CeilScaled(u, range)
    else
      FloorScaledBounds(u, range + 1);
      FloorScaled(u, range + 1)
  }

  /** The range of sumory-random.ts:25-26: the maximum if one is given, a
      random one in [2, 11] otherwise. */
  function RangeFor(maxRating: Option<nat>, rangeDraw: real): (r: nat)
    requires IsDraw(rangeDraw)
    ensures maxRating.None? ==> 2 <= r <= 11
  {
    if maxRating.None? then RatingRange(rangeDraw) else maxRating.value
  }

  /** The ratings in the order the loop pushes them. */
  function PushedRatings(maxRating: Option<nat>, range: nat, us: seq<real>): (vs: seq<int>)
    requires AreDraws(us) && (maxRating.None? ==> range >= 1)
    ensures |vs| == |us|
  {
    seq(|us|, i requires 0 <= i < |us| => Rate(maxRating, range, us[i]))
  }

  /** `generateRatings(count, maxRating)`. `rangeDraw` is consumed only when
      there is no maximum and count != 11; `ratingDraws[i]` is the draw of
      element i. */
  method GenerateRatings(count: nat, maxRating: Option<nat>, rangeDraw: real,
                         ratingDraws: seq<real>, shuffleDraws: seq<real>)
    returns (r: seq<int>)
    requires IsDraw(rangeDraw)
    requires |ratingDraws| == count && AreDraws(ratingDraws)
    requires |shuffleDraws| == count && AreDraws(shuffleDraws)
    ensures |r| == count
    ensures maxRating.None? && count == 11 ==>
      r == Aux.FisherYates(FiveStarRatings, shuffleDraws) && multiset(r) == multiset(FiveStarRatings)
    ensures !(maxRating.None? && count == 11) ==>
      r == Aux.FisherYates(PushedRatings(maxRating, RangeFor(maxRating, rangeDraw), ratingDraws), shuffleDraws)
    ensures !(maxRating.None? && count == 11) ==>
      forall k :: 0 <= k < |r| ==> 0 <= r[k] <= RangeFor(maxRating, rangeDraw)
    ensures forall k :: 0 <= k < |r| ==>
      0 <= r[k] <= if maxRating.Some? then maxRating.value else 11
  {
    if maxRating.None? && count == 11 {
      r := Aux.Shuffle(FiveStarRatings, shuffleDraws);
      FiveStarRatingsInRange();
      PermutationInRange(r, FiveStarRatings, 0, 5);
      return;
    }
    var range := RangeFor(maxRating, rangeDraw);
    var answer := PushRatings(maxRating, range, ratingDraws);
    r := Aux.Shuffle(answer, shuffleDraws);
    PermutationInRange(r, answer, 0, range);
  }

  /** The loop of sumory-random.ts:27-33. */
  method PushRatings(maxRating: Option<nat>, range: nat, ratingDraws: seq<real>) returns (answer: seq<int>)
    requires AreDraws(ratingDraws) && (maxRating.None? ==> range >= 1)
    ensures answer == PushedRatings(maxRating, range, ratingDraws)
    ensures InRange(answer, 0, range)
  {
    answer := [];
    for i := 0 to |ratingDraws|
      invariant answer == PushedRatings(maxRating, range, ratingDraws)[..i]
    {
      answer := answer + [Rate(maxRating, range, ratingDraws[i])];
    }
    assert answer == PushedRatings(maxRating, range, ratingDraws);
  }

  /** With no maximum a rating is 0 exactly when the draw is 0, so zero stars
      are possible on this branch too, and a positive draw gives at least 1. */
  lemma UnboundedRatingZeroIff(range: nat, u: real)
    requires IsDraw(u) && range >= 1
    ensures Rate(None, range, u) == 0 <==> u == 0.0
  {
    CeilScaledBounds(u, range);
  }

  /** Every rating the bounds allow is possible: 0 .. m with a maximum m,
      1 .. range without one. */
  lemma RatingReachable(maxRating: Option<nat>, range: nat, v: int)
    requires maxRating.Some? ==> 0 <= v <= range
    requires maxRating.None? ==> 1 <= v <= range
    ensures maxRating.Some? ==> (IsDraw(v as real / (range + 1) as real)
      && Rate(maxRating, range, v as real / (range + 1) as real) == v)
    ensures maxRating.None? ==> (IsDraw((2 * v - 1) as real / (2 * range) as real)
      && Rate(maxRating, range, (2 * v - 1) as real / (2 * range) as real) == v)
  {
    if maxRating.Some? {
      FloorScaledExact(v, range + 1);
    } else {
      CeilScaledExact(v, range);
    }
  }
}
