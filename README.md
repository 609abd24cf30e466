# Sumory: the game core in Dafny

Sumory is a memory game. N face-down cards carry integer values. The player
has T turns, and each turn flips one card, a card already seen included, to
add its value to the score. When no turns are left, the board reveals the
remaining cards one by one and the round ends. The strategy engine computes a
baseline profile for the same cards: "explore e cards, then take the best one
seen again for the remaining T - e turns". The application computes the best
entry of that profile, but the end screen that would show it next to the
player's score is commented out.

This project models four pieces and proves properties of them:

- **The strategy engine** (`src/helpers/sumory-strategy.ts`), module
  `Strategy`:
  - the score of one play against a fixed card order;
  - the Monte Carlo profile over shuffles;
  - the exact profile, built from incrementally updated binomial weights.
- **The Fisher–Yates shuffle** (`src/helpers/aux.ts`), module `Aux`.
- **The value and rating generators** (`src/helpers/sumory-random.ts`),
  module `Random`.
- **The round state machine** (`src/SumoryGame.tsx`), module `Game`. It is
  lifted out of the React component into the class `SumoryGame`:
  - `Click` is `handleCardClicked` followed by the selection effect;
  - `Tick` is one run of the reveal interval;
  - `RunInterval` is the interval firing until it clears itself.

Helper modules:

- `Common`: an `Option` type for JavaScript's `null`, and `Math.random()` made
  explicit.
- `Binomial`: Pascal's triangle and the identities the exact profile rests on.
- `SeqMath`: sum, maximum and an ascending sort.

Every `Math.random()` becomes a real draw `u` with `0 <= u < 1`, supplied by
the caller as a parameter. Each operation says which draw it uses where:

- the shuffle takes one draw per position, and `us[i]` is the draw of loop
  step i, so the steps consume them from `us[n-1]` down to `us[1]` and
  `us[0]` is never used;
- `generateRatings` always receives a range draw, but uses it only when there
  is no maximum and the count is not 11.

`Math.floor(u * m)` and `Math.ceil(u * m)` are then computed exactly. This
means the bounds the code relies on are proved rather than assumed, for
example the swap partner `0 <= j <= i` of the shuffle. Values, sums and binomial weights are
mathematical integers. The averages and divisions are exact reals.

One behaviour of `generateRatings` deserves a note. The comment at
`src/helpers/sumory-random.ts:31` says that zero stars can happen when a
maximum is given. Zero stars can also happen without a maximum. There each
rating is `Math.ceil(random() * range)` (line 29), which is 0 when `random()`
returns exactly 0. `Random.UnboundedRatingZeroIff` states this, and
`Random.GenerateRatings` promises `0 <= rating <= range` on that branch.

## Model

| member | source | states |
|---|---|---|
| Common.FloorScaledBounds | src/helpers/aux.ts:7 | `Math.floor(random() * m)` with m >= 1 lies in 0 .. m-1 |
| Common.CeilScaledBounds | src/helpers/sumory-random.ts:29 | `Math.ceil(random() * m)` lies in 0 .. m, and is 0 exactly when the draw is 0 |
| Common.FloorScaledExact | src/helpers/sumory-random.ts:31 | every outcome 0 .. m-1 of a scaled floor is reached by some draw |
| Common.CeilScaledExact | src/helpers/sumory-random.ts:29 | every outcome 1 .. m of a scaled ceiling is reached by some draw |
| Binomial.BinomDiagonal | src/helpers/sumory-strategy.ts:72-77 | the starting weight 1 is C(k, k) for the starting index k = exploitStart - 1 |
| Binomial.BinomPositive | src/helpers/sumory-strategy.ts:87 | C(n, k) > 0 for k <= n |
| Binomial.BinomAboveIsZero | src/helpers/sumory-strategy.ts:62-67 | C(n, k) = 0 for k > n |
| Binomial.BinomShift | src/helpers/sumory-strategy.ts:69 | (n - j) C(n, j) = (j + 1) C(n, j + 1) for all n, j |
| Binomial.BinomStep | src/helpers/sumory-strategy.ts:69 | (n + 1 - k) C(n + 1, k) = (n + 1) C(n, k), the identity behind the update |
| Binomial.BinomUpdate | src/helpers/sumory-strategy.ts:83-85 | the update `pickedAsMax * (n + 1) / (n + 1 - k)` divides exactly and yields C(n + 1, k) |
| Binomial.HockeyStick | src/helpers/sumory-strategy.ts:62-67 | the weights C(k, k) + ... + C(N-1, k) sum to C(N, k + 1), the number of (k+1)-subsets |
| SeqMath.SumConcat | src/helpers/sumory-strategy.ts:50 | the left-fold sum of a concatenation is the sum of the sums |
| SeqMath.SumPermutation | src/helpers/sumory-strategy.ts:48-50 | the sum depends only on the multiset of the values, so sorted and unsorted values share the average |
| SeqMath.SumBounds | src/helpers/sumory-strategy.ts:50 | values in [lo, hi] give a sum in [len * lo, len * hi] |
| SeqMath.Max | src/helpers/sumory-strategy.ts:9-11 | the running maximum is an element of the sequence and at least every element |
| SeqMath.PrefixStep | src/helpers/sumory-strategy.ts:7-12 | one more explore step adds the value to the total and takes the larger of the old maximum and the value |
| SeqMath.Insert | src/helpers/sumory-strategy.ts:48 | insertion adds exactly one element to the multiset |
| SeqMath.InsertKeepsSorted | src/helpers/sumory-strategy.ts:48 | inserting into a sorted sequence keeps it sorted |
| SeqMath.SortAscending | src/helpers/sumory-strategy.ts:48 | the comparator sort `(a, b) => a - b` returns a permutation of its argument of the same length |
| SeqMath.SortAscendingIsSorted | src/helpers/sumory-strategy.ts:48 | that permutation is in ascending order |
| SeqMath.PermutationMembers | src/helpers/aux.ts:5-9 | every element of a permutation occurs in the original |
| SeqMath.PermutationInRange | src/helpers/sumory-random.ts:14 | a permutation keeps every lower and upper bound of the elements |
| Aux.Partner | src/helpers/aux.ts:7 | the swap partner j drawn at step i satisfies 0 <= j <= i |
| Aux.Swap | src/helpers/aux.ts:8 | the destructuring swap exchanges the elements at i and j and leaves every other position as it was |
| Aux.ShuffleFrom | src/helpers/aux.ts:6-9 | the remaining swaps keep the length |
| Aux.FisherYates | src/helpers/aux.ts:4-11 | the shuffle as a function of input and draws keeps the length |
| Aux.Shuffle | src/helpers/aux.ts:4-11 | the in-place swap loop on the copy `answer` returns exactly FisherYates(input, draws): a permutation of the input of the same length; the caller's sequence is a value and is not changed |
| Aux.SwapPermutes | src/helpers/aux.ts:8 | one swap preserves the multiset |
| Aux.ShuffleFromPermutes | src/helpers/aux.ts:6-9 | all remaining swaps preserve the multiset |
| Aux.FisherYatesPermutes | src/helpers/aux.ts:4-11 | whatever the draws, the result is a permutation of the input |
| Aux.FisherYatesShort | src/helpers/aux.ts:6 | inputs of length 0 or 1 come back unchanged, because the loop does not run |
| Aux.ShuffleFromKeepsAbove | src/helpers/aux.ts:6-8 | steps i, i-1, ..., 1 never touch a position above i |
| Aux.FisherYatesLast | src/helpers/aux.ts:7-8 | the final last element is the one the first draw chose |
| Strategy.EvaluateStrategy | src/helpers/sumory-strategy.ts:3-19 | the score is the sum of the first exploitStart values plus (turns - exploitStart) times their maximum (`null`, i.e. 0, when exploitStart = 0); for exploitStart = turns it is exactly the sum of the first turns values |
| Strategy.NullAsZero | src/helpers/sumory-strategy.ts:15 | `total += max` with `max` still `null` adds 0, and with a number adds that number |
| Strategy.StrategyScore | src/helpers/sumory-strategy.ts:3-19 | exploring no card scores 0; exploring e >= turns cards scores the sum of the e explored cards; otherwise the score is the explored sum plus turns - e picks of one explored card, and is at least that for every explored card: the exploit phase repeats the best card seen |
| Strategy.StrategyScoreBounds | src/helpers/sumory-strategy.ts:3-19 | with all values in [lo, hi] and 1 <= e <= turns, the score lies in [turns * lo, turns * hi] |
| Strategy.CalculateStrategiesMonteCarlo | src/helpers/sumory-strategy.ts:21-39 | returns `turns` entries; entry l is the mean, over the supplied shuffles, of the score of "explore l + 1" |
| Strategy.AddScores | src/helpers/sumory-strategy.ts:30-32 | each entry l grows by the score of "explore l + 1" against one permutation, and by nothing else |
| Strategy.DivideAll | src/helpers/sumory-strategy.ts:35-37 | each entry is divided by the number of iterations |
| Strategy.MonteCarloStep | src/helpers/sumory-strategy.ts:28-33 | one more iteration adds the score against one more shuffle to the total |
| Strategy.MonteCarloTotalBounds | src/helpers/sumory-strategy.ts:28-33 | the summed score over k shuffles lies in [k * turns * lo, k * turns * hi] |
| Strategy.MonteCarloEntryBounds | src/helpers/sumory-strategy.ts:21-39 | every Monte Carlo entry lies in [turns * min, turns * max] |
| Strategy.CalculateStrategiesDeterministically | src/helpers/sumory-strategy.ts:41-94 | returns `turns` entries; entry e - 1 is the expected score average * e + (turns - e) * expected best of e cards, written once in round e |
| Strategy.ExploitWeights | src/helpers/sumory-strategy.ts:72-86 | the inner loop keeps pickedAsMax = C(indexOfMax, k) and ends with totalPicks = the sum of C(i, k) and exploitTotal = the sum of C(i, k) * sorted[i] over i = k .. N-1 |
| Strategy.RoundRatioIsWeightedMean | src/helpers/sumory-strategy.ts:62-87 | totalPicks = C(N, e) > 0, so the division at line 87 never divides by zero, and the ratio is the weighted mean of the sorted values |
| Strategy.Average | src/helpers/sumory-strategy.ts:50 | every lower and upper bound that holds for all cards holds for the average |
| Strategy.WeightedSumBounds | src/helpers/sumory-strategy.ts:76-86 | the weighted sum lies between (sum of weights) * lo and (sum of weights) * hi |
| Strategy.ExpectedMaxBounds | src/helpers/sumory-strategy.ts:48-87 | the per-turn exploit value lies between the smallest and the largest value |
| Strategy.ExpectedScoreBounds | src/helpers/sumory-strategy.ts:56-90 | every exact entry lies in [turns * min, turns * max], the same envelope as the Monte Carlo entries |
| Strategy.ScoreEnvelope | src/helpers/sumory-strategy.ts:90 | e average picks plus turns - e expected-best picks stay inside turns times the value bounds |
| Strategy.ConstantValuesProfile | src/helpers/sumory-strategy.ts:50-90 | if every value is v, every exact entry and every Monte Carlo entry is turns * v |
| Strategy.LastEntryIsAverage | src/helpers/sumory-strategy.ts:56-90 | the last entry, explore all turns, is turns * average |
| Strategy.WeightedSumColumnZero | src/helpers/sumory-strategy.ts:76-86 | with weights C(i, 0) = 1 the weighted sum is the plain sum |
| Strategy.WeightedMeanOfOne | src/helpers/sumory-strategy.ts:76-87 | with e = 1 the weighted mean is the plain mean |
| Strategy.ExploreOneIsAverage | src/helpers/sumory-strategy.ts:48-90 | the expected best of one card is the average, so "explore 1" is worth turns * average |
| Strategy.ExploreAllFindsMax | src/helpers/sumory-strategy.ts:58-87 | with exploitStart = N the expected best of the explored cards is the largest value, since only the last sorted position has a nonzero weight |
| Strategy.SortedLastIsMax | src/helpers/sumory-strategy.ts:48 | the last of the values sorted ascending is the largest value |
| Strategy.AveragePermutation | src/helpers/sumory-strategy.ts:48-50 | reordering the cards, as the sort does, leaves their average unchanged |
| Random.ValueRange | src/helpers/sumory-random.ts:6 | the range R lies in [10, 98] |
| Random.ValueRangeReachable | src/helpers/sumory-random.ts:6 | every R in [10, 98] is reached by some draw |
| Random.Difference | src/helpers/sumory-random.ts:8-10 | each value is a difference of two integers in [0, 2R - 1], so it lies in [-(2R - 1), 2R - 1] |
| Random.DifferenceReachable | src/helpers/sumory-random.ts:8-10 | every value in [-(2R - 1), 2R - 1] is reached, so the bound is tight |
| Random.PushedValues | src/helpers/sumory-random.ts:7-11 | the loop pushes one value per element, `count` in all |
| Random.GenerateValues | src/helpers/sumory-random.ts:3-15 | returns exactly `count` values, each in [-(2R - 1), 2R - 1], forming the shuffle of the pushed values and so a permutation of them |
| Random.FiveStarRatingsInRange | src/helpers/sumory-random.ts:22 | the curated distribution holds ratings 0 .. 5 |
| Random.RatingRange | src/helpers/sumory-random.ts:25-26 | with no maximum the range lies in [2, 11] |
| Random.RangeFor | src/helpers/sumory-random.ts:25-26 | the range is the maximum when one is given, otherwise a random one in [2, 11] |
| Random.Rate | src/helpers/sumory-random.ts:28-32 | each rating lies in [0, range] |
| Random.PushedRatings | src/helpers/sumory-random.ts:27-33 | the loop pushes one rating per element |
| Random.PushRatings | src/helpers/sumory-random.ts:27-33 | the push loop yields exactly the pushed ratings, all in [0, range] |
| Random.GenerateRatings | src/helpers/sumory-random.ts:17-36 | returns exactly `count` ratings; with no maximum and count 11 a permutation of [0,1,1,1,2,2,2,3,3,4,5]; otherwise the shuffle of the pushed ratings, each in [0, range], hence in [0, maxRating] with a maximum and [0, 11] without |
| Random.UnboundedRatingZeroIff | src/helpers/sumory-random.ts:29 | with no maximum a rating is 0 exactly when the draw is 0 |
| Random.RatingReachable | src/helpers/sumory-random.ts:28-32 | every rating 0 .. maxRating, or 1 .. range with no maximum, is reached by some draw |
| Game.FindUnturnedFrom | src/SumoryGame.tsx:28-30 | the scan returns -1 exactly when every card at or above the counter is selected, and otherwise the lowest unselected such card |
| Game.FindUnturned | src/SumoryGame.tsx:28-30 | `findIndex` from position 0 returns -1 exactly when every card at or above the counter is selected, and otherwise the lowest unselected card at or above the counter |
| Game.TurnsLeft | src/SumoryGame.tsx:45-47 | no turn is left exactly when the selection is as long as `turns`, and with at most `turns` picks the turns left lie in 0 .. turns |
| Game.SelectionSum | src/SumoryGame.tsx:49-51 | `sum(selection)` is the sum of the picked values in pick order, so a card picked twice counts twice |
| Game.TimesSelected | src/SumoryGame.tsx:82-85 | `timesSelected` of card i is the number of occurrences of i in the selection, at most its length |
| Game.Turned | src/SumoryGame.tsx:86 | a card is face up exactly when the board is not resetting and the card was selected or lies below `revealedCount` |
| Game.SumoryGame.constructor | src/SumoryGame.tsx:17-23 | empty selection, counters 0, not over; the mount effect starts the interval at once when turns = 0 |
| Game.SumoryGame.SelectionChanged | src/SumoryGame.tsx:24-43 | after a selection change the interval runs iff no turn is left, and otherwise the reveal counter is reset to 0 |
| Game.SumoryGame.Click | src/SumoryGame.tsx:53-61 | with turns left the index is appended even if already selected, and the update carries the new sum (old sum + value) and turnsLeft - 1; with none left nothing changes and no update is emitted; the invariant, including len(selection) <= turns for turns >= 0, is kept |
| Game.SumoryGame.Tick | src/SumoryGame.tsx:27-38 | reveals the lowest unselected card at or above the counter and moves the counter past it, removing exactly one card from those to reveal; when there is none, it clears the interval and sets gameOver with every card face up |
| Game.SumoryGame.RunInterval | src/SumoryGame.tsx:27-38 | the interval ends with gameOver after at most N + 1 ticks, with every card face up |
| Game.TimesSelectedPositive | src/SumoryGame.tsx:82-85 | `timesSelected` is positive exactly when the card occurs in the selection |
| Game.CountWeightedAppend | src/SumoryGame.tsx:82-85 | appending a card raises its count by one and adds its value to the count-weighted sum |
| Game.CountWeightedEmpty | src/SumoryGame.tsx:82-85 | with nothing selected the count-weighted sum is 0 |
| Game.SelectionSumByCounts | src/SumoryGame.tsx:49-51 | `sum(selection)` is the sum over the cards of timesSelected * value, so a card picked k times counts k times |
| Game.UnturnedBound | src/SumoryGame.tsx:28-30 | at most N - c cards at or above c are left to reveal |
| Game.UnturnedSkip | src/SumoryGame.tsx:28-30 | skipping selected cards does not change the number left to reveal |
| Game.RevealStep | src/SumoryGame.tsx:31-33 | a reveal lowers the number of cards left to reveal by exactly one |
| Game.NoneLeftIff | src/SumoryGame.tsx:31-37 | the scan finds nothing exactly when no card is left to reveal |
| Game.AllTurnedWhenNoneLeft | src/SumoryGame.tsx:34-37 | when the scan finds nothing, every card is face up (board not resetting) |

## Left out

- IEEE-754 doubles. Values, sums and binomial weights are exact integers, and the averages are exact reals. The intermediate rounding of JavaScript numbers is not modelled, so `pickedAsMax` stays exact for any N.
- The distribution of `Math.random()`. The draws are inputs. No claim is made about uniformity of the shuffle, convergence of the Monte Carlo estimate or the distribution of generated values.
- Strategy.EvaluateStrategy: requires exploitStart <= |values|. Beyond that the source reads `undefined` and returns NaN, which the integer model has no value for.
- Strategy.CalculateStrategiesMonteCarlo: requires turns <= |values| (for the same reason) and at least one iteration. With zero iterations the source divides 0 by 0 and returns NaN entries. The default of 1000000 iterations is the length of the draw list.
- Strategy.CalculateStrategiesDeterministically: requires 0 < |values| and turns <= |values|. Otherwise the average, or the division at sumory-strategy.ts:87 with totalPicks = 0, is NaN.
- `Array.prototype.sort` is modelled by an insertion sort. Only its result matters: the unique ascending permutation of the values.
- Random.GenerateRatings: `maxRating` is a non-negative integer or absent. A negative or fractional maximum is not modelled.
- Random.GenerateValues: `Math.random() * range * 2` is computed as the exact product `u * (2R)`.
- Game.SumoryGame.Click: the optional `onUpdate` callback is modelled as always present, and its call as the returned update. The `onGameOver` callback is the `GameOver` event of `Tick`. A click is only ever on a rendered card, 0 <= i < N.
- Game.SumoryGame.RunInterval: the interval's delay (`cardRevealDelay`, default 150) and React's scheduling of effects and state updates are not modelled. The interval body runs as a sequence of `Tick` calls.
- The `resetting` prop appears only in the visibility predicate `Turned`. Its animation role, the DOM refs `cardElements`, the `+` formatting of card text and the rest of the rendering are not modelled.
- src/SumoryApp.tsx, src/InfoModal.tsx, src/Creature.tsx and src/main.tsx are presentation and are not part of this model.
