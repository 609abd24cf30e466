// The Fisher-Yates shuffle of src/helpers/aux.ts. The function copies its
// argument into `answer` and, for i from length-1 down to 1, swaps answer[i]
// with answer[j] where j = floor(random() * (i + 1)). The draws are supplied
// by the caller: us[i] is the draw used at step i (us[0] is never used).
module Aux {
  import opened Common

  /** The swap partner chosen at step i. */
  function Partner(us: seq<real>, i: nat): (j: int)
    requires i < |us| && AreDraws(us)
    ensures 0 <= j <= i
  {
    FloorScaledBounds(us[i], i + 1);
    FloorScaled(us[i], i + 1)
  }

  /** `[answer[i], answer[j]] = [answer[j], answer[i]]`: the two positions
      exchange their elements and every other position keeps its own. */
  function Swap<T>(s: seq<T>, i: nat, j: nat): (r: seq<T>)
    requires i < |s| && j < |s|
    ensures |r| == |s| && r[i] == s[j] && r[j] == s[i]
    ensures forall k :: 0 <= k < |s| && k != i && k != j ==> r[k] == s[k]
  {
    s[i := s[j]][j := s[i]]
  }

  /** The rest of the loop: steps i, i-1, ..., 1 applied to s. */
  function ShuffleFrom<T>(s: seq<T>, us: seq<real>, i: int): (r: seq<T>)
    requires |us| == |s| && AreDraws(us) && i < |s|
    ensures |r| == |s|
    decreases i
  {
    if i <= 0 then s else ShuffleFrom(Swap(s, i, Partner(us, i)), us, i - 1)
  }

  /** The whole shuffle, as a function of the input and the draws. */
  function FisherYates<T>(s: seq<T>, us: seq<real>): (r: seq<T>)
    requires |us| == |s| && AreDraws(us)
    ensures |r| == |s|
  {
    ShuffleFrom(s, us, |s| - 1)
  }

  /** The loop of aux.ts:5-10 on a copy of the caller's array. Value
      semantics of `input` captures that the caller's array is not changed. */
  method Shuffle<T>(input: seq<T>, us: seq<real>) returns (r: seq<T>)
    requires |us| == |input| && AreDraws(us)
    ensures r == FisherYates(input, us)
    ensures |r| == |input| && multiset(r) == multiset(input)
  {
    var answer := new T[|input|](k requires 0 <= k < |input| => input[k]);
    assert answer[..] == input;
    var i := answer.Length - 1;
    while i > 0
      invariant -1 <= i < answer.Length
      invariant ShuffleFrom(answer[..], us, i) == FisherYates(input, us)
    {
      var j := Partner(us, i);
      ghost var before := answer[..];
      answer[i], answer[j] := answer[j], answer[i];
      assert answer[..] == Swap(before, i, j);
      i := i - 1;
    }
    r := answer[..];
    FisherYatesPermutes(input, us);
  }

  /** A swap rearranges the elements and loses none. */
  lemma SwapPermutes<T>(s: seq<T>, i: nat, j: nat)
    requires j <= i < |s|
    ensures multiset(Swap(s, i, j)) == multiset(s)
  {
    var t := s[i := s[j]];
    assert multiset(t) == multiset(s) - multiset{s[i]} + multiset{s[j]};
    assert multiset(t[j := s[i]]) == multiset(t) - multiset{t[j]} + multiset{s[i]};
  }

  lemma {:induction false} ShuffleFromPermutes<T>(s: seq<T>, us: seq<real>, i: int)
    requires |us| == |s| && AreDraws(us) && i < |s|
    ensures multiset(ShuffleFrom(s, us, i)) == multiset(s)
    decreases i
  {
    if i > 0 {
      var t := Swap(s, i, Partner(us, i));
      SwapPermutes(s, i, Partner(us, i));
      ShuffleFromPermutes(t, us, i - 1);
    }
  }

  /** The result is a permutation of the input, whatever the draws. */
  lemma FisherYatesPermutes<T>(s: seq<T>, us: seq<real>)
    requires |us| == |s| && AreDraws(us)
    ensures multiset(FisherYates(s, us)) == multiset(s)
  {
    ShuffleFromPermutes(s, us, |s| - 1);
  }

  /** An input of length 0 or 1 comes back unchanged: the loop does not run. */
  lemma FisherYatesShort<T>(s: seq<T>, us: seq<real>)
    requires |us| == |s| && AreDraws(us) && |s| <= 1
    ensures FisherYates(s, us) == s
  {
  }

  /** Steps i, i-1, ..., 1 never touch a position above i. */
  lemma {:induction false} ShuffleFromKeepsAbove<T>(s: seq<T>, us: seq<real>, i: int, k: nat)
    requires |us| == |s| && AreDraws(us) && i < k < |s|
    ensures ShuffleFrom(s, us, i)[k] == s[k]
    decreases i
  {
    if i > 0 {
      ShuffleFromKeepsAbove(Swap(s, i, Partner(us, i)), us, i - 1, k);
    }
  }

  /** The element drawn at the first step is the final last element. */
  lemma FisherYatesLast<T>(s: seq<T>, us: seq<real>)
    requires |us| == |s| && AreDraws(us) && |s| >= 2
    ensures FisherYates(s, us)[|s| - 1] == s[Partner(us, |s| - 1)]
  {
    var n := |s|;
    var t := Swap(s, n - 1, Partner(us, n - 1));
    ShuffleFromKeepsAbove(t, us, n - 2, n - 1);
  }
}
