// Sums, maxima and the ascending sort the models use. `Sum` folds from the
// left like `Array.prototype.reduce((a, b) => a + b, 0)`; `SortAscending`
// stands for `[...values].sort((a, b) => a - b)`.
module SeqMath {
  import opened Common

  function Sum(s: seq<int>): int
  {
    if s == [] then 0 else Sum(s[..|s| - 1]) + s[|s| - 1]
  }

  lemma {:induction false} SumConcat(a: seq<int>, b: seq<int>)
    ensures Sum(a + b) == Sum(a) + Sum(b)
  {
    if b != [] {
      assert (a + b)[..|a + b| - 1] == a + b[..|b| - 1];
      SumConcat(a, b[..|b| - 1]);
    } else {
      assert a + b == a;
    }
  }

  /** The sum depends only on the multiset of the elements. */
  lemma {:induction false} SumPermutation(a: seq<int>, b: seq<int>)
    requires multiset(a) == multiset(b)
    ensures Sum(a) == Sum(b)
    decreases |a|
  {
    if a != [] {
      var n := |a| - 1;
      var x := a[n];
      assert x in multiset(b);
      var j :| 0 <= j < |b| && b[j] == x;
      var b' := b[..j] + b[j + 1..];
      assert b == b[..j] + [x] + b[j + 1..];
      assert a == a[..n] + [x];
      assert multiset(b) == multiset(b[..j]) + multiset{x} + multiset(b[j + 1..]);
      assert multiset(a) == multiset(a[..n]) + multiset{x};
      assert multiset(b') == multiset(b[..j]) + multiset(b[j + 1..]);
      assert multiset(a[..n]) == multiset(a) - multiset{x};
      assert multiset(b') == multiset(b) - multiset{x};
      SumPermutation(a[..n], b');
      SumConcat(b[..j] + [x], b[j + 1..]);
      SumConcat(b[..j], b[j + 1..]);
    } else {
      assert |b| == |multiset(b)| == 0;
    }
  }

  /** Every element in [lo, hi] puts the sum in [|s| * lo, |s| * hi]. */
  lemma {:induction false} SumBounds(s: seq<int>, lo: int, hi: int)
    requires forall k :: 0 <= k < |s| ==> lo <= s[k] <= hi
    ensures |s| * lo <= Sum(s) <= |s| * hi
  {
    if s != [] {
      var n := |s| - 1;
      SumBounds(s[..n], lo, hi);
      SplitFactor(n, 1, lo);
      SplitFactor(n, 1, hi);
    }
  }

  /** The largest element. */
  function Max(s: seq<int>): (m: int)
    requires s != []
    ensures m in s
    ensures forall k :: 0 <= k < |s| ==> s[k] <= m
  {
    if |s| == 1 then s[0]
    else
      var m' := Max(s[..|s| - 1]);
      if s[|s| - 1] > m' then s[|s| - 1] else m'
  }

  /** Extending a prefix by one element: the sum grows by it and the
      maximum becomes the larger of the old maximum and it. */
  lemma PrefixStep(s: seq<int>, k: nat)
    requires k < |s|
    ensures Sum(s[..k + 1]) == Sum(s[..k]) + s[k]
    ensures k > 0 ==> Max(s[..k + 1]) == if s[k] > Max(s[..k]) then s[k] else Max(s[..k])
  {
    assert s[..k + 1][..k] == s[..k];
  }

  predicate IsSorted(s: seq<int>)
  {
    forall i, j :: 0 <= i < j < |s| ==> s[i] <= s[j]
  }

  function Insert(x: int, s: seq<int>): (r: seq<int>)
    ensures |r| == |s| + 1
    ensures multiset(r) == multiset(s) + multiset{x}
  {
    if s == [] then [x]
    else if x <= s[0] then [x] + s
    else
      assert s == [s[0]] + s[1..];
      [s[0]] + Insert(x, s[1..])
  }

  lemma {:induction false} InsertKeepsSorted(x: int, s: seq<int>)
    requires IsSorted(s)
    ensures IsSorted(Insert(x, s))
    ensures Insert(x, s)[0] == x || Insert(x, s)[0] == s[0]
  {
    if s != [] && x > s[0] {
      var tail := s[1..];
      assert IsSorted(tail) by {
        forall i, j | 0 <= i < j < |tail| ensures tail[i] <= tail[j] {
          assert tail[i] == s[i + 1] && tail[j] == s[j + 1];
        }
      }
      var rest := Insert(x, tail);
      InsertKeepsSorted(x, tail);
      assert s[0] <= rest[0] by {
        if rest[0] != x {
          assert tail != [] && rest[0] == tail[0] == s[1];
        }
      }
      SortedCons(s[0], rest);
    }
  }

  /** Putting an element no larger than the head in front keeps a sorted
      sequence sorted. */
  lemma SortedCons(y: int, rest: seq<int>)
    requires IsSorted(rest) && rest != [] && y <= rest[0]
    ensures IsSorted([y] + rest)
  {
    var r := [y] + rest;
    forall i, j | 0 <= i < j < |r| ensures r[i] <= r[j] {
      if i == 0 {
        assert rest[0] <= rest[j - 1];
      } else {
        assert r[i] == rest[i - 1] && r[j] == rest[j - 1];
      }
    }
  }

  /** Ascending sort by insertion: a permutation of the input, sorted
      (SortAscendingIsSorted). */
  function SortAscending(s: seq<int>): (r: seq<int>)
    ensures |r| == |s|
    ensures multiset(r) == multiset(s)
  {
    if s == [] then []
    else
      assert s == [s[0]] + s[1..];
      Insert(s[0], SortAscending(s[1..]))
  }

  lemma {:induction false} SortAscendingIsSorted(s: seq<int>)
    ensures IsSorted(SortAscending(s))
  {
    if s != [] {
      SortAscendingIsSorted(s[1..]);
      InsertKeepsSorted(s[0], SortAscending(s[1..]));
    }
  }

  predicate InRange(s: seq<int>, lo: int, hi: int)
  {
    forall k :: 0 <= k < |s| ==> lo <= s[k] <= hi
  }

  /** A permutation keeps every bound its elements satisfy. */
  lemma PermutationInRange(a: seq<int>, b: seq<int>, lo: int, hi: int)
    requires multiset(a) == multiset(b) && InRange(b, lo, hi)
    ensures InRange(a, lo, hi)
  {
    forall k | 0 <= k < |a| ensures lo <= a[k] <= hi {
      PermutationMembers(a, b, k);
    }
  }

  /** A permutation has the same elements. */
  lemma PermutationMembers(a: seq<int>, b: seq<int>, k: nat)
    requires multiset(a) == multiset(b) && k < |a|
    ensures a[k] in b
  {
    assert a[k] in multiset(a);
  }
}
