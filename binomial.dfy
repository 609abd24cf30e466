// Binomial coefficients and the identities the exact strategy computation
// relies on: the incremental update C(n+1, k) = C(n, k) * (n+1) / (n+1-k),
// positivity for k <= n, and the hockey-stick sum of a column of Pascal's
// triangle.
module Binomial {
  import opened Common

  /** C(n, k) by Pascal's rule. */
  function Binom(n: nat, k: nat): nat
  {
    if k == 0 then 1
    else if n == 0 then 0
    else Binom(n - 1, k - 1) + Binom(n - 1, k)
  }

  /** C(k, k) + C(k+1, k) + ... + C(n-1, k). Read as counting the
      (k+1)-subsets of {0..n-1} grouped by their largest element, it is
      C(n, k+1): `HockeyStick` proves that value. */
  function ColumnSum(k: nat, n: nat): nat
  {
    if n <= k then 0 else ColumnSum(k, n - 1) + Binom(n - 1, k)
  }

  lemma {:induction false} BinomAboveIsZero(n: nat, k: nat)
    requires k > n
    ensures Binom(n, k) == 0
  {
    if n > 0 {
      BinomAboveIsZero(n - 1, k - 1);
      BinomAboveIsZero(n - 1, k);
    }
  }

  lemma {:induction false} BinomDiagonal(n: nat)
    ensures Binom(n, n) == 1
  {
    if n > 0 {
      BinomDiagonal(n - 1);
      BinomAboveIsZero(n - 1, n);
    }
  }

  lemma {:induction false} BinomPositive(n: nat, k: nat)
    requires k <= n
    ensures Binom(n, k) > 0
  {
    if k > 0 {
      BinomPositive(n - 1, k - 1);
    }
  }

  /** (n - j) * C(n, j) == (j + 1) * C(n, j + 1), for every n and j. */
  lemma {:induction false} BinomShift(n: nat, j: nat)
    ensures (n - j) * Binom(n, j) == (j + 1) * Binom(n, j + 1)
  {
    if n == 0 {
      if j > 0 { BinomAboveIsZero(0, j); }
    } else if j == 0 {
      BinomShift(n - 1, 0);
      assert Binom(n, 1) == Binom(n - 1, 0) + Binom(n - 1, 1);
    } else {
      var m, i := n - 1, j - 1;
      var x, y, z := Binom(m, i), Binom(m, i + 1), Binom(m, i + 2);
      BinomShift(m, i);
      BinomShift(m, i + 1);
      assert Binom(n, j) == x + y;
      assert Binom(n, j + 1) == y + z;
      Distribute(m - i, x, y);
      Distribute(i + 2, y, z);
      SplitFactor(m - i, i + 1, y);
      SplitFactor(i + 2, m - i - 1, y);
    }
  }

  /** The identity behind the incremental update:
      (n + 1 - k) * C(n + 1, k) == (n + 1) * C(n, k). */
  lemma BinomStep(n: nat, k: nat)
    ensures (n + 1 - k) * Binom(n + 1, k) == (n + 1) * Binom(n, k)
  {
    if k > 0 {
      var j := k - 1;
      var x, y := Binom(n, j), Binom(n, k);
      BinomShift(n, j);
      assert Binom(n + 1, k) == x + y;
      Distribute(n - j, x, y);
      SplitFactor(j + 1, n - j, y);
    }
  }

  /** Exact division: the update never leaves the integers. */
  lemma BinomUpdate(n: nat, k: nat)
    requires k <= n
    ensures Binom(n, k) * (n + 1) / (n + 1 - k) == Binom(n + 1, k)
  {
    BinomStep(n, k);
    var d := n + 1 - k;
    var c := Binom(n + 1, k);
    assert Binom(n, k) * (n + 1) == d * c;
    DivideProduct(c, d);
  }

  lemma DivideProduct(c: int, d: int)
    requires d > 0
    ensures d * c / d == c
  {
    var q, r := d * c / d, d * c % d;
    assert d * c == d * q + r && 0 <= r < d;
    SplitFactor(c, -q, d);
    assert d * (c - q) == r;
    if c - q > 0 {
      SplitFactor(c - q - 1, 1, d);
    } else if c - q < 0 {
      SplitFactor(q - c - 1, 1, d);
    }
  }

  /** Hockey-stick identity: C(k, k) + ... + C(n-1, k) == C(n, k + 1). */
  lemma {:induction false} HockeyStick(k: nat, n: nat)
    ensures ColumnSum(k, n) == Binom(n, k + 1)
  {
    if n <= k {
      BinomAboveIsZero(n, k + 1);
    } else {
      HockeyStick(k, n - 1);
    }
  }
}
