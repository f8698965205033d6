/** Sums and arithmetic means of finite series of exact reals, with the facts
    about them that the indicators rely on. */
module Stats {

  /** The sum of a series, accumulated from the front as a rolling sum is. */
  function Sum(s: seq<real>): real {
    if s == [] then 0.0 else Sum(s[..|s| - 1]) + s[|s| - 1]
  }

  function Mean(s: seq<real>): real
    requires |s| > 0
  {
    Sum(s) / |s| as real
  }

  predicate AllAtLeast(s: seq<real>, lo: real) {
    forall i :: 0 <= i < |s| ==> lo <= s[i]
  }

  predicate AllAtMost(s: seq<real>, hi: real) {
    forall i :: 0 <= i < |s| ==> s[i] <= hi
  }

  predicate Constant(s: seq<real>) {
    forall i :: 0 <= i < |s| ==> s[i] == s[0]
  }

  /** Taking the first element off the front. */
  lemma {:induction false} SumFront(s: seq<real>)
    requires |s| > 0
    ensures Sum(s) == s[0] + Sum(s[1..])
  {
    if |s| > 1 {
      SumFront(s[..|s| - 1]);
      assert s[..|s| - 1][1..] == s[1..][..|s[1..]| - 1];
      assert s[..|s| - 1][0] == s[0];
    }
  }

  lemma {:induction false} SumAppend(a: seq<real>, b: seq<real>)
    ensures Sum(a + b) == Sum(a) + Sum(b)
  {
    if b == [] {
      assert a + b == a;
    } else {
      SumAppend(a, b[..|b| - 1]);
      assert (a + b)[..|a + b| - 1] == a + b[..|b| - 1];
    }
  }

  lemma {:induction false} SumLowerBound(s: seq<real>, lo: real)
    requires AllAtLeast(s, lo)
    ensures |s| as real * lo <= Sum(s)
  {
    if s != [] {
      SumLowerBound(s[..|s| - 1], lo);
    }
  }

  lemma {:induction false} SumUpperBound(s: seq<real>, hi: real)
    requires AllAtMost(s, hi)
    ensures Sum(s) <= |s| as real * hi
  {
    if s != [] {
      SumUpperBound(s[..|s| - 1], hi);
    }
  }

  /** A lower bound of every term bounds the mean. */
  lemma MeanAtLeast(s: seq<real>, lo: real)
    requires |s| > 0 && AllAtLeast(s, lo)
    ensures lo <= Mean(s)
  {
    SumLowerBound(s, lo);
    var n := |s| as real;
    assert Sum(s) / n >= (n * lo) / n;
  }

  /** An upper bound of every term bounds the mean. */
  lemma MeanAtMost(s: seq<real>, hi: real)
    requires |s| > 0 && AllAtMost(s, hi)
    ensures Mean(s) <= hi
  {
    SumUpperBound(s, hi);
    var n := |s| as real;
    assert Sum(s) / n <= (n * hi) / n;
  }

  /** The terms of a series of non-negative terms that sums to zero are all zero. */
  lemma {:induction false} ZeroSumOfNonNegatives(s: seq<real>)
    requires AllAtLeast(s, 0.0) && Sum(s) == 0.0
    ensures AllAtMost(s, 0.0)
  {
    if s != [] {
      var init := s[..|s| - 1];
      assert AllAtLeast(init, 0.0) by {
        forall i | 0 <= i < |init| ensures 0.0 <= init[i] { assert init[i] == s[i]; }
      }
      SumLowerBound(init, 0.0);
      ZeroSumOfNonNegatives(init);
      forall i | 0 <= i < |s| ensures s[i] <= 0.0 {
        if i < |s| - 1 { assert s[i] == init[i]; }
      }
    }
  }

  /** The sum of a constant series is its length times its value. */
  lemma {:induction false} SumConstant(s: seq<real>)
    requires |s| > 0 && Constant(s)
    ensures Sum(s) == |s| as real * s[0]
  {
    if |s| > 1 {
      SumConstant(s[..|s| - 1]);
    }
  }

  predicate StrictlyIncreasing(s: seq<real>) {
    forall i, j :: 0 <= i < j < |s| ==> s[i] < s[j]
  }

  /** In a strictly increasing series the mean of the last k values exceeds
      the mean of the whole series. */
  lemma TailMeanExceedsMean(s: seq<real>, k: nat)
    requires StrictlyIncreasing(s) && 1 <= k < |s|
    ensures Mean(s[|s| - k..]) > Mean(s)
  {
    var cut := |s| - k;
    var p, q := s[..cut], s[cut..];
    assert s == p + q;
    SplitMeansIncrease(s, cut);
    MeanOfConcat(p, q);
    WeightedMeanBelow(|p| as real, |q| as real, Mean(p), Mean(q));
  }

  /** Cutting an increasing series in two: the front half has the smaller mean. */
  lemma SplitMeansIncrease(s: seq<real>, cut: nat)
    requires StrictlyIncreasing(s) && 0 < cut < |s|
    ensures Mean(s[..cut]) < Mean(s[cut..])
  {
    var p, q := s[..cut], s[cut..];
    assert AllAtMost(p, s[cut - 1]);
    assert AllAtLeast(q, s[cut]);
    MeanAtMost(p, s[cut - 1]);
    MeanAtLeast(q, s[cut]);
  }

  /** The mean of two series put together, weighted by their lengths. */
  lemma MeanOfConcat(p: seq<real>, q: seq<real>)
    requires |p| > 0 && |q| > 0
    ensures Mean(p + q) == (|p| as real * Mean(p) + |q| as real * Mean(q)) / (|p| as real + |q| as real)
  {
    SumAppend(p, q);
    SumIsCountTimesMean(p);
    SumIsCountTimesMean(q);
  }

  lemma SumIsCountTimesMean(s: seq<real>)
    requires |s| > 0
    ensures Sum(s) == |s| as real * Mean(s)
  {
  }

  /** Mixing a smaller value x into y, with positive weights, gives less than y. */
  lemma WeightedMeanBelow(a: real, b: real, x: real, y: real)
    requires a > 0.0 && b > 0.0 && x < y
    ensures (a * x + b * y) / (a + b) < y
  {
    var ax, ay, bw := a * x, a * y, b * y;
    ScaleBelow(a, x, y);
    assert y * (a + b) == ay + bw;
    DivBelow(ax + bw, a + b, y);
  }

  lemma ScaleBelow(a: real, x: real, y: real)
    requires a > 0.0 && x < y
    ensures a * x < a * y
  {
    assert a * y - a * x == a * (y - x);
  }

  lemma DivBelow(n: real, d: real, y: real)
    requires d > 0.0 && n < y * d
    ensures n / d < y
  {
    var q := n / d;
    assert q * d == n;
    assert (y - q) * d == y * d - n;
  }

  lemma LessByPositive(a: real, b: real, t: real)
    requires t > 0.0 && a * t < b * t
    ensures a < b
  {
    assert (b - a) * t > 0.0;
  }

  lemma CancelPositive(a: real, b: real, t: real)
    requires t > 0.0 && a * t == b * t
    ensures a == b
  {
    assert (a - b) * t == 0.0;
  }
}
