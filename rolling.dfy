/** pandas' `rolling(window, min_periods).mean()` over a series with no missing
    values. The mean is computed the way the rolling algorithm computes it, by
    keeping a running window sum that adds the entering value and drops the
    leaving one; RollingMean's contract ties every row to the plain mean of the
    values its window covers. */
module Rolling {
  import opened Floats
  import opened Stats

  /** First row of the window of width w that ends at row i. */
  function WindowStart(i: nat, w: nat): nat {
    if i + 1 >= w then i + 1 - w else 0
  }

  /** The values the window of width w ending at row i covers: rows
      max(0, i-w+1) .. i. */
  function Window(xs: seq<real>, i: nat, w: nat): seq<real>
    requires i < |xs|
  {
    xs[WindowStart(i, w)..i + 1]
  }

  /** Running window sums: row i adds xs[i] to the sum of row i-1 and, once
      the window is full, drops xs[i-w]. */
  function WindowSums(xs: seq<real>, w: nat): (r: seq<real>)
    requires w >= 1
    ensures |r| == |xs|
  {
    if xs == [] then []
    else
      var i := |xs| - 1;
      var prev := WindowSums(xs[..i], w);
      var carried := if i == 0 then 0.0 else prev[i - 1];
      var leaving := if i >= w then xs[i - w] else 0.0;
      prev + [carried + xs[i] - leaving]
  }

  /** Moving a full window one row on: the value at row i enters, the one at
      row i-w leaves. */
  lemma SlideWindow(xs: seq<real>, w: nat, i: nat)
    requires 1 <= w <= i < |xs|
    ensures Sum(Window(xs, i - 1, w)) - xs[i - w] + xs[i] == Sum(Window(xs, i, w))
  {
    var body := xs[i + 1 - w..i];
    assert Window(xs, i - 1, w) == [xs[i - w]] + body;
    SumAppend([xs[i - w]], body);
    assert Sum([xs[i - w]]) == xs[i - w] by {
      assert [xs[i - w]][..0] == [];
    }
    assert Window(xs, i, w)[..|Window(xs, i, w)| - 1] == body;
  }

  /** Extending a window that is not yet full by one row. */
  lemma GrowWindow(xs: seq<real>, w: nat, i: nat)
    requires 1 <= w && 0 < i < |xs| && i < w
    ensures Sum(Window(xs, i - 1, w)) + xs[i] == Sum(Window(xs, i, w))
  {
    assert Window(xs, i, w)[..|Window(xs, i, w)| - 1] == Window(xs, i - 1, w);
  }

  /** The running sum at row i is the sum of the window ending at row i. */
  lemma {:induction false} WindowSumsAt(xs: seq<real>, w: nat, i: nat)
    requires w >= 1 && i < |xs|
    ensures WindowSums(xs, w)[i] == Sum(Window(xs, i, w))
  {
    if i == 0 {
      WindowSumsFirst(xs, w);
    } else {
      WindowSumsAt(xs, w, i - 1);
      WindowSumsStep(xs, w, i);
      if i >= w {
        SlideWindow(xs, w, i);
      } else {
        GrowWindow(xs, w, i);
      }
    }
  }

  /** The running sums of the first k rows are the first k running sums. */
  lemma {:induction false} WindowSumsPrefix(xs: seq<real>, w: nat, k: nat)
    requires w >= 1 && k <= |xs|
    ensures WindowSums(xs, w)[..k] == WindowSums(xs[..k], w)
    decreases |xs|
  {
    if k < |xs| {
      var n := |xs| - 1;
      assert WindowSums(xs, w)[..n] == WindowSums(xs[..n], w);
      WindowSumsPrefix(xs[..n], w, k);
      assert xs[..n][..k] == xs[..k];
    } else {
      assert xs[..k] == xs;
    }
  }

  lemma WindowSumsFirst(xs: seq<real>, w: nat)
    requires w >= 1 && |xs| > 0
    ensures WindowSums(xs, w)[0] == Sum(Window(xs, 0, w))
  {
    WindowSumsPrefix(xs, w, 1);
    assert WindowSums(xs, w)[0] == WindowSums(xs[..1], w)[0];
    assert Window(xs, 0, w) == xs[..1] == [xs[0]];
    assert [xs[0]][..0] == [];
  }

  /** Row i's running sum is row i-1's plus the entering value, minus the
      leaving one once the window is full. */
  lemma WindowSumsStep(xs: seq<real>, w: nat, i: nat)
    requires w >= 1 && 0 < i < |xs|
    ensures WindowSums(xs, w)[i] ==
      WindowSums(xs, w)[i - 1] + xs[i] - (if i >= w then xs[i - w] else 0.0)
  {
    var ys := xs[..i + 1];
    WindowSumsPrefix(xs, w, i + 1);
    assert WindowSums(xs, w)[i] == WindowSums(ys, w)[i];
    assert WindowSums(xs, w)[i - 1] == WindowSums(ys, w)[i - 1];
    assert WindowSums(ys, w)[..i] == WindowSums(ys[..i], w);
    assert ys[i] == xs[i];
    assert i >= w ==> ys[i - w] == xs[i - w];
  }

  /** Number of values in the window of width w ending at row i. */
  function WindowCount(i: nat, w: nat): (n: nat)
    requires w >= 1
    ensures 1 <= n <= w && n <= i + 1
    ensures n == i + 1 || n == w
  {
    i + 1 - WindowStart(i, w)
  }

  /** `rolling(w, min_periods=m).mean()`: NaN where the window holds fewer than
      m values, otherwise the mean of the window. */
  function RollingMean(xs: seq<real>, w: nat, minPeriods: nat): (r: seq<Float>)
    requires 1 <= w && minPeriods <= w
    ensures |r| == |xs|
    ensures forall i :: 0 <= i < |xs| ==>
      r[i] == if |Window(xs, i, w)| < minPeriods then NaN else Finite(Mean(Window(xs, i, w)))
  {
    var sums := WindowSums(xs, w);
    var r := seq(|xs|, i requires 0 <= i < |xs| =>
      var count := WindowCount(i, w);
      if count < minPeriods then NaN else Finite(sums[i] / count as real));
    assert forall i :: 0 <= i < |xs| ==> sums[i] == Sum(Window(xs, i, w)) by {
      forall i | 0 <= i < |xs| ensures sums[i] == Sum(Window(xs, i, w)) {
        WindowSumsAt(xs, w, i);
      }
    }
    r
  }
}
