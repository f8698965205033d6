/** The indicator engine of kpis.py: the simple moving average (compute_sma),
    the relative strength index (compute_rsi, the definition at line 20 that
    replaces the one at line 10) and the annualized volatility
    (annualized_volatility), each a function of the series of closing prices. */
module Indicators {
  import opened Floats
  import opened Stats
  import opened Rolling

  /** Closing prices are positive numbers. */
  predicate Positive(c: seq<real>) {
    forall i :: 0 <= i < |c| ==> c[i] > 0.0
  }

  // ---------------------------------------------------------------------------
  // Simple moving average

  /** compute_sma: `rolling(window, min_periods=1).mean()`. Every row has a
      value: the mean of the closes its window covers, fewer than `window` of
      them on the first rows. */
  function Sma(closes: seq<real>, window: nat): (r: seq<Float>)
    requires window >= 1
    ensures |r| == |closes|
    ensures forall i :: 0 <= i < |closes| ==> r[i] == Finite(Mean(Window(closes, i, window)))
  {
    RollingMean(closes, window, 1)
  }

  // ---------------------------------------------------------------------------
  // Relative strength index

  /** `delta.where(delta > 0, 0)` for `delta = series.diff()`: the rise into
      each row. The first delta is NaN; NaN > 0 is false, so it becomes 0. */
  function Gains(c: seq<real>): (r: seq<real>)
    ensures |r| == |c|
    ensures AllAtLeast(r, 0.0)
  {
    seq(|c|, i requires 0 <= i < |c| =>
      if i > 0 && c[i] - c[i - 1] > 0.0 then c[i] - c[i - 1] else 0.0)
  }

  /** `-delta.where(delta < 0, 0)`: the fall into each row, as a non-negative
      amount; 0 at the first row, where the delta is NaN. */
  function Losses(c: seq<real>): (r: seq<real>)
    ensures |r| == |c|
    ensures AllAtLeast(r, 0.0)
  {
    seq(|c|, i requires 0 <= i < |c| =>
      if i > 0 && c[i] - c[i - 1] < 0.0 then -(c[i] - c[i - 1]) else 0.0)
  }

  /** Every price move splits into a gain and a loss, at most one of them
      non-zero; the first row has neither. */
  lemma PriceMoveSplit(c: seq<real>, i: nat)
    requires i < |c|
    ensures Gains(c)[i] >= 0.0 && Losses(c)[i] >= 0.0
    ensures Gains(c)[i] == 0.0 || Losses(c)[i] == 0.0
    ensures i == 0 ==> Gains(c)[i] == 0.0 && Losses(c)[i] == 0.0
    ensures i > 0 ==> Gains(c)[i] - Losses(c)[i] == c[i] - c[i - 1]
  {
  }

  /** Mean gain over the `period` rows ending at row i. */
  function AverageGain(c: seq<real>, period: nat, i: nat): (g: real)
    requires 1 <= period && i < |c|
    ensures g >= 0.0
  {
    MeanAtLeast(Window(Gains(c), i, period), 0.0);
    Mean(Window(Gains(c), i, period))
  }

  /** Mean loss over the `period` rows ending at row i. */
  function AverageLoss(c: seq<real>, period: nat, i: nat): (l: real)
    requires 1 <= period && i < |c|
    ensures l >= 0.0
  {
    MeanAtLeast(Window(Losses(c), i, period), 0.0);
    Mean(Window(Losses(c), i, period))
  }

  /** The RSI of an average gain g and an average loss l in closed form,
      100*g/(g+l), with the conventions for l = 0: 100 when there were gains
      and 50 when the price did not move at all. */
  function ReferenceRsi(g: real, l: real): real
    requires g >= 0.0 && l >= 0.0
  {
    if l == 0.0 then (if g == 0.0 then 50.0 else 100.0) else 100.0 * g / (g + l)
  }

  /** The RSI lies in [0, 100]; it is 100 exactly when there were gains and no
      losses, 0 exactly when there were losses and no gains, and 50 exactly
      when gains and losses balance. */
  lemma ReferenceRsiRange(g: real, l: real)
    requires g >= 0.0 && l >= 0.0
    ensures 0.0 <= ReferenceRsi(g, l) <= 100.0
    ensures ReferenceRsi(g, l) == 100.0 <==> l == 0.0 && g > 0.0
    ensures ReferenceRsi(g, l) == 0.0 <==> g == 0.0 && l > 0.0
    ensures ReferenceRsi(g, l) == 50.0 <==> g == l
  {
    if l > 0.0 {
      var t := g + l;
      var r := 100.0 * g / t;
      assert r * t == 100.0 * g;
      assert 100.0 * g < 100.0 * t;
      LessByPositive(r, 100.0, t);
      assert r >= 0.0;
      assert r == 0.0 <==> g == 0.0;
      if r == 50.0 {
        assert 100.0 * g == 50.0 * t;
      }
      if g == l {
        BalancedRsi(g);
      }
    }
  }

  /** One row of `100 - 100 / (1 + gain / loss)` followed by `fillna(50)`. */
  function RsiFromAverages(gain: Float, loss: Float): Float {
    FillNa(Sub(Finite(100.0), Div(Finite(100.0), Add(Finite(1.0), Div(gain, loss)))), 50.0)
  }

  /** What the float expression yields on two averages: gain/0 is +inf, so
      100/(1+inf) is 0 and the RSI 100; 0/0 is NaN, which fillna turns into 50;
      a warm-up row, where both averages are NaN, is 50 too. */
  lemma RsiFromAveragesAgrees(g: real, l: real)
    requires g >= 0.0 && l >= 0.0
    ensures RsiFromAverages(Finite(g), Finite(l)) == Finite(ReferenceRsi(g, l))
    ensures RsiFromAverages(NaN, NaN) == Finite(50.0)
  {
    if l > 0.0 {
      RsiWithLosses(g, l);
    } else if g > 0.0 {
      RsiWithoutLosses(g, l);
    } else {
      RsiFlat(g, l);
    }
    RsiWarmUpRow();
  }

  lemma RsiFlat(g: real, l: real)
    requires g == 0.0 && l == 0.0
    ensures RsiFromAverages(Finite(g), Finite(l)) == Finite(ReferenceRsi(g, l))
  {
    assert Div(Finite(0.0), Finite(0.0)) == NaN;
  }

  lemma RsiWarmUpRow()
    ensures RsiFromAverages(NaN, NaN) == Finite(50.0)
  {
  }

  lemma RsiWithLosses(g: real, l: real)
    requires g >= 0.0 && l > 0.0
    ensures RsiFromAverages(Finite(g), Finite(l)) == Finite(ReferenceRsi(g, l))
  {
    var d := 1.0 + g / l;
    assert d > 0.0;
    var q := 100.0 / d;
    assert Div(Finite(g), Finite(l)) == Finite(g / l);
    assert Add(Finite(1.0), Finite(g / l)) == Finite(d);
    assert Div(Finite(100.0), Finite(d)) == Finite(q);
    assert Sub(Finite(100.0), Finite(q)) == Finite(100.0 - q);
    RsiAlgebra(g, l);
  }

  lemma RsiWithoutLosses(g: real, l: real)
    requires g > 0.0 && l == 0.0
    ensures RsiFromAverages(Finite(g), Finite(l)) == Finite(ReferenceRsi(g, l))
  {
    assert Div(Finite(g), Finite(0.0)) == PosInf;
    assert Add(Finite(1.0), PosInf) == PosInf;
    assert Div(Finite(100.0), PosInf) == Finite(0.0);
    assert Sub(Finite(100.0), Finite(0.0)) == Finite(100.0);
  }

  /** 100 - 100/(1 + g/l) is 100*g/(g+l). */
  lemma RsiAlgebra(g: real, l: real)
    requires g >= 0.0 && l > 0.0
    ensures 100.0 - 100.0 / (1.0 + g / l) == 100.0 * g / (g + l)
  {
    var t := g + l;
    var d := 1.0 + g / l;
    var q := 100.0 / d;
    assert d * l == t by {
      assert (g / l) * l == g;
    }
    assert q * d == 100.0;
    assert q * t == 100.0 * l by {
      assert q * t == q * (d * l) == (q * d) * l;
    }
    var r := 100.0 * g / t;
    assert r * t == 100.0 * g;
    assert (100.0 - q) * t == 100.0 * t - q * t == 100.0 * t - 100.0 * l == 100.0 * g == r * t;
    CancelPositive(100.0 - q, r, t);
  }

  lemma BalancedRsi(g: real)
    requires g > 0.0
    ensures 100.0 * g / (g + g) == 50.0
  {
    assert 50.0 * (g + g) == 100.0 * g;
  }

  /** compute_rsi (kpis.py:20-26): plain `period`-wide rolling means of gains
      and losses, then `100 - 100/(1 + rs)` and `fillna(50)`. Rows before the
      window first fills are 50; after that the value is the closed-form RSI of
      the window's average gain and loss. */
  function Rsi(c: seq<real>, period: nat): (r: seq<Float>)
    requires period >= 1
    ensures |r| == |c|
    ensures forall i :: 0 <= i < |c| ==>
      r[i] == Finite(if i < period - 1 then 50.0
                     else ReferenceRsi(AverageGain(c, period, i), AverageLoss(c, period, i)))
  {
    var gain := RollingMean(Gains(c), period, period);
    var loss := RollingMean(Losses(c), period, period);
    var r := seq(|c|, i requires 0 <= i < |c| => RsiFromAverages(gain[i], loss[i]));
    assert forall i :: 0 <= i < |c| ==>
      r[i] == Finite(if i < period - 1 then 50.0
                     else ReferenceRsi(AverageGain(c, period, i), AverageLoss(c, period, i))) by {
      forall i | 0 <= i < |c|
        ensures r[i] == Finite(if i < period - 1 then 50.0
                               else ReferenceRsi(AverageGain(c, period, i), AverageLoss(c, period, i)))
      {
        var g := AverageGain(c, period, i);
        var l := AverageLoss(c, period, i);
        RsiFromAveragesAgrees(g, l);
      }
    }
    r
  }

  /** Every RSI value is a number in [0, 100]: 50 on the warm-up rows, 100
      exactly when the window saw gains and no losses. */
  lemma RsiBounds(c: seq<real>, period: nat, i: nat)
    requires period >= 1 && i < |c|
    ensures Rsi(c, period)[i].Finite?
    ensures 0.0 <= Rsi(c, period)[i].x <= 100.0
    ensures i < period - 1 ==> Rsi(c, period)[i].x == 50.0
    ensures Rsi(c, period)[i].x == 100.0 <==>
      i >= period - 1 && AverageLoss(c, period, i) == 0.0 && AverageGain(c, period, i) > 0.0
    ensures i >= period - 1 && AverageLoss(c, period, i) == 0.0 && AverageGain(c, period, i) == 0.0 ==>
      Rsi(c, period)[i].x == 50.0
  {
    if i >= period - 1 {
      ReferenceRsiRange(AverageGain(c, period, i), AverageLoss(c, period, i));
    }
  }

  // ---------------------------------------------------------------------------
  // Annualized volatility

  /** `pct_change().dropna()`: the simple return c[i+1]/c[i] - 1 of each step. */
  function Returns(c: seq<real>): (r: seq<real>)
    requires Positive(c)
    ensures |r| == if |c| == 0 then 0 else |c| - 1
  {
    if |c| == 0 then []
    else seq(|c| - 1, i requires 0 <= i < |c| - 1 => c[i + 1] / c[i] - 1.0)
  }

  /** The simple return into row i + 1. */
  lemma ReturnAt(c: seq<real>, i: nat)
    requires Positive(c) && i + 1 < |c|
    ensures Returns(c)[i] == c[i + 1] / c[i] - 1.0
  {
  }

  function SquaredDeviations(s: seq<real>, m: real): (r: seq<real>)
    ensures |r| == |s|
  {
    seq(|s|, i requires 0 <= i < |s| => (s[i] - m) * (s[i] - m))
  }

  /** The variance behind pandas' `std()` (ddof = 1): the squared deviations
      from the mean summed and divided by n - 1; NaN for fewer than two values. */
  function SampleVariance(s: seq<real>): Float {
    if |s| < 2 then NaN
    else Finite(Sum(SquaredDeviations(s, Mean(s))) / (|s| - 1) as real)
  }

  /** The sample variance is a number exactly when there are two values or more;
      it is never negative, and it is zero exactly when all values are equal. */
  lemma SampleVarianceRange(s: seq<real>)
    ensures SampleVariance(s).NaN? <==> |s| < 2
    ensures |s| >= 2 ==> SampleVariance(s).Finite? && SampleVariance(s).x >= 0.0
    ensures |s| >= 2 ==> (SampleVariance(s).x == 0.0 <==> Constant(s))
  {
    if |s| >= 2 {
      var m := Mean(s);
      var d := SquaredDeviations(s, m);
      var n := (|s| - 1) as real;
      SquaredDeviationsNonNegative(s, m);
      SumLowerBound(d, 0.0);
      assert SampleVariance(s).x == Sum(d) / n;
      if Sum(d) / n == 0.0 {
        assert Sum(d) == 0.0;
        AllAtMean(s, m);
      }
      if Constant(s) {
        ConstantHasNoDeviation(s);
      }
    }
  }

  lemma SquaredDeviationsNonNegative(s: seq<real>, m: real)
    ensures AllAtLeast(SquaredDeviations(s, m), 0.0)
  {
    var d := SquaredDeviations(s, m);
    forall i | 0 <= i < |d| ensures d[i] >= 0.0 { SquareNonNegative(s[i] - m); }
  }

  /** No squared deviation from m sums to zero unless every value is m. */
  lemma AllAtMean(s: seq<real>, m: real)
    requires |s| > 0 && Sum(SquaredDeviations(s, m)) == 0.0
    ensures Constant(s)
  {
    var d := SquaredDeviations(s, m);
    SquaredDeviationsNonNegative(s, m);
    ZeroSumOfNonNegatives(d);
    forall i | 0 <= i < |s| ensures s[i] == m {
      var x := s[i] - m;
      assert d[i] == x * x;
      assert d[i] == 0.0;
      ZeroSquare(x);
    }
  }

  lemma ZeroSquare(x: real)
    requires x * x == 0.0
    ensures x == 0.0
  {
    if x != 0.0 {
      InverseIdentity(x);
    }
  }

  lemma InverseIdentity(x: real)
    requires x != 0.0
    ensures x == (x * x) * (1.0 / x)
  {
    var y := 1.0 / x;
    assert x * y == 1.0;
  }

  lemma ConstantHasNoDeviation(s: seq<real>)
    requires |s| > 0 && Constant(s)
    ensures Sum(SquaredDeviations(s, Mean(s))) == 0.0
  {
    SumConstant(s);
    var d := SquaredDeviations(s, Mean(s));
    assert Mean(s) == s[0];
    assert AllAtMost(d, 0.0);
    assert AllAtLeast(d, 0.0);
    SumUpperBound(d, 0.0);
    SumLowerBound(d, 0.0);
  }

  lemma SquareNonNegative(x: real)
    ensures x * x >= 0.0
  {
    if x < 0.0 { assert x * x == (-x) * (-x); }
  }

  /** pandas' `std()`: the square root of the sample variance; NaN stays NaN. */
  function SampleStd(s: seq<real>, sqrt: real -> real): (r: Float)
    ensures r.NaN? <==> |s| < 2
    ensures r.Finite? <==> |s| >= 2
  {
    SampleVarianceRange(s);
    match SampleVariance(s)
    case Finite(v) => Finite(sqrt(v))
    case _ => NaN
  }

  /** annualized_volatility: `returns.std() * np.sqrt(trading_days)`. The
      square root is a parameter (the model works over exact reals, which have
      no square root function). */
  function AnnualizedVolatility(c: seq<real>, tradingDays: nat, sqrt: real -> real): Float
    requires Positive(c)
  {
    Mul(SampleStd(Returns(c), sqrt), Finite(sqrt(tradingDays as real)))
  }

  /** With fewer than three closes there are fewer than two returns and the
      volatility is NaN; from three closes on it is a number. */
  lemma VolatilityDefinedFromThreeCloses(c: seq<real>, tradingDays: nat, sqrt: real -> real)
    requires Positive(c)
    ensures |c| < 3 <==> AnnualizedVolatility(c, tradingDays, sqrt).NaN?
    ensures |c| >= 3 <==> AnnualizedVolatility(c, tradingDays, sqrt).Finite?
  {
    SampleVarianceRange(Returns(c));
  }

  /** The volatility is never negative. */
  lemma VolatilityNonNegative(c: seq<real>, tradingDays: nat, sqrt: real -> real)
    requires Positive(c)
    requires forall x :: 0.0 <= x ==> 0.0 <= sqrt(x)
    ensures AnnualizedVolatility(c, tradingDays, sqrt).Finite? ==>
      AnnualizedVolatility(c, tradingDays, sqrt).x >= 0.0
  {
    SampleVarianceRange(Returns(c));
    var v := AnnualizedVolatility(c, tradingDays, sqrt);
    if v.Finite? {
      var sd := SampleStd(Returns(c), sqrt);
      assert sd.Finite? && sd.x >= 0.0;
      var scale := sqrt(tradingDays as real);
      assert scale >= 0.0;
      assert v.x == sd.x * scale;
    }
  }

  /** A constant price series has only zero returns, so its volatility is 0. */
  lemma ConstantPricesZeroVolatility(c: seq<real>, tradingDays: nat, sqrt: real -> real)
    requires Positive(c) && Constant(c) && |c| >= 3
    requires sqrt(0.0) == 0.0
    ensures AnnualizedVolatility(c, tradingDays, sqrt) == Finite(0.0)
  {
    var r := Returns(c);
    forall i | 0 <= i < |r| ensures r[i] == 0.0 {
      assert c[i + 1] == c[i];
      assert c[i] / c[i] == 1.0;
    }
    assert Constant(r);
    SampleVarianceRange(r);
  }
}
