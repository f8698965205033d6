/** compute_kpis: the seven indicators of a price table, computed from its
    closing prices. */
module Kpis {
  import opened Floats
  import opened Stats
  import opened Rolling
  import opened Indicators

  /** A price table as the data source returns it: named columns of prices
      (Open, High, Low, Close, possibly Adj Close, ...), one row per trading
      day, oldest first. Only the two closing-price columns are read here. */
  datatype Frame = Frame(columns: map<string, seq<real>>)

  /** The KPI dictionary, one field per key, in the order compute_kpis fills it. */
  datatype KpiSet = KpiSet(
    latestClose: Float,          // "latest_close"
    oneDayReturnPct: Float,      // "1d_return_pct"
    thirtyDayReturnPct: Float,   // "30d_return_pct"
    sma50: Float,                // "sma_50"
    sma200: Float,               // "sma_200"
    rsi14: Float,                // "rsi_14"
    annualVolatilityPct: Float)  // "annual_volatility_pct"

  /** The exceptions compute_kpis raises: KeyError('Close') for a table with
      neither closing-price column, IndexError from `iloc[-1]` for a table with
      no rows. */
  datatype KpiError = MissingColumn(name: string) | NoRows

  datatype Result<T> = Ok(value: T) | Err(error: KpiError)

  const AdjClose: string := "Adj Close"
  const Close: string := "Close"

  /** Trading days per year, annualized_volatility's default. */
  const TradingDays: nat := 252

  /** The series compute_kpis works on: "Adj Close" when the table has that
      column, otherwise "Close"; KeyError('Close') when it has neither. */
  function PriceColumn(f: Frame): (r: Result<seq<real>>)
    ensures r.Ok? <==> AdjClose in f.columns || Close in f.columns
    ensures r.Err? ==> r.error == MissingColumn(Close)
    ensures AdjClose in f.columns ==> r == Ok(f.columns[AdjClose])
    ensures AdjClose !in f.columns && Close in f.columns ==> r == Ok(f.columns[Close])
  {
    if AdjClose in f.columns then Ok(f.columns[AdjClose])
    else if Close in f.columns then Ok(f.columns[Close])
    else Err(MissingColumn(Close))
  }

  /** The closing prices compute_kpis reads are positive. A column it does
      not read is unconstrained. */
  predicate ValidPrices(f: Frame) {
    PriceColumn(f).Ok? ==> Positive(PriceColumn(f).value)
  }

  /** The percentage change from `before` to `after`. */
  function ReturnPct(after: real, before: real): real
    requires before > 0.0
  {
    (after / before - 1.0) * 100.0
  }

  /** 1d_return_pct: the change from the close before the last, or 0 with
      fewer than two closes. */
  function OneDayReturnPct(c: seq<real>): real
    requires Positive(c) && |c| > 0
  {
    var n := |c|;
    if n >= 2 then ReturnPct(c[n - 1], c[n - 2]) else 0.0
  }

  /** 30d_return_pct: the change from `iloc[-21]`, the close 20 rows back,
      but 0 unless there are at least 22 closes. */
  function ThirtyDayReturnPct(c: seq<real>): real
    requires Positive(c) && |c| > 0
  {
    var n := |c|;
    if n >= 22 then ReturnPct(c[n - 1], c[n - 21]) else 0.0
  }

  /** The KPI dictionary compute_kpis fills from a non-empty series of closes. */
  function KpisOf(c: seq<real>, sqrt: real -> real): KpiSet
    requires Positive(c) && |c| > 0
  {
    var n := |c|;
    KpiSet(
      latestClose := Finite(c[n - 1]),
      oneDayReturnPct := Finite(OneDayReturnPct(c)),
      thirtyDayReturnPct := Finite(ThirtyDayReturnPct(c)),
      sma50 := Sma(c, 50)[n - 1],
      sma200 := Sma(c, 200)[n - 1],
      rsi14 := Rsi(c, 14)[n - 1],
      annualVolatilityPct := Mul(AnnualizedVolatility(c, TradingDays, sqrt), Finite(100.0)))
  }

  /** compute_kpis: the price column, KeyError('Close') without one,
      IndexError for an empty one, otherwise the seven KPIs of its closes. */
  function ComputeKpis(f: Frame, sqrt: real -> real): (r: Result<KpiSet>)
    requires ValidPrices(f)
    ensures r == Err(MissingColumn(Close)) <==> AdjClose !in f.columns && Close !in f.columns
    ensures r == Err(NoRows) <==> PriceColumn(f).Ok? && |PriceColumn(f).value| == 0
    ensures r.Ok? <==> PriceColumn(f).Ok? && |PriceColumn(f).value| > 0
    ensures r.Ok? ==> AdjClose in f.columns ==> f.columns[AdjClose] == PriceColumn(f).value
    ensures r.Ok? ==> var c := PriceColumn(f).value;
      r.value.latestClose == Finite(c[|c| - 1])
  {
    match PriceColumn(f)
    case Err(e) => Err(e)
    case Ok(c) =>
      if |c| == 0 then Err(NoRows) else Ok(KpisOf(c, sqrt))
  }

  /** The KPIs of a table are the KPIs of its closes. */
  lemma KpisOfTable(f: Frame, sqrt: real -> real)
    requires ValidPrices(f) && ComputeKpis(f, sqrt).Ok?
    ensures |Closes(f)| > 0 && ComputeKpis(f, sqrt).value == KpisOf(Closes(f), sqrt)
  {
  }

  /** The closes of a table compute_kpis accepts. */
  function Closes(f: Frame): (c: seq<real>)
    requires PriceColumn(f).Ok?
    requires ValidPrices(f)
    ensures Positive(c)
  {
    PriceColumn(f).value
  }

  /** The last min(n, w) closes. */
  function Trailing(c: seq<real>, w: nat): (t: seq<real>)
    ensures |t| == if |c| < w then |c| else w
  {
    if |c| < w then c else c[|c| - w..]
  }

  /** sma_50 and sma_200 are the means of the last 50 and 200 closes, or of
      all of them when there are fewer. */
  lemma KpiSmasAreTrailingMeans(f: Frame, sqrt: real -> real)
    requires ValidPrices(f)
    requires ComputeKpis(f, sqrt).Ok?
    ensures var c := Closes(f);
      && |Trailing(c, 50)| > 0
      && ComputeKpis(f, sqrt).value.sma50 == Finite(Mean(Trailing(c, 50)))
      && ComputeKpis(f, sqrt).value.sma200 == Finite(Mean(Trailing(c, 200)))
  {
    var c := Closes(f);
    KpisOfTable(f, sqrt);
    SmaAtLastRow(c, 50);
    SmaAtLastRow(c, 200);
  }

  /** The last row of an SMA averages the trailing window. */
  lemma SmaAtLastRow(c: seq<real>, w: nat)
    requires |c| > 0 && w >= 1
    ensures |Trailing(c, w)| > 0 && Sma(c, w)[|c| - 1] == Finite(Mean(Trailing(c, w)))
  {
    assert Window(c, |c| - 1, w) == Trailing(c, w);
  }

  // ---------------------------------------------------------------------------
  // Returns

  /** The growth factor of a run of simple returns: the product of 1 + r. */
  function Growth(rs: seq<real>): real {
    if rs == [] then 1.0 else Growth(rs[..|rs| - 1]) * (1.0 + rs[|rs| - 1])
  }

  /** One more day of compounding: a growth of g = y/x times the next step's
      1 + (z/y - 1) is z/x. */
  lemma CompoundStep(g: real, x: real, y: real, z: real)
    requires x > 0.0 && y > 0.0 && g == y / x
    ensures g * (1.0 + (z / y - 1.0)) == z / x
  {
    assert 1.0 + (z / y - 1.0) == z / y;
    assert (y / x) * x == y;
    assert (z / y) * y == z;
    assert ((y / x) * (z / y)) * x == z;
  }

  /** Extending a run of returns whose growth is y/x by the step from y to z
      gives a growth of z/x. */
  lemma GrowthExtend(rs: seq<real>, x: real, y: real, z: real)
    requires x > 0.0 && y > 0.0 && |rs| > 0
    requires Growth(rs[..|rs| - 1]) == y / x && rs[|rs| - 1] == z / y - 1.0
    ensures Growth(rs) == z / x
  {
    CompoundStep(Growth(rs[..|rs| - 1]), x, y, z);
  }

  /** Compounding the daily returns from row a to row b gives the price ratio
      c[b] / c[a]. */
  lemma GrowthTelescopes(c: seq<real>, a: nat, b: nat)
    requires Positive(c) && a <= b < |c|
    ensures Growth(Returns(c)[a..b]) == c[b] / c[a]
  {
    var rs := Returns(c);
    forall i | a <= i < b ensures rs[i] == c[i + 1] / c[i] - 1.0 {
      ReturnAt(c, i);
    }
    GrowthOfSteps(c, rs, a, b);
  }

  lemma RatioToSelf(x: real)
    requires x > 0.0
    ensures x / x == 1.0
  {
  }

  /** The same for any series whose entries from a to b are the steps of c. */
  lemma {:induction false} GrowthOfSteps(c: seq<real>, rs: seq<real>, a: nat, b: nat)
    requires Positive(c) && a <= b < |c| && b <= |rs|
    requires forall i :: a <= i < b ==> rs[i] == c[i + 1] / c[i] - 1.0
    ensures Growth(rs[a..b]) == c[b] / c[a]
    decreases b - a
  {
    if a == b {
      assert rs[a..b] == [];
      RatioToSelf(c[a]);
    } else {
      GrowthOfSteps(c, rs, a, b - 1);
      var run := rs[a..b];
      assert run[..|run| - 1] == rs[a..b - 1];
      GrowthExtend(run, c[a], c[b - 1], c[b]);
    }
  }

  /** 1d_return_pct is the last simple return (pct_change) in percent, 0 with
      fewer than two closes. */
  lemma OneDayReturn(f: Frame, sqrt: real -> real)
    requires ValidPrices(f)
    requires ComputeKpis(f, sqrt).Ok?
    ensures var c := Closes(f); var n := |c|;
      ComputeKpis(f, sqrt).value.oneDayReturnPct ==
        Finite(if n < 2 then 0.0 else Returns(c)[n - 2] * 100.0)
  {
    KpisOfTable(f, sqrt);
  }

  /** 30d_return_pct compounds exactly the last 20 daily returns (the close
      `iloc[-21]` is 20 rows back), yet it is 0 unless there are at least 22
      closes, one more than that comparison needs. */
  lemma ThirtyDayReturn(f: Frame, sqrt: real -> real)
    requires ValidPrices(f)
    requires ComputeKpis(f, sqrt).Ok?
    ensures var c := Closes(f); var n := |c|;
      && (n < 22 ==> ComputeKpis(f, sqrt).value.thirtyDayReturnPct == Finite(0.0))
      && (n >= 22 ==>
            && |Returns(c)[n - 21..]| == 20
            && ComputeKpis(f, sqrt).value.thirtyDayReturnPct ==
                 Finite((Growth(Returns(c)[n - 21..]) - 1.0) * 100.0))
  {
    var c := Closes(f);
    KpisOfTable(f, sqrt);
    assert ComputeKpis(f, sqrt).value.thirtyDayReturnPct == Finite(ThirtyDayReturnPct(c));
    if |c| >= 22 {
      LastTwentyReturns(c);
    }
  }

  /** The comparison with the close 20 rows back, as compounded returns. */
  lemma LastTwentyReturns(c: seq<real>)
    requires Positive(c) && |c| >= 22
    ensures |Returns(c)[|c| - 21..]| == 20
    ensures ThirtyDayReturnPct(c) == (Growth(Returns(c)[|c| - 21..]) - 1.0) * 100.0
  {
    var n := |c|;
    var rs := Returns(c);
    assert rs[n - 21..n - 1] == rs[n - 21..];
    GrowthTelescopes(c, n - 21, n - 1);
    var g := Growth(rs[n - 21..]);
    assert g == c[n - 1] / c[n - 21];
    assert ThirtyDayReturnPct(c) == ReturnPct(c[n - 1], c[n - 21]);
  }

  // ---------------------------------------------------------------------------
  // RSI and volatility in the KPI set

  /** rsi_14 is a number in [0, 100], and 50 while fewer than 14 closes fill
      its first window. */
  lemma KpiRsiRange(f: Frame, sqrt: real -> real)
    requires ValidPrices(f)
    requires ComputeKpis(f, sqrt).Ok?
    ensures var k := ComputeKpis(f, sqrt).value;
      && k.rsi14.Finite?
      && 0.0 <= k.rsi14.x <= 100.0
      && (|Closes(f)| < 14 ==> k.rsi14 == Finite(50.0))
  {
    var c := Closes(f);
    KpisOfTable(f, sqrt);
    RsiBounds(c, 14, |c| - 1);
  }

  /** annual_volatility_pct is NaN with fewer than three closes and otherwise a
      non-negative number; it is 0 for a table whose closes never change. */
  lemma KpiVolatility(f: Frame, sqrt: real -> real)
    requires ValidPrices(f)
    requires ComputeKpis(f, sqrt).Ok?
    requires forall x :: 0.0 <= x ==> 0.0 <= sqrt(x)
    ensures var k := ComputeKpis(f, sqrt).value; var n := |Closes(f)|;
      && (n < 3 <==> k.annualVolatilityPct.NaN?)
      && (n >= 3 ==> k.annualVolatilityPct.Finite? && k.annualVolatilityPct.x >= 0.0)
      && (n >= 3 && Constant(Closes(f)) && sqrt(0.0) == 0.0 ==>
            k.annualVolatilityPct == Finite(0.0))
  {
    var c := Closes(f);
    KpisOfTable(f, sqrt);
    VolatilityDefinedFromThreeCloses(c, TradingDays, sqrt);
    VolatilityNonNegative(c, TradingDays, sqrt);
    if |c| >= 3 && Constant(c) && sqrt(0.0) == 0.0 {
      ConstantPricesZeroVolatility(c, TradingDays, sqrt);
    }
  }

  /** A table with a single close: both returns fall back to 0, both averages
      are that close, the RSI is 50 and the volatility NaN. */
  lemma SingleCloseKpis(f: Frame, sqrt: real -> real)
    requires ValidPrices(f)
    requires PriceColumn(f).Ok? && |PriceColumn(f).value| == 1
    ensures var p := PriceColumn(f).value[0];
      ComputeKpis(f, sqrt) == Ok(KpiSet(Finite(p), Finite(0.0), Finite(0.0), Finite(p), Finite(p),
                                        Finite(50.0), NaN))
  {
    var c := Closes(f);
    KpisOfTable(f, sqrt);
    assert Window(c, 0, 50) == [c[0]] == Window(c, 0, 200);
    assert Sum([c[0]]) == c[0] by { assert [c[0]][..0] == []; }
    RsiBounds(c, 14, 0);
    VolatilityDefinedFromThreeCloses(c, TradingDays, sqrt);
  }

  /** A rising market: with strictly increasing closes both returns are
      positive once defined, and from 51 closes on the 50-day average lies
      above the 200-day average. */
  lemma RisingClosesKpis(f: Frame, sqrt: real -> real)
    requires ValidPrices(f)
    requires ComputeKpis(f, sqrt).Ok? && StrictlyIncreasing(Closes(f))
    ensures var k := ComputeKpis(f, sqrt).value; var n := |Closes(f)|;
      && (n >= 2 ==> k.oneDayReturnPct.Finite? && k.oneDayReturnPct.x > 0.0)
      && (n >= 22 ==> k.thirtyDayReturnPct.Finite? && k.thirtyDayReturnPct.x > 0.0)
      && (n > 50 ==> k.sma50.Finite? && k.sma200.Finite? && k.sma50.x > k.sma200.x)
  {
    KpisOfTable(f, sqrt);
    RisingKpisOf(Closes(f), sqrt);
  }

  /** The rising-market facts about the KPIs of a series of closes. */
  lemma RisingKpisOf(c: seq<real>, sqrt: real -> real)
    requires Positive(c) && |c| > 0 && StrictlyIncreasing(c)
    ensures var k := KpisOf(c, sqrt); var n := |c|;
      && (n >= 2 ==> k.oneDayReturnPct.Finite? && k.oneDayReturnPct.x > 0.0)
      && (n >= 22 ==> k.thirtyDayReturnPct.Finite? && k.thirtyDayReturnPct.x > 0.0)
      && (n > 50 ==> k.sma50.Finite? && k.sma200.Finite? && k.sma50.x > k.sma200.x)
  {
    RisingReturns(c);
    if |c| > 50 {
      RisingSmas(c);
    }
  }

  lemma RisingReturns(c: seq<real>)
    requires Positive(c) && |c| > 0 && StrictlyIncreasing(c)
    ensures |c| >= 2 ==> OneDayReturnPct(c) > 0.0
    ensures |c| >= 22 ==> ThirtyDayReturnPct(c) > 0.0
  {
    var n := |c|;
    if n >= 2 {
      RiseIsPositiveReturn(c[n - 1], c[n - 2]);
    }
    if n >= 22 {
      RiseIsPositiveReturn(c[n - 1], c[n - 21]);
    }
  }

  lemma RisingSmas(c: seq<real>)
    requires StrictlyIncreasing(c) && |c| > 50
    ensures var s50, s200 := Sma(c, 50)[|c| - 1], Sma(c, 200)[|c| - 1];
      s50.Finite? && s200.Finite? && s50.x > s200.x
  {
    SmaAtLastRow(c, 50);
    SmaAtLastRow(c, 200);
    RisingTrailingMeans(c);
  }

  lemma RisingTrailingMeans(c: seq<real>)
    requires StrictlyIncreasing(c) && |c| > 50
    ensures Mean(Trailing(c, 50)) > Mean(Trailing(c, 200))
  {
    var t := Trailing(c, 200);
    assert t[|t| - 50..] == Trailing(c, 50);
    assert StrictlyIncreasing(t);
    TailMeanExceedsMean(t, 50);
  }

  lemma RiseIsPositiveReturn(after: real, before: real)
    requires 0.0 < before < after
    ensures ReturnPct(after, before) > 0.0
  {
    DivBelow(before, before, after / before);
  }
}
