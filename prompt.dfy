/** format_kpis_for_prompt: the KPI set as eight fixed lines of text, joined
    by newlines, that becomes the body of the analysis prompt. Numbers are
    rendered as Python's `:.2f` renders them. */
module Prompt {
  import opened Floats
  import opened Kpis

  datatype Option<T> = None | Some(value: T)

  // ---------------------------------------------------------------------------
  // Decimal digits

  predicate IsDigit(ch: char) {
    '0' <= ch <= '9'
  }

  predicate AllDigits(s: string) {
    forall i :: 0 <= i < |s| ==> IsDigit(s[i])
  }

  function DigitChar(d: nat): (ch: char)
    requires d < 10
    ensures IsDigit(ch) && ch as int - '0' as int == d
  {
    ('0' as int + d) as char
  }

  /** The decimal numeral of n, without leading zeros. */
  function NatToDecimal(n: nat): (s: string)
    ensures |s| > 0 && AllDigits(s)
  {
    if n < 10 then [DigitChar(n)] else NatToDecimal(n / 10) + [DigitChar(n % 10)]
  }

  /** The number a string of digits denotes. */
  function DecimalValue(s: string): nat
    requires AllDigits(s)
  {
    if s == [] then 0
    else DecimalValue(s[..|s| - 1]) * 10 + (s[|s| - 1] as int - '0' as int)
  }

  lemma {:induction false} DecimalRoundTrip(n: nat)
    ensures DecimalValue(NatToDecimal(n)) == n
  {
    if n >= 10 {
      DecimalRoundTrip(n / 10);
      var s := NatToDecimal(n);
      assert s[..|s| - 1] == NatToDecimal(n / 10);
    }
  }

  // ---------------------------------------------------------------------------
  // `:.2f`

  /** Rounds a non-negative real to the nearest integer, ties to even, as
      Python's float formatting does. */
  function RoundHalfEven(q: real): (n: nat)
    requires q >= 0.0
    ensures -0.5 <= n as real - q <= 0.5
  {
    var f := q.Floor;
    var frac := q - f as real;
    if frac < 0.5 then f
    else if frac > 0.5 then f + 1
    else if f % 2 == 0 then f else f + 1
  }

  /** n hundredths as "<units>.<tenths><hundredths>". */
  function Hundredths(n: nat): string {
    NatToDecimal(n / 100) + "." + [DigitChar((n / 10) % 10), DigitChar(n % 10)]
  }

  /** `f"{v:.2f}"`: a leading "-" for a negative number (also when it rounds to
      zero), then the magnitude rounded to two decimals; "nan", "inf" and
      "-inf" for the other values. */
  function Fmt2(v: Float): (r: string)
    ensures |r| > 0 && NumberText(r)
  {
    match v
    case NaN => "nan"
    case PosInf => "inf"
    case NegInf => "-inf"
    case Finite(x) =>
      (if x < 0.0 then "-" else "") + Hundredths(RoundHalfEven((if x < 0.0 then -x else x) * 100.0))
  }

  /** Python's `float()` on the strings Fmt2 produces for numbers:
      an optional "-", digits, ".", two digits. */
  function ParseFixed2(s: string): Option<real> {
    if |s| > 0 && s[0] == '-' then
      match ParseUnsignedFixed2(s[1..])
      case Some(v) => Some(-v)
      case None => None
    else ParseUnsignedFixed2(s)
  }

  function ParseUnsignedFixed2(s: string): Option<real> {
    if |s| >= 4 && s[|s| - 3] == '.' && AllDigits(s[..|s| - 3]) && AllDigits(s[|s| - 2..]) then
      Some(DecimalValue(s[..|s| - 3]) as real + DecimalValue(s[|s| - 2..]) as real / 100.0)
    else None
  }

  /** The value of a two-digit string. */
  lemma TwoDigits(a: nat, b: nat)
    requires a < 10 && b < 10
    ensures DecimalValue([DigitChar(a), DigitChar(b)]) == 10 * a + b
  {
    var t := [DigitChar(a), DigitChar(b)];
    assert t[..1] == [DigitChar(a)];
    assert [DigitChar(a)][..0] == [];
    assert DecimalValue([DigitChar(a)]) == a;
    assert DecimalValue(t) == DecimalValue(t[..1]) * 10 + b;
  }

  lemma HundredthsParse(n: nat)
    ensures ParseUnsignedFixed2(Hundredths(n)) == Some(n as real / 100.0)
  {
    var s := Hundredths(n);
    var units := NatToDecimal(n / 100);
    var tail := [DigitChar((n / 10) % 10), DigitChar(n % 10)];
    HundredthsLayout(n);
    DecimalRoundTrip(n / 100);
    TwoDigits((n / 10) % 10, n % 10);
    assert ParseUnsignedFixed2(s) == Some((n / 100) as real + ((n / 10) % 10 * 10 + n % 10) as real / 100.0);
    HundredthsValue(n);
  }

  /** Where the units, the point and the two decimals sit in Hundredths(n). */
  lemma HundredthsLayout(n: nat)
    ensures var s := Hundredths(n);
      && |s| >= 4 && s[|s| - 3] == '.'
      && s[..|s| - 3] == NatToDecimal(n / 100)
      && s[|s| - 2..] == [DigitChar((n / 10) % 10), DigitChar(n % 10)]
  {
  }

  lemma HundredthsValue(n: nat)
    ensures (n / 100) as real + ((n / 10) % 10 * 10 + n % 10) as real / 100.0 == n as real / 100.0
  {
    var a, b := n / 10, n % 10;
    var q, r := a / 10, a % 10;
    assert n == 10 * a + b;
    assert a == 10 * q + r;
    var m := 10 * r + b;
    assert 0 <= m < 100 && n == 100 * q + m;
    assert n / 100 == q;
    assert n as real == 100.0 * q as real + m as real;
  }

  /** The magnitude, in hundredths, that `:.2f` prints for x. */
  function PrintedHundredths(x: real): nat {
    RoundHalfEven((if x < 0.0 then -x else x) * 100.0)
  }

  /** What Fmt2 prints for a number reads back as its sign and its rounded
      magnitude. */
  lemma Fmt2Parse(x: real)
    ensures ParseFixed2(Fmt2(Finite(x))) ==
      Some(if x < 0.0 then -(PrintedHundredths(x) as real / 100.0) else PrintedHundredths(x) as real / 100.0)
  {
    if x < 0.0 {
      Fmt2ParseNegative(x);
    } else {
      Fmt2ParseNonNegative(x);
    }
  }

  lemma Fmt2ParseNegative(x: real)
    requires x < 0.0
    ensures ParseFixed2(Fmt2(Finite(x))) == Some(-(PrintedHundredths(x) as real / 100.0))
  {
    Fmt2Negative(x);
    SignedHundredthsParse(PrintedHundredths(x));
  }

  lemma Fmt2ParseNonNegative(x: real)
    requires x >= 0.0
    ensures ParseFixed2(Fmt2(Finite(x))) == Some(PrintedHundredths(x) as real / 100.0)
  {
    Fmt2NonNegative(x);
    SignedHundredthsParse(PrintedHundredths(x));
  }

  /** n hundredths read back with and without a leading "-". */
  lemma SignedHundredthsParse(n: nat)
    ensures ParseFixed2(Hundredths(n)) == Some(n as real / 100.0)
    ensures ParseFixed2("-" + Hundredths(n)) == Some(-(n as real / 100.0))
  {
    HundredthsParse(n);
    HundredthsUnsigned(n);
    ParseSign(Hundredths(n), n as real / 100.0);
  }

  lemma Fmt2Negative(x: real)
    requires x < 0.0
    ensures Fmt2(Finite(x)) == "-" + Hundredths(PrintedHundredths(x))
  {
  }

  /** A leading "-" negates what the rest reads as. */
  lemma ParseSign(h: string, v: real)
    requires |h| > 0 && h[0] != '-' && ParseUnsignedFixed2(h) == Some(v)
    ensures ParseFixed2(h) == Some(v) && ParseFixed2("-" + h) == Some(-v)
  {
    assert ("-" + h)[1..] == h;
  }

  /** Hundredths(n) starts with a digit, never with a sign. */
  lemma HundredthsUnsigned(n: nat)
    ensures |Hundredths(n)| > 0 && Hundredths(n)[0] != '-'
  {
    var units := NatToDecimal(n / 100);
    assert Hundredths(n)[0] == units[0];
    assert IsDigit(units[0]);
  }

  /** A number printed with `:.2f` reads back as a number within half a
      hundredth of it. */
  lemma Fmt2Accurate(x: real)
    ensures ParseFixed2(Fmt2(Finite(x))).Some?
    ensures -0.005 <= ParseFixed2(Fmt2(Finite(x))).value - x <= 0.005
  {
    Fmt2Parse(x);
    var mag := if x < 0.0 then -x else x;
    var n := PrintedHundredths(x);
    assert -0.5 <= n as real - mag * 100.0 <= 0.5;
    assert -0.005 <= n as real / 100.0 - mag <= 0.005;
  }

  /** The characters `:.2f` can print. */
  predicate NumberChar(ch: char) {
    IsDigit(ch) || ch in ".-naif"
  }

  predicate NumberText(s: string) {
    forall i :: 0 <= i < |s| ==> NumberChar(s[i])
  }

  lemma NumberTextHasNoNewline(s: string)
    requires NumberText(s)
    ensures '\n' !in s
  {
    forall i | 0 <= i < |s| ensures s[i] != '\n' {
      assert NumberChar(s[i]);
    }
  }

  // ---------------------------------------------------------------------------
  // Lines

  /** `sep.join(lines)`. */
  function Join(lines: seq<string>, sep: char): string {
    if |lines| == 0 then ""
    else if |lines| == 1 then lines[0]
    else Join(lines[..|lines| - 1], sep) + [sep] + lines[|lines| - 1]
  }

  /** The position of the last `sep` in s, if any. */
  function LastIndexOf(s: string, sep: char): (r: Option<nat>)
    ensures r.Some? ==> r.value < |s| && s[r.value] == sep && sep !in s[r.value + 1..]
    ensures r.None? ==> sep !in s
  {
    if s == [] then None
    else if s[|s| - 1] == sep then Some(|s| - 1)
    else
      var r := LastIndexOf(s[..|s| - 1], sep);
      assert s == s[..|s| - 1] + [s[|s| - 1]];
      r
  }

  /** `s.split(sep)`: the pieces between the separators, [s] when there is
      none. */
  function Split(s: string, sep: char): (r: seq<string>)
    ensures |r| > 0
    decreases |s|
  {
    match LastIndexOf(s, sep)
    case None => [s]
    case Some(i) => Split(s[..i], sep) + [s[i + 1..]]
  }

  /** Splitting a joined text gives back its lines when no line holds the
      separator. */
  lemma {:induction false} SplitJoin(lines: seq<string>, sep: char)
    requires |lines| > 0
    requires forall i :: 0 <= i < |lines| ==> sep !in lines[i]
    ensures Split(Join(lines, sep), sep) == lines
  {
    if |lines| > 1 {
      var init, last := lines[..|lines| - 1], lines[|lines| - 1];
      assert Join(lines, sep) == Join(init, sep) + [sep] + last;
      SplitAtLast(Join(init, sep), sep, last);
      SplitJoin(init, sep);
      assert init + [last] == lines;
    }
  }

  /** Splitting off the piece after the last separator. */
  lemma SplitAtLast(head: string, sep: char, last: string)
    requires sep !in last
    ensures Split(head + [sep] + last, sep) == Split(head, sep) + [last]
  {
    var s := head + [sep] + last;
    LastIndexOfAfter(head, sep, last);
    assert s[..|head|] == head;
    assert s[|head| + 1..] == last;
  }

  /** The last separator of `head + [sep] + last` is the one before `last`
      when `last` holds none. */
  lemma {:induction false} LastIndexOfAfter(head: string, sep: char, last: string)
    requires sep !in last
    ensures LastIndexOf(head + [sep] + last, sep) == Some(|head|)
    decreases |last|
  {
    var s := head + [sep] + last;
    if last != [] {
      assert s[..|s| - 1] == head + [sep] + last[..|last| - 1];
      assert s[|s| - 1] == last[|last| - 1];
      LastIndexOfAfter(head, sep, last[..|last| - 1]);
    }
  }

  // ---------------------------------------------------------------------------
  // The prompt block

  /** The eight lines, in their fixed order and with their fixed labels,
      around the rendered numbers. */
  function Lines(ticker: string, close: string, ret1: string, ret30: string,
                 sma50: string, sma200: string, rsi: string, vol: string): (r: seq<string>)
    ensures |r| == 8
  {
    [ "Ticker: " + ticker,
      "Latest Close: $" + close,
      "1-day Return: " + ret1 + "%",
      "30-day Return: " + ret30 + "%",
      "SMA(50): $" + sma50,
      "SMA(200): $" + sma200,
      "RSI(14): " + rsi,
      "Annualized Volatility: " + vol + "%" ]
  }

  /** The lines of the block, each number printed with `:.2f`. */
  function PromptLines(ticker: string, k: KpiSet): (r: seq<string>)
    ensures |r| == 8
  {
    Lines(ticker, Fmt2(k.latestClose), Fmt2(k.oneDayReturnPct), Fmt2(k.thirtyDayReturnPct),
          Fmt2(k.sma50), Fmt2(k.sma200), Fmt2(k.rsi14), Fmt2(k.annualVolatilityPct))
  }

  /** format_kpis_for_prompt. */
  function FormatKpisForPrompt(ticker: string, k: KpiSet): string {
    Join(PromptLines(ticker, k), '\n')
  }

  /** For a ticker without a newline the block splits back into exactly its
      eight lines: the ticker line, the close and the two averages after "$",
      the two returns and the volatility before "%", the RSI bare. The block
      ends with the "%" of the volatility line, not with a newline. */
  lemma PromptShape(ticker: string, k: KpiSet)
    requires '\n' !in ticker
    ensures var out := FormatKpisForPrompt(ticker, k); var ls := Split(out, '\n');
      && |ls| == 8
      && ls[0] == "Ticker: " + ticker
      && ls[1] == "Latest Close: $" + Fmt2(k.latestClose)
      && ls[2] == "1-day Return: " + Fmt2(k.oneDayReturnPct) + "%"
      && ls[3] == "30-day Return: " + Fmt2(k.thirtyDayReturnPct) + "%"
      && ls[4] == "SMA(50): $" + Fmt2(k.sma50)
      && ls[5] == "SMA(200): $" + Fmt2(k.sma200)
      && ls[6] == "RSI(14): " + Fmt2(k.rsi14)
      && ls[7] == "Annualized Volatility: " + Fmt2(k.annualVolatilityPct) + "%"
      && |out| > 0 && out[|out| - 1] == '%'
  {
    PromptSplitsIntoLines(ticker, k);
    PromptEndsWithPercent(ticker, k);
    LinesAt(ticker, Fmt2(k.latestClose), Fmt2(k.oneDayReturnPct), Fmt2(k.thirtyDayReturnPct),
            Fmt2(k.sma50), Fmt2(k.sma200), Fmt2(k.rsi14), Fmt2(k.annualVolatilityPct));
  }

  /** The lines of the block, one by one. */
  lemma LinesAt(ticker: string, close: string, ret1: string, ret30: string,
                sma50: string, sma200: string, rsi: string, vol: string)
    ensures var ls := Lines(ticker, close, ret1, ret30, sma50, sma200, rsi, vol);
      && ls[0] == "Ticker: " + ticker
      && ls[1] == "Latest Close: $" + close
      && ls[2] == "1-day Return: " + ret1 + "%"
      && ls[3] == "30-day Return: " + ret30 + "%"
      && ls[4] == "SMA(50): $" + sma50
      && ls[5] == "SMA(200): $" + sma200
      && ls[6] == "RSI(14): " + rsi
      && ls[7] == "Annualized Volatility: " + vol + "%"
  {
  }

  /** Splitting the block on newlines gives back its eight lines. */
  lemma PromptSplitsIntoLines(ticker: string, k: KpiSet)
    requires '\n' !in ticker
    ensures Split(FormatKpisForPrompt(ticker, k), '\n') == PromptLines(ticker, k)
  {
    NumberTextHasNoNewline(Fmt2(k.latestClose));
    NumberTextHasNoNewline(Fmt2(k.oneDayReturnPct));
    NumberTextHasNoNewline(Fmt2(k.thirtyDayReturnPct));
    NumberTextHasNoNewline(Fmt2(k.sma50));
    NumberTextHasNoNewline(Fmt2(k.sma200));
    NumberTextHasNoNewline(Fmt2(k.rsi14));
    NumberTextHasNoNewline(Fmt2(k.annualVolatilityPct));
    var lines := PromptLines(ticker, k);
    LinesHaveNoNewline(ticker, Fmt2(k.latestClose), Fmt2(k.oneDayReturnPct), Fmt2(k.thirtyDayReturnPct),
                       Fmt2(k.sma50), Fmt2(k.sma200), Fmt2(k.rsi14), Fmt2(k.annualVolatilityPct));
    SplitJoin(lines, '\n');
  }

  /** The block ends with the "%" of the volatility line. */
  lemma PromptEndsWithPercent(ticker: string, k: KpiSet)
    ensures var out := FormatKpisForPrompt(ticker, k); |out| > 0 && out[|out| - 1] == '%'
  {
    var lines := PromptLines(ticker, k);
    assert FormatKpisForPrompt(ticker, k) == Join(lines[..7], '\n') + ['\n'] + lines[7];
  }

  /** The labels hold no newline, so no line does unless a part put in it
      does. */
  lemma LinesHaveNoNewline(ticker: string, close: string, ret1: string, ret30: string,
                           sma50: string, sma200: string, rsi: string, vol: string)
    requires '\n' !in ticker && '\n' !in close && '\n' !in ret1 && '\n' !in ret30
    requires '\n' !in sma50 && '\n' !in sma200 && '\n' !in rsi && '\n' !in vol
    ensures var ls := Lines(ticker, close, ret1, ret30, sma50, sma200, rsi, vol);
      forall i :: 0 <= i < |ls| ==> '\n' !in ls[i]
  {
    LinesAt(ticker, close, ret1, ret30, sma50, sma200, rsi, vol);
  }

  /** The block for a one-row table: both returns print as "0.00%", the RSI as
      its neutral "50.00" and the volatility, which needs three closes, as
      "nan%". */
  lemma SingleClosePrompt(ticker: string, f: Frame, sqrt: real -> real)
    requires ValidPrices(f)
    requires PriceColumn(f).Ok? && |PriceColumn(f).value| == 1
    requires '\n' !in ticker
    ensures ComputeKpis(f, sqrt).Ok?
    ensures var ls := Split(FormatKpisForPrompt(ticker, ComputeKpis(f, sqrt).value), '\n');
      && |ls| == 8
      && ls[2] == "1-day Return: 0.00%"
      && ls[3] == "30-day Return: 0.00%"
      && ls[6] == "RSI(14): 50.00"
      && ls[7] == "Annualized Volatility: nan%"
  {
    SingleCloseKpis(f, sqrt);
    var k := ComputeKpis(f, sqrt).value;
    PromptShape(ticker, k);
    NeutralValuesPrinted();
  }

  lemma NeutralValuesPrinted()
    ensures Fmt2(Finite(0.0)) == "0.00" && Fmt2(Finite(50.0)) == "50.00"
  {
    ZeroPrinted();
    FiftyPrinted();
  }

  lemma ZeroPrinted()
    ensures Fmt2(Finite(0.0)) == "0.00"
  {
    Fmt2NonNegative(0.0);
    WholeRounds(0);
    assert DigitChar(0) == '0';
    assert NatToDecimal(0) == "0";
    assert Hundredths(0) == "0" + "." + "00";
  }

  lemma FiftyPrinted()
    ensures Fmt2(Finite(50.0)) == "50.00"
  {
    Fmt2NonNegative(50.0);
    WholeRounds(5000);
    assert DigitChar(0) == '0' && DigitChar(5) == '5';
    assert NatToDecimal(50) == NatToDecimal(5) + "0" == "50";
    assert Hundredths(5000) == "50" + "." + "00";
  }

  lemma Fmt2NonNegative(x: real)
    requires x >= 0.0
    ensures PrintedHundredths(x) == RoundHalfEven(x * 100.0)
    ensures Fmt2(Finite(x)) == Hundredths(PrintedHundredths(x))
  {
  }

  lemma WholeRounds(n: nat)
    ensures RoundHalfEven(n as real) == n
  {
    assert (n as real).Floor == n;
  }
}
