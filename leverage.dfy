/** The trend rule behind the leveraged-ETF rotation: hold the market (Buy)
    while its close is above its 200-day moving average and step aside
    (Sell) otherwise. The average is taken with `min_periods=1`, so it is
    defined from the first day on, over however many days there are. */
module Leverage {
  import opened Signals
  import opened Indicators

  /** Days in the moving average. */
  const TrendWindow: nat := 200

  /** The `Returns` column: `pct_change` of the closes, undefined on the
      first day; a zero previous close, where pandas yields an infinity or
      NaN, is undefined here too. */
  function Returns(closes: seq<real>, i: nat): (r: Option<real>)
    requires i < |closes|
    ensures r.None? <==> i == 0 || closes[i - 1] == 0.0
    ensures r.Some? ==> closes[i] == closes[i - 1] * (1.0 + r.value)
  {
    if i == 0 || closes[i - 1] == 0.0 then None
    else
      var q := closes[i] / closes[i - 1];
      assert q * closes[i - 1] == closes[i];
      Some(q - 1.0)
  }

  /** `200_MA`: the mean of the last min(200, i + 1) closes, which lies
      between the least and the greatest of them. */
  function MovingAverage(closes: seq<real>, i: nat): (ma: real)
    requires i < |closes|
    ensures MinOf(TrailingWindow(closes, TrendWindow, i)) <= ma <= MaxOf(TrailingWindow(closes, TrendWindow, i))
  {
    var win := TrailingWindow(closes, TrendWindow, i);
    MeanWithinRange(win);
    Mean(win)
  }

  /** The `Signal` column of `calculate_leverage_rotation`: Buy exactly when
      the close is above its average, and then some earlier close of the
      window is lower than today's. */
  function TrendSignal(closes: seq<real>, i: nat): (s: Signal)
    requires i < |closes|
    ensures s == Buy <==> closes[i] > MovingAverage(closes, i)
    ensures s == Buy ==> exists k | TrendStart(i) <= k < i :: closes[k] < closes[i]
  {
    if closes[i] > MovingAverage(closes, i) then
      var win := TrailingWindow(closes, TrendWindow, i);
      var j :| 0 <= j < |win| && win[j] == MinOf(win);
      assert closes[TrendStart(i) + j] == MinOf(win);
      Buy
    else Sell
  }

  /** On the first day the average is that day's close, so the rule says Sell. */
  lemma FirstDaySell(closes: seq<real>)
    requires closes != []
    ensures TrendSignal(closes, 0) == Sell
  {
    var win := TrailingWindow(closes, TrendWindow, 0);
    assert win == [closes[0]];
    MeanOfConstant(win, closes[0]);
  }

  /** A flat price series never says Buy. */
  lemma ConstantSeriesSell(closes: seq<real>, c: real, i: nat)
    requires i < |closes| && forall k | 0 <= k < |closes| :: closes[k] == c
    ensures TrendSignal(closes, i) == Sell
  {
    var win := TrailingWindow(closes, TrendWindow, i);
    MeanOfConstant(win, c);
  }

  /** First row of the averaging window of row i. */
  function TrendStart(i: nat): nat {
    if i + 1 < TrendWindow then 0 else i + 1 - TrendWindow
  }

  /** A close above every other close of a window of at least two days says
      Buy. */
  lemma {:induction false} NewHighBuys(closes: seq<real>, i: nat)
    requires 0 < i < |closes|
    requires forall k | TrendStart(i) <= k < i :: closes[k] < closes[i]
    ensures TrendSignal(closes, i) == Buy
  {
    var win := TrailingWindow(closes, TrendWindow, i);
    forall j | 0 <= j < |win| - 1 ensures win[j] < win[|win| - 1] {
      assert win[j] == closes[TrendStart(i) + j];
    }
    MeanBelowLast(win);
  }

  /** A mean of at least two values, the last above all others, is below
      the last. */
  lemma MeanBelowLast(win: seq<real>)
    requires |win| >= 2
    requires forall j | 0 <= j < |win| - 1 :: win[j] < win[|win| - 1]
    ensures Mean(win) < win[|win| - 1]
  {
    var n := |win|;
    var init := win[..n - 1];
    var c := win[n - 1];
    var m := MaxOf(init);
    assert m < c by {
      var k :| 0 <= k < |init| && init[k] == m;
      assert win[k] < c;
    }
    assert forall j | 0 <= j < |init| :: init[j] <= m by {
      forall j | 0 <= j < |init| ensures init[j] <= m {
        assert init[j] in init;
      }
    }
    SumAtMost(init, m);
    assert Sum(win) == Sum(init) + c;
    SnocMeanBelow(Sum(init), m, c, n);
  }

  /** A sum of values none above `hi` is at most |s|·hi. */
  lemma {:induction false} SumAtMost(s: seq<real>, hi: real)
    requires forall j | 0 <= j < |s| :: s[j] <= hi
    ensures Sum(s) <= (|s| as real) * hi
  {
    if s != [] {
      var init := s[..|s| - 1];
      SumAtMost(init, hi);
      assert (|s| as real) * hi == (|init| as real) * hi + hi;
    }
  }

  /** Arithmetic step of `MeanBelowLast`, on plain reals. */
  lemma SnocMeanBelow(rest: real, m: real, c: real, n: nat)
    requires n >= 2 && m < c && rest <= ((n - 1) as real) * m
    ensures (rest + c) / (n as real) < c
  {
    SumBelow(rest, m, c, n);
    QuotientBelow(rest + c, n as real, c);
  }

  lemma SumBelow(rest: real, m: real, c: real, n: nat)
    requires n >= 2 && m < c && rest <= ((n - 1) as real) * m
    ensures rest + c < (n as real) * c
  {
    assert ((n - 1) as real) * m < ((n - 1) as real) * c;
  }

  lemma QuotientBelow(x: real, n: real, c: real)
    requires n > 0.0 && x < n * c
    ensures x / n < c
  {
    assert (x / n) * n == x;
    assert (c - x / n) * n == n * c - x;
  }

  /** The `signal_dict` loop: one entry per date of the series, in order,
      holding that date's signal. */
  method SignalDict(h: History) returns (signals: seq<(Date, Signal)>)
    requires WellFormed(h)
    ensures |signals| == |h.dates| && DistinctKeys(signals)
    ensures forall k | 0 <= k < |signals| :: signals[k] == (h.dates[k], TrendSignal(h.closes, k))
  {
    signals := [];
    for k := 0 to |h.dates|
      invariant |signals| == k
      invariant forall m | 0 <= m < k :: signals[m] == (h.dates[m], TrendSignal(h.closes, m))
    {
      signals := signals + [(h.dates[k], TrendSignal(h.closes, k))];
    }
  }
}
