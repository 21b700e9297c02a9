/** The breadth rule: for every ticker a daily flag saying whether the close
    is at its 52-week low, the fraction of tickers so flagged on each market
    date, and a signal that is Sell on a "selling climax" (at least half of
    the tickers at their low) and Buy otherwise. */
module Ripple {
  import opened Signals
  import opened Indicators

  /** Trading days in the 52-week window. */
  const LowWindow: nat := 252
  /** Fractions at or above this are a selling climax. */
  const ClimaxLevel: real := 0.50
  /** Fractions below this mark extreme vulnerability. */
  const VulnerabilityLevel: real := 0.0003

  /** First row of the trailing window of row i. */
  function WindowStart(i: nat): nat {
    if i + 1 < LowWindow then 0 else i + 1 - LowWindow
  }

  /** `Is_52_Week_Low` at row i: 1 when the close equals the
      `rolling(window=252, min_periods=1).min()` of the closes, else 0; that
      is, 1 exactly when no close of the trailing window is lower. */
  function LowFlag(closes: seq<real>, i: nat): (flag: nat)
    requires i < |closes|
    ensures flag <= 1
    ensures flag == 1 <==> forall k | WindowStart(i) <= k <= i :: closes[i] <= closes[k]
  {
    var win := TrailingWindow(closes, LowWindow, i);
    var m := MinOf(win);
    var lo := WindowStart(i);
    assert forall k | lo <= k <= i :: m <= closes[k] by {
      forall k | lo <= k <= i ensures m <= closes[k] {
        assert win[k - lo] == closes[k];
        assert win[k - lo] in win;
      }
    }
    assert (forall k | lo <= k <= i :: closes[i] <= closes[k]) ==> closes[i] <= m by {
      var j :| 0 <= j < |win| && win[j] == m;
      assert closes[j + lo] == m;
    }
    if closes[i] == m then 1 else 0
  }

  /** `get_52_week_low_status`: each date of the history with its flag. */
  function LowStatus(h: History): (status: seq<(Date, nat)>)
    requires WellFormed(h)
    ensures |status| == |h.dates|
    ensures forall i | 0 <= i < |status| :: status[i].0 == h.dates[i] && status[i].1 <= 1
    ensures forall i | 0 <= i < |status| ::
              status[i].1 == 1 <==> forall k | WindowStart(i) <= k <= i :: h.closes[i] <= h.closes[k]
  {
    seq(|h.dates|, i requires 0 <= i < |h.dates| => (h.dates[i], LowFlag(h.closes, i)))
  }

  /** The first day of every history is at its 52-week low. */
  lemma FirstDayIsLow(h: History)
    requires WellFormed(h) && |h.dates| > 0
    ensures LowStatus(h)[0].1 == 1
  {
    assert WindowStart(0) == 0;
  }

  /** Number of tickers whose status map holds date q. */
  function Holding(all: seq<seq<(Date, nat)>>, q: Date): nat {
    if all == [] then 0
    else Holding(all[..|all| - 1], q) + (if HasKey(all[|all| - 1], q) then 1 else 0)
  }

  /** Sum of the flags of the tickers whose status map holds date q. */
  function LowCount(all: seq<seq<(Date, nat)>>, q: Date): nat {
    if all == [] then 0
    else
      var m := all[|all| - 1];
      LowCount(all[..|all| - 1], q) + (match Get(m, q) case Some(flag) => flag case None => 0)
  }

  /** Every flag of every ticker is 0 or 1. */
  predicate BinaryFlags(all: seq<seq<(Date, nat)>>) {
    forall t, i | 0 <= t < |all| && 0 <= i < |all[t]| :: all[t][i].1 <= 1
  }

  /** With binary flags, at most every holding ticker is at its low. */
  lemma {:induction false} LowCountBounded(all: seq<seq<(Date, nat)>>, q: Date)
    requires BinaryFlags(all)
    ensures LowCount(all, q) <= Holding(all, q)
  {
    if all != [] {
      var init := all[..|all| - 1];
      assert forall t | 0 <= t < |init| :: init[t] == all[t];
      LowCountBounded(init, q);
      var m := all[|all| - 1];
      match Get(m, q)
      case None =>
      case Some(flag) =>
        var i :| 0 <= i < |m| && m[i] == (q, flag);
        assert all[|all| - 1][i].1 <= 1;
    }
  }

  /** `query_ticker_at_date`: the share of the tickers holding date q that
      are at their low, and 0 when no ticker holds q. */
  function QueryTickerAtDate(all: seq<seq<(Date, nat)>>, q: Date): (r: real)
    ensures IsShare(r, LowCount(all, q), Holding(all, q))
  {
    Share(LowCount(all, q), Holding(all, q))
  }

  /** r is low / total, or 0 when the total is 0. */
  predicate IsShare(r: real, low: nat, total: nat) {
    (total == 0 ==> r == 0.0) && (total > 0 ==> r * (total as real) == low as real)
  }

  /** `low / total` with true division, guarded against an empty total. */
  function Share(low: nat, total: nat): (r: real)
    ensures IsShare(r, low, total)
  {
    if total == 0 then 0.0
    else
      DivisionInverts(low as real, total as real);
      (low as real) / (total as real)
  }

  lemma DivisionInverts(x: real, y: real)
    requires y != 0.0
    ensures (x / y) * y == x
  {
  }

  /** With binary flags the share is a fraction in [0, 1]. */
  lemma ShareIsFraction(all: seq<seq<(Date, nat)>>, q: Date)
    requires BinaryFlags(all)
    ensures 0.0 <= QueryTickerAtDate(all, q) <= 1.0
  {
    LowCountBounded(all, q);
    FractionBounds(QueryTickerAtDate(all, q), LowCount(all, q), Holding(all, q));
  }

  lemma FractionBounds(r: real, low: nat, total: nat)
    requires IsShare(r, low, total) && low <= total
    ensures 0.0 <= r <= 1.0
  {
    if total > 0 {
      assert (1.0 - r) * (total as real) == (total - low) as real;
    }
  }

  /** The flags of `LowStatus` are binary, so shares of them are fractions. */
  lemma StatusSharesAreFractions(hs: seq<History>, q: Date)
    requires forall t | 0 <= t < |hs| :: WellFormed(hs[t])
    ensures var all := seq(|hs|, t requires 0 <= t < |hs| => LowStatus(hs[t]));
            0.0 <= QueryTickerAtDate(all, q) <= 1.0
  {
    var all := seq(|hs|, t requires 0 <= t < |hs| => LowStatus(hs[t]));
    assert BinaryFlags(all) by {
      forall t, i | 0 <= t < |all| && 0 <= i < |all[t]|
        ensures all[t][i].1 <= 1
      {
        assert all[t] == LowStatus(hs[t]);
      }
    }
    ShareIsFraction(all, q);
  }

  /** The loop over the market dates appending one share per date. */
  method Percentages(all: seq<seq<(Date, nat)>>, dates: seq<Date>) returns (rows: seq<(Date, real)>)
    ensures |rows| == |dates|
    ensures forall k | 0 <= k < |rows| :: rows[k] == (dates[k], QueryTickerAtDate(all, dates[k]))
  {
    rows := [];
    for k := 0 to |dates|
      invariant |rows| == k
      invariant forall m | 0 <= m < k :: rows[m] == (dates[m], QueryTickerAtDate(all, dates[m]))
    {
      var percentage := QueryTickerAtDate(all, dates[k]);
      rows := rows + [(dates[k], percentage)];
    }
  }

  /** The `Selling_Climax` column. */
  predicate SellingClimax(p: real) {
    p >= ClimaxLevel
  }

  /** The `Extreme_Vulnerability` column. */
  predicate ExtremeVulnerability(p: real) {
    p < VulnerabilityLevel
  }

  /** `create_signal_dict`: one entry per date, Sell on a selling climax and
      Buy otherwise; extreme vulnerability plays no part and always comes
      with Buy. */
  method CreateSignalDict(rows: seq<(Date, real)>) returns (signals: seq<(Date, Signal)>)
    requires DistinctKeys(rows)
    ensures |signals| == |rows| && DistinctKeys(signals)
    ensures forall k | 0 <= k < |rows| :: signals[k].0 == rows[k].0
    ensures forall k | 0 <= k < |rows| :: signals[k].1 == Sell <==> SellingClimax(rows[k].1)
    ensures forall k | 0 <= k < |rows| :: ExtremeVulnerability(rows[k].1) ==> signals[k].1 == Buy
  {
    signals := [];
    for k := 0 to |rows|
      invariant |signals| == k
      invariant forall m | 0 <= m < k :: signals[m].0 == rows[m].0
      invariant forall m | 0 <= m < k :: signals[m].1 == Sell <==> SellingClimax(rows[m].1)
    {
      var (date, percentage) := rows[k];
      if SellingClimax(percentage) {
        signals := signals + [(date, Sell)];
      } else {
        signals := signals + [(date, Buy)];
      }
    }
  }
}
