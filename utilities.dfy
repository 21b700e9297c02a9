/** The relative-strength rotation: the weekly ratio of the utilities
    sector's close to the market's close, its change over four weeks, a
    weekly signal that is Buy (the market) when that change is negative and
    Sell (hold utilities) otherwise, the weekly signals carried forward onto
    the daily dates, and a lookup by date string. */
module Utilities {
  import opened Signals

  /** One week of `resample('W').last()`: its label, which is the Sunday
      that ends the week, and the last close of the utilities sector and of
      the market in that week. Since the label is the Sunday after the
      trading days, a Monday-to-Friday day falls before its own week's label
      and takes the signal of the week before. */
  datatype Week = Week(ending: Date, utilities: real, market: real)

  /** The resample's labels strictly ascend, one per week. */
  predicate WeeksAscend(ws: seq<Week>) {
    forall a, b | 0 <= a < b < |ws| :: ws[a].ending < ws[b].ending
  }

  predicate PositivePrices(ws: seq<Week>) {
    forall t | 0 <= t < |ws| :: ws[t].utilities > 0.0 && ws[t].market > 0.0
  }

  /** `Relative_Strength`: the utilities close over the market close. */
  function RelativeStrength(w: Week): (rs: real)
    requires w.utilities > 0.0 && w.market > 0.0
    ensures rs > 0.0
    ensures rs * w.market == w.utilities
  {
    w.utilities / w.market
  }

  /** `pct_change(periods=4)` of the relative strength: undefined for the
      first four weeks, then the relative change against four weeks before. */
  function FourWeekChange(ws: seq<Week>, t: nat): (c: Option<real>)
    requires PositivePrices(ws) && t < |ws|
    ensures c.None? <==> t < 4
    ensures c.Some? ==> (c.value + 1.0) * RelativeStrength(ws[t - 4]) == RelativeStrength(ws[t])
  {
    if t < 4 then None
    else
      var now, before := RelativeStrength(ws[t]), RelativeStrength(ws[t - 4]);
      assert (now / before) * before == now;
      Some(now / before - 1.0)
  }

  /** `np.where(4_Week_Rolling_RS < 0, 'Buy', 'Sell')`: an undefined change
      compares as false and gives Sell. The signal is Buy exactly when the
      relative strength has fallen over the last four weeks. */
  function WeeklySignal(ws: seq<Week>, t: nat): (s: Signal)
    requires PositivePrices(ws) && t < |ws|
    ensures s == Buy <==> t >= 4 && RelativeStrength(ws[t]) < RelativeStrength(ws[t - 4])
  {
    match FourWeekChange(ws, t)
    case Some(c) =>
      var now, before := RelativeStrength(ws[t]), RelativeStrength(ws[t - 4]);
      assert now - before == c * before;
      SignOfProduct(c, before);
      if c < 0.0 then Buy else Sell
    case None => Sell
  }

  lemma SignOfProduct(c: real, b: real)
    requires b > 0.0
    ensures c < 0.0 <==> c * b < 0.0
  {
    if c < 0.0 {
      assert (-c) * b > 0.0;
    } else {
      assert c * b >= 0.0;
    }
  }

  /** The weekly `Signal` column, keyed by the week's closing date: Buy in
      the weeks whose relative strength fell over four weeks. */
  function WeeklySignals(ws: seq<Week>): (s: seq<(Date, Signal)>)
    requires PositivePrices(ws)
    ensures |s| == |ws|
    ensures forall t | 0 <= t < |ws| :: s[t].0 == ws[t].ending
    ensures forall t | 0 <= t < |ws| ::
              s[t].1 == Buy <==> t >= 4 && RelativeStrength(ws[t]) < RelativeStrength(ws[t - 4])
    ensures WeeksAscend(ws) ==> DistinctKeys(s)
  {
    seq(|ws|, t requires 0 <= t < |ws| => (ws[t].ending, WeeklySignal(ws, t)))
  }

  /** `reindex(df.index, method='ffill')` followed by keeping only the
      Buy/Sell rows: each daily date with the signal of the latest week
      label at or before it; dates before the first label are dropped. */
  function ForwardFill(weekly: seq<(Date, Signal)>, days: seq<Date>): (daily: seq<(Date, Signal)>)
    requires DistinctKeys(weekly)
    ensures |daily| <= |days|
    ensures forall e | e in daily :: e.0 in days && LatestAtOrBefore(weekly, e.0, e.1)
  {
    if days == [] then []
    else
      var d := days[|days| - 1];
      var rest := ForwardFill(weekly, days[..|days| - 1]);
      assert forall e | e in rest :: e.0 in days;
      match LastKnown(weekly, d)
      case None => rest
      case Some(s) => rest + [(d, s)]
  }

  /** Every daily date on or after some week label is kept. */
  lemma {:induction false} ForwardFillKeepsCoveredDays(weekly: seq<(Date, Signal)>, days: seq<Date>, i: nat)
    requires DistinctKeys(weekly) && i < |days|
    requires exists k | 0 <= k < |weekly| :: weekly[k].0 <= days[i]
    ensures HasKey(ForwardFill(weekly, days), days[i])
    decreases |days|
  {
    var init := days[..|days| - 1];
    var rest := ForwardFill(weekly, init);
    ForwardFillLast(weekly, days);
    if i < |days| - 1 {
      assert init[i] == days[i];
      ForwardFillKeepsCoveredDays(weekly, init, i);
      var k :| 0 <= k < |rest| && rest[k].0 == days[i];
      assert ForwardFill(weekly, days)[k] == rest[k];
    } else {
      assert LastKnown(weekly, days[i]).Some?;
      assert ForwardFill(weekly, days)[|rest|].0 == days[i];
    }
  }

  /** The last day adds at most its own entry to the days before it. */
  lemma ForwardFillLast(weekly: seq<(Date, Signal)>, days: seq<Date>)
    requires DistinctKeys(weekly) && days != []
    ensures var d := days[|days| - 1];
            ForwardFill(weekly, days) ==
              ForwardFill(weekly, days[..|days| - 1]) + (if LastKnown(weekly, d).Some? then [(d, LastKnown(weekly, d).value)] else [])
  {
  }

  /** On ascending daily dates the kept dates ascend too. */
  lemma {:induction false} ForwardFillAscends(weekly: seq<(Date, Signal)>, days: seq<Date>)
    requires DistinctKeys(weekly) && Ascending(days)
    ensures var daily := ForwardFill(weekly, days);
            forall a, b | 0 <= a < b < |daily| :: daily[a].0 < daily[b].0
    decreases |days|
  {
    if days != [] {
      var init := days[..|days| - 1];
      var rest := ForwardFill(weekly, init);
      assert Ascending(init);
      ForwardFillAscends(weekly, init);
      KeptBeforeLast(weekly, days);
      var daily := ForwardFill(weekly, days);
      assert daily[..|rest|] == rest;
      forall a, b | 0 <= a < b < |daily|
        ensures daily[a].0 < daily[b].0
      {
        assert daily[a] == rest[a];
        if b < |rest| {
          assert daily[b] == rest[b];
        } else {
          assert rest[a] in rest;
        }
      }
    }
  }

  /** The dates kept from all but the last day precede the last day. */
  lemma KeptBeforeLast(weekly: seq<(Date, Signal)>, days: seq<Date>)
    requires DistinctKeys(weekly) && Ascending(days) && days != []
    ensures var d := days[|days| - 1];
            ForwardFill(weekly, days)[..|ForwardFill(weekly, days[..|days| - 1])|] == ForwardFill(weekly, days[..|days| - 1])
            && forall e | e in ForwardFill(weekly, days[..|days| - 1]) :: e.0 < d
  {
    var init := days[..|days| - 1];
    forall e | e in ForwardFill(weekly, init) ensures e.0 < days[|days| - 1] {
      var k :| 0 <= k < |init| && init[k] == e.0;
      assert days[k] == e.0;
    }
  }

  /** Python's `<=` on strings: lexicographic, a proper prefix first. */
  predicate LexLe(a: string, b: string)
    decreases |a|
  {
    |a| == 0 || (|b| > 0 && (a[0] < b[0] || (a[0] == b[0] && LexLe(a[1..], b[1..]))))
  }

  lemma {:induction false} LexLeTotal(a: string, b: string)
    ensures LexLe(a, b) || LexLe(b, a)
    decreases |a|
  {
    if |a| > 0 && |b| > 0 && a[0] == b[0] {
      LexLeTotal(a[1..], b[1..]);
    }
  }

  lemma {:induction false} LexLeAntisymmetric(a: string, b: string)
    requires LexLe(a, b) && LexLe(b, a)
    ensures a == b
    decreases |a|
  {
    if |a| > 0 {
      LexLeAntisymmetric(a[1..], b[1..]);
      assert a == [a[0]] + a[1..] && b == [b[0]] + b[1..];
    }
  }

  lemma {:induction false} LexLeTransitive(a: string, b: string, c: string)
    requires LexLe(a, b) && LexLe(b, c)
    ensures LexLe(a, c)
    decreases |a|
  {
    if |a| > 0 && a[0] == b[0] && b[0] == c[0] {
      LexLeTransitive(a[1..], b[1..], c[1..]);
    }
  }

  lemma {:induction false} LexLeReflexive(a: string)
    ensures LexLe(a, a)
    decreases |a|
  {
    if |a| > 0 {
      LexLeReflexive(a[1..]);
    }
  }

  /** `max(d for d in keys if d <= q)` on strings, or None when no key is. */
  function GreatestStringAtOrBefore(m: seq<(string, Signal)>, q: string): (r: Option<string>)
    ensures r.None? <==> forall i | 0 <= i < |m| :: !LexLe(m[i].0, q)
    ensures r.Some? ==> LexLe(r.value, q) && HasKey(m, r.value)
    ensures r.Some? ==> forall i | 0 <= i < |m| && LexLe(m[i].0, q) :: LexLe(m[i].0, r.value)
  {
    if m == [] then None
    else
      var rest := GreatestStringAtOrBefore(m[1..], q);
      assert forall i | 1 <= i < |m| :: m[i] == m[1..][i - 1];
      if !LexLe(m[0].0, q) then rest
      else if rest.Some? && !LexLe(rest.value, m[0].0) then
        LexLeTotal(rest.value, m[0].0);
        assert HasKey(m, rest.value) by {
          var i :| 0 <= i < |m[1..]| && m[1..][i].0 == rest.value;
          assert m[i + 1].0 == rest.value;
        }
        rest
      else
        LexLeReflexive(m[0].0);
        assert forall i | 0 <= i < |m| && LexLe(m[i].0, q) :: LexLe(m[i].0, m[0].0) by {
          forall i | 0 <= i < |m| && LexLe(m[i].0, q) ensures LexLe(m[i].0, m[0].0) {
            if i > 0 {
              LexLeTransitive(m[i].0, rest.value, m[0].0);
            }
          }
        }
        assert HasKey(m, m[0].0) by { assert m[0].0 == m[0].0; }
        Some(m[0].0)
  }

  /** The answer when no key is at or before the queried string. */
  const DateNotInDataset: string := "Date not in dataset"

  /** `query_signal` of the rotation: the signal under the greatest key not
      after the queried date string, or "Date not in dataset". */
  function QueryDateString(m: seq<(string, Signal)>, q: string): (r: Answer)
    requires DistinctKeys(m)
    ensures r.Missing? <==> forall i | 0 <= i < |m| :: !LexLe(m[i].0, q)
    ensures r.Missing? ==> r.message == DateNotInDataset
    ensures r.Found? ==> exists i | 0 <= i < |m| ::
              && LexLe(m[i].0, q) && m[i].1 == r.signal
              && forall j | 0 <= j < |m| && LexLe(m[j].0, q) :: LexLe(m[j].0, m[i].0)
  {
    match GreatestStringAtOrBefore(m, q)
    case None => Missing(DateNotInDataset)
    case Some(key) =>
      var s := Get(m, key).value;
      assert exists i | 0 <= i < |m| ::
               && LexLe(m[i].0, q) && m[i].1 == s
               && forall j | 0 <= j < |m| && LexLe(m[j].0, q) :: LexLe(m[j].0, m[i].0) by {
        var i :| 0 <= i < |m| && m[i] == (key, s);
        assert LexLe(m[i].0, q) && m[i].1 == s;
      }
      Found(s)
  }

  /** A key that is stored answers with its own signal. */
  lemma QueryOnStoredKey(m: seq<(string, Signal)>, i: nat)
    requires DistinctKeys(m) && i < |m|
    ensures QueryDateString(m, m[i].0) == Found(m[i].1)
  {
    LexLeReflexive(m[i].0);
    var r := QueryDateString(m, m[i].0);
    var k :| 0 <= k < |m| && LexLe(m[k].0, m[i].0) && m[k].1 == r.signal
             && forall j | 0 <= j < |m| && LexLe(m[j].0, m[i].0) :: LexLe(m[j].0, m[k].0);
    assert LexLe(m[i].0, m[k].0);
    LexLeAntisymmetric(m[i].0, m[k].0);
    assert k == i;
  }
}
