/** The "5% canary" signal engine. Two scans over a daily history look for a
    fall of five percent from a 52-week high: a "special decline" when the
    fall comes within fifteen trading days and is confirmed by two
    consecutive closes below the 200-day average, and a "buy the dip" when
    the fall comes later while the 50-day average is above the 200-day one.
    Each scan rests for a cooldown of calendar days after a signal. The
    detected dates then drive a two-state Buy/Sell signal dictionary. */
module Canary {
  import opened Signals
  import opened Indicators

  /** Trading days in the 52-week window, and first row the scans look at. */
  const YearWindow: nat := 252
  /** The special decline must come within this many rows of the high. */
  const Lookahead: nat := 15
  const DefaultCooldown: nat := 42

  /** The history with the indicator columns `identify_signals` adds before
      scanning: the 52-week high, the 50-day and the 200-day averages. */
  datatype Frame = Frame(dates: seq<Date>, closes: seq<real>,
                         high: seq<Option<real>>, sma50: seq<Option<real>>, sma200: seq<Option<real>>)

  predicate Shaped(f: Frame) {
    && |f.dates| == |f.closes| == |f.high| == |f.sma50| == |f.sma200|
    && Ascending(f.dates)
  }

  /** Each column holds the rolling statistic of the closes it is named for. */
  ghost predicate HasIndicators(f: Frame)
    requires Shaped(f)
  {
    && (forall i | 0 <= i < |f.closes| :: f.high[i] == RollingMax(f.closes, YearWindow, i))
    && (forall i | 0 <= i < |f.closes| :: f.sma50[i] == Sma(f.closes, 50, i))
    && (forall i | 0 <= i < |f.closes| :: f.sma200[i] == Sma(f.closes, 200, i))
  }

  /** The column definitions: `rolling(window=252).max()`, and
      `rolling(window=50).mean()` and `rolling(window=200).mean()`. */
  function WithIndicators(h: History): (f: Frame)
    requires WellFormed(h)
    ensures Shaped(f) && HasIndicators(f)
    ensures f.dates == h.dates && f.closes == h.closes
  {
    var n := |h.closes|;
    Frame(h.dates, h.closes,
          seq(n, i requires 0 <= i < n => RollingMax(h.closes, YearWindow, i)),
          seq(n, i requires 0 <= i < n => Sma(h.closes, 50, i)),
          seq(n, i requires 0 <= i < n => Sma(h.closes, 200, i)))
  }

  /** `Close[i] == 52_Week_High[i]`. */
  predicate IsYearHigh(f: Frame, i: nat)
    requires Shaped(f) && i < |f.closes|
  {
    f.high[i] == Some(f.closes[i])
  }

  /** `Close[j] <= 5%_Decline[i]`: row j is at least five percent below the
      52-week high of row i (never, while that high is undefined). */
  predicate FallsFivePercent(f: Frame, i: nat, j: nat)
    requires Shaped(f) && i < |f.closes| && j < |f.closes|
  {
    f.high[i].Some? && f.closes[j] <= f.high[i].value * 0.95
  }

  /** `Close < 200_SMA` at row r (false while the average is undefined). */
  predicate BelowLongAverage(f: Frame, r: nat)
    requires Shaped(f) && r < |f.closes|
  {
    f.sma200[r].Some? && f.closes[r] < f.sma200[r].value
  }

  /** `50_SMA > 200_SMA` at row j (false while either is undefined). */
  predicate ShortAverageAbove(f: Frame, j: nat)
    requires Shaped(f) && j < |f.closes|
  {
    f.sma50[j].Some? && f.sma200[j].Some? && f.sma50[j].value > f.sma200[j].value
  }

  /** Rows r - 1 and r both close below the 200-day average: the rolling
      two-row count of such closes is 2 at row r. */
  predicate BelowPair(f: Frame, r: nat)
    requires Shaped(f) && 0 < r < |f.closes|
  {
    BelowLongAverage(f, r - 1) && BelowLongAverage(f, r)
  }

  /** Two consecutive rows, both dated within `cooldown` calendar days from
      the decline row j on, close below the 200-day average. */
  predicate Confirmed(f: Frame, cooldown: nat, j: nat)
    requires Shaped(f) && j < |f.closes|
  {
    exists r | j < r < |f.closes| :: f.dates[r] <= f.dates[j] + cooldown && BelowPair(f, r)
  }

  /** The two scans of `identify_signals`. */
  datatype Rule = SpecialDecline | BuyTheDip

  /** Exclusive end of the outer scan: `len(data) - cooldown` for special
      declines, `len(data) - 15` for buying the dip. */
  function ScanEnd(rule: Rule, n: nat, cooldown: nat): int {
    if rule == SpecialDecline then n - cooldown else n - Lookahead
  }

  /** The rows j the inner scan looks at for a high at row i: i+1 to i+15
      for a special decline, i+16 to the end for buying the dip. */
  predicate InWindow(rule: Rule, n: nat, i: nat, j: nat) {
    j < n &&
    if rule == SpecialDecline then i < j <= i + Lookahead else i + Lookahead < j
  }

  /** Row j ends the inner scan for the high at row i. */
  predicate Triggers(f: Frame, rule: Rule, cooldown: nat, i: nat, j: nat)
    requires Shaped(f) && i < |f.closes| && j < |f.closes|
  {
    FallsFivePercent(f, i, j) &&
    if rule == SpecialDecline then Confirmed(f, cooldown, j) else ShortAverageAbove(f, j)
  }

  /** The high at row i offers a signal: it is a 52-week high and some row
      of its inner window triggers. */
  predicate Opportunity(f: Frame, rule: Rule, cooldown: nat, i: nat)
    requires Shaped(f) && i < |f.closes|
  {
    IsYearHigh(f, i) &&
    exists j | i < j < |f.closes| :: InWindow(rule, |f.closes|, i, j) && Triggers(f, rule, cooldown, i, j)
  }

  /** The high at row i is scanned, and row j is the first row of its inner
      window that triggers. */
  ghost predicate Detection(f: Frame, rule: Rule, cooldown: nat, i: nat, j: nat)
    requires Shaped(f)
  {
    && YearWindow <= i < ScanEnd(rule, |f.closes|, cooldown)
    && IsYearHigh(f, i)
    && InWindow(rule, |f.closes|, i, j)
    && Triggers(f, rule, cooldown, i, j)
    && forall k | i < k < j && InWindow(rule, |f.closes|, i, k) :: !Triggers(f, rule, cooldown, i, k)
  }

  /** The date a scan measures the cooldown of its k-th signal from: the
      previous signal, or 1900-01-01 before the first. */
  function Previous(found: seq<Date>, k: nat): Date
    requires k <= |found|
  {
    if k == 0 then Year1900 else found[k - 1]
  }

  /** Every signal lies more than `cooldown` days after the one before it
      (the first, after 1900-01-01). */
  predicate Spaced(found: seq<Date>, cooldown: nat) {
    forall k {:trigger Previous(found, k)} | 0 <= k < |found| :: found[k] - Previous(found, k) > cooldown
  }

  /** Spaced signals are in strictly increasing date order. */
  lemma {:induction false} SpacedIsIncreasing(found: seq<Date>, cooldown: nat, a: nat, b: nat)
    requires Spaced(found, cooldown)
    requires a < b < |found|
    ensures found[a] + cooldown < found[b]
    decreases b - a
  {
    assert found[b] - Previous(found, b) > cooldown;
    if a < b - 1 {
      SpacedIsIncreasing(found, cooldown, a, b - 1);
    }
  }

  /** Row i lies in the cooldown of an earlier signal (or of 1900-01-01). */
  ghost predicate Cooling(f: Frame, found: seq<Date>, at: seq<(nat, nat)>, cooldown: nat, i: nat)
    requires Shaped(f) && i < |f.dates| && |at| == |found|
  {
    f.dates[i] - Year1900 < cooldown ||
    exists k | 0 <= k < |at| :: at[k].0 < i && f.dates[i] - found[k] < cooldown
  }

  /** What one outer scan reports: each signal date, with its (high, signal)
      rows, is a detection whose high lay outside the cooldown of the signal
      before it; the highs ascend and the signals are spaced; and every
      opportunity in [252, scan end) was reported or lay in a cooldown. */
  ghost predicate Outcome(f: Frame, rule: Rule, cooldown: nat, found: seq<Date>, at: seq<(nat, nat)>)
    requires Shaped(f)
  {
    && |at| == |found|
    && (forall k | 0 <= k < |at| ::
          at[k].0 < at[k].1 < |f.dates| && found[k] == f.dates[at[k].1] && Detection(f, rule, cooldown, at[k].0, at[k].1))
    && (forall k | 0 <= k < |at| :: f.dates[at[k].0] - Previous(found, k) >= cooldown)
    && (forall a, b | 0 <= a < b < |at| :: at[a].0 < at[b].0)
    && Spaced(found, cooldown)
    && (forall i | YearWindow <= i < ScanEnd(rule, |f.closes|, cooldown) && Opportunity(f, rule, cooldown, i) ::
          (exists k | 0 <= k < |at| :: at[k].0 == i) || Cooling(f, found, at, cooldown, i))
  }

  /** The inner loop of one scan: the first row of the window of the high
      at row i that triggers, if any. */
  method FirstTrigger(f: Frame, rule: Rule, cooldown: nat, i: nat) returns (j: Option<nat>)
    requires Shaped(f) && i < ScanEnd(rule, |f.closes|, cooldown)
    ensures j.Some? ==> i < j.value < |f.closes| && InWindow(rule, |f.closes|, i, j.value)
    ensures j.Some? ==> Triggers(f, rule, cooldown, i, j.value)
    ensures j.Some? ==> forall k | i < k < j.value && InWindow(rule, |f.closes|, i, k) ::
                          !Triggers(f, rule, cooldown, i, k)
    ensures j.None? ==> forall k | i < k < |f.closes| && InWindow(rule, |f.closes|, i, k) ::
                          !Triggers(f, rule, cooldown, i, k)
  {
    var n := |f.closes|;
    var (lo, hi) := if rule == SpecialDecline then (i + 1, i + Lookahead + 1) else (i + Lookahead + 1, n);
    for k := lo to hi
      invariant forall k' | i < k' < k && k' < n && InWindow(rule, n, i, k') :: !Triggers(f, rule, cooldown, i, k')
    {
      if k >= n {
        break;
      }
      if Triggers(f, rule, cooldown, i, k) {
        return Some(k);
      }
    }
    return None;
  }

  /** The signals found before row i, each with its (high, signal) rows:
      every high lies before row i, is a detection, and lay outside the
      cooldown of the signal before it; the highs ascend and the signals
      are spaced. */
  ghost predicate Reported(f: Frame, rule: Rule, cooldown: nat, found: seq<Date>, at: seq<(nat, nat)>, i: int)
    requires Shaped(f)
  {
    && |at| == |found|
    && (forall k {:trigger at[k]} | 0 <= k < |at| ::
          && at[k].0 < i && at[k].0 < at[k].1 < |f.dates| && found[k] == f.dates[at[k].1]
          && Detection(f, rule, cooldown, at[k].0, at[k].1)
          && f.dates[at[k].0] - Previous(found, k) >= cooldown)
    && (forall a, b | 0 <= a < b < |at| :: at[a].0 < at[b].0)
    && Spaced(found, cooldown)
  }

  /** No opportunity at a row in [252, i) was passed over, except for one
      lying in a cooldown. */
  ghost predicate Complete(f: Frame, rule: Rule, cooldown: nat, found: seq<Date>, at: seq<(nat, nat)>, i: int)
    requires Shaped(f) && |at| == |found|
  {
    forall i' | YearWindow <= i' < i && i' < |f.closes| && Opportunity(f, rule, cooldown, i') ::
      (exists k | 0 <= k < |at| :: at[k].0 == i') || Cooling(f, found, at, cooldown, i')
  }

  lemma ReportedLater(f: Frame, rule: Rule, cooldown: nat, found: seq<Date>, at: seq<(nat, nat)>, i: int)
    requires Shaped(f) && Reported(f, rule, cooldown, found, at, i)
    ensures Reported(f, rule, cooldown, found, at, i + 1)
  {
  }

  /** Recording the detection (i, j) of a row i outside the cooldown keeps
      the report valid. */
  lemma ReportedAppend(f: Frame, rule: Rule, cooldown: nat, found: seq<Date>, at: seq<(nat, nat)>, i: nat, j: nat)
    requires Shaped(f) && Reported(f, rule, cooldown, found, at, i)
    requires i < j < |f.dates| && Detection(f, rule, cooldown, i, j)
    requires f.dates[i] - Previous(found, |found|) >= cooldown
    ensures Reported(f, rule, cooldown, found + [f.dates[j]], at + [(i, j)], i + 1)
  {
    var found', at' := found + [f.dates[j]], at + [(i, j)];
    var n := |found|;
    assert f.dates[i] < f.dates[j];
    forall k {:trigger at'[k]} | 0 <= k < |at'|
      ensures && at'[k].0 < i + 1 && at'[k].0 < at'[k].1 < |f.dates| && found'[k] == f.dates[at'[k].1]
              && Detection(f, rule, cooldown, at'[k].0, at'[k].1)
              && f.dates[at'[k].0] - Previous(found', k) >= cooldown
    {
      if k < n {
        assert at'[k] == at[k] && found'[k] == found[k] && Previous(found', k) == Previous(found, k);
      } else {
        assert at'[k] == (i, j) && Previous(found', k) == Previous(found, n);
      }
    }
    forall k {:trigger Previous(found', k)} | 0 <= k < |found'|
      ensures found'[k] - Previous(found', k) > cooldown
    {
      if k < n {
        assert found'[k] == found[k] && Previous(found', k) == Previous(found, k);
        assert found[k] - Previous(found, k) > cooldown;
      }
    }
    forall a, b | 0 <= a < b < |at'|
      ensures at'[a].0 < at'[b].0
    {
      assert at'[a] == at[a];
      if b < n {
        assert at'[b] == at[b];
      }
    }
  }

  /** A row skipped for its cooldown, or one with no opportunity, keeps the
      scan complete. */
  lemma CompletePassOver(f: Frame, rule: Rule, cooldown: nat, found: seq<Date>, at: seq<(nat, nat)>, i: nat)
    requires Shaped(f) && i < |f.closes| && |at| == |found|
    requires Complete(f, rule, cooldown, found, at, i)
    requires Opportunity(f, rule, cooldown, i) ==> Cooling(f, found, at, cooldown, i)
    ensures Complete(f, rule, cooldown, found, at, i + 1)
  {
  }

  /** Recording a detection at row i keeps the scan complete. */
  lemma CompleteAppend(f: Frame, rule: Rule, cooldown: nat, found: seq<Date>, at: seq<(nat, nat)>, i: nat, d: Date, j: nat)
    requires Shaped(f) && i < |f.closes| && |at| == |found|
    requires Complete(f, rule, cooldown, found, at, i)
    ensures Complete(f, rule, cooldown, found + [d], at + [(i, j)], i + 1)
  {
    var found', at' := found + [d], at + [(i, j)];
    forall i' | YearWindow <= i' < i + 1 && i' < |f.closes| && Opportunity(f, rule, cooldown, i')
      ensures (exists k | 0 <= k < |at'| :: at'[k].0 == i') || Cooling(f, found', at', cooldown, i')
    {
      if i' == i {
        assert at'[|at|].0 == i';
      } else if exists k | 0 <= k < |at| :: at[k].0 == i' {
        var k :| 0 <= k < |at| && at[k].0 == i';
        assert at'[k].0 == i';
      } else {
        assert Cooling(f, found, at, cooldown, i');
        if f.dates[i'] - Year1900 >= cooldown {
          var k :| 0 <= k < |at| && at[k].0 < i' && f.dates[i'] - found[k] < cooldown;
          assert at'[k].0 < i' && f.dates[i'] - found'[k] < cooldown;
        }
      }
    }
  }

  /** A row within `cooldown` days of the last signal lies in a cooldown. */
  lemma CoolingAfterLast(f: Frame, rule: Rule, cooldown: nat, found: seq<Date>, at: seq<(nat, nat)>, i: nat)
    requires Shaped(f) && i < |f.closes| && Reported(f, rule, cooldown, found, at, i)
    requires f.dates[i] - Previous(found, |found|) < cooldown
    ensures Cooling(f, found, at, cooldown, i)
  {
    if |found| > 0 {
      var k := |found| - 1;
      assert at[k].0 < i && f.dates[i] - found[k] < cooldown;
    }
  }

  /** One outer scan of `identify_signals`: rows from 252 up to the scan
      end, skipping rows within `cooldown` days of the last signal, and for
      each 52-week high the first triggering row of its window. Alongside
      the dates it reports, as a ghost, the (high, signal) rows of each. */
  method Scan(f: Frame, rule: Rule, cooldown: nat) returns (found: seq<Date>, ghost at: seq<(nat, nat)>)
    requires Shaped(f)
    ensures Outcome(f, rule, cooldown, found, at)
  {
    found, at := [], [];
    var last := Year1900;
    var i: int := YearWindow;
    while i < ScanEnd(rule, |f.closes|, cooldown)
      invariant YearWindow <= i && |at| == |found| && last == Previous(found, |found|)
      invariant Reported(f, rule, cooldown, found, at, i)
      invariant Complete(f, rule, cooldown, found, at, i)
    {
      found, at, last := ScanRow(f, rule, cooldown, found, at, last, i);
      i := i + 1;
    }
    ScanDone(f, rule, cooldown, found, at, i);
  }

  /** One row of the outer scan: a row within `cooldown` days of the last
      signal is skipped; a 52-week high whose window triggers adds the date
      of its first triggering row. The scan's invariant moves on to the next
      row. */
  method ScanRow(f: Frame, rule: Rule, cooldown: nat, found: seq<Date>, ghost at: seq<(nat, nat)>, last: Date, i: nat)
    returns (found': seq<Date>, ghost at': seq<(nat, nat)>, last': Date)
    requires Shaped(f) && YearWindow <= i < ScanEnd(rule, |f.closes|, cooldown)
    requires |at| == |found| && last == Previous(found, |found|)
    requires Reported(f, rule, cooldown, found, at, i) && Complete(f, rule, cooldown, found, at, i)
    ensures |at'| == |found'| && last' == Previous(found', |found'|)
    ensures found' == found || (|found'| == |found| + 1 && found'[..|found|] == found)
    ensures Reported(f, rule, cooldown, found', at', i + 1) && Complete(f, rule, cooldown, found', at', i + 1)
  {
    found', at', last' := found, at, last;
    if f.dates[i] - last < cooldown {
      CoolingAfterLast(f, rule, cooldown, found, at, i);
      PassOver(f, rule, cooldown, found, at, i);
    } else if IsYearHigh(f, i) {
      var j := FirstTrigger(f, rule, cooldown, i);
      if j.Some? {
        Record(f, rule, cooldown, found, at, i, j.value);
        found', at', last' := found + [f.dates[j.value]], at + [(i, j.value)], f.dates[j.value];
        assert found'[..|found|] == found;
      } else {
        PassOver(f, rule, cooldown, found, at, i);
      }
    } else {
      PassOver(f, rule, cooldown, found, at, i);
    }
  }

  /** A row that is cooling down or offers no opportunity adds no signal
      and keeps the scan's invariant. */
  lemma PassOver(f: Frame, rule: Rule, cooldown: nat, found: seq<Date>, at: seq<(nat, nat)>, i: nat)
    requires Shaped(f) && i < |f.closes| && |at| == |found|
    requires Reported(f, rule, cooldown, found, at, i) && Complete(f, rule, cooldown, found, at, i)
    requires Opportunity(f, rule, cooldown, i) ==> Cooling(f, found, at, cooldown, i)
    ensures Reported(f, rule, cooldown, found, at, i + 1) && Complete(f, rule, cooldown, found, at, i + 1)
  {
    CompletePassOver(f, rule, cooldown, found, at, i);
    ReportedLater(f, rule, cooldown, found, at, i);
  }

  /** Recording the detection (i, j) of a row outside the cooldown keeps
      the scan's invariant. */
  lemma Record(f: Frame, rule: Rule, cooldown: nat, found: seq<Date>, at: seq<(nat, nat)>, i: nat, j: nat)
    requires Shaped(f) && i < j < |f.dates| && |at| == |found|
    requires Reported(f, rule, cooldown, found, at, i) && Complete(f, rule, cooldown, found, at, i)
    requires Detection(f, rule, cooldown, i, j)
    requires f.dates[i] - Previous(found, |found|) >= cooldown
    ensures Reported(f, rule, cooldown, found + [f.dates[j]], at + [(i, j)], i + 1)
    ensures Complete(f, rule, cooldown, found + [f.dates[j]], at + [(i, j)], i + 1)
  {
    ReportedAppend(f, rule, cooldown, found, at, i, j);
    CompleteAppend(f, rule, cooldown, found, at, i, f.dates[j], j);
  }

  /** At the end of the scan, everything reported and nothing passed over
      is what the scan promises. */
  lemma ScanDone(f: Frame, rule: Rule, cooldown: nat, found: seq<Date>, at: seq<(nat, nat)>, i: int)
    requires Shaped(f) && |at| == |found| && i >= ScanEnd(rule, |f.closes|, cooldown)
    requires Reported(f, rule, cooldown, found, at, i) && Complete(f, rule, cooldown, found, at, i)
    ensures Outcome(f, rule, cooldown, found, at)
  {
  }

  /** `identify_signals`: the history with its indicator columns, the
      special declines with their cooldown and the buy-the-dip dates with
      theirs; as ghosts, the (high, signal) rows of each. */
  method IdentifySignals(h: History, cooldown: nat, buyDipCooldown: nat)
    returns (f: Frame, declines: seq<Date>, dips: seq<Date>, ghost declineRows: seq<(nat, nat)>, ghost dipRows: seq<(nat, nat)>)
    requires WellFormed(h)
    ensures f == WithIndicators(h)
    ensures Outcome(f, SpecialDecline, cooldown, declines, declineRows)
    ensures Outcome(f, BuyTheDip, buyDipCooldown, dips, dipRows)
  {
    f := WithIndicators(h);
    declines, declineRows := Scan(f, SpecialDecline, cooldown);
    dips, dipRows := Scan(f, BuyTheDip, buyDipCooldown);
  }

  /** What a special decline detected on the indicator columns means for
      the closes: row i closes at its 252-row high, row j (one of the next
      fifteen rows) at least five percent lower, and two consecutive rows
      within `cooldown` days from row j on close below their 200-row
      average. */
  lemma SpecialDeclineMeaning(f: Frame, cooldown: nat, i: nat, j: nat)
    requires Shaped(f) && HasIndicators(f)
    requires Detection(f, SpecialDecline, cooldown, i, j)
    ensures YearWindow <= i < j <= i + Lookahead && j < |f.closes|
    ensures RollingMax(f.closes, YearWindow, i) == Some(f.closes[i])
    ensures f.closes[j] <= f.closes[i] * 0.95
    ensures exists r | j < r < |f.closes| ::
              f.dates[r] <= f.dates[j] + cooldown && UnderLongAverage(f.closes, r - 1) && UnderLongAverage(f.closes, r)
  {
    HighColumn(f, i);
    assert Confirmed(f, cooldown, j);
    var r :| j < r < |f.closes| && f.dates[r] <= f.dates[j] + cooldown && BelowPair(f, r);
    LongAverageColumn(f, r - 1);
    LongAverageColumn(f, r);
  }

  /** The close of row r lies below the 200-row average of the closes. */
  predicate UnderLongAverage(closes: seq<real>, r: nat)
    requires r < |closes|
  {
    Sma(closes, 200, r).Some? && closes[r] < Sma(closes, 200, r).value
  }

  lemma HighColumn(f: Frame, i: nat)
    requires Shaped(f) && HasIndicators(f) && i < |f.closes|
    ensures f.high[i] == RollingMax(f.closes, YearWindow, i)
  {
  }

  lemma LongAverageColumn(f: Frame, r: nat)
    requires Shaped(f) && HasIndicators(f) && r < |f.closes|
    ensures BelowLongAverage(f, r) <==> UnderLongAverage(f.closes, r)
  {
  }

  lemma ShortAverageColumn(f: Frame, j: nat)
    requires Shaped(f) && HasIndicators(f) && j < |f.closes|
    ensures f.sma50[j] == Sma(f.closes, 50, j) && f.sma200[j] == Sma(f.closes, 200, j)
  {
  }

  /** What a buy-the-dip signal detected on the indicator columns means for
      the closes: row i closes at its 252-row high, row j at least sixteen
      rows later at least five percent lower, with the 50-row average above
      the 200-row average at row j. */
  lemma BuyTheDipMeaning(f: Frame, cooldown: nat, i: nat, j: nat)
    requires Shaped(f) && HasIndicators(f)
    requires Detection(f, BuyTheDip, cooldown, i, j)
    ensures YearWindow <= i && i + Lookahead < j < |f.closes|
    ensures RollingMax(f.closes, YearWindow, i) == Some(f.closes[i])
    ensures f.closes[j] <= f.closes[i] * 0.95
    ensures Sma(f.closes, 50, j).Some? && Sma(f.closes, 200, j).Some?
    ensures Sma(f.closes, 50, j).value > Sma(f.closes, 200, j).value
  {
    HighColumn(f, i);
    ShortAverageColumn(f, j);
  }

  /** The state after the dates `ds`: a special-decline date switches to
      Sell, otherwise a buy-the-dip date switches to Buy, otherwise the
      state carries over; it starts as Sell. A Buy state needs a dip date
      among `ds` that is not also a decline. */
  function StateAfter(ds: seq<Date>, declines: seq<Date>, dips: seq<Date>): (state: Signal)
    ensures state == Buy ==> exists k | 0 <= k < |ds| :: ds[k] in dips && ds[k] !in declines
  {
    if ds == [] then Sell
    else
      var d := ds[|ds| - 1];
      if d in declines then Sell
      else if d in dips then Buy
      else StateAfter(ds[..|ds| - 1], declines, dips)
  }

  /** The state is decided by the last date that is in either list: Sell
      if it is a special decline, Buy if it is only a dip; with no such
      date it is still the initial Sell. */
  lemma {:induction false} StateIsLastEvent(ds: seq<Date>, declines: seq<Date>, dips: seq<Date>, m: int)
    requires -1 <= m < |ds|
    requires m >= 0 ==> ds[m] in declines || ds[m] in dips
    requires forall k | m < k < |ds| :: ds[k] !in declines && ds[k] !in dips
    ensures StateAfter(ds, declines, dips) ==
              if m < 0 then Sell else if ds[m] in declines then Sell else Buy
    decreases |ds|
  {
    if |ds| > 0 && m < |ds| - 1 {
      var init := ds[..|ds| - 1];
      assert forall k | m < k < |init| :: init[k] == ds[k];
      StateIsLastEvent(init, declines, dips, m);
    }
  }

  /** Until the first buy-the-dip date the state is Sell. */
  lemma {:induction false} SellBeforeFirstDip(ds: seq<Date>, declines: seq<Date>, dips: seq<Date>)
    requires forall k | 0 <= k < |ds| :: ds[k] !in dips
    ensures StateAfter(ds, declines, dips) == Sell
    decreases |ds|
  {
    if ds != [] {
      var init := ds[..|ds| - 1];
      assert forall k | 0 <= k < |init| :: init[k] == ds[k];
      SellBeforeFirstDip(init, declines, dips);
    }
  }

  /** `create_signal_dict`: one entry per date of the history, in date
      order, holding the state after that date. */
  method CreateSignalDict(h: History, declines: seq<Date>, dips: seq<Date>) returns (signals: seq<(Date, Signal)>)
    requires WellFormed(h)
    ensures |signals| == |h.dates| && DistinctKeys(signals)
    ensures forall k | 0 <= k < |signals| :: signals[k].0 == h.dates[k]
    ensures forall k | 0 <= k < |signals| :: signals[k].1 == StateAfter(h.dates[..k + 1], declines, dips)
    ensures forall k | 0 <= k < |signals| && h.dates[k] in declines :: signals[k].1 == Sell
    ensures forall k | 0 <= k < |signals| && h.dates[k] !in declines && h.dates[k] in dips :: signals[k].1 == Buy
    ensures forall k | 0 < k < |signals| && h.dates[k] !in declines && h.dates[k] !in dips ::
              signals[k].1 == signals[k - 1].1
    ensures |signals| > 0 && h.dates[0] !in dips ==> signals[0].1 == Sell
  {
    signals := [];
    var state := Sell;
    for k := 0 to |h.dates|
      invariant |signals| == k
      invariant forall m | 0 <= m < k :: signals[m] == (h.dates[m], StateAfter(h.dates[..m + 1], declines, dips))
      invariant state == StateAfter(h.dates[..k], declines, dips)
    {
      var date := h.dates[k];
      if date in declines {
        state := Sell;
      } else if date in dips {
        state := Buy;
      }
      assert h.dates[..k + 1][..k] == h.dates[..k];
      signals := signals + [(date, state)];
    }
    SwitchRules(h.dates, signals, declines, dips);
  }

  /** Read entry by entry, a dictionary of the states after each date
      switches to Sell on a special decline, to Buy on a dip date that is
      not a decline, keeps the previous state on any other date, and
      starts as Sell unless its first date is a dip. */
  lemma SwitchRules(dates: seq<Date>, signals: seq<(Date, Signal)>, declines: seq<Date>, dips: seq<Date>)
    requires |signals| == |dates|
    requires forall k | 0 <= k < |signals| :: signals[k] == (dates[k], StateAfter(dates[..k + 1], declines, dips))
    ensures forall k | 0 <= k < |signals| && dates[k] in declines :: signals[k].1 == Sell
    ensures forall k | 0 <= k < |signals| && dates[k] !in declines && dates[k] in dips :: signals[k].1 == Buy
    ensures forall k | 0 < k < |signals| && dates[k] !in declines && dates[k] !in dips ::
              signals[k].1 == signals[k - 1].1
    ensures |signals| > 0 && dates[0] !in dips ==> signals[0].1 == Sell
  {
    forall k | 0 < k < |signals| && dates[k] !in declines && dates[k] !in dips
      ensures signals[k].1 == signals[k - 1].1
    {
      assert dates[..k + 1][..k] == dates[..k];
    }
    if |signals| > 0 {
      var first := dates[..1];
      assert first[|first| - 1] == dates[0] && first[..|first| - 1] == [];
      assert signals[0].1 == StateAfter(first, declines, dips);
      assert StateAfter(first[..|first| - 1], declines, dips) == Sell;
    }
  }
}
