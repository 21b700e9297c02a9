# Paper-strategy signal engines, modelled in Dafny

The paper backend holds six small trading rules taken from published papers. Each rule turns daily or weekly price series into a dictionary mapping each date to `Buy` or `Sell`. A summary script then reads every strategy's dictionary and does three things:

- it reports where each strategy's signal changes;
- it tallies, per date, how many strategies say `Buy`;
- it sizes and picks the chart markers.

This project models the computational core of those scripts and proves what each one promises.

| module | file | what it models |
|---|---|---|
| `Signals` | signals.dfy | The vocabulary shared by every rule: dates as day numbers, `Buy`/`Sell`, price histories, dictionaries as key/value sequences in insertion order, and the "last known value" date lookup behind every `query_signal`. |
| `Indicators` | indicators.dfy | Sums, means, minima and maxima; trailing windows (with and without `min_periods=1`); simple moving averages and rolling maxima. |
| `Inflection` | inflection.dfy | `find_inflection_points` of the summary script. |
| `Tally` | tally.dfy | The summary script's buy/total tally and the `buy_percentage` dictionary. |
| `Chart` | chart.dfy | The summary chart's marker-size clamp and its cycling marker list. |
| `Canary` | canary.dfy | The "5% canary" engine: its two decline scans with cooldowns, its two-state signal dictionary, and the query. |
| `Ripple` | ripple.dfy | The breadth rule: a 52-week-low flag per ticker, the share of tickers at their low on a date, and the selling-climax signal. |
| `Utilities` | utilities.dfy | The relative-strength rotation between utilities and the market: weekly relative strength, its 4-week change, the sign rule, forward filling onto days, and the query by ISO-date string. |
| `Leverage` | leverage.dfy | The trend rule of the leveraged-ETF rotation: the close against a 200-day average that is defined from the first day. |
| `Ranking` | ranking.dfy | Python's stable `sorted` (ascending or `reverse=True`) over ticker/score entries, top-k cuts, and the 1-based rank maps built from a sort. |
| `Quantamentals` | quantamentals.dfy | The backtrader strategy: factor scoring, three rank maps, the combined rank, the top-50 decile, the top-20 momentum list, equal target weights gated on the index trend, and the `next` bar handler with its rebalance counter. |

Modelling conventions:

- **Prices** are `real`, and a pandas NaN is `None`.
- **Dates** are integer day numbers, so calendar-day differences are subtractions. The 1900-01-01 start date of the canary scans is day -25567.
- **Dictionaries** are sequences of key/value pairs in insertion order, with `DistinctKeys` wherever the source's keys are unique. This keeps Python's iteration order, which the inflection scan and `sorted` depend on.
- **Python's `sorted`** is stable, including with `reverse=True`: entries with equal scores keep their dictionary order. `Ranking.SortBy` is an insertion sort that keeps exactly that order. `Ranking.SortIsStable` proves that stability.

Where the code differs from the documentation, the model follows the code:

- **Leveraged-ETF average.** The average at `papers/2016_leveraged_etf.py:16` is taken with `min_periods=1`. It is therefore defined from the first day, over however many closes exist, rather than only after 200 days.
- **Undefined 4-week changes.** An undefined change at `papers/2014_utilities.py:34` labels the week `Sell`.
- **Weekly labels.** `resample('W')` at `papers/2014_utilities.py:27` labels each week with the Sunday that ends it. Forward-filling at line 37 therefore gives a Monday-to-Friday day the signal of the week before its own. `Utilities.Week` carries that label, and `Utilities.WeeklySignals` has distinct keys whenever the labels ascend.
- **Breadth share.** The share at `papers/2024_ripple.py:44` is 0 on a date that no ticker holds.
- **Factor lookups.** In `papers/2020_quantamentals.py:98`, `data_close` is keyed by the feed objects, so the string-key tests at line 120 never succeed as written. The model takes each feed's factor readings and the momentum column explicitly. `Quantamentals.NoScoresNoTargets` states what a run does when no reading is found: nothing is selected and every target is 0.

## Model

All source paths are below `myProject/mikeLowry/paper_backend/`, and the table repeats that prefix.

| member | source | states |
|---|---|---|
| Signals.Get | myProject/mikeLowry/paper_backend/papers/2023_5_percent_canary.py:128-129 | `d.get(k)`: None exactly when the key is absent; otherwise a stored pair, and under distinct keys the value at that key's position. |
| Signals.GreatestKeyAtOrBefore | myProject/mikeLowry/paper_backend/papers/2023_5_percent_canary.py:132-134 | `max(d for d in keys if d <= q)`: None exactly when every key is after q; otherwise a stored key ≤ q that no other key ≤ q exceeds. |
| Signals.LastKnown | myProject/mikeLowry/paper_backend/papers/2024_ripple.py:110-117 | Forward-fill lookup: None exactly when every key is after q; otherwise the value stored under the greatest key ≤ q. |
| Signals.LatestIsUnique | myProject/mikeLowry/paper_backend/papers/2023_5_percent_canary.py:132-135 | Under distinct keys, only one value sits at the greatest key ≤ q, so the lookup's answer is determined. |
| Signals.LastKnownOnStoredKey | myProject/mikeLowry/paper_backend/papers/2023_5_percent_canary.py:128-129 | Querying a stored date returns exactly the value stored under it. |
| Signals.QuerySignal | myProject/mikeLowry/paper_backend/papers/2023_5_percent_canary.py:126-137 | `query_signal` of the canary and breadth scripts: the stored value for an exact key; otherwise the value at the greatest earlier key; otherwise "Date not in data" exactly when every key is after the query. |
| Indicators.MaxOf | myProject/mikeLowry/paper_backend/papers/2023_5_percent_canary.py:17 | The maximum is an element of the window and no element exceeds it. |
| Indicators.MinOf | myProject/mikeLowry/paper_backend/papers/2024_ripple.py:22 | The minimum is an element of the window and no element is below it. |
| Indicators.SumBounds | myProject/mikeLowry/paper_backend/papers/2016_leveraged_etf.py:16 | A sum of n values within [lo, hi] lies within [n·lo, n·hi]. |
| Indicators.MeanWithinRange | myProject/mikeLowry/paper_backend/papers/2016_leveraged_etf.py:16 | A rolling mean lies between the window's minimum and maximum. |
| Indicators.MeanOfConstant | myProject/mikeLowry/paper_backend/papers/2016_leveraged_etf.py:16 | The mean of a constant window is that constant. |
| Indicators.TrailingWindow | myProject/mikeLowry/paper_backend/papers/2016_leveraged_etf.py:16 | The `min_periods=1` window: the last min(i+1, w) values, ending at row i, in order. |
| Indicators.FullWindow | myProject/mikeLowry/paper_backend/papers/2023_5_percent_canary.py:17-20 | The default-`min_periods` window: defined exactly from row w-1 on, and then the last w values. |
| Indicators.Sma | myProject/mikeLowry/paper_backend/papers/2023_5_percent_canary.py:19-20 | `rolling(window=w).mean()`: defined exactly from row w-1 on, and then between the least and the greatest close of its window. |
| Indicators.RollingMax | myProject/mikeLowry/paper_backend/papers/2023_5_percent_canary.py:17 | `rolling(window=w).max()`: defined exactly from row w-1 on, and then equal to one close of the window and at least every close of it. |
| Inflection.Inflections | myProject/mikeLowry/paper_backend/main/main.py:19-26 | The inflection list is empty for maps with at most one entry, and otherwise has at most n-1 entries. |
| Inflection.ChangeIndices | myProject/mikeLowry/paper_backend/main/main.py:22-25 | The change positions: ascending, each at least 1 and differing in signal from the entry before it. |
| Inflection.EveryChangeIsListed | myProject/mikeLowry/paper_backend/main/main.py:22-25 | Every position whose signal differs from its predecessor's is a change position. |
| Inflection.InflectionsAtChangeIndices | myProject/mikeLowry/paper_backend/main/main.py:19-26 | The reported points are exactly the entries at the change positions, in order: an order-preserving subsequence of the input. |
| Inflection.ReportedExactlyAtChanges | myProject/mikeLowry/paper_backend/main/main.py:22-25 | An entry is reported if and only if its signal differs from the entry immediately before it. |
| Inflection.FirstEntryNeverReported | myProject/mikeLowry/paper_backend/main/main.py:21-23 | In a dictionary, the first date never appears among the inflection points. |
| Inflection.LastPointHasCurrentSignal | myProject/mikeLowry/paper_backend/main/main.py:22-25 | The last inflection point carries the signal of the last entry. |
| Inflection.ConsecutivePointsDiffer | myProject/mikeLowry/paper_backend/main/main.py:22-25 | Two consecutive inflection points never carry the same signal. |
| Inflection.FindInflectionPoints | myProject/mikeLowry/paper_backend/main/main.py:19-26 | The loop carrying `prev_signal` returns exactly the specified inflection list. |
| Tally.BuyOccurrencesBounded | myProject/mikeLowry/paper_backend/main/main.py:38-41 | A dictionary never adds more buys than entries for a date. |
| Tally.OccurrencesInDictionary | myProject/mikeLowry/paper_backend/main/main.py:38-41 | In one dictionary a date counts once if present and never otherwise, and counts as a buy exactly when it maps to Buy. |
| Tally.TallyCountsDictionaries | myProject/mikeLowry/paper_backend/main/main.py:38-41 | After the tally, `total` is the number of dictionaries holding the date, `buy` the number saying Buy for it, and buy ≤ total. |
| Tally.AddDictionary | myProject/mikeLowry/paper_backend/main/main.py:38-41 | The inner loop: a date gains an entry exactly when it was tallied or occurs in the dictionary, and its counts grow by its occurrences. |
| Tally.TallySignals | myProject/mikeLowry/paper_backend/main/main.py:38-41 | The whole tally: a date is present exactly when some dictionary holds it, with (buys, total) summed over the dictionaries. |
| Tally.BuyPercentage | myProject/mikeLowry/paper_backend/main/main.py:44 | Exactly the tallied dates with total > 0, each with 100·buy/total, which lies in [0, 100] when buy ≤ total. |
| Tally.PercentageOfTally | myProject/mikeLowry/paper_backend/main/main.py:38-44 | For the tallied dictionaries, a date has a percentage exactly when some dictionary holds it; that percentage is 100 times the share of holders saying Buy, within [0, 100]. |
| Tally.PercentageOfCounts | myProject/mikeLowry/paper_backend/main/main.py:44 | One date's percentage times its total is 100 times its buys, and it lies in [0, 100]. |
| Tally.PercentageBounds | myProject/mikeLowry/paper_backend/main/main.py:44 | A percentage of buys is in [0, 100]; it is 100 exactly when all say Buy and 0 exactly when none does. |
| Chart.MarkerSize | myProject/mikeLowry/paper_backend/main/main.py:95 | `max(20, min(200, 2000 / num_days))` always lies in [20, 200]: it is exactly 2000/d for 10 ≤ d ≤ 100, 200 below that, and 20 above it or for negative d. |
| Chart.MarkerSizeShrinks | myProject/mikeLowry/paper_backend/main/main.py:94-95 | A longer timeframe never gets a larger marker. |
| Chart.MarkerIndex | myProject/mikeLowry/paper_backend/main/main.py:121 | `idx % len(markers)` is always a valid index into the 13 markers, and is idx itself for the first 13 files. |
| Chart.MarkerFor | myProject/mikeLowry/paper_backend/main/main.py:121 | `markers[idx % len(markers)]` is one of the thirteen shapes, and the idx-th for the first thirteen files. |
| Chart.SameMarkerIffSameResidue | myProject/mikeLowry/paper_backend/main/main.py:121 | Two files get the same shape exactly when their indices agree modulo 13: shapes repeat every 13 files and never sooner. |
| Chart.MarkersDistinct | myProject/mikeLowry/paper_backend/main/main.py:85 | The thirteen listed marker shapes are pairwise different. |
| Canary.WithIndicators | myProject/mikeLowry/paper_backend/papers/2023_5_percent_canary.py:16-20 | The indicator columns hold the 252-day rolling max, the 50-day and the 200-day SMA of the closes, and the dates and closes are unchanged. |
| Canary.SpacedIsIncreasing | myProject/mikeLowry/paper_backend/papers/2023_5_percent_canary.py:28-51 | Signals appended more than `cooldown` days after their predecessors are strictly increasing, and any two are more than `cooldown` days apart. |
| Canary.FirstTrigger | myProject/mikeLowry/paper_backend/papers/2023_5_percent_canary.py:38-72 | The inner scan returns the first row of the high's window (i+1..i+15, or from i+16 on) that meets the rule, with index below `len(data)`; None means no row of the window meets it. |
| Canary.ReportedLater | myProject/mikeLowry/paper_backend/papers/2023_5_percent_canary.py:28-33 | What was reported before row i stays reported before row i+1. |
| Canary.ReportedAppend | myProject/mikeLowry/paper_backend/papers/2023_5_percent_canary.py:32-51 | Appending a detection made outside the cooldown keeps every signal valid, spaced and in row order. |
| Canary.CompletePassOver | myProject/mikeLowry/paper_backend/papers/2023_5_percent_canary.py:31-33 | A row that is cooling down, or offers no opportunity, leaves no opportunity unreported. |
| Canary.CompleteAppend | myProject/mikeLowry/paper_backend/papers/2023_5_percent_canary.py:49-52 | A row whose detection is recorded leaves no opportunity unreported. |
| Canary.CoolingAfterLast | myProject/mikeLowry/paper_backend/papers/2023_5_percent_canary.py:32-33 | A row within `cooldown` days of the last signal lies in a cooldown. |
| Canary.Scan | myProject/mikeLowry/paper_backend/papers/2023_5_percent_canary.py:28-72 | `Outcome` of one outer scan over rows [252, end): each signal is the first trigger row of a scanned 52-week high that lay outside the cooldown of the previous signal; the highs ascend; signals are spaced by more than the cooldown; every opportunity is reported or lies in a cooldown. |
| Canary.ScanRow | myProject/mikeLowry/paper_backend/papers/2023_5_percent_canary.py:28-51 | One row of the outer scan: a row in the cooldown or without a trigger adds nothing, a triggering 52-week high adds one date; the scan's invariant (all reported signals are detections, no opportunity passed over outside a cooldown) moves to the next row. |
| Canary.IdentifySignals | myProject/mikeLowry/paper_backend/papers/2023_5_percent_canary.py:8-74 | The indicator columns of the history, and the full `Outcome` of both scans: the declines (with `cooldown`) and the dips (with `buy_dip_cooldown`) are sound, spaced detections, and every triggering 52-week high outside a cooldown is reported. |
| Canary.SpecialDeclineMeaning | myProject/mikeLowry/paper_backend/papers/2023_5_percent_canary.py:17-51 | A special decline at row j has a high at row i ≥ 252 with close equal to the 52-week max, i < j ≤ i+15, close[j] ≤ 0.95·max, and two consecutive closes below the 200-day SMA within `cooldown` days from the decline. |
| Canary.BuyTheDipMeaning | myProject/mikeLowry/paper_backend/papers/2023_5_percent_canary.py:63-72 | A buy-the-dip signal at row j has a 52-week high at row i with j ≥ i+16, close[j] ≤ 0.95·max[i], and the 50-day SMA above the 200-day SMA at j. |
| Canary.StateIsLastEvent | myProject/mikeLowry/paper_backend/papers/2023_5_percent_canary.py:115-121 | The state is decided by the last date that is in either list: Sell if it is a decline, Buy if only a dip, and Sell if there is none. |
| Canary.SellBeforeFirstDip | myProject/mikeLowry/paper_backend/papers/2023_5_percent_canary.py:115-121 | Before the first buy-the-dip date the state is Sell. |
| Canary.StateAfter | myProject/mikeLowry/paper_backend/papers/2023_5_percent_canary.py:114-121 | The `state` of the loop after a prefix of the dates; a Buy state needs some date of the prefix that is a dip and not a decline. |
| Canary.CreateSignalDict | myProject/mikeLowry/paper_backend/papers/2023_5_percent_canary.py:111-123 | One entry per date, in order. A decline date maps to Sell (including one that is also a dip), otherwise a dip date maps to Buy, otherwise the previous value is repeated, and the first value is Sell unless that date is a dip. |
| Canary.SwitchRules | myProject/mikeLowry/paper_backend/papers/2023_5_percent_canary.py:111-123 | Reading the dictionary of states entry by entry: a decline gives Sell, a dip that is not a decline gives Buy, any other date repeats the previous value, and the first value is Sell unless its date is a dip. |
| Ripple.LowFlag | myProject/mikeLowry/paper_backend/papers/2024_ripple.py:22-25 | The flag is 0 or 1, and it is 1 exactly when no close of the last min(i+1, 252) days is below today's. |
| Ripple.LowStatus | myProject/mikeLowry/paper_backend/papers/2024_ripple.py:22-28 | One 0/1 flag per date of the history, and none for an empty history; each flag is 1 exactly at a 52-week low. |
| Ripple.FirstDayIsLow | myProject/mikeLowry/paper_backend/papers/2024_ripple.py:22-25 | The first day of any history is flagged as a 52-week low. |
| Ripple.LowCountBounded | myProject/mikeLowry/paper_backend/papers/2024_ripple.py:41-42 | With 0/1 flags, `low_count` never exceeds `total_count`. |
| Ripple.QueryTickerAtDate | myProject/mikeLowry/paper_backend/papers/2024_ripple.py:36-44 | 0 when no ticker holds the date; otherwise the result times `total_count` is `low_count`. |
| Ripple.Share | myProject/mikeLowry/paper_backend/papers/2024_ripple.py:44 | `low / total` with true division, 0 when the total is 0: otherwise the share times the total is the count. |
| Ripple.ShareIsFraction | myProject/mikeLowry/paper_backend/papers/2024_ripple.py:41-44 | With 0/1 flags the share always lies in [0, 1]. |
| Ripple.StatusSharesAreFractions | myProject/mikeLowry/paper_backend/papers/2024_ripple.py:22-44 | Shares over the statuses of any histories lie in [0, 1]. |
| Ripple.Percentages | myProject/mikeLowry/paper_backend/papers/2024_ripple.py:80-84 | One share per market date, in date order. |
| Ripple.CreateSignalDict | myProject/mikeLowry/paper_backend/papers/2024_ripple.py:90-103 | One entry per date: Sell exactly on a selling climax (share ≥ 0.50). Extreme vulnerability (share < 0.0003) always comes with Buy. |
| Utilities.RelativeStrength | myProject/mikeLowry/paper_backend/papers/2014_utilities.py:30 | The relative strength times the market close is the utilities close, and it is positive. |
| Utilities.FourWeekChange | myProject/mikeLowry/paper_backend/papers/2014_utilities.py:31 | `pct_change(periods=4)`: undefined exactly in the first four weeks; otherwise (change + 1)·RS[t-4] = RS[t]. |
| Utilities.WeeklySignal | myProject/mikeLowry/paper_backend/papers/2014_utilities.py:31-34 | The weekly signal is Buy exactly when the change is defined and RS fell over four weeks; undefined weeks say Sell. |
| Utilities.WeeklySignals | myProject/mikeLowry/paper_backend/papers/2014_utilities.py:30-34 | One signal per week label, Buy exactly when RS[t] < RS[t-4]; with ascending week labels the keys are distinct, as `ForwardFill` needs. |
| Utilities.ForwardFill | myProject/mikeLowry/paper_backend/papers/2014_utilities.py:37-43 | Every daily entry is a day of the series carrying the signal of the latest week ending at or before it. |
| Utilities.ForwardFillKeepsCoveredDays | myProject/mikeLowry/paper_backend/papers/2014_utilities.py:37-43 | Every day on or after the first week ending keeps a signal; only days before it are dropped. |
| Utilities.ForwardFillAscends | myProject/mikeLowry/paper_backend/papers/2014_utilities.py:37-46 | Over ascending days the daily entries are in ascending date order, so their keys are distinct. |
| Utilities.LexLeTotal | myProject/mikeLowry/paper_backend/papers/2014_utilities.py:52 | Python's string order is total. |
| Utilities.LexLeAntisymmetric | myProject/mikeLowry/paper_backend/papers/2014_utilities.py:52 | Python's string order is antisymmetric. |
| Utilities.LexLeTransitive | myProject/mikeLowry/paper_backend/papers/2014_utilities.py:52 | Python's string order is transitive. |
| Utilities.LexLeReflexive | myProject/mikeLowry/paper_backend/papers/2014_utilities.py:52 | Python's string order is reflexive. |
| Utilities.GreatestStringAtOrBefore | myProject/mikeLowry/paper_backend/papers/2014_utilities.py:52-54 | `max` of the keys ≤ q as strings: None exactly when no key is ≤ q; otherwise a stored key ≤ q that no key ≤ q exceeds. |
| Utilities.QueryDateString | myProject/mikeLowry/paper_backend/papers/2014_utilities.py:49-58 | 'Date not in dataset' exactly when no key is ≤ the query string; otherwise the signal stored under the greatest such key. |
| Utilities.QueryOnStoredKey | myProject/mikeLowry/paper_backend/papers/2014_utilities.py:52-56 | Querying a stored date string returns the signal stored under it. |
| Leverage.Returns | myProject/mikeLowry/paper_backend/papers/2016_leveraged_etf.py:12 | `pct_change`: undefined on day 0 (and after a zero close); otherwise close[i] = close[i-1]·(1 + r). |
| Leverage.MovingAverage | myProject/mikeLowry/paper_backend/papers/2016_leveraged_etf.py:16 | The 200-day average with `min_periods=1` lies between the least and greatest close of its window. |
| Leverage.FirstDaySell | myProject/mikeLowry/paper_backend/papers/2016_leveraged_etf.py:16-19 | The first day always says Sell. |
| Leverage.ConstantSeriesSell | myProject/mikeLowry/paper_backend/papers/2016_leveraged_etf.py:16-19 | A constant price series says Sell every day. |
| Leverage.TrendSignal | myProject/mikeLowry/paper_backend/papers/2016_leveraged_etf.py:19 | `np.where(Close > 200_MA, ...)`: Buy exactly when the close is above the average, and then some earlier close of the window is lower. |
| Leverage.NewHighBuys | myProject/mikeLowry/paper_backend/papers/2016_leveraged_etf.py:16-19 | After day 0, a close above every other close of its window says Buy. |
| Leverage.MeanBelowLast | myProject/mikeLowry/paper_backend/papers/2016_leveraged_etf.py:16 | The mean of at least two values, the last above all others, is below the last. |
| Leverage.SignalDict | myProject/mikeLowry/paper_backend/papers/2016_leveraged_etf.py:61-63 | One entry per date of the series, in order, with that date's signal and distinct keys. |
| Ranking.Position | myProject/mikeLowry/paper_backend/papers/2020_quantamentals.py:133 | Where a stable sort inserts an entry: after every entry it is not strictly ahead of, and before one it is ahead of. |
| Ranking.Insert | myProject/mikeLowry/paper_backend/papers/2020_quantamentals.py:133 | Inserting adds exactly the one entry (as a multiset). |
| Ranking.InsertKeepsSorted | myProject/mikeLowry/paper_backend/papers/2020_quantamentals.py:133 | Inserting into a sorted list keeps it sorted. |
| Ranking.InsertKeys | myProject/mikeLowry/paper_backend/papers/2020_quantamentals.py:133 | After inserting, the keys are the old keys plus the new one. |
| Ranking.InsertKeepsDistinct | myProject/mikeLowry/paper_backend/papers/2020_quantamentals.py:133 | Inserting a new key keeps the keys distinct. |
| Ranking.SortBy | myProject/mikeLowry/paper_backend/papers/2020_quantamentals.py:133-145 | `sorted` with a key and optional `reverse=True`: a permutation of the input (same length, same multiset). |
| Ranking.SortIsSorted | myProject/mikeLowry/paper_backend/papers/2020_quantamentals.py:133-145 | The sort's output is in the requested direction: no entry is strictly ahead of one placed before it. |
| Ranking.SortKeepsKeys | myProject/mikeLowry/paper_backend/papers/2020_quantamentals.py:133-135 | Sorting keeps exactly the same keys, and distinct keys stay distinct. |
| Ranking.WithScoreAppend | myProject/mikeLowry/paper_backend/papers/2020_quantamentals.py:133 | Entries with a given score in a concatenation are those of each part, in order. |
| Ranking.NoneWithScore | myProject/mikeLowry/paper_backend/papers/2020_quantamentals.py:133 | A list in which no entry has score v has no entries with that score. |
| Ranking.InsertIsStable | myProject/mikeLowry/paper_backend/papers/2020_quantamentals.py:133 | Inserting places an entry after every earlier entry with the same score. |
| Ranking.SortIsStable | myProject/mikeLowry/paper_backend/papers/2020_quantamentals.py:133-145 | Python's sort is stable: for every score, the entries with it keep their input order. |
| Ranking.Leaders | myProject/mikeLowry/paper_backend/papers/2020_quantamentals.py:141-145 | `sorted(...)[:n]`: min(len, n) input entries, sorted, with distinct keys, and no entry left out is ahead of one kept. |
| Ranking.Ranks | myProject/mikeLowry/paper_backend/papers/2020_quantamentals.py:133 | `enumerate(sorted, 1)` as a dictionary: the i-th ticker gets rank i+1; the domain is exactly the tickers; ranks lie in [1, n] and are distinct. |
| Ranking.RankBy | myProject/mikeLowry/paper_backend/papers/2020_quantamentals.py:133-135 | A rank map over exactly the tickers, with distinct ranks in [1, n]; a ticker strictly ahead on the score gets a smaller rank. |
| Ranking.BetterRanksFirst | myProject/mikeLowry/paper_backend/papers/2020_quantamentals.py:133-135 | An entry strictly ahead of another gets the smaller rank once sorted. |
| Quantamentals.Put | myProject/mikeLowry/paper_backend/papers/2020_quantamentals.py:126-130 | `scores[ticker] = ...`: the key now maps to the new value, other keys keep their values, keys stay distinct, and the keys are the old ones plus this one. |
| Quantamentals.PutReplaces | myProject/mikeLowry/paper_backend/papers/2020_quantamentals.py:126-130 | Assigning to a stored key replaces that entry's value in place; every other lookup and the key set are unchanged. |
| Quantamentals.PutAppends | myProject/mikeLowry/paper_backend/papers/2020_quantamentals.py:126-130 | Assigning to a new key appends it; the keys stay distinct and every other lookup is unchanged. |
| Quantamentals.ScoresOf | myProject/mikeLowry/paper_backend/papers/2020_quantamentals.py:117-130 | The scores dictionary has distinct keys. |
| Quantamentals.ScoredTickers | myProject/mikeLowry/paper_backend/papers/2020_quantamentals.py:118-130 | A ticker is scored exactly when some feed of that name has all three readings defined. |
| Quantamentals.LastFeedWins | myProject/mikeLowry/paper_backend/papers/2020_quantamentals.py:118-130 | A scored ticker keeps the readings of its last scorable feed. |
| Quantamentals.ScoreFeeds | myProject/mikeLowry/paper_backend/papers/2020_quantamentals.py:117-130 | The scoring loop builds exactly the specified scores dictionary. |
| Quantamentals.Column | myProject/mikeLowry/paper_backend/papers/2020_quantamentals.py:133-135 | One factor of every scored ticker, in dictionary order, with distinct keys. |
| Quantamentals.ColumnKeys | myProject/mikeLowry/paper_backend/papers/2020_quantamentals.py:133-135 | A factor column has exactly the scored tickers as keys. |
| Quantamentals.FactorRank | myProject/mikeLowry/paper_backend/papers/2020_quantamentals.py:133-135 | Every scored ticker gets a rank in [1, n]. |
| Quantamentals.FactorRankOrder | myProject/mikeLowry/paper_backend/papers/2020_quantamentals.py:133-135 | Quality and value rank the higher score first, volatility the lower: a ticker strictly ahead on a factor gets the smaller rank on it. |
| Quantamentals.FactorRankDomain | myProject/mikeLowry/paper_backend/papers/2020_quantamentals.py:133-135 | The rank map covers exactly the scored tickers, and no two share a rank. |
| Quantamentals.RankOf | myProject/mikeLowry/paper_backend/papers/2020_quantamentals.py:138 | A ticker's rank on one factor is in [1, n]. |
| Quantamentals.RankSum | myProject/mikeLowry/paper_backend/papers/2020_quantamentals.py:138 | The combined rank lies in [3, 3n]. |
| Quantamentals.CombinedRank | myProject/mikeLowry/paper_backend/papers/2020_quantamentals.py:138 | One entry per scored ticker, in dictionary order, holding the sum of its three ranks, with distinct keys. |
| Quantamentals.DominantTickerRanksFirst | myProject/mikeLowry/paper_backend/papers/2020_quantamentals.py:133-138 | A ticker with higher quality, higher value and lower volatility than another has a smaller combined rank. |
| Quantamentals.TopDecile | myProject/mikeLowry/paper_backend/papers/2020_quantamentals.py:141 | min(50, n) scored tickers in ascending combined rank, with distinct keys, each an entry of the combined ranks. |
| Quantamentals.TopDecileIsBest | myProject/mikeLowry/paper_backend/papers/2020_quantamentals.py:141 | No scored ticker left out of the decile has a smaller combined rank than any ticker kept. |
| Quantamentals.WithMomentum | myProject/mikeLowry/paper_backend/papers/2020_quantamentals.py:144 | Exactly the decile tickers whose momentum is defined, each with its momentum. |
| Quantamentals.WithMomentumDistinct | myProject/mikeLowry/paper_backend/papers/2020_quantamentals.py:144 | The momentum dictionary has distinct keys. |
| Quantamentals.WithMomentumKeepsOrder | myProject/mikeLowry/paper_backend/papers/2020_quantamentals.py:144 | The momentum dictionary keeps the decile's order, which decides ties in the stable momentum sort. |
| Quantamentals.WithMomentumEmpty | myProject/mikeLowry/paper_backend/papers/2020_quantamentals.py:144 | The momentum dictionary is empty exactly when no decile ticker has a defined momentum. |
| Quantamentals.MomentumScores | myProject/mikeLowry/paper_backend/papers/2020_quantamentals.py:144 | The KeyError is raised exactly when some decile ticker has no momentum column; otherwise the result is the momentum dictionary. |
| Quantamentals.TopMomentum | myProject/mikeLowry/paper_backend/papers/2020_quantamentals.py:145 | `[:20]` keeps min(20, m) tickers, where m is the number of decile tickers with defined momentum. They are distinct, in descending momentum, and no left-out ticker with defined momentum is stronger than one kept. |
| Quantamentals.Tickers | myProject/mikeLowry/paper_backend/papers/2020_quantamentals.py:141-145 | The tickers of a sorted list, in order. |
| Quantamentals.Target | myProject/mikeLowry/paper_backend/papers/2020_quantamentals.py:155-158 | The target is in [0, 1]. It is positive exactly when the index is above its average and the ticker is listed, and then it is 1/len(list), with no division by zero. |
| Quantamentals.TargetWeights | myProject/mikeLowry/paper_backend/papers/2020_quantamentals.py:153-158 | The order loop computes exactly `Orders`: one target per feed, in feed order. |
| Quantamentals.SumOfWeights | myProject/mikeLowry/paper_backend/papers/2020_quantamentals.py:153-158 | While invested, the target percentages of the orders add up to the number of allocated feeds times 1/len(list). |
| Quantamentals.AllocatedCountsTickers | myProject/mikeLowry/paper_backend/papers/2020_quantamentals.py:155 | With distinct feeds, the number of feeds given a share is the number of distinct listed tickers among them. |
| Quantamentals.DistinctCount | myProject/mikeLowry/paper_backend/papers/2020_quantamentals.py:145 | A list of distinct tickers has as many distinct members as entries. |
| Quantamentals.FullyInvested | myProject/mikeLowry/paper_backend/papers/2020_quantamentals.py:153-158 | While invested, with distinct feeds and a non-empty distinct list of feed tickers, the orders' target percentages add up to exactly 1. |
| Quantamentals.FeedNames | myProject/mikeLowry/paper_backend/papers/2020_quantamentals.py:154 | The feeds' names, in feed order. |
| Quantamentals.Orders | myProject/mikeLowry/paper_backend/papers/2020_quantamentals.py:153-158 | Each feed's name paired with its target, in feed order. |
| Quantamentals.Selection | myProject/mikeLowry/paper_backend/papers/2020_quantamentals.py:141-145 | None exactly when the momentum lookup fails for a decile ticker. |
| Quantamentals.Rebalance | myProject/mikeLowry/paper_backend/papers/2020_quantamentals.py:116-158 | A rebalance either raises the KeyError, exactly when the selection fails, or orders the targets of every feed for the selected tickers. |
| Quantamentals.SelectionIsFeeds | myProject/mikeLowry/paper_backend/papers/2020_quantamentals.py:141-145 | The selection is at most 20 distinct tickers, each the name of a feed. |
| Quantamentals.SelectionEmpty | myProject/mikeLowry/paper_backend/papers/2020_quantamentals.py:144-145 | A successful selection is empty exactly when no decile ticker has a defined momentum, which is the non-empty condition `RebalanceFullyInvested` needs. |
| Quantamentals.TickersDistinct | myProject/mikeLowry/paper_backend/papers/2020_quantamentals.py:145 | The tickers of entries with distinct keys are distinct. |
| Quantamentals.MomentumTickerInDecile | myProject/mikeLowry/paper_backend/papers/2020_quantamentals.py:144-145 | Every ticker of the momentum list is in the decile. |
| Quantamentals.DecileTickerIsFeed | myProject/mikeLowry/paper_backend/papers/2020_quantamentals.py:118-141 | Every decile ticker is the name of a feed. |
| Quantamentals.DecileTickerIsScored | myProject/mikeLowry/paper_backend/papers/2020_quantamentals.py:138-141 | Every decile ticker is a scored ticker. |
| Quantamentals.RebalanceFullyInvested | myProject/mikeLowry/paper_backend/papers/2020_quantamentals.py:116-158 | With distinct feed names, a rebalance while invested with a non-empty selection orders targets adding up to exactly 1. |
| Quantamentals.NotInvestedNoTargets | myProject/mikeLowry/paper_backend/papers/2020_quantamentals.py:155-158 | With the index at or below its average, every feed's target is 0. |
| Quantamentals.NoScoresNoTargets | myProject/mikeLowry/paper_backend/papers/2020_quantamentals.py:117-158 | With no scorable feed, nothing is selected and every feed's target is 0. |
| Quantamentals.RebalancePortfolio | myProject/mikeLowry/paper_backend/papers/2020_quantamentals.py:116-158 | The scoring loop, the cuts and the order loop compute exactly the specified rebalance. |
| Quantamentals.RebalanceBarsCount | myProject/mikeLowry/paper_backend/papers/2020_quantamentals.py:94-110 | After n bars with period p, exactly ⌈n/p⌉ rebalances ran: bars 0, p, 2p, … (0, 30, 60, … by default). |
| Quantamentals.QuantamentalsStrategy.constructor | myProject/mikeLowry/paper_backend/papers/2020_quantamentals.py:94-105 | The counter starts at 0 and both records start empty. |
| Quantamentals.QuantamentalsStrategy.Next | myProject/mikeLowry/paper_backend/papers/2020_quantamentals.py:107-114 | A rebalance runs exactly on bars whose counter is a multiple of the period. Every completed bar raises the counter by 1 and appends one value and one cash entry. A KeyError leaves the strategy unchanged. The recorded number of rebalances stays that of `RebalanceBars`, i.e. ⌈counter/period⌉. |
| Quantamentals.QuantamentalsStrategy.Record | myProject/mikeLowry/paper_backend/papers/2020_quantamentals.py:110-114 | The bookkeeping after a bar: the counter rises by 1, the broker value and cash are appended, and the rebalance count stays that of `RebalanceBars`. |

## Left out

- The notice `query_signal` prints in `papers/2014_utilities.py:55` whenever some key is at or before the query, exact hits included: console output only, it does not change the returned signal.
- Market-data and web fetches (`yf.Ticker(...).history`, `yf.download`, `pd.read_html`, the ticker lists) are not modelled. Histories, weekly bars, factor readings and momentum values are parameters instead.
- The JSON file reads and writes, the directory listing in `main/main.py`, and `strftime` key formatting are not modelled: they are file I/O and library calls. Dictionaries are key/value sequences, and the utilities query works on the already formatted strings.
- Plotting, PNG saving, and the `datetime.now()` display windows are not modelled: they are presentation code that depends on the clock. Only the marker-size and marker-index arithmetic of the summary chart is modelled.
- The backtrader machinery is a foreign library and is not modelled. This covers `Cerebro`, data feeds, `order_target_percent`, the broker, `log_performance`/`stop` and the index SMA indicator. The model computes the target of each feed, and the broker's value and cash are inputs of a bar.
- `fetch_fundamental_data`, `calculate_fundamental_factors` and `calculate_technical_factors` are not modelled: they are pandas NaN-propagating float arithmetic, including a standard deviation. Their results enter the model as the `Readings` of each feed and a momentum column.
- The string-keyed `data_close` lookups of `rebalance_portfolio` are not modelled. A reading is either defined, NaN, or missing (the momentum KeyError).
- pandas calendar mechanics are not modelled: `resample('W')`, `tz_localize`/`normalize`, and the `DateOffset` slice of the decline window. The model takes weekly bars as given and compares day numbers directly.
- IEEE floating point is not modelled: prices are exact reals.
- The `try`/`except` of `get_52_week_low_status` is not modelled: nothing raises in the modelled arithmetic. The empty-history case gives the empty status map.
- The cooldowns are natural numbers, so a negative cooldown is not modelled.
- The unresolved merge-conflict regions are not modelled. They sit in plotting and file-path code only: `papers/2023_5_percent_canary.py:77-81,102-108` and `papers/2016_leveraged_etf.py:66-70,82-86`.
- Utilities.RelativeStrength: requires positive closes, and so do `FourWeekChange`, `WeeklySignal` and `WeeklySignals`. At a zero close the division at `papers/2014_utilities.py:30-31` gives an infinity or NaN, and `np.where` then says Sell; that case is not modelled.
- Leverage.Returns: a zero previous close, where pandas gives an infinity or NaN, is modelled as undefined.
- Quantamentals.QuantamentalsStrategy.constructor: requires `rebalance_period > 0`; with 0, the source's `%` raises ZeroDivisionError on the first bar. The period is a natural number, so negative periods are not modelled either: Python's `counter % -p == 0` holds exactly on multiples of p, so a negative period rebalances on the same bars as its absolute value.
- Quantamentals.Rebalance: the index SMA and close are inputs of the bar, because the backtrader indicator that computes them is not modelled.
