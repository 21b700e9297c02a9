/** The rank-and-select step of the quantamental backtest: score every feed
    on quality (ROIC), value (EBIT/EV) and volatility, rank the scored
    tickers on each factor, keep the fifty with the best combined rank, keep
    the twenty of those with the strongest six-month momentum, and give each
    of them an equal target weight while the index trades above its moving
    average; and the bar-by-bar driver that rebalances every thirty bars. */
module Quantamentals {
  import opened Signals
  import opened Indicators
  import opened Ranking

  /** Bars between rebalances unless the strategy is given another period. */
  const DefaultRebalancePeriod: nat := 30
  /** Tickers kept by the combined rank. */
  const DecileSize: nat := 50
  /** Tickers kept by momentum. */
  const MomentumSize: nat := 20

  /** A feed's three factor readings on the current bar; None where the
      column is absent or the reading is NaN. */
  datatype Readings = Readings(value: Option<real>, quality: Option<real>, volatility: Option<real>)

  /** The `scores[ticker]` record. */
  datatype Score = Score(quality: real, value: real, volatility: real)

  /** The feed has all three readings, so it is scored. */
  predicate Scorable(r: Readings) {
    r.value.Some? && r.quality.Some? && r.volatility.Some?
  }

  function ScoreOf(r: Readings): Score
    requires Scorable(r)
  {
    Score(r.quality.value, r.value.value, r.volatility.value)
  }

  /** `d[k] = v` on a dictionary kept in insertion order: a stored key keeps
      its place and takes the new value, a new key goes at the end. */
  function Put<V>(m: seq<(Ticker, V)>, k: Ticker, v: V): (r: seq<(Ticker, V)>)
    requires DistinctKeys(m)
    ensures DistinctKeys(r)
    ensures Get(r, k) == Some(v)
    ensures forall t | t != k :: Get(r, t) == Get(m, t)
    ensures forall t :: HasKey(r, t) <==> t == k || HasKey(m, t)
  {
    if HasKey(m, k) then
      var i :| 0 <= i < |m| && m[i].0 == k;
      PutReplaces(m, i, v);
      m[i := (k, v)]
    else
      PutAppends(m, k, v);
      m + [(k, v)]
  }

  /** Storing under the key of entry i replaces that entry's value only. */
  lemma PutReplaces<V>(m: seq<(Ticker, V)>, i: nat, v: V)
    requires DistinctKeys(m) && i < |m|
    ensures var r := m[i := (m[i].0, v)];
            && DistinctKeys(r)
            && Get(r, m[i].0) == Some(v)
            && (forall t | t != m[i].0 :: Get(r, t) == Get(m, t))
            && (forall t :: HasKey(r, t) <==> HasKey(m, t))
  {
    var r := m[i := (m[i].0, v)];
    SameKeysDistinct(m, r);
    GetAt(r, i);
    forall t ensures HasKey(r, t) <==> HasKey(m, t) {
      if HasKey(m, t) {
        var j :| 0 <= j < |m| && m[j].0 == t;
        assert r[j].0 == t;
      }
      if HasKey(r, t) {
        var j :| 0 <= j < |r| && r[j].0 == t;
        assert m[j].0 == t;
      }
    }
    forall t | t != m[i].0 ensures Get(r, t) == Get(m, t) {
      if HasKey(m, t) {
        var j :| 0 <= j < |m| && m[j].0 == t;
        GetAt(m, j);
        GetAt(r, j);
      }
    }
  }

  /** Storing under a new key appends one entry. */
  lemma PutAppends<V>(m: seq<(Ticker, V)>, k: Ticker, v: V)
    requires DistinctKeys(m) && !HasKey(m, k)
    ensures var r := m + [(k, v)];
            && DistinctKeys(r)
            && Get(r, k) == Some(v)
            && (forall t | t != k :: Get(r, t) == Get(m, t))
            && (forall t :: HasKey(r, t) <==> t == k || HasKey(m, t))
  {
    var r := m + [(k, v)];
    forall a, b | 0 <= a < b < |r| ensures r[a].0 != r[b].0 {
      if b < |m| {
        assert r[a] == m[a] && r[b] == m[b];
      } else {
        assert r[a] == m[a];
      }
    }
    GetAt(r, |m|);
    forall t ensures HasKey(r, t) <==> t == k || HasKey(m, t) {
      if HasKey(m, t) {
        var j :| 0 <= j < |m| && m[j].0 == t;
        assert r[j].0 == t;
      }
      if HasKey(r, t) && t != k {
        var j :| 0 <= j < |r| && r[j].0 == t;
        assert m[j].0 == t;
      }
      if t == k {
        assert r[|m|].0 == t;
      }
    }
    forall t | t != k ensures Get(r, t) == Get(m, t) {
      if HasKey(m, t) {
        var j :| 0 <= j < |m| && m[j].0 == t;
        GetAt(m, j);
        assert r[j] == m[j];
        GetAt(r, j);
      }
    }
  }

  /** The `scores` dictionary after the scoring loop over the feeds. */
  function ScoresOf(feeds: seq<(Ticker, Readings)>): (scores: seq<(Ticker, Score)>)
    ensures DistinctKeys(scores)
  {
    if feeds == [] then []
    else
      var rest := ScoresOf(feeds[..|feeds| - 1]);
      var (t, r) := feeds[|feeds| - 1];
      if Scorable(r) then Put(rest, t, ScoreOf(r)) else rest
  }

  /** A ticker is scored exactly when some feed of that name has all three
      readings. */
  lemma {:induction false} ScoredTickers(feeds: seq<(Ticker, Readings)>, t: Ticker)
    ensures HasKey(ScoresOf(feeds), t) <==> exists i | 0 <= i < |feeds| :: feeds[i].0 == t && Scorable(feeds[i].1)
  {
    if feeds != [] {
      var init := feeds[..|feeds| - 1];
      ScoredTickers(init, t);
      assert forall i | 0 <= i < |init| :: init[i] == feeds[i];
    }
  }

  /** A scored ticker holds the score of the last feed of that name that
      has all three readings. */
  lemma {:induction false} LastFeedWins(feeds: seq<(Ticker, Readings)>, i: nat)
    requires i < |feeds| && Scorable(feeds[i].1)
    requires forall j | i < j < |feeds| :: feeds[j].0 == feeds[i].0 ==> !Scorable(feeds[j].1)
    ensures Get(ScoresOf(feeds), feeds[i].0) == Some(ScoreOf(feeds[i].1))
  {
    var init := feeds[..|feeds| - 1];
    if i < |feeds| - 1 {
      assert init[i] == feeds[i];
      LastFeedWins(init, i);
    }
  }

  /** The scoring loop of `rebalance_portfolio`. */
  method ScoreFeeds(feeds: seq<(Ticker, Readings)>) returns (scores: seq<(Ticker, Score)>)
    ensures scores == ScoresOf(feeds)
  {
    scores := [];
    for i := 0 to |feeds|
      invariant scores == ScoresOf(feeds[..i])
    {
      assert feeds[..i + 1][..i] == feeds[..i];
      var (ticker, readings) := feeds[i];
      if readings.value.Some? && readings.quality.Some? && readings.volatility.Some? {
        scores := Put(scores, ticker, Score(readings.quality.value, readings.value.value, readings.volatility.value));
      }
    }
    assert feeds[..|feeds|] == feeds;
  }

  datatype Factor = Quality | Value | Volatility

  function Reading(s: Score, f: Factor): real {
    match f
    case Quality => s.quality
    case Value => s.value
    case Volatility => s.volatility
  }

  /** Quality and value rank best-first from the highest score
      (`reverse=True`); volatility ranks from the lowest. */
  function Descending(f: Factor): bool {
    f != Volatility
  }

  /** The scored tickers with one factor each, in dictionary order. */
  function Column(scores: seq<(Ticker, Score)>, f: Factor): (col: seq<Entry>)
    requires DistinctKeys(scores)
    ensures |col| == |scores| && DistinctKeys(col)
    ensures forall i | 0 <= i < |scores| :: col[i] == (scores[i].0, Reading(scores[i].1, f))
  {
    var col := seq(|scores|, i requires 0 <= i < |scores| => (scores[i].0, Reading(scores[i].1, f)));
    SameKeysDistinct(scores, col);
    col
  }

  lemma ColumnKeys(scores: seq<(Ticker, Score)>, f: Factor)
    requires DistinctKeys(scores)
    ensures forall t :: HasKey(Column(scores, f), t) <==> HasKey(scores, t)
  {
    var col := Column(scores, f);
    forall t ensures HasKey(col, t) <==> HasKey(scores, t) {
      if HasKey(scores, t) {
        var i :| 0 <= i < |scores| && scores[i].0 == t;
        assert col[i].0 == t;
      }
    }
  }

  /** `quality_rank`, `value_rank` and `volatility_rank`. */
  function FactorRank(scores: seq<(Ticker, Score)>, f: Factor): (rank: map<Ticker, nat>)
    requires DistinctKeys(scores)
    ensures forall i | 0 <= i < |scores| :: scores[i].0 in rank && 1 <= rank[scores[i].0] <= |scores|
  {
    var col := Column(scores, f);
    RankBy(col, Descending(f))
  }

  /** Quality and value rank the higher score first, volatility the lower:
      a ticker strictly ahead on the factor gets the smaller rank. */
  lemma FactorRankOrder(scores: seq<(Ticker, Score)>, f: Factor, i: nat, j: nat)
    requires DistinctKeys(scores) && i < |scores| && j < |scores|
    requires Ahead(Reading(scores[i].1, f), Reading(scores[j].1, f), Descending(f))
    ensures RankOf(scores, f, i) < RankOf(scores, f, j)
  {
    var col := Column(scores, f);
    assert col[i].1 == Reading(scores[i].1, f) && col[j].1 == Reading(scores[j].1, f);
  }

  /** Exactly the scored tickers are ranked, and no two share a rank. */
  lemma FactorRankDomain(scores: seq<(Ticker, Score)>, f: Factor)
    requires DistinctKeys(scores)
    ensures var rank := FactorRank(scores, f);
            && (forall t :: t in rank <==> HasKey(scores, t))
            && (forall t, u | t in rank && u in rank && t != u :: rank[t] != rank[u])
  {
    ColumnKeys(scores, f);
  }

  /** The rank of the i-th scored ticker on one factor. */
  function RankOf(scores: seq<(Ticker, Score)>, f: Factor, i: nat): (r: nat)
    requires DistinctKeys(scores) && i < |scores|
    ensures 1 <= r <= |scores|
  {
    FactorRank(scores, f)[scores[i].0]
  }

  /** A ticker's combined rank: the sum of its three ranks, between 3 and
      3n for n scored tickers. */
  function RankSum(scores: seq<(Ticker, Score)>, i: nat): (sum: nat)
    requires DistinctKeys(scores) && i < |scores|
    ensures 3 <= sum <= 3 * |scores|
  {
    RankOf(scores, Quality, i) + RankOf(scores, Value, i) + RankOf(scores, Volatility, i)
  }

  /** `combined_rank`, in dictionary order, as sort entries. */
  function CombinedRank(scores: seq<(Ticker, Score)>): (combined: seq<Entry>)
    requires DistinctKeys(scores)
    ensures |combined| == |scores| && DistinctKeys(combined)
    ensures forall i | 0 <= i < |scores| :: combined[i] == (scores[i].0, RankSum(scores, i) as real)
  {
    var combined := seq(|scores|, i requires 0 <= i < |scores| => (scores[i].0, RankSum(scores, i) as real));
    SameKeysDistinct(scores, combined);
    combined
  }

  /** A ticker with higher quality, higher value and lower volatility than
      another gets the smaller combined rank. */
  lemma DominantTickerRanksFirst(scores: seq<(Ticker, Score)>, i: nat, j: nat)
    requires DistinctKeys(scores) && i < |scores| && j < |scores|
    requires scores[i].1.quality > scores[j].1.quality
    requires scores[i].1.value > scores[j].1.value
    requires scores[i].1.volatility < scores[j].1.volatility
    ensures RankSum(scores, i) < RankSum(scores, j)
  {
    FactorRankOrder(scores, Quality, i, j);
    FactorRankOrder(scores, Value, i, j);
    FactorRankOrder(scores, Volatility, i, j);
  }

  /** `top_decile_stocks`: the min(50, n) scored tickers with the smallest
      combined ranks, smallest first. */
  function TopDecile(scores: seq<(Ticker, Score)>): (top: seq<Entry>)
    requires DistinctKeys(scores)
    ensures |top| == if |scores| < DecileSize then |scores| else DecileSize
    ensures DistinctKeys(top) && SortedBy(top, false)
    ensures forall i | 0 <= i < |top| :: top[i] in CombinedRank(scores)
  {
    Leaders(CombinedRank(scores), false, DecileSize)
  }

  /** No scored ticker left out of the decile has a smaller combined rank
      than one kept. */
  lemma TopDecileIsBest(scores: seq<(Ticker, Score)>, j: nat)
    requires DistinctKeys(scores) && j < |scores| && !HasKey(TopDecile(scores), scores[j].0)
    ensures forall i | 0 <= i < |TopDecile(scores)| :: TopDecile(scores)[i].1 <= RankSum(scores, j) as real
  {
    var combined := CombinedRank(scores);
    assert combined[j] == (scores[j].0, RankSum(scores, j) as real);
  }

  /** A ticker of the decile has no momentum column at all: the lookup in
      `momentum_scores` raises a KeyError. */
  predicate MissingMomentum(top: seq<Entry>, momentum: map<Ticker, Option<real>>) {
    exists i | 0 <= i < |top| :: top[i].0 !in momentum
  }

  /** `momentum_scores` when every lookup succeeds: the tickers of the
      decile, in order, whose six-month momentum is defined, each with its
      momentum. */
  function WithMomentum(top: seq<Entry>, momentum: map<Ticker, Option<real>>): (ms: seq<Entry>)
    requires !MissingMomentum(top, momentum)
    ensures forall k | 0 <= k < |ms| ::
              HasKey(top, ms[k].0) && ms[k].0 in momentum && momentum[ms[k].0] == Some(ms[k].1)
    ensures forall i | 0 <= i < |top| :: momentum[top[i].0].Some? ==> HasKey(ms, top[i].0)
  {
    if top == [] then []
    else
      var init, last := top[..|top| - 1], top[|top| - 1];
      assert forall i | 0 <= i < |init| :: init[i] == top[i];
      var rest := WithMomentum(init, momentum);
      assert forall k | 0 <= k < |rest| :: HasKey(top, rest[k].0) by {
        forall k | 0 <= k < |rest| ensures HasKey(top, rest[k].0) {
          var i :| 0 <= i < |init| && init[i].0 == rest[k].0;
          assert top[i].0 == rest[k].0;
        }
      }
      match momentum[last.0]
      case None => rest
      case Some(m) =>
        var ms := rest + [(last.0, m)];
        assert forall k | 0 <= k < |rest| :: ms[k] == rest[k];
        assert HasKey(top, last.0) by { assert top[|top| - 1].0 == last.0; }
        assert forall i | 0 <= i < |top| :: momentum[top[i].0].Some? ==> HasKey(ms, top[i].0) by {
          forall i | 0 <= i < |top| && momentum[top[i].0].Some? ensures HasKey(ms, top[i].0) {
            if i < |init| {
              var k :| 0 <= k < |rest| && rest[k].0 == init[i].0;
              assert ms[k].0 == top[i].0;
            } else {
              assert ms[|rest|].0 == top[i].0;
            }
          }
        }
        ms
  }

  /** The momentum entries of distinct tickers are distinct. */
  lemma {:induction false} WithMomentumDistinct(top: seq<Entry>, momentum: map<Ticker, Option<real>>)
    requires !MissingMomentum(top, momentum) && DistinctKeys(top)
    ensures DistinctKeys(WithMomentum(top, momentum))
  {
    if top != [] {
      var init, last := top[..|top| - 1], top[|top| - 1];
      assert forall i | 0 <= i < |init| :: init[i] == top[i];
      assert !MissingMomentum(init, momentum);
      WithMomentumDistinct(init, momentum);
      var rest := WithMomentum(init, momentum);
      forall k | 0 <= k < |rest| ensures rest[k].0 != last.0 {
        var i :| 0 <= i < |init| && init[i].0 == rest[k].0;
        assert top[i].0 != top[|top| - 1].0;
      }
    }
  }

  /** The entries of `momentum_scores` keep the order of the decile: an
      earlier entry's ticker sits earlier in the decile. */
  lemma {:induction false} WithMomentumKeepsOrder(top: seq<Entry>, momentum: map<Ticker, Option<real>>, a: nat, b: nat, i: nat, j: nat)
    requires !MissingMomentum(top, momentum) && DistinctKeys(top)
    requires a < b < |WithMomentum(top, momentum)| && i < |top| && j < |top|
    requires top[i].0 == WithMomentum(top, momentum)[a].0 && top[j].0 == WithMomentum(top, momentum)[b].0
    ensures i < j
  {
    var ms := WithMomentum(top, momentum);
    var init, last := top[..|top| - 1], top[|top| - 1];
    assert forall k | 0 <= k < |init| :: init[k] == top[k];
    assert !MissingMomentum(init, momentum) && DistinctKeys(init);
    var rest := WithMomentum(init, momentum);
    assert ms[a] == rest[a];
    InInit(top, i, rest[a].0);
    if b < |rest| {
      assert ms[b] == rest[b];
      InInit(top, j, rest[b].0);
      WithMomentumKeepsOrder(init, momentum, a, b, i, j);
    } else {
      assert ms[b].0 == last.0;
      assert j == |top| - 1;
    }
  }

  /** A ticker of the decile's first |top| - 1 entries found at position i
      of the decile sits before its last entry. */
  lemma InInit(top: seq<Entry>, i: nat, t: Ticker)
    requires DistinctKeys(top) && 0 < |top| && i < |top| && top[i].0 == t
    requires HasKey(top[..|top| - 1], t)
    ensures i < |top| - 1
  {
    var k :| 0 <= k < |top| - 1 && top[..|top| - 1][k].0 == t;
    assert top[k].0 == t;
  }

  /** Some ticker of the decile has a defined momentum. */
  predicate SomeMomentum(top: seq<Entry>, momentum: map<Ticker, Option<real>>)
    requires !MissingMomentum(top, momentum)
  {
    exists i | 0 <= i < |top| :: momentum[top[i].0].Some?
  }

  /** `momentum_scores` is empty exactly when no ticker of the decile has a
      defined momentum. */
  lemma WithMomentumEmpty(top: seq<Entry>, momentum: map<Ticker, Option<real>>)
    requires !MissingMomentum(top, momentum)
    ensures WithMomentum(top, momentum) == [] <==> !SomeMomentum(top, momentum)
  {
    var ms := WithMomentum(top, momentum);
    if ms != [] {
      var i :| 0 <= i < |top| && top[i].0 == ms[0].0;
    }
    if SomeMomentum(top, momentum) {
      var i :| 0 <= i < |top| && momentum[top[i].0].Some?;
      assert HasKey(ms, top[i].0);
    }
  }

  /** `momentum_scores`, or None for the KeyError. */
  function MomentumScores(top: seq<Entry>, momentum: map<Ticker, Option<real>>): (ms: Option<seq<Entry>>)
    ensures ms.None? <==> MissingMomentum(top, momentum)
    ensures ms.Some? ==> ms.value == WithMomentum(top, momentum)
  {
    if MissingMomentum(top, momentum) then None else Some(WithMomentum(top, momentum))
  }

  /** `top_momentum_stocks`: twenty tickers, or all of them when fewer of the decile, each with
      a defined momentum, strongest first; no decile ticker with a defined
      momentum that is left out is stronger than one kept. */
  function TopMomentum(top: seq<Entry>, momentum: map<Ticker, Option<real>>): (best: seq<Entry>)
    requires !MissingMomentum(top, momentum) && DistinctKeys(top)
    ensures |best| == if |WithMomentum(top, momentum)| < MomentumSize then |WithMomentum(top, momentum)| else MomentumSize
    ensures DistinctKeys(best) && SortedBy(best, true)
    ensures forall k | 0 <= k < |best| ::
              HasKey(top, best[k].0) && best[k].0 in momentum && momentum[best[k].0] == Some(best[k].1)
    ensures forall i | 0 <= i < |top| && momentum[top[i].0].Some? && !HasKey(best, top[i].0) ::
              forall k | 0 <= k < |best| :: momentum[top[i].0].value <= best[k].1
  {
    var ms := WithMomentum(top, momentum);
    WithMomentumDistinct(top, momentum);
    var best := Leaders(ms, true, MomentumSize);
    forall i | 0 <= i < |top| && momentum[top[i].0].Some? && !HasKey(best, top[i].0)
      ensures forall k | 0 <= k < |best| :: momentum[top[i].0].value <= best[k].1
    {
      var j :| 0 <= j < |ms| && ms[j].0 == top[i].0;
      assert !HasKey(best, ms[j].0);
    }
    best
  }

  /** The tickers of a list of entries. */
  function Tickers(s: seq<Entry>): (ts: seq<Ticker>)
    ensures |ts| == |s| && forall i | 0 <= i < |s| :: ts[i] == s[i].0
  {
    seq(|s|, i requires 0 <= i < |s| => s[i].0)
  }

  /** `spy_price > spy_sma`: the index trades above its moving average. */
  predicate Invested(spyClose: real, spySma: real) {
    spyClose > spySma
  }

  /** The target passed to `order_target_percent` for one feed: an equal
      share of the portfolio for a ticker of the momentum list while the
      index is above its average, nothing otherwise. The share never
      divides by zero: a listed ticker makes the list non-empty. */
  function Target(t: Ticker, best: seq<Ticker>, invested: bool): (w: real)
    ensures 0.0 <= w <= 1.0
    ensures w > 0.0 <==> invested && t in best
    ensures w > 0.0 ==> w * (|best| as real) == 1.0
  {
    if invested && t in best then
      var n := |best| as real;
      assert (1.0 / n) * n == 1.0;
      1.0 / n
    else 0.0
  }

  /** The targets of every feed, paired with its name. */
  function Orders(names: seq<Ticker>, selected: seq<Ticker>, invested: bool): (orders: seq<(Ticker, real)>)
    ensures |orders| == |names|
    ensures forall k | 0 <= k < |names| :: orders[k] == (names[k], Target(names[k], selected, invested))
  {
    seq(|names|, k requires 0 <= k < |names| => (names[k], Target(names[k], selected, invested)))
  }

  /** The order loop of `rebalance_portfolio`: one target per feed, in feed
      order. */
  method TargetWeights(feeds: seq<Ticker>, best: seq<Ticker>, spyClose: real, spySma: real)
    returns (targets: seq<(Ticker, real)>)
    ensures targets == Orders(feeds, best, Invested(spyClose, spySma))
  {
    targets := [];
    for k := 0 to |feeds|
      invariant |targets| == k
      invariant forall m | 0 <= m < k :: targets[m] == (feeds[m], Target(feeds[m], best, Invested(spyClose, spySma)))
    {
      var ticker := feeds[k];
      if spyClose > spySma && ticker in best {
        targets := targets + [(ticker, 1.0 / (|best| as real))];
      } else {
        targets := targets + [(ticker, 0.0)];
      }
    }
  }

  predicate Distinct(s: seq<Ticker>) {
    forall i, j | 0 <= i < j < |s| :: s[i] != s[j]
  }

  /** The target percentages of a list of orders. */
  function Weights(orders: seq<(Ticker, real)>): (ws: seq<real>)
    ensures |ws| == |orders| && forall k | 0 <= k < |orders| :: ws[k] == orders[k].1
  {
    seq(|orders|, k requires 0 <= k < |orders| => orders[k].1)
  }

  /** Number of feeds that are in the momentum list. */
  function Allocated(feeds: seq<Ticker>, best: seq<Ticker>): nat {
    if feeds == [] then 0
    else Allocated(feeds[..|feeds| - 1], best) + (if feeds[|feeds| - 1] in best then 1 else 0)
  }

  /** While invested, the targets add up to one share per allocated feed. */
  lemma {:induction false} SumOfWeights(feeds: seq<Ticker>, best: seq<Ticker>)
    requires best != []
    ensures Sum(Weights(Orders(feeds, best, true))) == (Allocated(feeds, best) as real) * (1.0 / (|best| as real))
  {
    if feeds != [] {
      var init := feeds[..|feeds| - 1];
      var ws := Weights(Orders(feeds, best, true));
      assert ws[..|ws| - 1] == Weights(Orders(init, best, true));
      SumOfWeights(init, best);
    }
  }

  /** Distinct feeds allocate once per listed ticker they carry. */
  lemma {:induction false} AllocatedCountsTickers(feeds: seq<Ticker>, best: seq<Ticker>)
    requires Distinct(feeds)
    ensures Allocated(feeds, best) == |set t | t in feeds && t in best|
  {
    if feeds != [] {
      var init, last := feeds[..|feeds| - 1], feeds[|feeds| - 1];
      assert Distinct(init);
      AllocatedCountsTickers(init, best);
      var before := set t | t in init && t in best;
      var after := set t | t in feeds && t in best;
      assert last !in before by {
        forall i | 0 <= i < |init| ensures init[i] != last {
          assert feeds[i] != feeds[|feeds| - 1];
        }
      }
      assert feeds == init + [last];
      if last in best {
        assert after == before + {last};
      } else {
        assert after == before;
      }
    }
  }

  /** A list of distinct tickers has as many tickers as entries. */
  lemma {:induction false} DistinctCount(s: seq<Ticker>)
    requires Distinct(s)
    ensures |set t | t in s| == |s|
  {
    if s != [] {
      var init, last := s[..|s| - 1], s[|s| - 1];
      assert Distinct(init);
      DistinctCount(init);
      assert last !in set t | t in init by {
        forall i | 0 <= i < |init| ensures init[i] != last {
          assert s[i] != s[|s| - 1];
        }
      }
      assert s == init + [last];
      assert (set t | t in s) == (set t | t in init) + {last};
    }
  }

  /** Fully invested: while the index is above its average, distinct feeds
      that carry every ticker of a non-empty list of distinct tickers get
      targets adding up to exactly one. */
  lemma FullyInvested(feeds: seq<Ticker>, best: seq<Ticker>)
    requires best != [] && Distinct(feeds) && Distinct(best)
    requires forall t | t in best :: t in feeds
    ensures Sum(Weights(Orders(feeds, best, true))) == 1.0
  {
    ListedFeedsCount(feeds, best);
    SumOfWeights(feeds, best);
    ShareOfWhole(|best|);
  }

  /** Distinct feeds carrying every ticker of a distinct list allocate
      once per listed ticker. */
  lemma ListedFeedsCount(feeds: seq<Ticker>, best: seq<Ticker>)
    requires Distinct(feeds) && Distinct(best)
    requires forall t | t in best :: t in feeds
    ensures Allocated(feeds, best) == |best|
  {
    AllocatedCountsTickers(feeds, best);
    DistinctCount(best);
    assert (set t | t in feeds && t in best) == (set t | t in best);
  }

  lemma ShareOfWhole(n: nat)
    requires n > 0
    ensures (n as real) * (1.0 / (n as real)) == 1.0
  {
  }

  /** What the strategy sees on one bar: the feeds' names and factor
      readings in feed order, the six-month momentum column, the index close
      and its moving average, and the broker's value and cash. */
  datatype Bar = Bar(feeds: seq<(Ticker, Readings)>, momentum: map<Ticker, Option<real>>,
                     spyClose: real, spySma: real, value: real, cash: real)

  /** What one call of `next` does: nothing but bookkeeping, a rebalance to
      the selected tickers with one target per feed, or the KeyError of a
      missing momentum column. */
  datatype Step = Waited | Rebalanced(selected: seq<Ticker>, targets: seq<(Ticker, real)>) | MomentumKeyError

  function FeedNames(feeds: seq<(Ticker, Readings)>): (names: seq<Ticker>)
    ensures |names| == |feeds| && forall k | 0 <= k < |feeds| :: names[k] == feeds[k].0
  {
    seq(|feeds|, k requires 0 <= k < |feeds| => feeds[k].0)
  }

  /** The momentum selection of a bar, when the lookups succeed. */
  function Selection(bar: Bar): (selected: Option<seq<Ticker>>)
    ensures selected.None? <==> MissingMomentum(TopDecile(ScoresOf(bar.feeds)), bar.momentum)
  {
    var top := TopDecile(ScoresOf(bar.feeds));
    if MissingMomentum(top, bar.momentum) then None
    else Some(Tickers(TopMomentum(top, bar.momentum)))
  }

  /** `rebalance_portfolio` on one bar. */
  function Rebalance(bar: Bar): (outcome: Step)
    ensures !outcome.Waited?
    ensures outcome.MomentumKeyError? <==> Selection(bar).None?
    ensures outcome.Rebalanced? ==>
              && outcome.selected == Selection(bar).value
              && outcome.targets == Orders(FeedNames(bar.feeds), outcome.selected, Invested(bar.spyClose, bar.spySma))
  {
    match Selection(bar)
    case None => MomentumKeyError
    case Some(selected) => Rebalanced(selected, Orders(FeedNames(bar.feeds), selected, Invested(bar.spyClose, bar.spySma)))
  }

  /** The selection is at most twenty distinct tickers, each the name of a
      feed. */
  lemma SelectionIsFeeds(bar: Bar)
    requires Selection(bar).Some?
    ensures var selected := Selection(bar).value;
            |selected| <= MomentumSize && Distinct(selected) && forall t | t in selected :: t in FeedNames(bar.feeds)
  {
    var top := TopDecile(ScoresOf(bar.feeds));
    var best := TopMomentum(top, bar.momentum);
    TickersDistinct(best);
    forall t | t in Tickers(best) ensures t in FeedNames(bar.feeds) {
      MomentumTickerInDecile(top, bar.momentum, t);
      DecileTickerIsFeed(bar.feeds, t);
    }
  }

  /** Nothing is selected exactly when no ticker of the decile has a defined
      momentum. */
  lemma SelectionEmpty(bar: Bar)
    requires Selection(bar).Some?
    ensures Selection(bar).value == [] <==> !SomeMomentum(TopDecile(ScoresOf(bar.feeds)), bar.momentum)
  {
    WithMomentumEmpty(TopDecile(ScoresOf(bar.feeds)), bar.momentum);
  }

  /** The tickers of entries with distinct keys are distinct. */
  lemma TickersDistinct(s: seq<Entry>)
    requires DistinctKeys(s)
    ensures Distinct(Tickers(s))
  {
    var ts := Tickers(s);
    forall i, j | 0 <= i < j < |ts| ensures ts[i] != ts[j] {
      assert s[i].0 != s[j].0;
    }
  }

  /** Every ticker of the momentum list belongs to the decile. */
  lemma MomentumTickerInDecile(top: seq<Entry>, momentum: map<Ticker, Option<real>>, t: Ticker)
    requires !MissingMomentum(top, momentum) && DistinctKeys(top)
    requires t in Tickers(TopMomentum(top, momentum))
    ensures HasKey(top, t)
  {
    var best := TopMomentum(top, momentum);
    var ts := Tickers(best);
    var k :| 0 <= k < |ts| && ts[k] == t;
    assert best[k].0 == t;
  }

  /** Every ticker of the decile is the name of a feed. */
  lemma DecileTickerIsFeed(feeds: seq<(Ticker, Readings)>, t: Ticker)
    requires HasKey(TopDecile(ScoresOf(feeds)), t)
    ensures t in FeedNames(feeds)
  {
    DecileTickerIsScored(ScoresOf(feeds), t);
    ScoredTickers(feeds, t);
    var f :| 0 <= f < |feeds| && feeds[f].0 == t && Scorable(feeds[f].1);
    assert FeedNames(feeds)[f] == t;
  }

  /** Every ticker of the decile is scored. */
  lemma DecileTickerIsScored(scores: seq<(Ticker, Score)>, t: Ticker)
    requires DistinctKeys(scores) && HasKey(TopDecile(scores), t)
    ensures HasKey(scores, t)
  {
    var combined := CombinedRank(scores);
    KeyOfPart(TopDecile(scores), combined, t);
    var j :| 0 <= j < |combined| && combined[j].0 == t;
    CombinedKeyAt(scores, j);
  }

  /** A key of a sequence whose entries all belong to another is a key of
      the other. */
  lemma KeyOfPart(part: seq<Entry>, whole: seq<Entry>, t: Ticker)
    requires forall i | 0 <= i < |part| :: part[i] in whole
    requires HasKey(part, t)
    ensures HasKey(whole, t)
  {
    var i :| 0 <= i < |part| && part[i].0 == t;
    var j :| 0 <= j < |whole| && whole[j] == part[i];
  }

  /** The i-th combined rank belongs to the i-th scored ticker. */
  lemma CombinedKeyAt(scores: seq<(Ticker, Score)>, j: nat)
    requires DistinctKeys(scores) && j < |scores|
    ensures CombinedRank(scores)[j].0 == scores[j].0
  {
  }

  /** The weights of a rebalance with distinct feed names add up to one
      while the index is above its average and something was selected. */
  lemma RebalanceFullyInvested(bar: Bar)
    requires Distinct(FeedNames(bar.feeds)) && Invested(bar.spyClose, bar.spySma)
    requires Rebalance(bar).Rebalanced? && Rebalance(bar).selected != []
    ensures Sum(Weights(Rebalance(bar).targets)) == 1.0
  {
    SelectionIsFeeds(bar);
    FullyInvested(FeedNames(bar.feeds), Rebalance(bar).selected);
  }

  /** While the index is at or below its average every feed's target is 0. */
  lemma NotInvestedNoTargets(bar: Bar)
    requires !Invested(bar.spyClose, bar.spySma) && Rebalance(bar).Rebalanced?
    ensures |Rebalance(bar).targets| == |bar.feeds|
    ensures forall k | 0 <= k < |bar.feeds| :: Rebalance(bar).targets[k] == (bar.feeds[k].0, 0.0)
  {
  }

  /** With no scorable feed (as happens when no factor column is found for
      any feed) nothing is selected and every feed's target is 0. */
  lemma NoScoresNoTargets(bar: Bar)
    requires forall k | 0 <= k < |bar.feeds| :: !Scorable(bar.feeds[k].1)
    ensures Rebalance(bar) == Rebalanced([], Orders(FeedNames(bar.feeds), [], Invested(bar.spyClose, bar.spySma)))
    ensures forall k | 0 <= k < |bar.feeds| :: Rebalance(bar).targets[k] == (bar.feeds[k].0, 0.0)
  {
    var scores := ScoresOf(bar.feeds);
    if scores != [] {
      ScoredTickers(bar.feeds, scores[0].0);
      assert false;
    }
    var top := TopDecile(scores);
    assert top == [];
    assert TopMomentum(top, bar.momentum) == [];
  }

  /** `rebalance_portfolio`: the scoring loop, the rankings and cuts, and
      the order loop. */
  method RebalancePortfolio(bar: Bar) returns (outcome: Step)
    ensures outcome == Rebalance(bar)
  {
    var scores := ScoreFeeds(bar.feeds);
    var top := TopDecile(scores);
    if MissingMomentum(top, bar.momentum) {
      return MomentumKeyError;
    }
    var selected := Tickers(TopMomentum(top, bar.momentum));
    var names := FeedNames(bar.feeds);
    var targets := TargetWeights(names, selected, bar.spyClose, bar.spySma);
    assert targets == Orders(names, selected, Invested(bar.spyClose, bar.spySma));
    outcome := Rebalanced(selected, targets);
  }

  /** Number of the first n bars (counted from 0) on which a strategy with
      the given period rebalances. */
  function RebalanceBars(n: nat, period: nat): nat
    requires period > 0
  {
    if n == 0 then 0 else RebalanceBars(n - 1, period) + (if (n - 1) % period == 0 then 1 else 0)
  }

  /** Bars 0, p, 2p, ...: after n bars, ceil(n / p) rebalances. */
  lemma {:induction false} RebalanceBarsCount(n: nat, period: nat)
    requires period > 0
    ensures RebalanceBars(n, period) == (n + period - 1) / period
  {
    if n == 0 {
      DivideWithRemainder(0, period, period - 1);
    } else {
      RebalanceBarsCount(n - 1, period);
      var m := n - 1;
      var q, r := m / period, m % period;
      assert m == q * period + r;
      assert (q + 1) * period == q * period + period;
      if r == 0 {
        DivideWithRemainder(q, period, period - 1);
        DivideWithRemainder(q + 1, period, 0);
      } else {
        DivideWithRemainder(q + 1, period, r - 1);
        DivideWithRemainder(q + 1, period, r);
      }
    }
  }

  /** k periods and j < p bars more: quotient k, remainder j. */
  lemma DivideWithRemainder(k: nat, p: nat, j: nat)
    requires p > 0 && j < p
    ensures (k * p + j) % p == j
    ensures (k * p + j) / p == k
  {
    var x := k * p + j;
    var d, m := x / p, x % p;
    assert x == d * p + m;
    assert (d - k) * p == j - m;
    OnlyZeroMultipleInRange(d - k, p, j - m);
  }

  lemma OnlyZeroMultipleInRange(a: int, p: int, b: int)
    requires p > 0 && a * p == b && -p < b < p
    ensures a == 0
  {
  }

  /** The backtrader strategy: a rebalance counter and the recorded
      portfolio values and cash balances, one per bar. */
  class QuantamentalsStrategy {
    const rebalancePeriod: nat
    var rebalanceCounter: nat
    var portfolioValue: seq<real>
    var cash: seq<real>
    /** How many bars so far have rebalanced. */
    ghost var rebalances: nat

    ghost predicate Valid()
      reads this
    {
      && rebalancePeriod > 0
      && |portfolioValue| == rebalanceCounter && |cash| == rebalanceCounter
      && rebalances == RebalanceBars(rebalanceCounter, rebalancePeriod)
    }

    /** `__init__` with the given `rebalance_period`. */
    constructor (period: nat)
      requires period > 0
      ensures Valid()
      ensures rebalancePeriod == period && rebalanceCounter == 0 && portfolioValue == [] && cash == []
    {
      rebalancePeriod := period;
      rebalanceCounter := 0;
      portfolioValue := [];
      cash := [];
      rebalances := 0;
    }

    /** `next`: rebalance on every bar whose counter is a multiple of the
        period, count the bar, and record the broker's value and cash. A
        KeyError while rebalancing leaves the strategy as it was. */
    method Next(bar: Bar) returns (outcome: Step)
      requires Valid()
      modifies this
      ensures Valid()
      ensures outcome.Waited? <==> old(rebalanceCounter) % rebalancePeriod != 0
      ensures !outcome.Waited? ==> outcome == Rebalance(bar)
      ensures outcome.MomentumKeyError? ==>
                && rebalanceCounter == old(rebalanceCounter)
                && portfolioValue == old(portfolioValue)
                && cash == old(cash)
      ensures !outcome.MomentumKeyError? ==>
                && rebalanceCounter == old(rebalanceCounter) + 1
                && portfolioValue == old(portfolioValue) + [bar.value]
                && cash == old(cash) + [bar.cash]
    {
      if rebalanceCounter % rebalancePeriod != 0 {
        outcome := Waited;
      } else {
        outcome := RebalancePortfolio(bar);
        if outcome.MomentumKeyError? {
          return;
        }
      }
      Record(bar, outcome.Rebalanced?);
    }

    /** The bookkeeping at the end of `next`: count the bar and record the
        broker's value and cash. */
    method Record(bar: Bar, rebalanced: bool)
      requires Valid() && rebalanced == (rebalanceCounter % rebalancePeriod == 0)
      modifies this
      ensures Valid()
      ensures rebalanceCounter == old(rebalanceCounter) + 1
      ensures portfolioValue == old(portfolioValue) + [bar.value]
      ensures cash == old(cash) + [bar.cash]
    {
      if rebalanced {
        rebalances := rebalances + 1;
      }
      rebalanceCounter := rebalanceCounter + 1;
      portfolioValue := portfolioValue + [bar.value];
      cash := cash + [bar.cash];
    }
  }
}
