/** The cross-strategy tally of the summary script: per date, how many
    strategy dictionaries hold a signal for it and how many of those say
    Buy, and the Buy percentage derived from the two counts. */
module Tally {
  import opened Signals

  datatype Counts = Counts(buy: nat, total: nat)

  /** Number of entries of one dictionary stored under `k`. */
  function Occurrences<K(==)>(f: seq<(K, Signal)>, k: K): nat {
    if f == [] then 0
    else Occurrences(f[..|f| - 1], k) + (if f[|f| - 1].0 == k then 1 else 0)
  }

  /** Number of entries of one dictionary stored under `k` that say Buy. */
  function BuyOccurrences<K(==)>(f: seq<(K, Signal)>, k: K): nat {
    if f == [] then 0
    else BuyOccurrences(f[..|f| - 1], k) + (if f[|f| - 1] == (k, Buy) then 1 else 0)
  }

  function TotalOf<K(==)>(files: seq<seq<(K, Signal)>>, k: K): nat {
    if files == [] then 0
    else TotalOf(files[..|files| - 1], k) + Occurrences(files[|files| - 1], k)
  }

  function BuysOf<K(==)>(files: seq<seq<(K, Signal)>>, k: K): nat {
    if files == [] then 0
    else BuysOf(files[..|files| - 1], k) + BuyOccurrences(files[|files| - 1], k)
  }

  /** Number of dictionaries that hold a signal for `k`. */
  ghost function FilesHolding<K>(files: seq<seq<(K, Signal)>>, k: K): nat {
    if files == [] then 0
    else FilesHolding(files[..|files| - 1], k) + (if HasKey(files[|files| - 1], k) then 1 else 0)
  }

  /** Number of dictionaries whose signal for `k` is Buy. */
  ghost function FilesBuying<K>(files: seq<seq<(K, Signal)>>, k: K): nat {
    if files == [] then 0
    else FilesBuying(files[..|files| - 1], k) + (if (k, Buy) in files[|files| - 1] then 1 else 0)
  }

  lemma {:induction false} BuyOccurrencesBounded<K>(f: seq<(K, Signal)>, k: K)
    ensures BuyOccurrences(f, k) <= Occurrences(f, k)
  {
    if f != [] {
      BuyOccurrencesBounded(f[..|f| - 1], k);
    }
  }

  /** Extending a dictionary by one entry adds that entry's counts. */
  lemma OccurrencesSnoc<K>(f: seq<(K, Signal)>, j: nat)
    requires j < |f|
    ensures forall k :: Occurrences(f[..j + 1], k) == Occurrences(f[..j], k) + (if f[j].0 == k then 1 else 0)
    ensures forall k :: BuyOccurrences(f[..j + 1], k) == BuyOccurrences(f[..j], k) + (if f[j] == (k, Buy) then 1 else 0)
  {
    assert f[..j + 1][..j] == f[..j];
  }

  /** A key that the first entries of a dictionary do not hold occurs in
      none of them. */
  lemma {:induction false} AbsentKeyNeverOccurs<K>(f: seq<(K, Signal)>, k: K)
    requires !HasKey(f, k)
    ensures Occurrences(f, k) == 0 && BuyOccurrences(f, k) == 0
  {
    if f != [] {
      var init := f[..|f| - 1];
      assert !HasKey(init, k) by {
        forall i | 0 <= i < |init| ensures init[i].0 != k {
          assert init[i] == f[i];
        }
      }
      AbsentKeyNeverOccurs(init, k);
    }
  }

  /** In a dictionary a key occurs once if present and never otherwise, and
      it says Buy once exactly when its one value is Buy. */
  lemma {:induction false} OccurrencesInDictionary<K>(f: seq<(K, Signal)>, k: K)
    requires DistinctKeys(f)
    ensures Occurrences(f, k) == if HasKey(f, k) then 1 else 0
    ensures BuyOccurrences(f, k) == if (k, Buy) in f then 1 else 0
  {
    if f != [] {
      var init := f[..|f| - 1];
      var last := f[|f| - 1];
      assert f == init + [last];
      assert forall i | 0 <= i < |init| :: init[i] == f[i];
      if last.0 == k {
        assert !HasKey(init, k) by {
          forall i | 0 <= i < |init| ensures init[i].0 != k {
            assert f[i].0 != f[|f| - 1].0;
          }
        }
        AbsentKeyNeverOccurs(init, k);
        assert (k, Buy) !in init;
        assert HasKey(f, k) by { assert f[|f| - 1].0 == k; }
      } else {
        assert DistinctKeys(init);
        OccurrencesInDictionary(init, k);
        assert HasKey(f, k) == HasKey(init, k) by {
          if HasKey(init, k) {
            var i :| 0 <= i < |init| && init[i].0 == k;
            assert f[i].0 == k;
          }
        }
      }
    }
  }

  /** Appending one dictionary to the list adds its counts. */
  lemma TotalOfSnoc<K>(files: seq<seq<(K, Signal)>>, i: nat)
    requires i < |files|
    ensures forall k :: TotalOf(files[..i + 1], k) == TotalOf(files[..i], k) + Occurrences(files[i], k)
    ensures forall k :: BuysOf(files[..i + 1], k) == BuysOf(files[..i], k) + BuyOccurrences(files[i], k)
  {
    assert files[..i + 1][..i] == files[..i];
  }

  /** The tallied counts mean what the summary script intends: `total` is
      the number of dictionaries holding the date and `buy` the number of
      those saying Buy, never more than `total`. */
  lemma {:induction false} TallyCountsDictionaries<K>(files: seq<seq<(K, Signal)>>, k: K)
    requires forall i | 0 <= i < |files| :: DistinctKeys(files[i])
    ensures TotalOf(files, k) == FilesHolding(files, k)
    ensures BuysOf(files, k) == FilesBuying(files, k)
    ensures BuysOf(files, k) <= TotalOf(files, k)
  {
    if files != [] {
      var init := files[..|files| - 1];
      assert forall i | 0 <= i < |init| :: init[i] == files[i];
      TallyCountsDictionaries(init, k);
      OccurrencesInDictionary(files[|files| - 1], k);
    }
  }

  /** `buy_tally[k]` of a defaultdict: the stored counts, or zero counts. */
  function CountsAt<K(==)>(tally: map<K, Counts>, k: K): Counts {
    if k in tally then tally[k] else Counts(0, 0)
  }

  /** The inner tally loop over one dictionary's entries: count each date
      once and once more as Buy when its signal is Buy. */
  method AddDictionary<K(==, !new)>(tally: map<K, Counts>, f: seq<(K, Signal)>) returns (updated: map<K, Counts>)
    ensures forall k :: k in updated <==> k in tally || Occurrences(f, k) > 0
    ensures forall k :: CountsAt(updated, k) ==
                        Counts(CountsAt(tally, k).buy + BuyOccurrences(f, k), CountsAt(tally, k).total + Occurrences(f, k))
  {
    updated := tally;
    for j := 0 to |f|
      invariant forall k :: k in updated <==> k in tally || Occurrences(f[..j], k) > 0
      invariant forall k :: CountsAt(updated, k) ==
                          Counts(CountsAt(tally, k).buy + BuyOccurrences(f[..j], k), CountsAt(tally, k).total + Occurrences(f[..j], k))
    {
      var (date, signal) := f[j];
      var c := CountsAt(updated, date);
      updated := updated[date := Counts(c.buy + (if signal == Buy then 1 else 0), c.total + 1)];
      OccurrencesSnoc(f, j);
    }
    assert f[..|f|] == f;
  }

  /** The tally loop over all dictionaries. A date is tallied exactly when
      some dictionary holds it, with its Buy count and its total count. */
  method TallySignals<K(==, !new)>(files: seq<seq<(K, Signal)>>) returns (tally: map<K, Counts>)
    ensures forall k :: k in tally <==> TotalOf(files, k) > 0
    ensures forall k | k in tally :: tally[k] == Counts(BuysOf(files, k), TotalOf(files, k))
  {
    tally := map[];
    for i := 0 to |files|
      invariant forall k :: k in tally <==> TotalOf(files[..i], k) > 0
      invariant forall k :: CountsAt(tally, k) == Counts(BuysOf(files[..i], k), TotalOf(files[..i], k))
    {
      tally := AddDictionary(tally, files[i]);
      TotalOfSnoc(files, i);
    }
    assert files[..|files|] == files;
  }

  /** `buy_percentage`: the dates with a positive total, each with the share
      of Buy signals as a percentage. */
  function BuyPercentage<K>(tally: map<K, Counts>): (pct: map<K, real>)
    ensures forall k | k in pct :: k in tally && tally[k].total > 0
    ensures forall k | k in tally && tally[k].total > 0 :: k in pct
    ensures forall k | k in pct ::
      pct[k] * (tally[k].total as real) == 100.0 * (tally[k].buy as real)
    ensures forall k | k in pct && tally[k].buy <= tally[k].total :: 0.0 <= pct[k] <= 100.0
  {
    map k | k in tally && tally[k].total > 0 ::
      (tally[k].buy as real / tally[k].total as real) * 100.0
  }

  /** Tallying the dictionaries and taking percentages gives a value in
      [0, 100] for exactly the dates some dictionary holds, 100 when every
      holder says Buy and 0 when none does. */
  lemma PercentageOfTally<K>(files: seq<seq<(K, Signal)>>, tally: map<K, Counts>, k: K)
    requires forall i | 0 <= i < |files| :: DistinctKeys(files[i])
    requires k in tally <==> TotalOf(files, k) > 0
    requires k in tally ==> tally[k] == Counts(BuysOf(files, k), TotalOf(files, k))
    ensures var pct := BuyPercentage(tally);
      && (k in pct <==> FilesHolding(files, k) > 0)
      && (k in pct ==> 0.0 <= pct[k] <= 100.0)
      && (k in pct ==> (pct[k] == 100.0 <==> FilesBuying(files, k) == FilesHolding(files, k)))
      && (k in pct ==> (pct[k] == 0.0 <==> FilesBuying(files, k) == 0))
  {
    TallyCountsDictionaries(files, k);
    if k in tally && tally[k].total > 0 {
      PercentageOfCounts(tally, k);
    }
  }

  /** The percentage of one tallied date, in terms of its two counts. */
  lemma PercentageOfCounts<K>(tally: map<K, Counts>, k: K)
    requires k in tally && 0 < tally[k].total && tally[k].buy <= tally[k].total
    ensures var pct := BuyPercentage(tally);
      && k in pct
      && 0.0 <= pct[k] <= 100.0
      && (pct[k] == 100.0 <==> tally[k].buy == tally[k].total)
      && (pct[k] == 0.0 <==> tally[k].buy == 0)
  {
    var pct := BuyPercentage(tally);
    PercentageBounds(pct[k], tally[k].buy, tally[k].total);
  }

  lemma PercentageBounds(p: real, b: nat, t: nat)
    requires 0 < t && b <= t && p * (t as real) == 100.0 * (b as real)
    ensures 0.0 <= p <= 100.0
    ensures p == 100.0 <==> b == t
    ensures p == 0.0 <==> b == 0
  {
    var tr, br := t as real, b as real;
    assert (100.0 - p) * tr == 100.0 * (tr - br);
  }
}
