/** Vocabulary shared by every strategy: calendar dates, signal labels, price
    histories, dictionaries of dated values kept in insertion order, and the
    "last known value" lookup that every strategy's query function performs. */
module Signals {

  /** A calendar date as a day number (days since 1970-01-01), so that a
      difference of calendar days is a subtraction. */
  type Date = int

  /** 1900-01-01, the "no signal yet" date the decline scans start from. */
  const Year1900: Date := -25567

  datatype Signal = Buy | Sell

  datatype Option<T> = None | Some(value: T)

  /** What a query function hands back: a signal, or a message saying the
      date lies before everything the dictionary knows. */
  datatype Answer = Found(signal: Signal) | Missing(message: string)

  /** A daily price history: one close per trading day, dates ascending. */
  datatype History = History(dates: seq<Date>, closes: seq<real>)

  predicate Ascending(dates: seq<Date>) {
    forall a, b | 0 <= a < b < |dates| :: dates[a] < dates[b]
  }

  predicate WellFormed(h: History) {
    |h.dates| == |h.closes| && Ascending(h.dates)
  }

  /** A dictionary never holds the same key twice. */
  predicate DistinctKeys<K(==), V>(m: seq<(K, V)>) {
    forall i, j | 0 <= i < j < |m| :: m[i].0 != m[j].0
  }

  predicate HasKey<K(==), V>(m: seq<(K, V)>, k: K) {
    exists i | 0 <= i < |m| :: m[i].0 == k
  }

  /** Two dictionaries with the same keys in the same places are both
      free of repeated keys or neither is. */
  lemma SameKeysDistinct<K, V, W>(a: seq<(K, V)>, b: seq<(K, W)>)
    requires |a| == |b| && forall i | 0 <= i < |a| :: a[i].0 == b[i].0
    requires DistinctKeys(a)
    ensures DistinctKeys(b)
  {
    forall i, j | 0 <= i < j < |b| ensures b[i].0 != b[j].0 {
      assert a[i].0 != a[j].0;
    }
  }

  /** `d.get(k)`: the value stored under `k`, if any. */
  function Get<K(==), V>(m: seq<(K, V)>, k: K): (r: Option<V>)
    ensures r.None? <==> !HasKey(m, k)
    ensures r.Some? ==> (k, r.value) in m
    ensures r.Some? && DistinctKeys(m) ==>
      forall i | 0 <= i < |m| && m[i].0 == k :: m[i].1 == r.value
  {
    if m == [] then None
    else if m[0].0 == k then Some(m[0].1)
    else
      var r := Get(m[1..], k);
      assert HasKey(m[1..], k) ==> HasKey(m, k) by {
        if HasKey(m[1..], k) {
          var i :| 0 <= i < |m[1..]| && m[1..][i].0 == k;
          assert m[i + 1].0 == k;
        }
      }
      r
  }

  /** In a dictionary without repeated keys, entry i's key looks up entry
      i's value. */
  lemma GetAt<K, V>(m: seq<(K, V)>, i: nat)
    requires DistinctKeys(m) && i < |m|
    ensures Get(m, m[i].0) == Some(m[i].1)
  {
    assert HasKey(m, m[i].0);
  }

  /** The value `v` sits under the greatest key not after `q`. */
  ghost predicate LatestAtOrBefore<V>(m: seq<(Date, V)>, q: Date, v: V) {
    exists i | 0 <= i < |m| ::
      m[i].0 <= q && m[i].1 == v &&
      forall j | 0 <= j < |m| && m[j].0 <= q :: m[j].0 <= m[i].0
  }

  /** `max(d for d in m.keys() if d <= q)`, or None when no key qualifies. */
  function GreatestKeyAtOrBefore<V>(m: seq<(Date, V)>, q: Date): (r: Option<Date>)
    ensures r.None? <==> forall i | 0 <= i < |m| :: m[i].0 > q
    ensures r.Some? ==> r.value <= q && HasKey(m, r.value)
    ensures r.Some? ==> forall i | 0 <= i < |m| && m[i].0 <= q :: m[i].0 <= r.value
  {
    if m == [] then None
    else
      var rest := GreatestKeyAtOrBefore(m[1..], q);
      assert forall i | 1 <= i < |m| :: m[i] == m[1..][i - 1];
      if m[0].0 > q then rest
      else if rest.Some? && rest.value > m[0].0 then
        assert HasKey(m, rest.value) by {
          var i :| 0 <= i < |m[1..]| && m[1..][i].0 == rest.value;
          assert m[i + 1].0 == rest.value;
        }
        rest
      else
        assert HasKey(m, m[0].0) by { assert m[0].0 == m[0].0; }
        Some(m[0].0)
  }

  /** Forward fill: the value stored under `q` itself, otherwise the value
      stored under the greatest earlier key; None when every key is later. */
  function LastKnown<V>(m: seq<(Date, V)>, q: Date): (r: Option<V>)
    requires DistinctKeys(m)
    ensures r.None? <==> forall i | 0 <= i < |m| :: m[i].0 > q
    ensures r.Some? ==> LatestAtOrBefore(m, q, r.value)
  {
    match Get(m, q)
    case Some(v) =>
      assert LatestAtOrBefore(m, q, v) by {
        var i :| 0 <= i < |m| && m[i] == (q, v);
        assert m[i].0 <= q && m[i].1 == v;
      }
      Some(v)
    case None =>
      match GreatestKeyAtOrBefore(m, q)
      case None => None
      case Some(d) =>
        var v := Get(m, d).value;
        assert LatestAtOrBefore(m, q, v) by {
          var i :| 0 <= i < |m| && m[i] == (d, v);
          assert m[i].0 <= q && m[i].1 == v;
        }
        Some(v)
  }

  /** Under distinct keys the greatest key not after `q` is unique, so the
      forward-filled value is determined. */
  lemma LatestIsUnique<V>(m: seq<(Date, V)>, q: Date, v: V, w: V)
    requires DistinctKeys(m)
    requires LatestAtOrBefore(m, q, v) && LatestAtOrBefore(m, q, w)
    ensures v == w
  {
    var i :| 0 <= i < |m| && m[i].0 <= q && m[i].1 == v &&
      forall j | 0 <= j < |m| && m[j].0 <= q :: m[j].0 <= m[i].0;
    var k :| 0 <= k < |m| && m[k].0 <= q && m[k].1 == w &&
      forall j | 0 <= j < |m| && m[j].0 <= q :: m[j].0 <= m[k].0;
    assert m[i].0 == m[k].0;
    assert i == k;
  }

  /** The stored value is what a query on an existing key returns. */
  lemma LastKnownOnStoredKey<V>(m: seq<(Date, V)>, i: nat)
    requires DistinctKeys(m) && i < |m|
    ensures LastKnown(m, m[i].0) == Some(m[i].1)
  {
    var r := LastKnown(m, m[i].0);
    assert r.Some?;
    assert LatestAtOrBefore(m, m[i].0, m[i].1);
    LatestIsUnique(m, m[i].0, r.value, m[i].1);
  }

  /** The answer of a query on a date before every stored date. */
  const DateNotInData: string := "Date not in data"

  /** `query_signal` of the canary and breadth scripts: the stored signal for
      an exact date, else the one at the greatest earlier date, else the
      message "Date not in data". */
  function QuerySignal(m: seq<(Date, Signal)>, q: Date): (r: Answer)
    requires DistinctKeys(m)
    ensures r.Missing? <==> forall i | 0 <= i < |m| :: m[i].0 > q
    ensures r.Missing? ==> r.message == DateNotInData
    ensures r.Found? ==> LatestAtOrBefore(m, q, r.signal)
    ensures HasKey(m, q) ==> r == Found(Get(m, q).value)
  {
    match LastKnown(m, q)
    case None => Missing(DateNotInData)
    case Some(s) =>
      assert HasKey(m, q) ==> s == Get(m, q).value by {
        if HasKey(m, q) {
          var i :| 0 <= i < |m| && m[i].0 == q;
          LastKnownOnStoredKey(m, i);
        }
      }
      Found(s)
  }
}
