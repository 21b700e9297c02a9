/** Inflection extraction of the cross-strategy summary script: the entries
    of a strategy's signal dictionary, in dictionary order, at which the
    signal differs from the entry immediately before it. */
module Inflection {
  import opened Signals

  /** The specification of `find_inflection_points`: every entry after the
      first whose signal differs from its predecessor's, in input order. */
  function Inflections<K, V(==)>(s: seq<(K, V)>): (p: seq<(K, V)>)
    ensures |s| <= 1 ==> p == []
    ensures |s| >= 1 ==> |p| <= |s| - 1
    decreases |s|
  {
    if |s| <= 1 then []
    else
      Inflections(s[..|s| - 1]) +
      (if s[|s| - 1].1 != s[|s| - 2].1 then [s[|s| - 1]] else [])
  }

  /** The positions of `s` at which the signal changes, ascending. */
  ghost function ChangeIndices<K, V>(s: seq<(K, V)>): (c: seq<nat>)
    ensures forall j | 0 <= j < |c| :: 1 <= c[j] < |s| && s[c[j]].1 != s[c[j] - 1].1
    ensures forall j, k | 0 <= j < k < |c| :: c[j] < c[k]
    decreases |s|
  {
    if |s| <= 1 then []
    else
      ChangeIndices(s[..|s| - 1]) +
      (if s[|s| - 1].1 != s[|s| - 2].1 then [|s| - 1] else [])
  }

  /** Every position whose signal differs from its predecessor's is a change. */
  lemma {:induction false} EveryChangeIsListed<K, V>(s: seq<(K, V)>, i: nat)
    requires 1 <= i < |s| && s[i].1 != s[i - 1].1
    ensures i in ChangeIndices(s)
    decreases |s|
  {
    if i < |s| - 1 {
      var init := s[..|s| - 1];
      assert init[i] == s[i] && init[i - 1] == s[i - 1];
      EveryChangeIsListed(init, i);
    }
  }

  /** The reported points are the entries at the change positions. */
  lemma {:induction false} InflectionsAtChangeIndices<K, V>(s: seq<(K, V)>)
    ensures |Inflections(s)| == |ChangeIndices(s)|
    ensures forall j | 0 <= j < |ChangeIndices(s)| :: Inflections(s)[j] == s[ChangeIndices(s)[j]]
    decreases |s|
  {
    if |s| > 1 {
      InflectionsAtChangeIndices(s[..|s| - 1]);
    }
  }

  /** An entry is reported exactly when its signal differs from the entry
      immediately before it; the first entry never is; the report is an
      order-preserving subsequence of the input. */
  lemma ReportedExactlyAtChanges<K, V>(s: seq<(K, V)>)
    ensures var c := ChangeIndices(s);
      && |Inflections(s)| == |c|
      && (forall j | 0 <= j < |c| :: Inflections(s)[j] == s[c[j]])
      && (forall j, k | 0 <= j < k < |c| :: c[j] < c[k])
      && (forall i | 0 <= i < |s| :: i in c <==> (i >= 1 && s[i].1 != s[i - 1].1))
  {
    InflectionsAtChangeIndices(s);
    forall i | 1 <= i < |s| && s[i].1 != s[i - 1].1
      ensures i in ChangeIndices(s)
    {
      EveryChangeIsListed(s, i);
    }
  }

  /** When the dictionary's keys are distinct, the first date is never
      among the reported points. */
  lemma FirstEntryNeverReported<K, V>(s: seq<(K, V)>)
    requires DistinctKeys(s) && s != []
    ensures forall e | e in Inflections(s) :: e.0 != s[0].0
  {
    InflectionsAtChangeIndices(s);
    var c := ChangeIndices(s);
    forall e | e in Inflections(s)
      ensures e.0 != s[0].0
    {
      var j :| 0 <= j < |Inflections(s)| && Inflections(s)[j] == e;
      assert e == s[c[j]] && 1 <= c[j];
    }
  }

  /** The last reported point carries the signal of the last entry. */
  lemma {:induction false} LastPointHasCurrentSignal<K, V>(s: seq<(K, V)>)
    requires Inflections(s) != []
    ensures Inflections(s)[|Inflections(s)| - 1].1 == s[|s| - 1].1
    decreases |s|
  {
    var init := s[..|s| - 1];
    if s[|s| - 1].1 == s[|s| - 2].1 {
      assert Inflections(s) == Inflections(init);
      LastPointHasCurrentSignal(init);
    }
  }

  /** Two consecutive reported points never carry the same signal. */
  lemma {:induction false} ConsecutivePointsDiffer<K, V>(s: seq<(K, V)>)
    ensures forall j | 0 <= j < |Inflections(s)| - 1 ::
      Inflections(s)[j].1 != Inflections(s)[j + 1].1
    decreases |s|
  {
    if |s| > 1 {
      var init := s[..|s| - 1];
      ConsecutivePointsDiffer(init);
      if s[|s| - 1].1 != s[|s| - 2].1 && Inflections(init) != [] {
        LastPointHasCurrentSignal(init);
      }
    }
  }

  /** `find_inflection_points`: one pass remembering the previous signal. */
  method FindInflectionPoints<K, V(==)>(signals: seq<(K, V)>) returns (points: seq<(K, V)>)
    ensures points == Inflections(signals)
  {
    points := [];
    var prev: Option<V> := None;
    for i := 0 to |signals|
      invariant points == Inflections(signals[..i])
      invariant prev == if i == 0 then None else Some(signals[i - 1].1)
    {
      var (date, signal) := signals[i];
      if prev.Some? && signal != prev.value {
        points := points + [(date, signal)];
      }
      prev := Some(signal);
      assert signals[..i + 1][..i] == signals[..i];
    }
    assert signals[..|signals|] == signals;
  }
}
