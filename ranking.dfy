/** Python's `sorted(d, key=..., reverse=...)` over the keys of a dictionary,
    as the quantamental step uses it: a stable sort of (ticker, score) pairs
    by score, ascending or (with `reverse`) descending, and the 1-based
    ranks that `enumerate(..., 1)` gives the sorted tickers. */
module Ranking {
  import opened Signals

  /** A feed's name. */
  type Ticker = string

  /** A dictionary entry: a ticker and the score it is sorted by. */
  type Entry = (Ticker, real)

  /** Score a goes strictly ahead of score b in the sort. */
  predicate Ahead(a: real, b: real, reverse: bool) {
    if reverse then a > b else a < b
  }

  /** No entry is strictly ahead of one placed before it. */
  predicate SortedBy(s: seq<Entry>, reverse: bool) {
    forall a, b | 0 <= a < b < |s| :: !Ahead(s[b].1, s[a].1, reverse)
  }

  /** Where x goes in s: the first entry x is strictly ahead of, or the end.
      x lands after every entry it is not strictly ahead of, so among equal
      scores the entry inserted later stays later. */
  function Position(x: Entry, s: seq<Entry>, reverse: bool): (p: nat)
    ensures p <= |s|
    ensures forall j | 0 <= j < p :: !Ahead(x.1, s[j].1, reverse)
    ensures p < |s| ==> Ahead(x.1, s[p].1, reverse)
  {
    if s == [] then 0
    else if Ahead(x.1, s[0].1, reverse) then 0
    else
      var p := 1 + Position(x, s[1..], reverse);
      assert forall j | 1 <= j < |s| :: s[j] == s[1..][j - 1];
      p
  }

  /** One step of the insertion sort. */
  function Insert(x: Entry, s: seq<Entry>, reverse: bool): (r: seq<Entry>)
    ensures |r| == |s| + 1
    ensures multiset(r) == multiset(s) + multiset{x}
  {
    var p := Position(x, s, reverse);
    assert s == s[..p] + s[p..];
    s[..p] + [x] + s[p..]
  }

  /** In a sorted sequence, x is strictly ahead of every entry from its
      insertion point on. */
  lemma AheadOfRest(x: Entry, s: seq<Entry>, reverse: bool)
    requires SortedBy(s, reverse)
    ensures var p := Position(x, s, reverse);
            forall j | p <= j < |s| :: Ahead(x.1, s[j].1, reverse)
  {
    var p := Position(x, s, reverse);
    forall j | p <= j < |s| ensures Ahead(x.1, s[j].1, reverse) {
      assert !Ahead(s[j].1, s[p].1, reverse) || j == p;
    }
  }

  lemma InsertKeepsSorted(x: Entry, s: seq<Entry>, reverse: bool)
    requires SortedBy(s, reverse)
    ensures SortedBy(Insert(x, s, reverse), reverse)
  {
    var p := Position(x, s, reverse);
    var r := Insert(x, s, reverse);
    AheadOfRest(x, s, reverse);
    forall a, b | 0 <= a < b < |r|
      ensures !Ahead(r[b].1, r[a].1, reverse)
    {
      if b < p {
        assert r[a] == s[a] && r[b] == s[b];
      } else if b == p {
        assert r[a] == s[a] && r[b] == x;
      } else if a < p {
        assert r[a] == s[a] && r[b] == s[b - 1];
      } else if a == p {
        assert r[a] == x && r[b] == s[b - 1];
      } else {
        assert r[a] == s[a - 1] && r[b] == s[b - 1];
      }
    }
  }

  lemma InsertKeys(x: Entry, s: seq<Entry>, reverse: bool)
    ensures forall k :: HasKey(Insert(x, s, reverse), k) <==> k == x.0 || HasKey(s, k)
  {
    var p := Position(x, s, reverse);
    var r := Insert(x, s, reverse);
    forall k ensures HasKey(r, k) <==> k == x.0 || HasKey(s, k) {
      if HasKey(r, k) {
        var i :| 0 <= i < |r| && r[i].0 == k;
        if i < p {
          assert s[i] == r[i];
        } else if i > p {
          assert s[i - 1] == r[i];
        }
      }
      if k == x.0 {
        assert r[p] == x;
      }
      if HasKey(s, k) {
        var i :| 0 <= i < |s| && s[i].0 == k;
        if i < p {
          assert r[i] == s[i];
        } else {
          assert r[i + 1] == s[i];
        }
      }
    }
  }

  lemma InsertKeepsDistinct(x: Entry, s: seq<Entry>, reverse: bool)
    requires DistinctKeys(s) && !HasKey(s, x.0)
    ensures DistinctKeys(Insert(x, s, reverse))
  {
    var p := Position(x, s, reverse);
    var r := Insert(x, s, reverse);
    forall a, b | 0 <= a < b < |r|
      ensures r[a].0 != r[b].0
    {
      if b < p {
        assert r[a] == s[a] && r[b] == s[b];
      } else if b == p {
        assert r[a] == s[a] && r[b] == x;
      } else if a < p {
        assert r[a] == s[a] && r[b] == s[b - 1];
      } else if a == p {
        assert r[a] == x && r[b] == s[b - 1];
      } else {
        assert r[a] == s[a - 1] && r[b] == s[b - 1];
      }
    }
  }

  /** `sorted(...)`: insertion of each entry in turn, from the first. */
  function SortBy(s: seq<Entry>, reverse: bool): (r: seq<Entry>)
    ensures |r| == |s|
    ensures multiset(r) == multiset(s)
  {
    if s == [] then []
    else
      var init, last := s[..|s| - 1], s[|s| - 1];
      assert s == init + [last];
      Insert(last, SortBy(init, reverse), reverse)
  }

  /** The sort's output is in the requested order. */
  lemma {:induction false} SortIsSorted(s: seq<Entry>, reverse: bool)
    ensures SortedBy(SortBy(s, reverse), reverse)
  {
    if s != [] {
      var init := s[..|s| - 1];
      SortIsSorted(init, reverse);
      InsertKeepsSorted(s[|s| - 1], SortBy(init, reverse), reverse);
    }
  }

  /** The sort keeps exactly the tickers it was given, each once when they
      were distinct. */
  lemma {:induction false} SortKeepsKeys(s: seq<Entry>, reverse: bool)
    ensures forall k :: HasKey(SortBy(s, reverse), k) <==> HasKey(s, k)
    ensures DistinctKeys(s) ==> DistinctKeys(SortBy(s, reverse))
  {
    if s != [] {
      var init, last := s[..|s| - 1], s[|s| - 1];
      assert s == init + [last];
      SortKeepsKeys(init, reverse);
      InsertKeys(last, SortBy(init, reverse), reverse);
      forall k ensures HasKey(s, k) <==> k == last.0 || HasKey(init, k) {
        if HasKey(s, k) && k != last.0 {
          var i :| 0 <= i < |s| && s[i].0 == k;
          assert init[i].0 == k;
        }
        if HasKey(init, k) {
          var i :| 0 <= i < |init| && init[i].0 == k;
          assert s[i].0 == k;
        }
      }
      if DistinctKeys(s) {
        assert DistinctKeys(init);
        forall i | 0 <= i < |init| ensures init[i].0 != last.0 {
          assert s[i].0 != s[|s| - 1].0;
        }
        InsertKeepsDistinct(last, SortBy(init, reverse), reverse);
      }
    }
  }

  /** The entries whose score is v, in order. */
  function WithScore(s: seq<Entry>, v: real): seq<Entry> {
    if s == [] then [] else WithScore(s[..|s| - 1], v) + (if s[|s| - 1].1 == v then [s[|s| - 1]] else [])
  }

  lemma {:induction false} WithScoreAppend(a: seq<Entry>, b: seq<Entry>, v: real)
    ensures WithScore(a + b, v) == WithScore(a, v) + WithScore(b, v)
    decreases |b|
  {
    if b != [] {
      var init := b[..|b| - 1];
      assert (a + b)[..|a + b| - 1] == a + init;
      WithScoreAppend(a, init, v);
    } else {
      assert a + b == a;
    }
  }

  /** No entry of s carries score v. */
  lemma {:induction false} NoneWithScore(s: seq<Entry>, v: real)
    requires forall i | 0 <= i < |s| :: s[i].1 != v
    ensures WithScore(s, v) == []
  {
    if s != [] {
      NoneWithScore(s[..|s| - 1], v);
    }
  }

  /** Inserting x into a sorted sequence puts it after the entries that
      share its score. */
  lemma InsertIsStable(x: Entry, s: seq<Entry>, reverse: bool, v: real)
    requires SortedBy(s, reverse)
    ensures WithScore(Insert(x, s, reverse), v) == WithScore(s, v) + (if x.1 == v then [x] else [])
  {
    var p := Position(x, s, reverse);
    assert s == s[..p] + s[p..];
    if x.1 == v {
      NoneEqualAfterPosition(x, s, reverse);
    }
    WithScoreAround(s[..p], x, s[p..], v);
  }

  /** Putting x between two parts adds x to the entries with its score,
      when none of the second part has that score. */
  lemma WithScoreAround(front: seq<Entry>, x: Entry, back: seq<Entry>, v: real)
    requires x.1 == v ==> WithScore(back, v) == []
    ensures WithScore(front + [x] + back, v) == WithScore(front + back, v) + (if x.1 == v then [x] else [])
  {
    WithScoreAppend(front + [x], back, v);
    WithScoreAppend(front, [x], v);
    WithScoreAppend(front, back, v);
    SingleWithScore(x, v);
  }

  lemma SingleWithScore(x: Entry, v: real)
    ensures WithScore([x], v) == (if x.1 == v then [x] else [])
  {
    assert [x][..0] == [];
  }

  /** No entry from the insertion point on shares x's score. */
  lemma NoneEqualAfterPosition(x: Entry, s: seq<Entry>, reverse: bool)
    requires SortedBy(s, reverse)
    ensures WithScore(s[Position(x, s, reverse)..], x.1) == []
  {
    var p := Position(x, s, reverse);
    AheadOfRest(x, s, reverse);
    var back := s[p..];
    forall i | 0 <= i < |back| ensures back[i].1 != x.1 {
      assert back[i] == s[p + i];
    }
    NoneWithScore(back, x.1);
  }

  /** Stability: for every score, the entries with that score come out of
      the sort in the order they went in. */
  lemma {:induction false} SortIsStable(s: seq<Entry>, reverse: bool, v: real)
    ensures WithScore(SortBy(s, reverse), v) == WithScore(s, v)
  {
    if s != [] {
      var init, last := s[..|s| - 1], s[|s| - 1];
      SortIsStable(init, reverse, v);
      SortIsSorted(init, reverse);
      InsertIsStable(last, SortBy(init, reverse), reverse, v);
    }
  }

  /** `sorted(...)[:n]`: the first n entries of the sort, or all of them.
      They are distinct entries of s in sort order, and no entry of s left
      out is strictly ahead of any entry kept. */
  function Leaders(s: seq<Entry>, reverse: bool, n: nat): (r: seq<Entry>)
    ensures |r| == if |s| < n then |s| else n
    ensures SortedBy(r, reverse)
    ensures forall i | 0 <= i < |r| :: r[i] in s
    ensures DistinctKeys(s) ==> DistinctKeys(r)
    ensures forall j | 0 <= j < |s| && !HasKey(r, s[j].0) ::
              forall i | 0 <= i < |r| :: !Ahead(s[j].1, r[i].1, reverse)
  {
    var sorted := SortBy(s, reverse);
    SortKeepsKeys(s, reverse);
    SortIsSorted(s, reverse);
    var r := if |s| < n then sorted else sorted[..n];
    assert forall i | 0 <= i < |r| :: r[i] in s by {
      forall i | 0 <= i < |r| ensures r[i] in s {
        assert r[i] == sorted[i] && sorted[i] in multiset(sorted);
      }
    }
    forall j | 0 <= j < |s| && !HasKey(r, s[j].0)
      ensures forall i | 0 <= i < |r| :: !Ahead(s[j].1, r[i].1, reverse)
    {
      assert s[j] in multiset(sorted);
      var p :| 0 <= p < |sorted| && sorted[p] == s[j];
      assert forall q | 0 <= q < |r| :: r[q] == sorted[q];
    }
    r
  }

  /** `{ticker: rank for rank, ticker in enumerate(sorted_tickers, 1)}`. */
  function Ranks(sorted: seq<Entry>): (rank: map<Ticker, nat>)
    requires DistinctKeys(sorted)
    ensures forall t :: t in rank <==> HasKey(sorted, t)
    ensures forall i | 0 <= i < |sorted| :: sorted[i].0 in rank && rank[sorted[i].0] == i + 1
    ensures forall t | t in rank :: 1 <= rank[t] <= |sorted|
    ensures forall t, u | t in rank && u in rank && t != u :: rank[t] != rank[u]
  {
    var rank := map i | 0 <= i < |sorted| :: sorted[i].0 := i + 1;
    assert forall i | 0 <= i < |sorted| :: sorted[i].0 in rank;
    assert forall t :: t in rank <==> HasKey(sorted, t) by {
      forall t ensures t in rank <==> HasKey(sorted, t) {
        if HasKey(sorted, t) {
          var i :| 0 <= i < |sorted| && sorted[i].0 == t;
          assert sorted[i].0 in rank;
        }
      }
    }
    rank
  }

  /** The rank dictionary of a column of distinct tickers sorted by score:
      the ranks 1..n, one per ticker, and a strictly better score always
      gets a smaller rank. */
  function RankBy(col: seq<Entry>, reverse: bool): (rank: map<Ticker, nat>)
    requires DistinctKeys(col)
    ensures forall i | 0 <= i < |col| :: col[i].0 in rank
    ensures forall t :: t in rank <==> HasKey(col, t)
    ensures forall t | t in rank :: 1 <= rank[t] <= |col|
    ensures forall t, u | t in rank && u in rank && t != u :: rank[t] != rank[u]
    ensures forall i, j | 0 <= i < |col| && 0 <= j < |col| && Ahead(col[i].1, col[j].1, reverse) ::
              rank[col[i].0] < rank[col[j].0]
  {
    var sorted := SortBy(col, reverse);
    SortKeepsKeys(col, reverse);
    var rank := Ranks(sorted);
    forall i | 0 <= i < |col| ensures col[i].0 in rank {
      assert HasKey(col, col[i].0);
    }
    forall i, j | 0 <= i < |col| && 0 <= j < |col| && Ahead(col[i].1, col[j].1, reverse)
      ensures rank[col[i].0] < rank[col[j].0]
    {
      BetterRanksFirst(col, reverse, i, j);
    }
    rank
  }

  lemma BetterRanksFirst(col: seq<Entry>, reverse: bool, i: nat, j: nat)
    requires DistinctKeys(col) && i < |col| && j < |col| && Ahead(col[i].1, col[j].1, reverse)
    ensures var sorted := SortBy(col, reverse);
            DistinctKeys(sorted) && col[i].0 in Ranks(sorted) && col[j].0 in Ranks(sorted) &&
            Ranks(sorted)[col[i].0] < Ranks(sorted)[col[j].0]
  {
    var sorted := SortBy(col, reverse);
    SortKeepsKeys(col, reverse);
    SortIsSorted(col, reverse);
    var pi := PositionIn(sorted, col[i]);
    var pj := PositionIn(sorted, col[j]);
    assert pi < pj by {
      assert !Ahead(sorted[pj].1, sorted[pi].1, reverse) || pj > pi;
    }
  }

  /** Where an entry of a sequence sits in it. */
  lemma PositionIn(s: seq<Entry>, e: Entry) returns (p: nat)
    requires e in multiset(s)
    ensures p < |s| && s[p] == e
  {
    p :| 0 <= p < |s| && s[p] == e;
  }
}
