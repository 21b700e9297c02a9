/** The rolling statistics the strategies compute over a column of closes:
    sums, means, extremes, and the trailing windows that pandas' `rolling`
    takes them over. */
module Indicators {
  import opened Signals

  function Sum(s: seq<real>): real {
    if s == [] then 0.0 else Sum(s[..|s| - 1]) + s[|s| - 1]
  }

  function MaxOf(s: seq<real>): (m: real)
    requires s != []
    ensures m in s
    ensures forall x | x in s :: x <= m
  {
    if |s| == 1 then s[0]
    else
      var rest := MaxOf(s[..|s| - 1]);
      assert forall x | x in s :: x in s[..|s| - 1] || x == s[|s| - 1];
      if s[|s| - 1] > rest then s[|s| - 1] else rest
  }

  function MinOf(s: seq<real>): (m: real)
    requires s != []
    ensures m in s
    ensures forall x | x in s :: m <= x
  {
    if |s| == 1 then s[0]
    else
      var rest := MinOf(s[..|s| - 1]);
      assert forall x | x in s :: x in s[..|s| - 1] || x == s[|s| - 1];
      if s[|s| - 1] < rest then s[|s| - 1] else rest
  }

  function Mean(s: seq<real>): real
    requires s != []
  {
    Sum(s) / (|s| as real)
  }

  /** A sum of values that all lie in [lo, hi] lies between |s|·lo and |s|·hi. */
  lemma {:induction false} SumBounds(s: seq<real>, lo: real, hi: real)
    requires forall x | x in s :: lo <= x <= hi
    ensures (|s| as real) * lo <= Sum(s) <= (|s| as real) * hi
  {
    if s != [] {
      var init := s[..|s| - 1];
      assert forall x | x in init :: x in s;
      SumBounds(init, lo, hi);
      assert s[|s| - 1] in s;
    }
  }

  /** A mean lies between the smallest and the largest value averaged. */
  lemma MeanWithinRange(s: seq<real>)
    requires s != []
    ensures MinOf(s) <= Mean(s) <= MaxOf(s)
  {
    SumBounds(s, MinOf(s), MaxOf(s));
    QuotientBounds(Sum(s), |s| as real, MinOf(s), MaxOf(s));
  }

  lemma QuotientBounds(x: real, n: real, lo: real, hi: real)
    requires n > 0.0 && n * lo <= x <= n * hi
    ensures lo <= x / n <= hi
  {
    var q := x / n;
    assert q * n == x;
    assert (q - lo) * n == x - n * lo;
    assert (hi - q) * n == n * hi - x;
  }

  /** The mean of values that are all equal to `c` is `c`. */
  lemma MeanOfConstant(s: seq<real>, c: real)
    requires s != [] && forall x | x in s :: x == c
    ensures Mean(s) == c
  {
    assert s[0] in s;
    MeanWithinRange(s);
  }

  /** pandas `rolling(window=w, min_periods=1)` at row i: the last
      min(w, i + 1) values, ending with row i itself. */
  function TrailingWindow(s: seq<real>, w: nat, i: nat): (win: seq<real>)
    requires 0 < w && i < |s|
    ensures |win| == if i + 1 < w then i + 1 else w
    ensures win[|win| - 1] == s[i]
    ensures forall k | 0 <= k < |win| :: win[k] == s[i + 1 - |win| + k]
  {
    s[if i + 1 < w then 0 else i + 1 - w .. i + 1]
  }

  /** pandas `rolling(window=w)` at row i with the default `min_periods`:
      nothing until a full window of w rows ends at row i. */
  function FullWindow(s: seq<real>, w: nat, i: nat): (r: Option<seq<real>>)
    requires 0 < w && i < |s|
    ensures r.Some? <==> i + 1 >= w
    ensures r.Some? ==> |r.value| == w && r.value == TrailingWindow(s, w, i)
  {
    if i + 1 < w then None else Some(TrailingWindow(s, w, i))
  }

  /** `rolling(window=w).mean()`: defined exactly from row w - 1 on, and then
      between the least and the greatest close of its window. */
  function Sma(s: seq<real>, w: nat, i: nat): (r: Option<real>)
    requires 0 < w && i < |s|
    ensures r.Some? <==> i + 1 >= w
    ensures r.Some? ==>
      MinOf(TrailingWindow(s, w, i)) <= r.value <= MaxOf(TrailingWindow(s, w, i))
  {
    match FullWindow(s, w, i)
    case None => None
    case Some(win) =>
      MeanWithinRange(win);
      Some(Mean(win))
  }

  /** `rolling(window=w).max()`: defined exactly from row w - 1 on, and then
      one of the window's closes that no close of the window exceeds. */
  function RollingMax(s: seq<real>, w: nat, i: nat): (r: Option<real>)
    requires 0 < w && i < |s|
    ensures r.Some? <==> i + 1 >= w
    ensures r.Some? ==> exists k | i + 1 - w <= k <= i :: s[k] == r.value
    ensures r.Some? ==> forall k | i + 1 - w <= k <= i :: s[k] <= r.value
  {
    match FullWindow(s, w, i)
    case None => None
    case Some(win) =>
      var m := MaxOf(win);
      var lo := i + 1 - w;
      assert win == s[lo..i + 1];
      assert forall k | lo <= k <= i :: s[k] in win by {
        forall k | lo <= k <= i ensures s[k] in win {
          assert win[k - lo] == s[k];
        }
      }
      assert exists k | lo <= k <= i :: s[k] == m by {
        var j :| 0 <= j < |win| && win[j] == m;
        assert s[j + lo] == m;
      }
      Some(m)
  }
}
