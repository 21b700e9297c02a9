/** The two numeric choices of the summary chart: how large a signal marker
    is drawn for a display window of a given length, and which marker shape
    each strategy's points get. */
module Chart {

  /** `max(20, min(200, 2000 / num_days))`, with true division. */
  function MarkerSize(numDays: int): (size: real)
    requires numDays != 0
    ensures 20.0 <= size <= 200.0
    ensures 10 <= numDays <= 100 ==> size * (numDays as real) == 2000.0
    ensures (numDays < 0 || numDays > 100) ==> size == 20.0
    ensures 0 < numDays < 10 ==> size == 200.0
  {
    var raw := 2000.0 / (numDays as real);
    var capped := if 200.0 < raw then 200.0 else raw;
    if 20.0 < capped then capped else 20.0
  }

  /** Longer windows never get larger markers. */
  lemma MarkerSizeShrinks(a: int, b: int)
    requires 0 < a <= b
    ensures MarkerSize(b) <= MarkerSize(a)
  {
    var ar, br := a as real, b as real;
    var ra, rb := 2000.0 / ar, 2000.0 / br;
    assert rb * br == 2000.0 && ra * ar == 2000.0;
    assert rb >= 0.0;
    assert rb * (br - ar) >= 0.0;
    assert (ra - rb) * ar == rb * (br - ar);
  }

  /** The thirteen marker shapes, one per strategy file. */
  const Markers: seq<string> := ["o", "s", "D", "^", "v", "<", ">", "p", "*", "h", "H", "x", "d"]

  /** `idx % len(markers)`: a valid position in the marker list, equal to
      idx for the first thirteen files. */
  function MarkerIndex(idx: nat): (k: nat)
    ensures k < |Markers|
    ensures idx < |Markers| ==> k == idx
  {
    idx % |Markers|
  }

  /** `markers[idx % len(markers)]`: the shape of the idx-th strategy file,
      one of the thirteen, and the idx-th itself for the first thirteen. */
  function MarkerFor(idx: nat): (m: string)
    ensures m in Markers
    ensures idx < |Markers| ==> m == Markers[idx]
  {
    Markers[MarkerIndex(idx)]
  }

  /** Two files get the same shape exactly when their positions agree
      modulo thirteen: shapes repeat every thirteen files and never sooner. */
  lemma SameMarkerIffSameResidue(i: nat, j: nat)
    ensures MarkerFor(i) == MarkerFor(j) <==> i % |Markers| == j % |Markers|
  {
    var a, b := MarkerIndex(i), MarkerIndex(j);
    if a != b {
      MarkersDistinct(a, b);
    }
  }

  /** The thirteen shapes are pairwise different. */
  lemma MarkersDistinct(a: nat, b: nat)
    requires a < |Markers| && b < |Markers| && a != b
    ensures Markers[a] != Markers[b]
  {
  }
}
