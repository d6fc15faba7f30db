/**
 * Histogram helpers of PIMS: the first and last non-zero bins of a 1-D
 * histogram, and the clamping of a histogram to bounds, which default to
 * those two bins.
 *
 * Histograms are sequences of integers; NumPy's slicing, `argmax` on a
 * boolean array and `arange` are written out. An empty histogram makes
 * `argmax` raise (None).
 */
module Histograms {
  import opened Wrappers

  /** `argmin_nonzero`: `argmax(arr != 0)`, the first non-zero bin, or 0 when
      every bin is zero. */
  function ArgminNonzero(hist: seq<int>): (r: Option<nat>)
    ensures r.None? <==> hist == []
    ensures r.Some? ==> r.value < |hist|
    ensures r.Some? && hist[r.value] != 0 ==> forall k :: 0 <= k < r.value ==> hist[k] == 0
    ensures r.Some? && hist[r.value] == 0 ==> r.value == 0 && forall k :: 0 <= k < |hist| ==> hist[k] == 0
  {
    if hist == [] then None else Some(FirstNonzero(hist, 0))
  }

  /** The first non-zero bin at or after `from`, or 0 when there is none. */
  function FirstNonzero(hist: seq<int>, from: nat): (r: nat)
    requires from <= |hist| && |hist| > 0
    requires forall k :: 0 <= k < from ==> hist[k] == 0
    ensures r < |hist|
    ensures hist[r] != 0 ==> forall k :: 0 <= k < r ==> hist[k] == 0
    ensures hist[r] == 0 ==> r == 0 && forall k :: 0 <= k < |hist| ==> hist[k] == 0
    decreases |hist| - from
  {
    if from == |hist| then 0
    else if hist[from] != 0 then from
    else FirstNonzero(hist, from + 1)
  }

  /** `argmax_nonzero`: `n - argmax(flip(arr) != 0) - 1`, the last non-zero
      bin, or n - 1 when every bin is zero. */
  function ArgmaxNonzero(hist: seq<int>): (r: Option<nat>)
    ensures r.None? <==> hist == []
    ensures r.Some? ==> r.value < |hist|
    ensures r.Some? && hist[r.value] != 0 ==> forall k :: r.value < k < |hist| ==> hist[k] == 0
    ensures r.Some? && hist[r.value] == 0 ==> r.value == |hist| - 1 && forall k :: 0 <= k < |hist| ==> hist[k] == 0
  {
    if hist == [] then None
    else
      var flipped := Reverse(hist);
      var f := ArgminNonzero(flipped).value;
      assert forall k :: 0 <= k < |hist| ==> hist[k] == flipped[|hist| - 1 - k];
      Some(|hist| - f - 1)
  }

  function Reverse(s: seq<int>): (r: seq<int>)
    ensures |r| == |s| && forall k :: 0 <= k < |s| ==> r[k] == s[|s| - 1 - k]
  {
    seq(|s|, k requires 0 <= k < |s| => s[|s| - 1 - k])
  }

  /** With some non-zero bin, the first one comes no later than the last. */
  lemma ArgminBeforeArgmax(hist: seq<int>)
    requires exists k :: 0 <= k < |hist| && hist[k] != 0
    ensures ArgminNonzero(hist).value <= ArgmaxNonzero(hist).value
    ensures hist[ArgminNonzero(hist).value] != 0 && hist[ArgmaxNonzero(hist).value] != 0
  {
  }

  // ---------------------------------------------------------------- clamping

  /** A slice bound as Python and NumPy read it: a negative one counts from
      the end, and both are clipped to [0, n]. */
  function SliceIndex(i: int, n: nat): (r: nat)
    ensures r <= n
    ensures 0 <= i <= n ==> r == i
  {
    if i < 0 then (if i + n < 0 then 0 else i + n) else if i > n then n else i
  }

  /** `hist[start:stop]`. */
  function PySlice(hist: seq<int>, start: int, stop: int): (r: seq<int>)
    ensures 0 <= start <= stop <= |hist| ==> r == hist[start..stop]
  {
    var a := SliceIndex(start, |hist|);
    var b := SliceIndex(stop, |hist|);
    if a < b then hist[a..b] else []
  }

  /** `np.arange(lo, hi)`: lo, lo + 1, ..., hi - 1. */
  function Arange(lo: int, hi: int): (r: seq<int>)
    ensures |r| == if hi <= lo then 0 else hi - lo
    ensures forall k :: 0 <= k < |r| ==> r[k] == lo + k
  {
    if hi <= lo then [] else seq(hi - lo, k requires 0 <= k < hi - lo => lo + k)
  }

  /** `clamp_histogram`: the bins from `inf` to `sup` inclusive and their
      indices; without bounds they are the first and last non-zero bins.
      None where `argmax` raises on an empty histogram. */
  function ClampHistogram(hist: seq<int>, bounds: Option<(int, int)>): (r: Option<(seq<int>, seq<int>)>)
    ensures r.None? <==> bounds.None? && hist == []
    ensures bounds.Some? ==> r == Some((PySlice(hist, bounds.value.0, bounds.value.1 + 1),
                                        Arange(bounds.value.0, bounds.value.1 + 1)))
  {
    match bounds
    case Some((inf, sup)) => Some((PySlice(hist, inf, sup + 1), Arange(inf, sup + 1)))
    case None =>
      if hist == [] then None
      else
        var inf := ArgminNonzero(hist).value;
        var sup := ArgmaxNonzero(hist).value;
        Some((PySlice(hist, inf, sup + 1), Arange(inf, sup + 1)))
  }

  /** With bounds inside the histogram, the bins and indices line up: both
      hold sup - inf + 1 entries, and each bin is the histogram at its
      index. */
  lemma ClampWithinBounds(hist: seq<int>, inf: int, sup: int)
    requires 0 <= inf <= sup < |hist|
    ensures var (bins, indices) := ClampHistogram(hist, Some((inf, sup))).value;
      |bins| == |indices| == sup - inf + 1
      && forall k :: 0 <= k < |bins| ==> indices[k] == inf + k && bins[k] == hist[indices[k]]
  {
  }

  function Sum(s: seq<int>): int {
    if s == [] then 0 else s[0] + Sum(s[1..])
  }

  lemma {:induction false} SumConcat(a: seq<int>, b: seq<int>)
    ensures Sum(a + b) == Sum(a) + Sum(b)
  {
    if a == [] {
      assert a + b == b;
    } else {
      assert (a + b)[1..] == a[1..] + b;
      SumConcat(a[1..], b);
    }
  }

  lemma {:induction false} SumOfZeros(s: seq<int>)
    requires forall k :: 0 <= k < |s| ==> s[k] == 0
    ensures Sum(s) == 0
  {
    if s != [] {
      SumOfZeros(s[1..]);
    }
  }

  /** Without bounds, a histogram with some non-zero bin is cut to a range
      that starts and ends on non-zero bins and keeps the whole total. */
  lemma {:induction false} ClampKeepsMass(hist: seq<int>)
    requires exists k :: 0 <= k < |hist| && hist[k] != 0
    ensures var r := ClampHistogram(hist, None).value;
      |r.0| > 0 && r.0[0] != 0 && r.0[|r.0| - 1] != 0
      && Sum(r.0) == Sum(hist)
      && |r.1| == |r.0| && forall k :: 0 <= k < |r.0| ==> r.0[k] == hist[r.1[k]]
  {
    ArgminBeforeArgmax(hist);
    var inf := ArgminNonzero(hist).value;
    var sup := ArgmaxNonzero(hist).value;
    var bins := hist[inf..sup + 1];
    var r := ClampHistogram(hist, None).value;
    assert r.0 == bins && r.1 == Arange(inf, sup + 1);
    assert bins[0] == hist[inf] && bins[|bins| - 1] == hist[sup];
    MassOutsideIsZero(hist, inf, sup);
  }

  /** Zero bins outside [inf, sup] carry none of the total. */
  lemma MassOutsideIsZero(hist: seq<int>, inf: nat, sup: nat)
    requires inf <= sup < |hist|
    requires forall k :: 0 <= k < inf ==> hist[k] == 0
    requires forall k :: sup < k < |hist| ==> hist[k] == 0
    ensures Sum(hist[inf..sup + 1]) == Sum(hist)
  {
    var bins := hist[inf..sup + 1];
    assert hist == hist[..inf] + bins + hist[sup + 1..];
    SumOfZeros(hist[..inf]);
    SumOfZeros(hist[sup + 1..]);
    SumConcat(hist[..inf] + bins, hist[sup + 1..]);
    SumConcat(hist[..inf], bins);
  }
}
