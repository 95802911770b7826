/** Time-series samples as the storage and query layers exchange them. */
module Samples {

  /** `math.MinInt64`: the sentinel both look-back iterators use for "no time yet". */
  const MIN_TIME: int := -0x8000_0000_0000_0000

  /** A 64-bit float. Only staleness and (elsewhere) order matter, so rounding is not modelled. */
  datatype Float = Finite(r: real) | PosInf | NegInf | NaN | StaleNaN

  /**
   * Integer and float native histograms: the sum, how many float samples one counts for
   * against the query limit, and an opaque body.
   */
  datatype Histogram = Histogram(sum: Float, size: nat, body: nat)
  datatype FloatHistogram = FloatHistogram(sum: Float, size: nat, body: nat)

  function ToFloat(h: Histogram): FloatHistogram {
    FloatHistogram(h.sum, h.size, h.body)
  }

  datatype Sample =
    | FSample(t: int, f: Float)
    | HSample(t: int, h: Histogram)
    | FHSample(t: int, fh: FloatHistogram)
  {
    /** A staleness marker: a stale float, or a histogram whose sum is stale. */
    predicate Stale() {
      match this
      case FSample(_, f) => f.StaleNaN?
      case HSample(_, h) => h.sum.StaleNaN?
      case FHSample(_, fh) => fh.sum.StaleNaN?
    }

    /** The sample with an integer histogram converted to a float histogram. */
    function AsFloat(): Sample {
      match this
      case HSample(t, h) => FHSample(t, ToFloat(h))
      case _ => this
    }
  }

  /** What `chunkenc.Iterator` calls report: exhausted, or the type of the current sample. */
  datatype ValueType = ValNone | ValFloat | ValHistogram | ValFloatHistogram

  function TypeOf(s: Sample): ValueType {
    match s
    case FSample(_, _) => ValFloat
    case HSample(_, _) => ValHistogram
    case FHSample(_, _) => ValFloatHistogram
  }

  predicate Earlier(s: seq<Sample>, i: nat, j: nat)
    requires i < |s| && j < |s|
  {
    s[i].t < s[j].t
  }

  ghost predicate Increasing(s: seq<Sample>) {
    forall i: nat, j: nat :: i < j < |s| ==> Earlier(s, i, j)
  }

  lemma IncreasingTail(h: seq<Sample>)
    requires h != [] && Increasing(h)
    ensures Increasing(h[1..])
    ensures forall i :: 0 <= i < |h| - 1 ==> h[0].t < h[1..][i].t
  {
    forall i: nat, j: nat | i < j < |h| - 1
      ensures Earlier(h[1..], i, j)
    {
      assert Earlier(h, i + 1, j + 1);
    }
    forall i | 0 <= i < |h| - 1
      ensures h[0].t < h[1..][i].t
    {
      assert Earlier(h, 0, i + 1);
    }
  }

  lemma IncreasingInit(h: seq<Sample>, s: Sample)
    requires Increasing(h + [s])
    ensures Increasing(h)
    ensures forall i :: 0 <= i < |h| ==> h[i].t < s.t
  {
    var hs := h + [s];
    forall i: nat, j: nat | i < j < |h|
      ensures Earlier(h, i, j)
    {
      assert Earlier(hs, i, j);
    }
    forall i | 0 <= i < |h|
      ensures h[i].t < s.t
    {
      assert Earlier(hs, i, |h|);
    }
  }

  /** The samples of `s` with `lo <= t`, in order: the reference for every look-back buffer. */
  function Since(s: seq<Sample>, lo: int): seq<Sample> {
    if s == [] then [] else (if lo <= s[0].t then [s[0]] else []) + Since(s[1..], lo)
  }

  lemma {:induction false} SinceExactly(s: seq<Sample>, lo: int, x: Sample)
    ensures x in Since(s, lo) <==> x in s && lo <= x.t
  {
    if s != [] {
      SinceExactly(s[1..], lo, x);
      assert s == [s[0]] + s[1..];
    }
  }

  // ----- iterators over a series -----

  /** Type of the sample an iterator at `pos` stands on; past the end it is exhausted. */
  function TypeAt(series: seq<Sample>, pos: nat): ValueType {
    if pos < |series| then TypeOf(series[pos]) else ValNone
  }

  /**
   * The `chunkenc.Iterator` contract for `Seek`: the first sample at or after `t` that is
   * not behind the iterator. `StorageSeries` shows code that meets it.
   */
  function SeekPos(series: seq<Sample>, pos: nat, t: int): (p: nat)
    requires pos <= |series|
    ensures pos <= p <= |series|
    ensures p > pos ==> series[p - 1].t < t
    ensures p < |series| ==> series[p].t >= t
    decreases |series| - pos
  {
    if pos < |series| && series[pos].t < t then SeekPos(series, pos + 1, t) else pos
  }

  /** The first `n` samples of an increasing series all precede `t`. */
  predicate Older(series: seq<Sample>, n: nat, t: int)
    requires n <= |series|
  {
    n == 0 || series[n - 1].t < t
  }
}
