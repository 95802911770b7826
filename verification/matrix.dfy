/**
 * Range selectors: what one call of `matrixIterSlice` does to the points of the step before and
 * to the sample counter.
 */
module MatrixSelector {
  import opened Samples
  import opened Ring
  import opened Buffered

  // ----- the reference: a plain filter over the series -----

  /** Floats (`hist` false) or histograms (`hist` true) that are not staleness markers. */
  predicate Wanted(s: Sample, hist: bool) {
    s.FSample? != hist && !s.Stale()
  }

  /** The wanted samples with `lo < t <= hi`, in order. */
  function InRange(s: seq<Sample>, lo: int, hi: int, hist: bool): (r: seq<Sample>) {
    if s == [] then [] else
      var last := s[|s| - 1];
      InRange(s[..|s| - 1], lo, hi, hist)
      + (if Wanted(last, hist) && lo < last.t <= hi then [last.AsFloat()] else [])
  }

  /** What the filter finds, without the order: every float that is not stale, every histogram likewise. */
  lemma {:induction false} InRangeExactly(s: seq<Sample>, lo: int, hi: int, p: Sample)
    ensures p in InRange(s, lo, hi, false)
            <==> p in s && p.FSample? && p.f != StaleNaN && lo < p.t <= hi
    ensures p in InRange(s, lo, hi, true)
            <==> && p.FHSample? && p.fh.sum != StaleNaN && lo < p.t <= hi
                 && (p in s || HSample(p.t, Histogram(p.fh.sum, p.fh.size, p.fh.body)) in s)
    decreases |s|
  {
    if s != [] {
      var init, last := s[..|s| - 1], s[|s| - 1];
      InRangeExactly(init, lo, hi, p);
      assert s == init + [last];
    }
  }

  lemma {:induction false} InRangeIncreasing(s: seq<Sample>, lo: int, hi: int, hist: bool)
    requires Increasing(s)
    ensures s == [] ==> InRange(s, lo, hi, hist) == []
    ensures Increasing(InRange(s, lo, hi, hist))
    ensures forall i :: 0 <= i < |InRange(s, lo, hi, hist)| ==> InRange(s, lo, hi, hist)[i].t <= s[|s| - 1].t
    decreases |s|
  {
    if s != [] {
      var init, last := s[..|s| - 1], s[|s| - 1];
      assert s == init + [last];
      IncreasingInit(init, last);
      InRangeIncreasing(init, lo, hi, hist);
      var r, r0 := InRange(s, lo, hi, hist), InRange(init, lo, hi, hist);
      forall i: nat, j: nat | i < j < |r| ensures Earlier(r, i, j) {
        assert j < |r0| ==> Earlier(r0, i, j);
      }
    }
  }

  /** The wanted samples with `lo < t`, in order. */
  function After(s: seq<Sample>, lo: int, hist: bool): (r: seq<Sample>) {
    if s == [] then [] else
      var last := s[|s| - 1];
      After(s[..|s| - 1], lo, hist) + (if Wanted(last, hist) && lo < last.t then [last.AsFloat()] else [])
  }

  // ----- one step as a function of values -----

  /** The half-open window `(lo, hi]` of one step. */
  datatype Span = Span(lo: int, hi: int)

  /** The float and histogram points of one step. */
  datatype Points = Points(floats: seq<Sample>, hists: seq<Sample>)

  /** The points of the previous step that are still in range. */
  function Retained(points: seq<Sample>, mint: int): seq<Sample> {
    if points != [] && points[|points| - 1].t > mint then DropOld(points, mint + 1) else []
  }

  /** Only points after this are taken from the iterator. */
  function Low(points: seq<Sample>, mint: int): int {
    var r := Retained(points, mint);
    if r == [] then mint else r[|r| - 1].t
  }

  /** The sought sample itself, when it sits exactly at `maxt`. */
  function Sought(b: BufState, maxt: int, hist: bool): seq<Sample> {
    if !b.Exhausted() && b.series[b.pos].t == maxt && Wanted(b.series[b.pos], hist)
    then [b.series[b.pos].AsFloat()] else []
  }

  /** Points appended by a step, given the iterator after its `Seek`. */
  function New(b: BufState, low: int, maxt: int, hist: bool): seq<Sample> {
    After(b.buffered, low, hist) + Sought(b, maxt, hist)
  }

  /** Points after a step, given the iterator after its `Seek`. */
  function Slice(b: BufState, points: seq<Sample>, mint: int, maxt: int, hist: bool): seq<Sample> {
    Retained(points, mint) + New(b, Low(points, mint), maxt, hist)
  }

  /** The two point lists of a step. */
  function Slices(b: BufState, points: Points, w: Span): Points {
    Points(Slice(b, points.floats, w.lo, w.hi, false), Slice(b, points.hists, w.lo, w.hi, true))
  }

  // ----- the step yields the filter -----

  lemma {:induction false} InRangeEmpty(s: seq<Sample>, lo: int, hi: int, hist: bool)
    requires forall k :: 0 <= k < |s| ==> s[k].t <= lo || hi < s[k].t
    ensures InRange(s, lo, hi, hist) == []
    decreases |s|
  {
    if s != [] {
      InRangeEmpty(s[..|s| - 1], lo, hi, hist);
    }
  }

  lemma IncreasingPrefix(s: seq<Sample>)
    requires s != [] && Increasing(s)
    ensures Increasing(s[..|s| - 1])
    ensures forall k :: 0 <= k < |s| - 1 ==> s[k].t < s[|s| - 1].t
  {
    assert s == s[..|s| - 1] + [s[|s| - 1]];
    IncreasingInit(s[..|s| - 1], s[|s| - 1]);
  }

  /** Adjacent ranges of an increasing series concatenate. */
  lemma {:induction false} InRangeSplit(s: seq<Sample>, a: int, b: int, c: int, hist: bool)
    requires Increasing(s) && a <= b <= c
    ensures InRange(s, a, b, hist) + InRange(s, b, c, hist) == InRange(s, a, c, hist)
    decreases |s|
  {
    if s != [] {
      var init := s[..|s| - 1];
      IncreasingPrefix(s);
      InRangeSplit(init, a, b, c, hist);
      if s[|s| - 1].t <= b {
        InRangeEmpty(init, b, c, hist);
        InRangeEmpty(s, b, c, hist);
      }
    }
  }

  lemma {:induction false} InRangeConcat(s: seq<Sample>, r: seq<Sample>, lo: int, hi: int, hist: bool)
    ensures InRange(s + r, lo, hi, hist) == InRange(s, lo, hi, hist) + InRange(r, lo, hi, hist)
    decreases |r|
  {
    if r == [] {
      assert s + r == s;
    } else {
      assert (s + r)[..|s + r| - 1] == s + r[..|r| - 1];
      InRangeConcat(s, r[..|r| - 1], lo, hi, hist);
    }
  }

  lemma {:induction false} AfterIsInRange(s: seq<Sample>, lo: int, hi: int, hist: bool)
    requires forall k :: 0 <= k < |s| ==> s[k].t <= hi
    ensures After(s, lo, hist) == InRange(s, lo, hi, hist)
    decreases |s|
  {
    if s != [] {
      AfterIsInRange(s[..|s| - 1], lo, hi, hist);
    }
  }

  lemma {:induction false} InRangeBounds(s: seq<Sample>, lo: int, hi: int, hist: bool)
    ensures forall k :: 0 <= k < |InRange(s, lo, hi, hist)| ==> lo < InRange(s, lo, hi, hist)[k].t <= hi
    decreases |s|
  {
    if s != [] {
      InRangeBounds(s[..|s| - 1], lo, hi, hist);
    }
  }

  lemma {:induction false} DropAll(p: seq<Sample>, q: seq<Sample>, tmin: int)
    requires forall k :: 0 <= k < |p| ==> p[k].t < tmin
    requires q != [] ==> q[0].t >= tmin
    ensures DropOld(p + q, tmin) == q
    decreases |p|
  {
    if p == [] {
      assert p + q == q;
    } else {
      assert (p + q)[1..] == p[1..] + q;
      DropAll(p[1..], q, tmin);
    }
  }

  /** Retaining from one range gives the overlap with the later range. */
  lemma RetainedIsInRange(s: seq<Sample>, lo0: int, hi0: int, mint: int, hist: bool)
    requires Increasing(s) && lo0 <= mint
    ensures Retained(InRange(s, lo0, hi0, hist), mint) == InRange(s, mint, hi0, hist)
  {
    var points := InRange(s, lo0, hi0, hist);
    InRangeBounds(s, lo0, hi0, hist);
    if hi0 <= mint {
      InRangeEmpty(s, mint, hi0, hist);
    } else {
      InRangeSplit(s, lo0, mint, hi0, hist);
      InRangeBounds(s, lo0, mint, hist);
      InRangeBounds(s, mint, hi0, hist);
      DropAll(InRange(s, lo0, mint, hist), InRange(s, mint, hi0, hist), mint + 1);
    }
  }

  /** Nothing wanted lies between the last sample of a range and its end. */
  lemma {:induction false} NothingAfterLast(s: seq<Sample>, lo: int, hi: int, hist: bool)
    requires Increasing(s) && InRange(s, lo, hi, hist) != []
    ensures var r := InRange(s, lo, hi, hist); InRange(s, r[|r| - 1].t, hi, hist) == []
    decreases |s|
  {
    var last := s[|s| - 1];
    var init := s[..|s| - 1];
    IncreasingPrefix(s);
    if Wanted(last, hist) && lo < last.t <= hi {
      InRangeEmpty(s, last.t, hi, hist);
    } else {
      NothingAfterLast(init, lo, hi, hist);
      InRangeBounds(init, lo, hi, hist);
    }
  }

  lemma RunBounds(b: BufState, start: nat, maxt: int)
    requires Covers(b, start, maxt) && (!b.Exhausted() ==> b.series[b.pos].t >= maxt)
    ensures forall k :: 0 <= k < start ==> b.series[k].t < maxt - b.delta
    ensures forall k :: 0 <= k < b.pos ==> b.series[k].t < maxt
    ensures forall k :: b.pos < k < |b.series| ==> maxt < b.series[k].t
  {
    var s := b.series;
    forall k | 0 <= k < b.pos
      ensures s[k].t < maxt && (k < start ==> s[k].t < maxt - b.delta)
    {
      assert k < start - 1 ==> Earlier(s, k, start - 1);
      assert k < b.pos - 1 ==> Earlier(s, k, b.pos - 1);
    }
    forall k | b.pos < k < |s|
      ensures maxt < s[k].t
    {
      assert Earlier(s, b.pos, k);
    }
  }

  /** The buffered run accounts for everything after `hi0` that precedes `maxt`. */
  lemma BufferIsInRange(b: BufState, start: nat, lo: int, hi0: int, hi: int, maxt: int, hist: bool)
    requires hi == maxt - 1
    requires Covers(b, start, maxt) && (!b.Exhausted() ==> b.series[b.pos].t >= maxt)
    requires lo <= hi0 < maxt && maxt - b.delta <= hi0 + 1
    requires InRange(b.series, lo, hi0, hist) == []
    ensures After(b.buffered, lo, hist) == InRange(b.series, hi0, hi, hist)
  {
    RunBounds(b, start, maxt);
    var s := b.series;
    assert s == s[..start] + s[start..b.pos] + s[b.pos..];
    MiddleIsInRange(s[..start], s[start..b.pos], s[b.pos..], lo, hi0, hi, hist);
  }

  lemma MiddleIsInRange(p: seq<Sample>, q: seq<Sample>, r: seq<Sample>, lo: int, hi0: int, hi: int, hist: bool)
    requires Increasing(p + q + r) && lo <= hi0 <= hi
    requires forall k :: 0 <= k < |p| ==> p[k].t <= hi0
    requires forall k :: 0 <= k < |q| ==> q[k].t <= hi
    requires forall k :: 0 <= k < |r| ==> hi < r[k].t
    requires InRange(p + q + r, lo, hi0, hist) == []
    ensures After(q, lo, hist) == InRange(p + q + r, hi0, hi, hist)
  {
    AfterIsInRange(q, lo, hi, hist);
    InRangeParts(p, q, r, lo, hi, hist);
    InRangeParts(p, q, r, lo, hi0, hist);
    InRangeEmpty(r, lo, hi, hist);
    PrefixCap(p, lo, hi0, hi, hist);
    assert |InRange(p, lo, hi0, hist)| <= |InRange(p + q + r, lo, hi0, hist)|;
    assert InRange(p, lo, hi, hist) == [];
    InRangeSplit(p + q + r, lo, hi0, hi, hist);
    assert [] + InRange(p + q + r, hi0, hi, hist) == InRange(p + q + r, hi0, hi, hist);
    assert [] + InRange(q, lo, hi, hist) + [] == InRange(q, lo, hi, hist);
  }

  lemma InRangeParts(p: seq<Sample>, q: seq<Sample>, r: seq<Sample>, lo: int, hi: int, hist: bool)
    ensures InRange(p + q + r, lo, hi, hist)
            == InRange(p, lo, hi, hist) + InRange(q, lo, hi, hist) + InRange(r, lo, hi, hist)
  {
    InRangeConcat(p + q, r, lo, hi, hist);
    InRangeConcat(p, q, lo, hi, hist);
  }

  lemma {:induction false} PrefixCap(p: seq<Sample>, lo: int, hi0: int, hi: int, hist: bool)
    requires hi0 <= hi && forall k :: 0 <= k < |p| ==> p[k].t <= hi0
    ensures InRange(p, lo, hi, hist) == InRange(p, lo, hi0, hist)
    decreases |p|
  {
    if p != [] {
      PrefixCap(p[..|p| - 1], lo, hi0, hi, hist);
    }
  }

  lemma SoughtIsInRange(b: BufState, start: nat, lo: int, maxt: int, hist: bool)
    requires Covers(b, start, maxt) && (!b.Exhausted() ==> b.series[b.pos].t >= maxt) && lo == maxt - 1
    ensures Sought(b, maxt, hist) == InRange(b.series, lo, maxt, hist)
  {
    RunBounds(b, start, maxt);
    var s := b.series;
    if b.Exhausted() {
      InRangeEmpty(s, lo, maxt, hist);
    } else {
      var p, r := s[..b.pos], s[b.pos + 1..];
      assert s == p + [s[b.pos]] + r;
      InRangeOne(p, s[b.pos], r, lo, maxt, hist);
    }
  }

  /** Only the sample between `p` and `r` can be in range. */
  lemma InRangeOne(p: seq<Sample>, x: Sample, r: seq<Sample>, lo: int, hi: int, hist: bool)
    requires (forall k :: 0 <= k < |p| ==> p[k].t <= lo) && (forall k :: 0 <= k < |r| ==> hi < r[k].t)
    ensures InRange(p + [x] + r, lo, hi, hist) == if Wanted(x, hist) && lo < x.t <= hi then [x.AsFloat()] else []
  {
    InRangeEmpty(p, lo, hi, hist);
    InRangeEmpty(r, lo, hi, hist);
    InRangeParts(p, [x], r, lo, hi, hist);
    InRangeSingle(x, lo, hi, hist);
  }

  lemma InRangeSingle(p: Sample, lo: int, hi: int, hist: bool)
    ensures InRange([p], lo, hi, hist)
            == if Wanted(p, hist) && lo < p.t <= hi then [p.AsFloat()] else []
  {
    assert [p][..0] == [];
  }

  /**
   * One step, from the points of an earlier range `(lo0, hi0]` and an iterator whose buffer
   * reaches back to that range or to the whole new one: the points afterwards are exactly
   * the wanted samples of `(mint, maxt]`.
   */
  lemma SliceIsFilter(b: BufState, start: nat, lo0: int, hi0: int, mint: int, maxt: int, hist: bool)
    requires Covers(b, start, maxt) && (!b.Exhausted() ==> b.series[b.pos].t >= maxt)
    requires lo0 <= mint < maxt && hi0 < maxt
    requires maxt - b.delta <= hi0 + 1 || maxt - b.delta <= mint + 1
    ensures Slice(b, InRange(b.series, lo0, hi0, hist), mint, maxt, hist)
            == InRange(b.series, mint, maxt, hist)
  {
    var s := b.series;
    var points := InRange(s, lo0, hi0, hist);
    RetainedIsInRange(s, lo0, hi0, mint, hist);
    var kept := InRange(s, mint, hi0, hist);
    var low := Low(points, mint);
    InRangeBounds(s, mint, hi0, hist);
    var hi := if hi0 < mint then mint else hi0;
    if kept != [] {
      NothingAfterLast(s, mint, hi0, hist);
    } else if hi0 <= mint {
      InRangeEmpty(s, mint, hi, hist);
    }
    var before := maxt - 1;
    BufferIsInRange(b, start, low, hi, before, maxt, hist);
    SoughtIsInRange(b, start, before, maxt, hist);
    InRangeSplit(s, hi, before, maxt, hist);
    if hi0 <= mint {
      InRangeEmpty(s, mint, hi, hist);
      InRangeEmpty(s, mint, hi0, hist);
    }
    InRangeSplit(s, mint, hi, maxt, hist);
    assert kept == InRange(s, mint, hi, hist);
  }

  // ----- sample accounting -----

  /** What one point adds to `currentSamples`: one per float, its size per histogram. */
  function SizeOf(p: Sample): nat {
    if p.FHSample? then p.fh.size else 1
  }

  function TotalSize(ps: seq<Sample>): nat {
    if ps == [] then 0 else TotalSize(ps[..|ps| - 1]) + SizeOf(ps[|ps| - 1])
  }

  lemma {:induction false} TotalSizeConcat(p: seq<Sample>, q: seq<Sample>)
    ensures TotalSize(p + q) == TotalSize(p) + TotalSize(q)
    decreases |q|
  {
    if q == [] {
      assert p + q == p;
    } else {
      assert (p + q)[..|p + q| - 1] == p + q[..|q| - 1];
      TotalSizeConcat(p, q[..|q| - 1]);
    }
  }

  /** What a run of samples contributes after the two lower bounds. */
  function Load(s: seq<Sample>, lowF: int, lowH: int): nat {
    TotalSize(After(s, lowF, false)) + TotalSize(After(s, lowH, true))
  }

  /** Everything `Collect` has done when it has read the first `n` samples of `c`. */
  ghost predicate Collected(c: seq<Sample>, n: nat, lowF: int, lowH: int,
                            fs: seq<Sample>, hs: seq<Sample>, load: int)
    requires n <= |c|
  {
    && fs == After(c[..n], lowF, false)
    && hs == After(c[..n], lowH, true)
    && load == Load(c[..n], lowF, lowH)
  }

  /** What one more sample adds to the load. */
  function LoadOf(p: Sample, lowF: int, lowH: int): nat {
    if Wanted(p, !p.FSample?) && (if p.FSample? then lowF else lowH) < p.t
    then SizeOf(p.AsFloat()) else 0
  }

  /** Points after one more sample. */
  function Taken(ps: seq<Sample>, p: Sample, low: int, hist: bool): seq<Sample> {
    if Wanted(p, hist) && low < p.t then ps + [p.AsFloat()] else ps
  }

  lemma CollectedStep(c: seq<Sample>, n: nat, lowF: int, lowH: int,
                      fs: seq<Sample>, hs: seq<Sample>, load: int)
    requires n < |c| && Collected(c, n, lowF, lowH, fs, hs, load)
    ensures var p := c[n];
            Collected(c, n + 1, lowF, lowH, Taken(fs, p, lowF, false), Taken(hs, p, lowH, true),
                      load + LoadOf(p, lowF, lowH))
  {
    LoadStep(c, n, lowF, lowH);
  }

  lemma {:induction false} CollectedGrows(c: seq<Sample>, n: nat, lowF: int, lowH: int,
                                          fs: seq<Sample>, hs: seq<Sample>, load: int)
    requires n <= |c| && Collected(c, n, lowF, lowH, fs, hs, load)
    ensures |fs| <= |After(c, lowF, false)| && |hs| <= |After(c, lowH, true)|
    ensures load <= Load(c, lowF, lowH)
    decreases |c| - n
  {
    if n < |c| {
      CollectedStep(c, n, lowF, lowH, fs, hs, load);
      var p := c[n];
      CollectedGrows(c, n + 1, lowF, lowH, Taken(fs, p, lowF, false), Taken(hs, p, lowH, true),
                     Load(c[..n + 1], lowF, lowH));
    } else {
      assert c[..n] == c;
    }
  }

  lemma LoadStep(s: seq<Sample>, k: nat, lowF: int, lowH: int)
    requires k < |s|
    ensures var p := s[k];
            && After(s[..k + 1], lowF, false) == After(s[..k], lowF, false)
               + (if Wanted(p, false) && lowF < p.t then [p.AsFloat()] else [])
            && After(s[..k + 1], lowH, true) == After(s[..k], lowH, true)
               + (if Wanted(p, true) && lowH < p.t then [p.AsFloat()] else [])
            && Load(s[..k + 1], lowF, lowH) == Load(s[..k], lowF, lowH)
               + LoadOf(p, lowF, lowH)
  {
    assert s[..k + 1][..k] == s[..k];
    TotalSizeConcat(After(s[..k], lowF, false), [s[k].AsFloat()]);
    TotalSizeConcat(After(s[..k], lowH, true), [s[k].AsFloat()]);
    SingleSize(s[k].AsFloat());
    assert After(s[..k], lowF, false) + [] == After(s[..k], lowF, false);
    assert After(s[..k], lowH, true) + [] == After(s[..k], lowH, true);
  }

  lemma SingleSize(p: Sample)
    ensures TotalSize([p]) == SizeOf(p)
  {
    assert [p][..0] == [];
  }

  /**
   * What a step first takes off `currentSamples`. For histograms the code subtracts the
   * size of the retained points where it means that of the dropped ones.
   */
  function Uncounted(fs: seq<Sample>, hs: seq<Sample>, mint: int): int {
    |fs| - |Retained(fs, mint)|
    + (if |Retained(hs, mint)| > 0 then TotalSize(Retained(hs, mint)) else TotalSize(hs))
  }

  /** What a step adds to `currentSamples`. */
  function Cost(b: BufState, p: Points, w: Span): int {
    NewLoad(b, Low(p.floats, w.lo), Low(p.hists, w.lo), w.hi) - Uncounted(p.floats, p.hists, w.lo)
  }

  function NewLoad(b: BufState, lowF: int, lowH: int, maxt: int): nat {
    TotalSize(New(b, lowF, maxt, false)) + TotalSize(New(b, lowH, maxt, true))
  }

  /** How many points a step appends. */
  function Appended(b: BufState, p: Points, w: Span): nat {
    |New(b, Low(p.floats, w.lo), w.hi, false)| + |New(b, Low(p.hists, w.lo), w.hi, true)|
  }

  lemma NewSizes(b: BufState, lowF: int, lowH: int, maxt: int, before: int)
    requires before == maxt - 1
    ensures NewLoad(b, lowF, lowH, maxt) == Load(b.buffered, lowF, lowH)
            + (if !b.Exhausted() && b.series[b.pos].t == maxt
               then LoadOf(b.series[b.pos], before, before) else 0)
  {
    TotalSizeConcat(After(b.buffered, lowF, false), Sought(b, maxt, false));
    TotalSizeConcat(After(b.buffered, lowH, true), Sought(b, maxt, true));
    if !b.Exhausted() {
      SingleSize(b.series[b.pos].AsFloat());
    }
  }

  /** A sample exactly at the end of the window is taken last. */
  lemma SoughtTaken(b: BufState, low: int, maxt: int, before: int, hist: bool)
    requires !b.Exhausted() && b.series[b.pos].t == maxt && before == maxt - 1
    ensures Taken(After(b.buffered, low, hist), b.series[b.pos], before, hist) == New(b, low, maxt, hist)
  {
  }

  lemma NothingSought(b: BufState, low: int, maxt: int, hist: bool)
    ensures b.Exhausted() || b.series[b.pos].t != maxt ==> New(b, low, maxt, hist) == After(b.buffered, low, hist)
  {
  }

  /** What the points of a step count for against the limit. */
  function Weight(p: Points): nat {
    |p.floats| + TotalSize(p.hists)
  }

  /** A float weighs one, a histogram its size. */
  lemma WeightExactly(p: Points, x: Sample, t: int, h: FloatHistogram)
    ensures Weight(Points([], [])) == 0
    ensures Weight(Points(p.floats + [x], p.hists)) == Weight(p) + 1
    ensures Weight(Points(p.floats, p.hists + [FHSample(t, h)])) == Weight(p) + h.size
  {
    var hs := p.hists + [FHSample(t, h)];
    assert hs[..|hs| - 1] == p.hists;
  }

  lemma {:induction false} FloatsWeighOne(s: seq<Sample>, low: int)
    ensures TotalSize(After(s, low, false)) == |After(s, low, false)|
    decreases |s|
  {
    if s != [] {
      var init, last := After(s[..|s| - 1], low, false), s[|s| - 1];
      FloatsWeighOne(s[..|s| - 1], low);
      TotalSizeConcat(init, [last.AsFloat()]);
      SingleSize(last.AsFloat());
      assert init + [] == init;
    }
  }

  /** By how much a step miscounts: the dropped minus the retained histograms of an overlap. */
  function Drift(p: Points, w: Span): int {
    var kept := Retained(p.hists, w.lo);
    if |kept| > 0 then TotalSize(p.hists) - 2 * TotalSize(kept) else 0
  }

  /**
   * The counter moves by the change in weight plus the drift. So it is exact for float-only
   * series, and in general exactly when no histogram is retained or the retained ones weigh
   * as much as the dropped ones.
   */
  lemma Accounting(b: BufState, p: Points, w: Span)
    ensures Cost(b, p, w) == Weight(Slices(b, p, w)) - Weight(p) + Drift(p, w)
    ensures p.hists == [] ==> Cost(b, p, w) == Weight(Slices(b, p, w)) - Weight(p)
    ensures var kept := Retained(p.hists, w.lo);
            Cost(b, p, w) == Weight(Slices(b, p, w)) - Weight(p)
            <==> |kept| == 0 || TotalSize(kept) == TotalSize(p.hists) - TotalSize(kept)
  {
    var lowF, lowH := Low(p.floats, w.lo), Low(p.hists, w.lo);
    FloatsWeighOne(b.buffered, lowF);
    TotalSizeConcat(After(b.buffered, lowF, false), Sought(b, w.hi, false));
    if Sought(b, w.hi, false) != [] {
      SingleSize(b.series[b.pos].AsFloat());
    }
    TotalSizeConcat(Retained(p.hists, w.lo), New(b, lowH, w.hi, true));
  }
}
