/**
 * `extrapolatedRate` on float samples, over the reals: the increase of a counter with its
 * resets undone, extrapolated to the boundaries of the range or less.
 */
module Rate {
  import opened Options

  /** A float sample; time in milliseconds. */
  datatype Point = Point(t: int, f: real)

  // ----- the increase -----

  /** A drop means that the counter restarted from zero. */
  function StepIncrease(prev: real, curr: real): real {
    if curr < prev then curr else curr - prev
  }

  /** Sum of the increases from each point to the next. */
  function Increase(ps: seq<Point>): real {
    if |ps| < 2 then 0.0
    else Increase(ps[..|ps| - 1]) + StepIncrease(ps[|ps| - 2].f, ps[|ps| - 1].f)
  }

  /** The increase over a series is that up to any of its points plus that from there on. */
  lemma {:induction false} IncreaseSplits(ps: seq<Point>, k: nat)
    requires k < |ps|
    ensures Increase(ps) == Increase(ps[..k + 1]) + Increase(ps[k..])
    decreases |ps|
  {
    if k == |ps| - 1 {
      assert ps[..k + 1] == ps;
    } else {
      var init := ps[..|ps| - 1];
      IncreaseSplits(init, k);
      assert init[..k + 1] == ps[..k + 1];
      var tail := ps[k..];
      assert tail[..|tail| - 1] == init[k..];
      assert tail[|tail| - 2] == ps[|ps| - 2] && tail[|tail| - 1] == ps[|ps| - 1];
    }
  }

  /** From one point to the next; with `IncreaseSplits` this gives the increase over any points. */
  lemma IncreaseOfTwo(a: Point, b: Point)
    ensures Increase([a, b]) == if b.f < a.f then b.f else b.f - a.f
  {
    assert Increase([a, b][..1]) == 0.0;
  }

  lemma {:induction false} IncreaseNonNegative(ps: seq<Point>)
    requires forall i :: 0 <= i < |ps| ==> ps[i].f >= 0.0
    ensures Increase(ps) >= 0.0
    decreases |ps|
  {
    if |ps| >= 2 {
      IncreaseNonNegative(ps[..|ps| - 1]);
    }
  }

  /** The counter was reset before point `i`. */
  predicate Drops(ps: seq<Point>, i: nat)
    requires 0 < i < |ps|
  {
    ps[i].f < ps[i - 1].f
  }

  /** Without a reset it is the difference of the ends, and only then for positive counters. */
  lemma {:induction false} IncreaseWithoutResets(ps: seq<Point>)
    requires ps != [] && forall i :: 0 <= i < |ps| ==> ps[i].f > 0.0
    ensures Increase(ps) >= ps[|ps| - 1].f - ps[0].f
    ensures Increase(ps) == ps[|ps| - 1].f - ps[0].f <==> forall i: nat :: 0 < i < |ps| ==> !Drops(ps, i)
    decreases |ps|
  {
    if |ps| >= 2 {
      var init, n := ps[..|ps| - 1], |ps| - 1;
      IncreaseWithoutResets(init);
      assert init[|init| - 1] == ps[n - 1];
      forall i: nat | 0 < i < n ensures Drops(init, i) <==> Drops(ps, i) {
        assert init[i] == ps[i] && init[i - 1] == ps[i - 1];
      }
      assert Drops(ps, n) <==> ps[n].f < ps[n - 1].f;
    }
  }

  /** Last minus first value, plus for a counter what was lost in each reset. */
  method Difference(ps: seq<Point>, isCounter: bool) returns (result: real)
    requires |ps| >= 2
    ensures result == if isCounter then Increase(ps) else ps[|ps| - 1].f - ps[0].f
  {
    result := ps[|ps| - 1].f - ps[0].f;
    if !isCounter {
      return;
    }
    var prevValue := ps[0].f;
    ghost var lost := 0.0;
    for i := 1 to |ps|
      invariant prevValue == ps[i - 1].f && result == ps[|ps| - 1].f - ps[0].f + lost
      invariant Increase(ps[..i]) == prevValue - ps[0].f + lost
    {
      assert ps[..i + 1][..i] == ps[..i];
      if ps[i].f < prevValue {
        result := result + prevValue;
        lost := lost + prevValue;
      }
      prevValue := ps[i].f;
    }
    assert ps[..|ps|] == ps;
  }

  // ----- the extrapolation -----

  /** A range selector's window `(start, end]`, in milliseconds. */
  datatype Range = Range(start: int, end: int)

  function Seconds(ms: int): real {
    ms as real / 1000.0
  }

  ghost predicate Increasing(ps: seq<Point>) {
    forall i, j :: 0 <= i < j < |ps| ==> ps[i].t < ps[j].t
  }

  /** Points as a range selector delivers them. */
  ghost predicate Within(ps: seq<Point>, r: Range) {
    Increasing(ps) && forall i :: 0 <= i < |ps| ==> r.start < ps[i].t <= r.end
  }

  function Sampled(ps: seq<Point>): real
    requires ps != []
  {
    Seconds(ps[|ps| - 1].t - ps[0].t)
  }

  function Average(ps: seq<Point>): real
    requires |ps| >= 2
  {
    Sampled(ps) / (|ps| - 1) as real
  }

  /** How far to go beyond a sample that is `d` away from the boundary. */
  function Reach(d: real, average: real): real {
    if d >= average * 1.1 then average / 2.0 else d
  }

  /** How long before its first sample a counter would have been zero, at its average slope. */
  function ToZero(sampled: real, first: real, increase: real): real
    requires increase > 0.0
  {
    sampled * (first / increase)
  }

  /** Extrapolation before the first sample; a counter is not taken below zero. */
  function Before(ps: seq<Point>, r: Range, isCounter: bool, result: real): real
    requires |ps| >= 2
  {
    var d := Reach(Seconds(ps[0].t - r.start), Average(ps));
    if isCounter && result > 0.0 && ps[0].f >= 0.0 && ToZero(Sampled(ps), ps[0].f, result) < d
    then ToZero(Sampled(ps), ps[0].f, result) else d
  }

  /** Extrapolation after the last sample. */
  function Beyond(ps: seq<Point>, r: Range): real
    requires |ps| >= 2
  {
    Reach(Seconds(r.end - ps[|ps| - 1].t), Average(ps))
  }

  function ExtrapolateTo(ps: seq<Point>, r: Range, isCounter: bool, result: real): real
    requires |ps| >= 2
  {
    Sampled(ps) + Before(ps, r, isCounter, result) + Beyond(ps, r)
  }

  function Result(ps: seq<Point>, isCounter: bool): real
    requires |ps| >= 2
  {
    if isCounter then Increase(ps) else ps[|ps| - 1].f - ps[0].f
  }

  /** What the samples show, stretched from the sampled to the extrapolated interval. */
  function Stretched(result: real, to: real, sampled: real): real
    requires sampled > 0.0
  {
    result * (to / sampled)
  }

  lemma SampledPositive(ps: seq<Point>, r: Range)
    requires |ps| >= 2 && Within(ps, r)
    ensures Sampled(ps) > 0.0 && Average(ps) > 0.0
    ensures Seconds(ps[0].t - r.start) > 0.0 && Seconds(r.end - ps[|ps| - 1].t) >= 0.0
    ensures Seconds(ps[0].t - r.start) + Sampled(ps) + Seconds(r.end - ps[|ps| - 1].t) == Seconds(r.end - r.start)
  {
    assert ps[0].t < ps[|ps| - 1].t;
  }

  /** `extrapolatedRate` for float samples; fewer than two give no result. */
  method ExtrapolatedRate(ps: seq<Point>, r: Range, isCounter: bool, isRate: bool) returns (out: Option<real>)
    requires Within(ps, r)
    ensures |ps| < 2 ==> out.None?
    ensures |ps| >= 2 ==>
              && Sampled(ps) > 0.0 && Seconds(r.end - r.start) > 0.0
              && out == Some(if isRate then PerSecond(Extrapolated(ps, r, isCounter), r) else Extrapolated(ps, r, isCounter))
  {
    if |ps| < 2 {
      return None;
    }
    SampledPositive(ps, r);
    var resultFloat := Difference(ps, isCounter);
    var extrapolateToInterval := Extrapolate(ps, r, isCounter, resultFloat);
    resultFloat := Scale(resultFloat, extrapolateToInterval, Seconds(ps[|ps| - 1].t - ps[0].t), r, isRate);
    out := Some(resultFloat);
  }

  /** Multiplies by the factor of the extrapolation, and for a rate divides by the range. */
  method Scale(result: real, to: real, sampled: real, r: Range, isRate: bool) returns (scaled: real)
    requires sampled > 0.0 && Seconds(r.end - r.start) > 0.0
    ensures scaled == if isRate then PerSecond(Stretched(result, to, sampled), r) else Stretched(result, to, sampled)
  {
    var factor := to / sampled;
    if isRate {
      RateOfIncrease(result, factor, r);
      factor := factor / Seconds(r.end - r.start);
    }
    scaled := result * factor;
  }

  /** The increase over the range, or the difference. */
  function Extrapolated(ps: seq<Point>, r: Range, isCounter: bool): real
    requires |ps| >= 2 && Sampled(ps) > 0.0
  {
    var result := Result(ps, isCounter);
    Stretched(result, ExtrapolateTo(ps, r, isCounter, result), Sampled(ps))
  }

  function PerSecond(x: real, r: Range): real
    requires Seconds(r.end - r.start) > 0.0
  {
    x / Seconds(r.end - r.start)
  }

  /** The interval to extrapolate to. */
  method Extrapolate(ps: seq<Point>, r: Range, isCounter: bool, resultFloat: real) returns (to: real)
    requires |ps| >= 2
    ensures to == ExtrapolateTo(ps, r, isCounter, resultFloat)
  {
    var durationToStart := Seconds(ps[0].t - r.start);
    var durationToEnd := Seconds(r.end - ps[|ps| - 1].t);
    var sampledInterval := Seconds(ps[|ps| - 1].t - ps[0].t);
    var average := sampledInterval / (|ps| - 1) as real;
    var threshold := average * 1.1;
    to := sampledInterval;
    if durationToStart >= threshold {
      durationToStart := average / 2.0;
    }
    if isCounter && resultFloat > 0.0 && ps[0].f >= 0.0 {
      var durationToZero := sampledInterval * (ps[0].f / resultFloat);
      if durationToZero < durationToStart {
        durationToStart := durationToZero;
      }
    }
    to := to + durationToStart;
    if durationToEnd >= threshold {
      durationToEnd := average / 2.0;
    }
    to := to + durationToEnd;
  }

  lemma RateOfIncrease(result: real, factor: real, r: Range)
    requires Seconds(r.end - r.start) > 0.0
    ensures result * (factor / Seconds(r.end - r.start)) == PerSecond(result * factor, r)
  {
  }

  // ----- bounds -----

  lemma ReachBound(d: real, average: real)
    requires average > 0.0 && d >= 0.0
    ensures 0.0 <= Reach(d, average) <= d
  {
  }

  lemma ToZeroNonNegative(sampled: real, first: real, increase: real)
    requires sampled > 0.0 && first >= 0.0 && increase > 0.0
    ensures ToZero(sampled, first, increase) >= 0.0
  {
    assert first / increase >= 0.0;
  }

  /** The interval extrapolated to covers the samples and never exceeds the range. */
  lemma ExtrapolationBounds(ps: seq<Point>, r: Range, isCounter: bool, result: real)
    requires |ps| >= 2 && Within(ps, r)
    ensures Sampled(ps) <= ExtrapolateTo(ps, r, isCounter, result) <= Seconds(r.end - r.start)
  {
    SampledPositive(ps, r);
    ReachBound(Seconds(ps[0].t - r.start), Average(ps));
    ReachBound(Seconds(r.end - ps[|ps| - 1].t), Average(ps));
    if result > 0.0 && ps[0].f >= 0.0 {
      ToZeroNonNegative(Sampled(ps), ps[0].f, result);
    }
  }

  /** Value that a line of the average slope has `d` seconds before the first sample. */
  function Backward(first: real, increase: real, sampled: real, d: real): real
    requires sampled > 0.0
  {
    first - (increase / sampled) * d
  }

  lemma SlopeToZero(sampled: real, first: real, increase: real, d: real)
    requires sampled > 0.0 && increase > 0.0 && d <= ToZero(sampled, first, increase)
    ensures Backward(first, increase, sampled, d) >= 0.0
  {
    var slope, q := increase / sampled, first / increase;
    assert slope > 0.0;
    ScaleUp(slope, d, sampled * q);
    calc {
      slope * (sampled * q);
      (slope * sampled) * q;
      { assert slope * sampled == increase; }
      increase * q;
      first;
    }
  }

  lemma ScaleUp(x: real, a: real, b: real)
    requires x >= 0.0 && a <= b
    ensures x * a <= x * b
  {
  }

  /** Following the average slope back to the chosen start never takes a counter below zero. */
  lemma NeverBelowZero(ps: seq<Point>, r: Range)
    requires |ps| >= 2 && Within(ps, r) && ps[0].f >= 0.0 && Increase(ps) > 0.0
    ensures Sampled(ps) > 0.0
    ensures Backward(ps[0].f, Increase(ps), Sampled(ps), Before(ps, r, true, Increase(ps))) >= 0.0
  {
    SampledPositive(ps, r);
    SlopeToZero(Sampled(ps), ps[0].f, Increase(ps), Before(ps, r, true, Increase(ps)));
  }

  lemma Factor(e: real, s: real, w: real, x: real)
    requires 0.0 < s <= e <= w && x >= 0.0
    ensures x <= Stretched(x, e, s) <= Stretched(x, w, s)
  {
    assert 1.0 <= e / s <= w / s by {
      assert (e / s) * s == e && (w / s) * s == w;
    }
    ScaleUp(x, 1.0, e / s);
    ScaleUp(x, e / s, w / s);
  }

  /**
   * `increase` of a non-negative counter: at least what was observed, and at most what the
   * observed slope would give over the whole range.
   */
  lemma IncreaseBounds(ps: seq<Point>, r: Range)
    requires |ps| >= 2 && Within(ps, r) && forall i :: 0 <= i < |ps| ==> ps[i].f >= 0.0
    ensures Sampled(ps) > 0.0
    ensures var x := Increase(ps);
            0.0 <= x <= Extrapolated(ps, r, true) <= Stretched(x, Seconds(r.end - r.start), Sampled(ps))
  {
    IncreaseNonNegative(ps);
    SampledPositive(ps, r);
    var x := Increase(ps);
    ExtrapolationBounds(ps, r, true, x);
    Factor(ExtrapolateTo(ps, r, true, x), Sampled(ps), Seconds(r.end - r.start), x);
  }

  // ----- how far the extrapolation goes -----

  /** A distance to the boundary below 1.1 average distances is covered; else half an average one is. */
  predicate Covers(d: real, average: real, covered: real) {
    if d < average * 1.1 then covered == d else covered == average / 2.0
  }

  /** Times in milliseconds, durations in seconds. */
  ghost predicate Extends(ps: seq<Point>, r: Range, isCounter: bool, result: real, before: real, beyond: real)
    requires |ps| >= 2 && ps[0].t < ps[|ps| - 1].t
  {
    var last := |ps| - 1;
    var sampled := (ps[last].t - ps[0].t) as real / 1000.0;
    var average := sampled / last as real;
    && Covers((r.end - ps[last].t) as real / 1000.0, average, beyond)
    && if isCounter && result > 0.0 && ps[0].f >= 0.0
       then CutAtZero((ps[0].t - r.start) as real / 1000.0, average, result / sampled, ps[0].f, before)
       else Covers((ps[0].t - r.start) as real / 1000.0, average, before)
  }

  /** The same toward the start, but not past the point where a line of that slope meets zero. */
  ghost predicate CutAtZero(d: real, average: real, slope: real, first: real, covered: real) {
    exists full :: Covers(d, average, full) && covered <= full
      && slope * covered <= first && (covered < full ==> slope * covered == first)
  }

  lemma ReachCovers(d: real, average: real)
    ensures Covers(d, average, Reach(d, average))
  {
  }

  lemma MeetsZero(sampled: real, first: real, increase: real, d: real)
    requires sampled > 0.0 && increase > 0.0
    ensures (increase / sampled) * ToZero(sampled, first, increase) == first
    ensures d <= ToZero(sampled, first, increase) ==> (increase / sampled) * d <= first
  {
    var slope, q := increase / sampled, first / increase;
    assert slope > 0.0 && slope * sampled == increase && increase * q == first;
    assert slope * (sampled * q) == (slope * sampled) * q;
    if d <= ToZero(sampled, first, increase) {
      ScaleUp(slope, d, sampled * q);
    }
  }

  lemma StartCovered(ps: seq<Point>, r: Range, result: real)
    requires |ps| >= 2 && Sampled(ps) > 0.0 && result > 0.0 && ps[0].f >= 0.0
    ensures CutAtZero(Seconds(ps[0].t - r.start), Average(ps), result / Sampled(ps), ps[0].f, Before(ps, r, true, result))
  {
    var full, covered := Reach(Seconds(ps[0].t - r.start), Average(ps)), Before(ps, r, true, result);
    ReachCovers(Seconds(ps[0].t - r.start), Average(ps));
    MeetsZero(Sampled(ps), ps[0].f, result, covered);
  }

  lemma StretchedBack(result: real, to: real, sampled: real)
    requires sampled > 0.0
    ensures Stretched(result, to, sampled) * sampled == result * to
  {
    assert (to / sampled) * sampled == to;
    assert (result * (to / sampled)) * sampled == result * ((to / sampled) * sampled);
  }

  lemma BothEndsCovered(ps: seq<Point>, r: Range, isCounter: bool, result: real)
    requires |ps| >= 2 && Within(ps, r)
    ensures ps[0].t < ps[|ps| - 1].t
    ensures Extends(ps, r, isCounter, result, Before(ps, r, isCounter, result), Beyond(ps, r))
  {
    SampledPositive(ps, r);
    ReachCovers(Seconds(r.end - ps[|ps| - 1].t), Average(ps));
    ReachCovers(Seconds(ps[0].t - r.start), Average(ps));
    if isCounter && result > 0.0 && ps[0].f >= 0.0 {
      StartCovered(ps, r, result);
    }
  }

  /** The result relates to what the samples show as the extrapolated interval to the sampled one. */
  lemma ExtrapolatedExactly(ps: seq<Point>, r: Range, isCounter: bool, result: real, sampled: real, to: real)
    requires |ps| >= 2 && Within(ps, r) && result == if isCounter then Increase(ps) else ps[|ps| - 1].f - ps[0].f
    requires sampled == (ps[|ps| - 1].t - ps[0].t) as real / 1000.0
    requires to == sampled + Before(ps, r, isCounter, result) + Beyond(ps, r)
    ensures sampled == Sampled(ps) > 0.0
    ensures Extrapolated(ps, r, isCounter) * sampled == result * to
  {
    SampledPositive(ps, r);
    assert Extrapolated(ps, r, isCounter) == Stretched(result, to, sampled);
    StretchedBack(result, to, sampled);
  }

  /** A rate is the increase per second of the range, which is given in milliseconds. */
  lemma PerSecondExactly(x: real, r: Range)
    requires r.start < r.end
    ensures PerSecond(x, r) * (r.end - r.start) as real == 1000.0 * x
  {
    var ms := (r.end - r.start) as real;
    assert (x / (ms / 1000.0)) * (ms / 1000.0) == x;
  }
}
