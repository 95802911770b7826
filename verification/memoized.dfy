/**
 * Instant selectors: `MemoizedSeriesIterator`, which remembers one sample behind the
 * current one, and `vectorSelectorSingle`, which looks a bounded time back with it.
 */
module Memoized {
  import opened Options
  import opened Samples

  // ----- the reference: search the whole series -----

  /** The latest sample in `(lo, ref]`, unless there is none or it is a staleness marker. */
  function Latest(s: seq<Sample>, lo: int, ref: int): Option<Sample> {
    if s == [] then None else
      var last := s[|s| - 1];
      if last.t > ref then Latest(s[..|s| - 1], lo, ref)
      else if last.t > lo && !last.Stale() then Some(last.AsFloat())
      else None
  }

  /** In an increasing series only the last sample up to `ref` matters. */
  lemma {:induction false} LatestExactly(s: seq<Sample>, lo: int, ref: int, i: nat)
    requires Increasing(s) && i < |s| && s[i].t <= ref && (i + 1 < |s| ==> ref < s[i + 1].t)
    ensures Latest(s, lo, ref)
            == match s[i]
               case FSample(t, f) => if t > lo && f != StaleNaN then Some(FSample(t, f)) else None
               case FHSample(t, h) => if t > lo && h.sum != StaleNaN then Some(FHSample(t, h)) else None
               case HSample(t, h) =>
                 if t > lo && h.sum != StaleNaN then Some(FHSample(t, FloatHistogram(h.sum, h.size, h.body))) else None
    decreases |s|
  {
    if i < |s| - 1 {
      var init := s[..|s| - 1];
      assert s == init + [s[|s| - 1]];
      IncreasingInit(init, s[|s| - 1]);
      assert i + 1 < |s| - 1 ==> Earlier(s, i + 1, |s| - 1);
      LatestExactly(init, lo, ref, i);
    }
  }

  lemma {:induction false} NothingYet(s: seq<Sample>, lo: int, ref: int)
    requires forall i :: 0 <= i < |s| ==> s[i].t > ref
    ensures Latest(s, lo, ref) == None
    decreases |s|
  {
    if s != [] {
      NothingYet(s[..|s| - 1], lo, ref);
    }
  }

  // ----- the iterator as a value -----

  datatype MemState = MemState(series: seq<Sample>, pos: nat, lastTime: int,
                               prevTime: int, prevValue: Float, prevHist: Option<FloatHistogram>) {
    predicate Exhausted() {
      pos >= |series|
    }

    function At(p: nat): MemState {
      this.(pos := p, lastTime := if p < |series| then series[p].t else lastTime)
    }

    function Remember(s: Sample): MemState {
      match s
      case FSample(t, f) => this.(prevTime := t, prevValue := f, prevHist := None)
      case HSample(t, h) => this.(prevTime := t, prevValue := Finite(0.0), prevHist := Some(ToFloat(h)))
      case FHSample(t, fh) => this.(prevTime := t, prevValue := Finite(0.0), prevHist := Some(fh))
    }

    /** `PeekPrev`: the remembered sample; the smallest time means there is none. */
    function Peek(): Option<Sample> {
      if prevTime == MIN_TIME then None
      else if prevHist.Some? then Some(FHSample(prevTime, prevHist.value))
      else Some(FSample(prevTime, prevValue))
    }
  }

  function NextState(b: MemState): MemState {
    if b.Exhausted() then b else b.Remember(b.series[b.pos]).At(b.pos + 1)
  }

  function WalkState(b: MemState, t: int): MemState
    decreases |b.series| - b.pos
  {
    var n := NextState(b);
    if n.Exhausted() || n.lastTime >= t then n else WalkState(n, t)
  }

  /** `Seek(t)` of an iterator with the given delta; `t0` is `t - delta`. */
  function SeekState(b: MemState, t: int, t0: int): MemState {
    var j := if !b.Exhausted() && t0 > b.lastTime
             then b.(prevTime := MIN_TIME).At(SeekPos(b.series, b.pos, t0)) else b;
    if j.lastTime >= t then j else WalkState(j, t)
  }

  /** What `vectorSelectorSingle` reads off the iterator after its `Seek`. */
  function Selected(b: MemState, lo: int, ref: int): Option<Sample> {
    var found := if !b.Exhausted() && b.series[b.pos].t <= ref then Some(b.series[b.pos].AsFloat())
                 else if b.Peek().Some? && b.Peek().value.t > lo then b.Peek()
                 else None;
    if found.Some? && found.value.Stale() then None else found
  }

  // ----- one look-back is one search -----

  /** All samples passed precede `t`; one is remembered, or the last passed precedes `t0`. */
  ghost predicate Covers(b: MemState, t: int, t0: int) {
    && Increasing(b.series)
    && b.pos <= |b.series|
    && (!b.Exhausted() ==> b.lastTime == b.series[b.pos].t || (b.lastTime == MIN_TIME && b.pos == 0))
    && Older(b.series, b.pos, t)
    && (|| (b.pos > 0 && b.Peek() == Some(b.series[b.pos - 1].AsFloat()))
        || (b.Peek().None? && Older(b.series, b.pos, t0)))
  }

  lemma {:induction false} WalkCovers(b: MemState, t: int, t0: int)
    requires Covers(b, t, t0) && MIN_TIME < t0 <= t
    requires !b.Exhausted() ==> b.lastTime == b.series[b.pos].t < t
    ensures Covers(WalkState(b, t), t, t0)
    ensures var w := WalkState(b, t); w.series == b.series && (!w.Exhausted() ==> w.series[w.pos].t >= t)
    decreases |b.series| - b.pos
  {
    var n := NextState(b);
    if !(n.Exhausted() || n.lastTime >= t) {
      WalkCovers(n, t, t0);
    }
  }

  lemma SeekCovers(b: MemState, t: int, t0: int)
    requires Covers(b, t, t0) && MIN_TIME < t0 <= t
    ensures var s := SeekState(b, t, t0);
            Covers(s, t, t0) && s.series == b.series && (!s.Exhausted() ==> s.series[s.pos].t >= t)
  {
    var j := if !b.Exhausted() && t0 > b.lastTime
             then b.(prevTime := MIN_TIME).At(SeekPos(b.series, b.pos, t0)) else b;
    if !b.Exhausted() && t0 > b.lastTime {
      assert b.pos > 0 ==> Earlier(b.series, b.pos - 1, b.pos);
    }
    if j.lastTime < t {
      WalkCovers(j, t, t0);
    }
  }

  lemma {:induction false} LatestSkips(s: seq<Sample>, p: nat, lo: int, ref: int)
    requires p <= |s| && forall k :: p <= k < |s| ==> s[k].t > ref
    ensures Latest(s, lo, ref) == Latest(s[..p], lo, ref)
    decreases |s|
  {
    if p < |s| {
      LatestSkips(s[..|s| - 1], p, lo, ref);
      assert s[..|s| - 1][..p] == s[..p];
    } else {
      assert s[..p] == s;
    }
  }

  /** Which prefix decides: up to the sample found at `ref`, or all samples before it. */
  lemma SelectedIsLatest(b: MemState, lo: int, ref: int, t0: int)
    requires Covers(b, ref, t0) && (!b.Exhausted() ==> b.series[b.pos].t >= ref)
    requires t0 <= lo + 1 && lo < ref
    ensures Selected(b, lo, ref) == Latest(b.series, lo, ref)
  {
    var s := b.series;
    var p := if !b.Exhausted() && s[b.pos].t == ref then b.pos + 1 else b.pos;
    forall k | p <= k < |s|
      ensures s[k].t > ref
    {
      assert k > b.pos ==> Earlier(s, b.pos, k);
    }
    LatestSkips(s, p, lo, ref);
    if p > 0 {
      assert s[..p][|s[..p]| - 1] == s[p - 1];
    }
  }

  /**
   * One `vectorSelectorSingle`: from an iterator that covers an earlier reference time,
   * the look-back yields what a search of the whole series yields, and the iterator
   * covers the new reference time.
   */
  lemma SelectIsSearch(b: MemState, ref0: int, ref: int, lookback: int, delta: int)
    requires Covers(b, ref0, ref0 - delta) && ref0 <= ref
    requires 0 <= delta && 1 <= lookback <= delta + 1 && MIN_TIME < ref - delta
    ensures var s := SeekState(b, ref, ref - delta);
            && Covers(s, ref, ref - delta) && s.series == b.series
            && Selected(s, ref - lookback, ref) == Latest(b.series, ref - lookback, ref)
  {
    var t0, lo := ref - delta, ref - lookback;
    SeekCovers(b, ref, t0);
    SelectedIsLatest(SeekState(b, ref, t0), lo, ref, t0);
  }

  /**
   * The delta is as small as it can be: one below `lookback - 1` misses a sample inside the
   * look-back, for every reference time.
   */
  lemma ShorterDeltaMisses(b: MemState, ref: int, lookback: int, delta: int)
    requires 0 <= delta < lookback - 1 && MIN_TIME < ref - lookback
    ensures var s := [FSample(ref - lookback + 1, Finite(1.0))];
            && Selected(SeekState(Reopened(b, s), ref, ref - delta), ref - lookback, ref).None?
            && Latest(s, ref - lookback, ref) == Some(s[0])
  {
    var p := FSample(ref - lookback + 1, Finite(1.0));
    assert SeekPos([p], 0, ref - delta) == 1;
  }

  // ----- the iterator as an object, and the evaluation of selectors -----

  function AsFloatType(vt: ValueType): ValueType {
    if vt == ValHistogram then ValFloatHistogram else vt
  }

  class MemoizedSeriesIterator {
    var series: seq<Sample> // The wrapped iterator:
    var pos: nat            // a series and a position in it.
    const delta: int
    var lastTime: int
    var valueType: ValueType
    var prevTime: int
    var prevValue: Float
    var prevFloatHistogram: Option<FloatHistogram>

    ghost predicate Valid()
      reads this
    {
      && pos <= |series|
      && (|| valueType == AsFloatType(TypeAt(series, pos))
          || (valueType == TypeAt(series, pos) && pos == 0 && lastTime == MIN_TIME))
    }

    ghost function Value(): MemState
      reads this
    {
      MemState(series, pos, lastTime, prevTime, prevValue, prevFloatHistogram)
    }

    constructor (delta: int)
      ensures Valid() && this.delta == delta && Value() == Reopened(Value(), [])
    {
      this.delta, series, pos := delta, [], 0;
      prevValue, prevFloatHistogram := Finite(0.0), None;
      lastTime, prevTime, valueType := MIN_TIME, MIN_TIME, ValNone;
    }

    /** Reuses the wrapper; the remembered value stays behind, hidden by its time. */
    method Reset(s: seq<Sample>)
      modifies this
      ensures Valid() && Value() == Reopened(old(Value()), s)
    {
      series, pos := s, 0;
      lastTime, prevTime := MIN_TIME, MIN_TIME;
      valueType := TypeAt(series, pos);
    }

    function PeekPrev(): Option<Sample>
      reads this
      ensures PeekPrev() == Value().Peek()
    {
      if prevTime == MIN_TIME then None
      else if prevFloatHistogram.Some? then Some(FHSample(prevTime, prevFloatHistogram.value))
      else Some(FSample(prevTime, prevValue))
    }

    method Next() returns (vt: ValueType)
      requires Valid()
      modifies this
      ensures Valid() && vt == valueType && Value() == NextState(old(Value()))
      ensures old(pos) < |series| ==> vt == AsFloatType(TypeAt(series, pos))
    {
      if valueType == ValNone {
        return ValNone;
      }
      match series[pos] {
        case FSample(t, f) =>
          prevTime, prevValue := t, f;
          prevFloatHistogram := None;
        case HSample(t, h) =>
          prevValue := Finite(0.0);
          prevTime, prevFloatHistogram := t, Some(ToFloat(h));
        case FHSample(t, fh) =>
          prevValue := Finite(0.0);
          prevTime, prevFloatHistogram := t, Some(fh);
      }
      pos := pos + 1;
      valueType := TypeAt(series, pos);
      if valueType != ValNone {
        lastTime := series[pos].t;
      }
      if valueType == ValHistogram {
        valueType := ValFloatHistogram;
      }
      vt := valueType;
    }

    method Seek(t: int, t0: int) returns (vt: ValueType)
      requires Valid() && t0 == t - delta && MIN_TIME < t0 <= t
      modifies this
      ensures Valid() && Value() == SeekState(old(Value()), t, t0)
      ensures vt == AsFloatType(TypeAt(series, pos))
    {
      if valueType != ValNone && t0 > lastTime {
        prevTime := MIN_TIME;
        pos := SeekPos(series, pos, t0);
        valueType := TypeAt(series, pos);
        if valueType == ValNone {
          return ValNone;
        }
        if valueType == ValHistogram {
          valueType := ValFloatHistogram;
        }
        lastTime := series[pos].t;
      }
      if lastTime >= t {
        return valueType;
      }
      vt := Walk(t);
    }

    /** The stepping half of `Seek`. */
    method Walk(t: int) returns (vt: ValueType)
      requires Valid()
      modifies this
      ensures Valid() && Value() == WalkState(old(Value()), t)
      ensures vt == AsFloatType(TypeAt(series, pos))
    {
      ghost var target := WalkState(Value(), t);
      while true
        invariant Valid() && WalkState(Value(), t) == target
        decreases |series| - pos
      {
        var v := Next();
        if v == ValNone {
          return ValNone;
        }
        if lastTime >= t {
          return valueType;
        }
      }
    }
  }

  /** The state after `Reset`. */
  function Reopened(b: MemState, series: seq<Sample>): MemState {
    b.(series := series, pos := 0, lastTime := MIN_TIME, prevTime := MIN_TIME)
  }

  /** `vectorSelectorSingle` at reference time `ref`. */
  method VectorSelectorSingle(it: MemoizedSeriesIterator, ref: int, ghost ref0: int, lookback: int)
    returns (r: Option<Sample>)
    requires it.Valid() && it.delta >= 0 && 1 <= lookback <= it.delta + 1 && MIN_TIME < ref - it.delta
    requires ref0 <= ref && Covers(it.Value(), ref0, ref0 - it.delta)
    modifies it
    ensures it.Valid() && it.series == old(it.series)
    ensures Covers(it.Value(), ref, ref - it.delta)
    ensures r == Latest(it.series, ref - lookback, ref)
  {
    SelectIsSearch(it.Value(), ref0, ref, lookback, it.delta);
    var t0 := ref - it.delta;
    var vt := it.Seek(ref, t0);
    r := Pick(it, vt, ref, ref - lookback);
  }

  /** What the iterator offers after its `Seek`: the sample found, or the one before it. */
  method Pick(it: MemoizedSeriesIterator, vt: ValueType, ref: int, lo: int) returns (r: Option<Sample>)
    requires it.Valid() && vt == AsFloatType(TypeAt(it.series, it.pos))
    ensures r == Selected(it.Value(), lo, ref)
  {
    if vt != ValNone && it.series[it.pos].t <= ref {
      r := Some(it.series[it.pos].AsFloat());
    } else {
      r := it.PeekPrev();
      if r.None? || r.value.t <= lo {
        return None;
      }
    }
    if r.value.Stale() {
      return None;
    }
  }

  /**
   * `evalSeries`: one iterator, reset for each series, asked at every reference time.
   * Whatever mix of jumps and single steps gets there, and also past the end of a series,
   * each answer is the search of that series.
   */
  method EvalSeries(all: seq<seq<Sample>>, refs: seq<int>, lookback: int, delta: int)
    returns (out: seq<seq<Option<Sample>>>)
    requires 0 <= delta && 1 <= lookback <= delta + 1
    requires forall i :: 0 <= i < |all| ==> Increasing(all[i])
    requires forall i, j :: 0 <= i < j < |refs| ==> refs[i] <= refs[j]
    requires forall i :: 0 <= i < |refs| ==> MIN_TIME < refs[i] - delta
    ensures |out| == |all| && forall i :: 0 <= i < |all| ==> |out[i]| == |refs|
    ensures forall i, k :: 0 <= i < |all| && 0 <= k < |refs| ==>
              out[i][k] == Latest(all[i], refs[k] - lookback, refs[k])
  {
    var it := new MemoizedSeriesIterator(delta);
    out := [];
    for n := 0 to |all|
      invariant fresh(it) && it.Valid() && it.delta == delta
      invariant |out| == n && forall i :: 0 <= i < n ==> |out[i]| == |refs|
      invariant forall i, k :: 0 <= i < n && 0 <= k < |refs| ==>
                  out[i][k] == Latest(all[i], refs[k] - lookback, refs[k])
    {
      it.Reset(all[n]);
      var row := EvalRow(it, refs, lookback);
      out := out + [row];
    }
  }

  method EvalRow(it: MemoizedSeriesIterator, refs: seq<int>, lookback: int)
    returns (row: seq<Option<Sample>>)
    requires it.Valid() && 0 <= it.delta && 1 <= lookback <= it.delta + 1 && Increasing(it.series)
    requires it.Value() == Reopened(it.Value(), it.series)
    requires forall i, j :: 0 <= i < j < |refs| ==> refs[i] <= refs[j]
    requires forall i :: 0 <= i < |refs| ==> MIN_TIME < refs[i] - it.delta
    modifies it
    ensures it.Valid()
    ensures |row| == |refs|
    ensures forall k :: 0 <= k < |refs| ==> row[k] == Latest(old(it.series), refs[k] - lookback, refs[k])
  {
    row := [];
    ghost var ref0 := if refs == [] then 0 else refs[0];
    for k := 0 to |refs|
      invariant it.Valid() && it.series == old(it.series) && |row| == k
      invariant (k < |refs| ==> ref0 <= refs[k]) && Covers(it.Value(), ref0, ref0 - it.delta)
      invariant forall j :: 0 <= j < k ==> row[j] == Latest(old(it.series), refs[j] - lookback, refs[j])
    {
      var r := VectorSelectorSingle(it, refs[k], ref0, lookback);
      row := row + [r];
      ref0 := refs[k];
    }
  }
}
