/** `BufferedSeriesIterator`: a series iterator with a time-bounded look-back ring. */
module Buffered {
  import opened Samples
  import opened Ring

  // ----- the iterator as a value -----

  /** Wrapped series and position, last time seen, and the look-back buffer. */
  datatype BufState = BufState(series: seq<Sample>, pos: nat, lastTime: int, delta: int, buffered: seq<Sample>) {
    predicate Exhausted() {
      pos >= |series|
    }

    function At(p: nat): BufState {
      this.(pos := p, lastTime := if p < |series| then series[p].t else lastTime)
    }
  }

  function Opened(series: seq<Sample>, delta: int): BufState {
    BufState(series, 0, MIN_TIME, delta, [])
  }

  function NextState(b: BufState): BufState {
    if b.Exhausted() then b else
      var s := b.series[b.pos];
      b.(buffered := DropOld(b.buffered + [s], Tmin(s, b.delta))).At(b.pos + 1)
  }

  /** Steps until `t` is reached. */
  function WalkState(b: BufState, t: int): BufState
    decreases |b.series| - b.pos
  {
    var n := NextState(b);
    if n.Exhausted() || n.lastTime >= t then n else WalkState(n, t)
  }

  /** Forgets the buffer and skips ahead when the look-back does not reach the last time seen. */
  function JumpState(b: BufState, t: int): BufState {
    if !b.Exhausted() && t - b.delta > b.lastTime then
      b.(buffered := []).At(SeekPos(b.series, b.pos, t - b.delta))
    else b
  }

  function SeekState(b: BufState, t: int): BufState {
    var j := JumpState(b, t);
    if j.lastTime >= t then j else WalkState(j, t)
  }

  function ReduceState(b: BufState, d: int): BufState {
    b.(delta := if d <= b.delta then d else b.delta, buffered := Reduced(b.buffered, b.delta, d))
  }

  // ----- the iterator as an object -----

  class BufferedSeriesIterator {
    var series: seq<Sample> // The wrapped iterator:
    var pos: nat            // a series and a position in it.
    const buf: SampleRing
    const delta: int
    var lastTime: int
    var valueType: ValueType

    ghost predicate Valid()
      reads this, buf, buf.Repr
    {
      buf.Valid() && delta >= 0 && valueType == TypeAt(series, pos)
    }

    ghost function Value(): BufState
      reads this, buf
    {
      BufState(series, pos, lastTime, buf.delta, buf.contents)
    }

    /** `NewBuffer` followed by the first `Reset`. */
    constructor (series: seq<Sample>, delta: int)
      requires delta >= 0
      ensures Valid() && Value() == Opened(series, delta) && this.delta == delta
      ensures fresh(buf) && fresh(buf.Repr)
    {
      this.delta, this.series, pos := delta, series, 0;
      buf := new SampleRing(delta);
      lastTime := MIN_TIME;
      valueType := TypeAt(series, 0);
    }

    /** Reuses the buffer for another series and restores the original delta. */
    method Reset(s: seq<Sample>)
      requires Valid()
      modifies this, buf
      ensures Valid() && Value() == Opened(s, delta)
      ensures fresh(buf.Repr - old(buf.Repr))
    {
      series, pos := s, 0;
      lastTime := MIN_TIME;
      buf.Reset();
      buf.delta := delta;
      valueType := TypeAt(series, pos);
    }

    method ReduceDelta(d: int) returns (ok: bool)
      requires Valid() && d >= 0
      modifies buf
      ensures Valid() && Value() == ReduceState(old(Value()), d)
      ensures ok == (d <= old(buf.delta))
      ensures buf.Repr == old(buf.Repr)
    {
      ok := buf.ReduceDelta(d);
    }

    /** The wrapped iterator moves, and the time it arrives at is noted. */
    method MoveTo(p: nat)
      requires Valid()
      modifies this`pos, this`lastTime, this`valueType
      ensures Valid() && Value() == old(Value()).At(p)
    {
      pos := p;
      valueType := TypeAt(series, pos);
      if valueType != ValNone {
        lastTime := series[pos].t;
      }
    }

    /** Buffers the current sample and advances. */
    method Next() returns (vt: ValueType)
      requires Valid()
      modifies this`pos, this`lastTime, this`valueType, buf, buf.Repr
      ensures Valid() && vt == valueType && Value() == NextState(old(Value()))
      ensures fresh(buf.Repr - old(buf.Repr))
    {
      if valueType == ValNone {
        return ValNone;
      }
      ghost var b, s := Value(), series[pos];
      buf.Add(series[pos]);
      assert Value() == b.(buffered := DropOld(b.buffered + [s], Tmin(s, b.delta)));
      MoveTo(pos + 1);
      vt := valueType;
    }

    /** The skipping half of `Seek`. */
    method Jump(t0: int)
      requires Valid() && pos <= |series|
      modifies this`pos, this`lastTime, this`valueType, buf
      ensures Valid()
      ensures Value() == old(Value()).(buffered := []).At(SeekPos(series, old(pos), t0))
      ensures fresh(buf.Repr - old(buf.Repr))
    {
      MoveTo(SeekPos(series, pos, t0));
      buf.Reset();
    }

    /** The stepping half of `Seek`: fills the buffer on the way. */
    method Walk(t: int)
      requires Valid()
      modifies this`pos, this`lastTime, this`valueType, buf, buf.Repr
      ensures Valid() && Value() == WalkState(old(Value()), t)
      ensures fresh(buf.Repr - old(buf.Repr))
    {
      ghost var target := WalkState(Value(), t);
      while true
        invariant Valid() && WalkState(Value(), t) == target
        invariant fresh(buf.Repr - old(buf.Repr))
        decreases |series| - pos
      {
        var v := Next();
        if v == ValNone || lastTime >= t {
          return;
        }
      }
    }

    /** Jumps if the look-back does not reach the last time seen; tells whether that ended the series. */
    method Approach(t: int) returns (ended: bool)
      requires Valid() && pos <= |series|
      modifies this`pos, this`lastTime, this`valueType, buf
      ensures Valid() && Value() == JumpState(old(Value()), t) && (ended ==> valueType == ValNone)
      ensures fresh(buf.Repr - old(buf.Repr))
    {
      ended := false;
      var t0 := t - buf.delta;
      if valueType != ValNone && t0 > lastTime {
        Jump(t0);
        ended := valueType == ValNone;
      }
    }

    method Seek(t: int) returns (vt: ValueType)
      requires Valid() && pos <= |series|
      modifies this`pos, this`lastTime, this`valueType, buf, buf.Repr
      ensures Valid() && vt == valueType && Value() == SeekState(old(Value()), t)
      ensures fresh(buf.Repr - old(buf.Repr))
    {
      var ended := Approach(t);
      if ended {
        return ValNone;
      }
      if lastTime < t {
        Walk(t);
      }
      vt := valueType;
    }
  }

  // ----- what the look-back covers -----

  /**
   * The buffer holds exactly the samples from `start` up to the position; all samples
   * passed precede `t`, and all that are not buffered precede `t - delta`.
   */
  ghost predicate Covers(b: BufState, start: nat, t: int) {
    && Increasing(b.series) && b.delta >= 0
    && start <= b.pos <= |b.series|
    && b.buffered == b.series[start..b.pos]
    && (b.pos < |b.series| ==> b.lastTime == b.series[b.pos].t || (b.lastTime == MIN_TIME && b.pos == 0))
    && Older(b.series, b.pos, t)
    && Older(b.series, start, t - b.delta)
  }

  /** Eviction from a run of the series drops a prefix, and only samples older than `tmin`. */
  lemma {:induction false} DropFromRun(series: seq<Sample>, start: nat, end: nat, tmin: int)
    returns (start': nat)
    requires start <= end <= |series|
    ensures start <= start' <= end
    ensures DropOld(series[start..end], tmin) == series[start'..end]
    ensures start' > start ==> Older(series, start', tmin)
    decreases end - start
  {
    start' := start;
    if start < end && series[start].t < tmin {
      assert series[start..end][1..] == series[start + 1..end];
      start' := DropFromRun(series, start + 1, end, tmin);
    }
  }

  lemma OpenedCovers(series: seq<Sample>, delta: nat, t: int)
    requires Increasing(series)
    ensures Covers(Opened(series, delta), 0, t)
  {
  }

  lemma {:induction false} WalkCovers(b: BufState, start: nat, t: int) returns (start': nat)
    requires Covers(b, start, t)
    requires !b.Exhausted() ==> b.lastTime == b.series[b.pos].t < t
    ensures Covers(WalkState(b, t), start', t)
    ensures var w := WalkState(b, t); !w.Exhausted() ==> w.series[w.pos].t >= t
    decreases |b.series| - b.pos
  {
    start' := start;
    if !b.Exhausted() {
      var s := b.series[b.pos];
      assert b.buffered + [s] == b.series[start..b.pos + 1];
      start' := DropFromRun(b.series, start, b.pos + 1, Tmin(s, b.delta));
      var n := NextState(b);
      if !(n.Exhausted() || n.lastTime >= t) {
        start' := WalkCovers(n, start', t);
      }
    }
  }

  /**
   * `Seek(t)` ends on the first sample at or after `t`, with every sample of
   * `[t - delta, t)` in the buffer and nothing later than `t` in it, whether it jumped or
   * walked, and also when the series runs out.
   */
  lemma SeekCovers(b: BufState, start: nat, t: int) returns (start': nat)
    requires Covers(b, start, t) && MIN_TIME < t - b.delta
    ensures var s := SeekState(b, t);
            && Covers(s, start', t) && s.series == b.series && s.delta == b.delta
            && (!s.Exhausted() ==> s.series[s.pos].t >= t)
  {
    var j := JumpState(b, t);
    start' := start;
    if !b.Exhausted() && t - b.delta > b.lastTime {
      assert b.pos > 0 ==> Earlier(b.series, b.pos - 1, b.pos);
      start' := j.pos;
    }
    if j.lastTime < t {
      start' := WalkCovers(j, start', t);
    }
    SeekFrame(b, t);
  }

  lemma {:induction false} WalkFrame(b: BufState, t: int)
    ensures WalkState(b, t).series == b.series && WalkState(b, t).delta == b.delta
    decreases |b.series| - b.pos
  {
    var n := NextState(b);
    if !(n.Exhausted() || n.lastTime >= t) {
      WalkFrame(n, t);
    }
  }

  lemma {:induction false} WalkInside(b: BufState, t: int)
    requires b.pos <= |b.series|
    ensures WalkState(b, t).pos <= |b.series|
    decreases |b.series| - b.pos
  {
    var n := NextState(b);
    if !(n.Exhausted() || n.lastTime >= t) {
      WalkInside(n, t);
    }
  }

  lemma SeekInside(b: BufState, t: int)
    requires b.pos <= |b.series|
    ensures SeekState(b, t).pos <= |b.series|
  {
    WalkInside(JumpState(b, t), t);
  }

  lemma SeekFrame(b: BufState, t: int)
    ensures SeekState(b, t).series == b.series && SeekState(b, t).delta == b.delta
  {
    WalkFrame(JumpState(b, t), t);
  }

  lemma ReduceCovers(b: BufState, start: nat, t: int, d: nat) returns (start': nat)
    requires Covers(b, start, t)
    ensures Covers(ReduceState(b, d), start', t)
  {
    start' := start;
    if start < b.pos && d <= b.delta {
      start' := DropFromRun(b.series, start, b.pos, Tmin(b.series[b.pos - 1], d));
    }
  }
}
