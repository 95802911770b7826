/**
 * Range selectors as code: `matrixIterSlice`, the loop over the steps of a series, and the loop
 * over the series of a selector.
 */
module MatrixEval {
  import opened Samples
  import opened Ring
  import opened Buffered
  import opened Ledger
  import opened MatrixSelector
  import opened MatrixRuns

  /** Splits off the points before `mint`, as the first loops of `matrixIterSlice` do. */
  method Retain(points: seq<Sample>, mint: int) returns (kept: seq<Sample>, dropped: seq<Sample>)
    ensures kept == Retained(points, mint) && dropped + kept == points
  {
    if |points| > 0 && points[|points| - 1].t > mint {
      var drop := 0;
      while points[drop].t <= mint
        invariant 0 <= drop < |points|
        invariant DropOld(points[drop..], mint + 1) == DropOld(points, mint + 1)
        decreases |points| - drop
      {
        assert points[drop..][1..] == points[drop + 1..];
        drop := drop + 1;
      }
      dropped, kept := points[..drop], points[drop..];
    } else {
      kept, dropped := [], points;
    }
  }

  class Evaluator {
    var currentSamples: int
    const maxSamples: int

    /** One turn of the append loop, on the point the ring iterator stands on. */
    method Take(p: Sample, ghost s: Sample, lowF: int, lowH: int, fs0: seq<Sample>, hs0: seq<Sample>)
      returns (ok: bool, fs: seq<Sample>, hs: seq<Sample>)
      requires p == s.AsFloat()
      modifies this`currentSamples
      ensures fs == Taken(fs0, s, lowF, false) && hs == Taken(hs0, s, lowH, true)
      ensures currentSamples == old(currentSamples) + LoadOf(s, lowF, lowH)
      ensures ok || (|fs| + |hs| > 0 && currentSamples > maxSamples)
      ensures ok ==> (fs == fs0 && hs == hs0) || currentSamples <= maxSamples
    {
      fs, hs, ok := fs0, hs0, true;
      match p
      case FSample(t, f) =>
        if !p.Stale() && t > lowF {
          currentSamples := currentSamples + 1;
          ok := currentSamples <= maxSamples;
          fs := fs + [p];
        }
      case FHSample(t, fh) =>
        if t > lowH && !p.Stale() {
          currentSamples := currentSamples + fh.size;
          ok := currentSamples <= maxSamples;
          hs := hs + [p];
        }
    }

    /** The buffered points after the two lower bounds; false when over the limit. */
    method Collect(ring: SampleRing, lowF: int, lowH: int)
      returns (ok: bool, fs: seq<Sample>, hs: seq<Sample>)
      requires ring.Valid()
      modifies this`currentSamples
      ensures ok ==> fs == After(ring.contents, lowF, false) && hs == After(ring.contents, lowH, true)
      ensures ok ==> currentSamples == old(currentSamples) + Load(ring.contents, lowF, lowH)
      ensures ok == (|After(ring.contents, lowF, false)| + |After(ring.contents, lowH, true)| == 0
                     || old(currentSamples) + Load(ring.contents, lowF, lowH) <= maxSamples)
    {
      var ps := ReadAll(ring);
      ok, fs, hs := TakeAll(ps, ring.contents, lowF, lowH);
    }

    /** `matrixIterSlice`: the floats and histograms of a step, from those of the step before. */
    method MatrixIterSlice(it: BufferedSeriesIterator, w: Span, points: Points)
      returns (ok: bool, out: Points)
      requires it.Valid() && it.pos <= |it.series|
      modifies this`currentSamples, it`pos, it`lastTime, it`valueType, it.buf, it.buf.Repr
      ensures it.Valid() && it.Value() == SeekState(old(it.Value()), w.hi)
      ensures fresh(it.buf.Repr - old(it.buf.Repr))
      ensures ok ==> out == Slices(SeekState(old(it.Value()), w.hi), points, w)
      ensures var b := SeekState(old(it.Value()), w.hi);
              && (ok ==> currentSamples == old(currentSamples) + Cost(b, points, w))
              && ok == (Appended(b, points, w) == 0
                        || old(currentSamples) + Cost(b, points, w) <= maxSamples)
    {
      var keptF, keptH, lowF, lowH := RetainBoth(points.floats, points.hists, w.lo);
      var _ := it.Seek(w.hi);
      var fs, hs;
      ok, fs, hs := Append(it, lowF, lowH, w.hi);
      out := Points(keptF + fs, keptH + hs);
    }

    /** Discards the points before `mint` and uncounts them. */
    method RetainBoth(floats0: seq<Sample>, hists0: seq<Sample>, mint: int)
      returns (keptF: seq<Sample>, keptH: seq<Sample>, lowF: int, lowH: int)
      modifies this`currentSamples
      ensures keptF == Retained(floats0, mint) && keptH == Retained(hists0, mint)
      ensures lowF == Low(floats0, mint) && lowH == Low(hists0, mint)
      ensures currentSamples == old(currentSamples) - Uncounted(floats0, hists0, mint)
    {
      var dropped;
      keptF, dropped := Retain(floats0, mint);
      currentSamples := currentSamples - |dropped|;
      keptH, dropped := Retain(hists0, mint);
      currentSamples := currentSamples - (if |keptH| > 0 then TotalSize(keptH) else TotalSize(hists0));
      lowF := if |keptF| > 0 then keptF[|keptF| - 1].t else mint;
      lowH := if |keptH| > 0 then keptH[|keptH| - 1].t else mint;
    }

    /** The points of the buffer and the sought sample, after the `Seek`. */
    method Append(it: BufferedSeriesIterator, lowF: int, lowH: int, maxt: int)
      returns (ok: bool, fs: seq<Sample>, hs: seq<Sample>)
      requires it.Valid()
      modifies this`currentSamples
      ensures ok ==> fs == New(it.Value(), lowF, maxt, false) && hs == New(it.Value(), lowH, maxt, true)
      ensures ok ==> currentSamples == old(currentSamples) + NewLoad(it.Value(), lowF, lowH, maxt)
      ensures ok == (|New(it.Value(), lowF, maxt, false)| + |New(it.Value(), lowH, maxt, true)| == 0
                     || old(currentSamples) + NewLoad(it.Value(), lowF, lowH, maxt) <= maxSamples)
    {
      ghost var b := it.Value();
      var before := maxt - 1;
      NewSizes(b, lowF, lowH, maxt, before);
      ok, fs, hs := Collect(it.buf, lowF, lowH);
      if ok && it.valueType != ValNone && it.series[it.pos].t == maxt {
        var p := it.series[it.pos];
        SoughtTaken(b, lowF, maxt, before, false);
        SoughtTaken(b, lowH, maxt, before, true);
        ok, fs, hs := Take(p.AsFloat(), p, before, before, fs, hs);
      } else {
        NothingSought(b, lowF, maxt, false);
        NothingSought(b, lowH, maxt, true);
      }
    }

    /** One turn of the step loop: evaluation unless pinned, then the delta reduction. */
    method EvalTurn(it: BufferedSeriesIterator, evaluate: bool, w: Span, stepRange: int, points: Points)
      returns (ok: bool, out: Points)
      requires it.Valid() && it.pos <= |it.series| && stepRange >= 0
      modifies this`currentSamples, it`pos, it`lastTime, it`valueType, it.buf, it.buf.Repr
      ensures it.Valid() && it.pos <= |it.series|
      ensures fresh(it.buf.Repr - old(it.buf.Repr))
      ensures ok ==> Turned(it.Value(), out) == Turn(Turned(old(it.Value()), points), evaluate, w, stepRange)
      ensures ok == TurnFits(Turned(old(it.Value()), points), evaluate, w, old(currentSamples), maxSamples)
      ensures ok ==> currentSamples == old(currentSamples) + TurnCost(Turned(old(it.Value()), points), evaluate, w)
    {
      ok, out := true, points;
      if evaluate {
        SeekInside(it.Value(), w.hi);
        ok, out := MatrixIterSlice(it, w, points);
      }
      if ok && |out.floats| + |out.hists| > 0 {
        var _ := it.ReduceDelta(stepRange);
      }
    }

    method EvalFirst(it: BufferedSeriesIterator, q: Query, w: Span, ghost es: seq<Entry>, ghost ws: seq<Points>)
      returns (ok: bool, points: Points, ghost st: nat)
      requires it.Valid() && it.Value() == Opened(it.series, q.range) && Increasing(it.series) && q.Sane()
      requires w == q.Window(q.start) && Itemised(q, it.series, es, ws) && es != []
      modifies this`currentSamples, it`pos, it`lastTime, it`valueType, it.buf, it.buf.Repr
      ensures it.Valid() && it.pos <= |it.series|
      ensures fresh(it.buf.Repr - old(it.buf.Repr))
      ensures ok ==> Between(q, Turned(it.Value(), points), st, w) && points == ws[0]
      ensures ok == Admits(es[0], old(currentSamples), maxSamples)
      ensures ok ==> currentSamples == old(currentSamples) + es[0].cost
    {
      OpenedCovers(it.series, q.range, w.hi);
      st := FirstTurn(q, it.Value(), 0, w);
      TurnAccounting(Turned(it.Value(), NO_POINTS), it.series, w);
      FirstItem(q, it.series, es, ws, w);
      ok, points := EvalTurn(it, true, w, q.StepRange(), NO_POINTS);
    }

    /** The step after step `n`, which was at `ts`. */
    method EvalNext(it: BufferedSeriesIterator, q: Query, ts: int, next: int, points: Points, ghost st: nat,
                    ghost n: nat, ghost m: nat, ghost es: seq<Entry>, ghost ws: seq<Points>)
      returns (ok: bool, out: Points, ghost st': nat)
      requires it.Valid() && it.pos <= |it.series| && q.Sane() && next == ts + q.interval && m == n + 1
      requires q.start <= ts == q.StepTime(n) && Itemised(q, it.series, es, ws) && m < |es|
      requires Between(q, Turned(it.Value(), points), st, q.Window(ts))
      modifies this`currentSamples, it`pos, it`lastTime, it`valueType, it.buf, it.buf.Repr
      ensures it.Valid() && it.pos <= |it.series|
      ensures fresh(it.buf.Repr - old(it.buf.Repr))
      ensures ok ==> Between(q, Turned(it.Value(), out), st', q.Window(next)) && out == ws[m]
      ensures ok == Admits(es[m], old(currentSamples), maxSamples)
      ensures ok ==> currentSamples == old(currentSamples) + es[m].cost
    {
      var w0, w := q.Window(ts), q.Window(next);
      q.StepFollows(ts, next);
      NextItem(q, it.series, es, ws, n, m, w0, w);
      if q.pinned {
        st' := PinnedTurn(q, Turned(it.Value(), points), st, w);
      } else {
        st' := NextTurn(q, Turned(it.Value(), points), st, w0, w);
        TurnAccounting(Turned(it.Value(), points), it.series, w);
      }
      ok, out := EvalTurn(it, !q.pinned, w, q.StepRange(), points);
    }

    /**
     * All steps of one series. Sliding-window evaluation refines filtering: at every step
     * of a range query the points are exactly those a plain filter of the series gives. It
     * succeeds exactly if every step that finds new points stays within the limit.
     */
    method EvalSteps(it: BufferedSeriesIterator, q: Query) returns (ok: bool, windows: seq<Points>)
      requires it.Valid() && it.Value() == Opened(it.series, q.range) && Increasing(it.series) && q.Sane()
      modifies this`currentSamples, it`pos, it`lastTime, it`valueType, it.buf, it.buf.Repr
      ensures it.Valid()
      ensures fresh(it.buf.Repr - old(it.buf.Repr))
      ensures ok == Pays(StepEntries(q, it.series, q.NumSteps()), old(currentSamples), maxSamples)
      ensures ok ==> windows == Windows(q, it.series, q.NumSteps()) && Filtered(q, it.series, windows)
      ensures ok ==> currentSamples == old(currentSamples) + Total(StepEntries(q, it.series, q.NumSteps()))
    {
      ghost var es, ws := StepEntries(q, it.series, q.NumSteps()), Windows(q, it.series, q.NumSteps());
      windows, ok := [], true;
      if q.start <= q.end {
        q.StepCounted(0, q.start);
        StepsItemised(q, it.series, q.NumSteps());
        FromStart(es, currentSamples, maxSamples);
        ok, windows := EvalAll(it, q, es, ws);
      }
      WindowsFiltered(q, it.series);
    }

    method EvalAll(it: BufferedSeriesIterator, q: Query, ghost es: seq<Entry>, ghost ws: seq<Points>)
      returns (ok: bool, windows: seq<Points>)
      requires it.Valid() && it.Value() == Opened(it.series, q.range) && Increasing(it.series) && q.Sane()
      requires q.start <= q.end && |es| == q.NumSteps() && Itemised(q, it.series, es, ws)
      modifies this`currentSamples, it`pos, it`lastTime, it`valueType, it.buf, it.buf.Repr
      ensures it.Valid()
      ensures fresh(it.buf.Repr - old(it.buf.Repr))
      ensures ok == PaysFrom(es, 0, old(currentSamples), maxSamples)
      ensures ok ==> windows == ws && currentSamples == old(currentSamples) + TotalFrom(es, 0)
    {
      ghost var st, c0 := 0, currentSamples;
      var points;
      windows := [];
      q.StepCounted(0, q.start);
      ok, points, st := EvalFirst(it, q, q.Window(q.start), es, ws);
      if ok {
        FirstUnderway(q, Turned(it.Value(), points), st, es, ws, c0, currentSamples, maxSamples);
        ok, windows := EvalRest(it, q, points, [points], st, es, ws, c0);
      } else {
        PaysNot(es, 0, c0, maxSamples);
      }
    }

    /** The steps after the first. */
    method EvalRest(it: BufferedSeriesIterator, q: Query, first: Points, windows0: seq<Points>, ghost st0: nat,
                    ghost es: seq<Entry>, ghost ws: seq<Points>, ghost c0: int)
      returns (ok: bool, windows: seq<Points>)
      requires it.Valid() && it.pos <= |it.series| && q.Sane() && |es| == q.NumSteps() && Itemised(q, it.series, es, ws)
      requires Underway(q, Turned(it.Value(), first), st0, q.start, 0, windows0, es, ws, c0, currentSamples, maxSamples)
      modifies this`currentSamples, it`pos, it`lastTime, it`valueType, it.buf, it.buf.Repr
      ensures it.Valid()
      ensures fresh(it.buf.Repr - old(it.buf.Repr))
      ensures ok == PaysFrom(es, 0, c0, maxSamples)
      ensures ok ==> windows == ws && currentSamples == c0 + TotalFrom(es, 0)
    {
      var ts, points := q.start, first;
      ghost var st: nat, n: nat := st0, 0;
      windows, ok := windows0, true;
      while ts + q.interval <= q.end
        invariant it.Valid() && it.pos <= |it.series| && fresh(it.buf.Repr - old(it.buf.Repr))
        invariant Underway(q, Turned(it.Value(), points), st, ts, n, windows, es, ws, c0, currentSamples, maxSamples)
        decreases q.end - ts
      {
        ok, points, windows, st, n := EvalMore(it, q, ts, ts + q.interval, points, windows, st, n, es, ws, c0);
        ts := ts + q.interval;
        if !ok {
          return;
        }
      }
      LastUnderway(q, Turned(it.Value(), points), st, ts, n, windows, es, ws, c0, currentSamples, maxSamples);
    }

    /** One turn of the loop over the steps. */
    method EvalMore(it: BufferedSeriesIterator, q: Query, ts: int, next: int, points: Points, windows: seq<Points>,
                    ghost st: nat, ghost n: nat, ghost es: seq<Entry>, ghost ws: seq<Points>, ghost c0: int)
      returns (ok: bool, out: Points, windows': seq<Points>, ghost st': nat, ghost m: nat)
      requires it.Valid() && it.pos <= |it.series| && q.Sane() && next == ts + q.interval <= q.end
      requires |es| == q.NumSteps() && Itemised(q, it.series, es, ws)
      requires Underway(q, Turned(it.Value(), points), st, ts, n, windows, es, ws, c0, currentSamples, maxSamples)
      modifies this`currentSamples, it`pos, it`lastTime, it`valueType, it.buf, it.buf.Repr
      ensures it.Valid() && it.pos <= |it.series|
      ensures fresh(it.buf.Repr - old(it.buf.Repr))
      ensures ok ==> Underway(q, Turned(it.Value(), out), st', next, m, windows', es, ws, c0, currentSamples, maxSamples)
      ensures !ok ==> !PaysFrom(es, 0, c0, maxSamples)
    {
      ghost var c, r := currentSamples, Turned(it.Value(), points);
      m := AnotherStep(q, r, st, ts, next, n, windows, es, ws, c0, c, maxSamples);
      ok, out, st' := EvalNext(it, q, ts, next, points, st, n, m, es, ws);
      windows' := windows + [out];
      if ok {
        NextUnderway(q, Turned(it.Value(), out), st', next, n, m, windows, es, ws, c0, c, currentSamples, maxSamples);
      }
    }

    method EvalOne(it: BufferedSeriesIterator, series: seq<Sample>, q: Query) returns (ok: bool, windows: seq<Points>)
      requires it.Valid() && it.delta == q.range && q.Sane() && Increasing(series)
      modifies this`currentSamples, it, it.buf, it.buf.Repr
      ensures it.Valid() && fresh(it.buf.Repr - old(it.buf.Repr))
      ensures ok == Pays(StepEntries(q, series, q.NumSteps()), old(currentSamples), maxSamples)
      ensures ok ==> windows == Windows(q, series, q.NumSteps())
      ensures ok ==> currentSamples == old(currentSamples) + Total(StepEntries(q, series, q.NumSteps()))
    {
      it.Reset(series);
      ok, windows := EvalSteps(it, q);
    }

    /** One series: the iterator is reset, the steps are evaluated and the output is counted. */
    method EvalSeries(it: BufferedSeriesIterator, series: seq<Sample>, q: Query, output: seq<Points> -> nat,
                      ghost bill: seq<Sample> -> seq<Entry>, ghost points: seq<Sample> -> seq<Points>)
      returns (ok: bool, windows: seq<Points>, last: Points)
      requires it.Valid() && it.delta == q.range && q.Sane() && Increasing(series)
      requires Describe(q, output, bill, points)
      modifies this`currentSamples, it, it.buf, it.buf.Repr
      ensures it.Valid() && fresh(it.buf.Repr - old(it.buf.Repr))
      ensures ok == Pays(bill(series), old(currentSamples), maxSamples)
      ensures ok ==> windows == points(series)
      ensures ok ==> currentSamples - Weight(last) == old(currentSamples) + Total(bill(series))
    {
      ghost var n := q.NumSteps();
      ghost var es, ws := StepEntries(q, series, n), Windows(q, series, n);
      SeriesPays(q, series, output, bill, points, es, ws, Carried(q, series, n), currentSamples, maxSamples);
      LastWindow(q, series, n);
      ok, windows := EvalOne(it, series, q);
      last := NO_POINTS;
      if ok {
        ok := Keep(output(windows));
        last := if |windows| > 0 then windows[|windows| - 1] else NO_POINTS;
      }
    }

    /** Counts the samples that the function made of one series; false when over the limit. */
    method Keep(out: nat) returns (ok: bool)
      modifies this`currentSamples
      ensures ok == (out == 0 || old(currentSamples) + out <= maxSamples)
      ensures ok ==> currentSamples == old(currentSamples) + out
    {
      ok := true;
      if out > 0 {
        if currentSamples + out > maxSamples {
          return false;
        }
        currentSamples := currentSamples + out;
      }
    }

    /**
     * The whole selector, series by series. `output` is the size of what the function makes of
     * the windows of a series.
     */
    method EvalSelector(all: seq<seq<Sample>>, q: Query, output: seq<Points> -> nat)
      returns (ok: bool, results: seq<seq<Points>>)
      requires q.Sane() && forall i :: 0 <= i < |all| ==> Increasing(all[i])
      modifies this`currentSamples
      ensures ok == Pays(Concat(SeriesBill(q, output), all, 0), old(currentSamples), maxSamples)
      ensures ok ==> |results| == |all|
      ensures ok ==> forall i :: 0 <= i < |all| ==> 
                results[i] == Windows(q, all[i], q.NumSteps()) && Filtered(q, all[i], results[i])
      ensures ok ==> currentSamples == old(currentSamples) + Total(Concat(SeriesBill(q, output), all, 0))
    {
      ghost var points := (s: seq<Sample>) => Windows(q, s, q.NumSteps());
      Described(q, output, points);
      var it := new BufferedSeriesIterator([], q.range);
      ok, results := EvalEach(it, all, q, output, SeriesBill(q, output), points);
      forall i | 0 <= i < |all| ensures Filtered(q, all[i], points(all[i])) {
        WindowsFiltered(q, all[i]);
      }
    }

    method EvalEach(it: BufferedSeriesIterator, all: seq<seq<Sample>>, q: Query, output: seq<Points> -> nat,
                    ghost bill: seq<Sample> -> seq<Entry>, ghost points: seq<Sample> -> seq<Points>)
      returns (ok: bool, results: seq<seq<Points>>)
      requires q.Sane() && (forall i :: 0 <= i < |all| ==> Increasing(all[i])) && Describe(q, output, bill, points)
      requires it.Valid() && it.delta == q.range
      modifies this`currentSamples, it, it.buf, it.buf.Repr
      ensures ok == Pays(Concat(bill, all, 0), old(currentSamples), maxSamples)
      ensures ok ==> Answers(points, all, |all|, results)
      ensures ok ==> currentSamples == old(currentSamples) + Total(Concat(bill, all, 0))
    {
      var last := NO_POINTS;
      results, ok := [], true;
      ghost var c0, c := currentSamples, currentSamples;
      for n := 0 to |all|
        invariant it.Valid() && it.delta == q.range && fresh(it.buf.Repr - old(it.buf.Repr))
        invariant Answers(points, all, n, results)
        invariant Settled(bill, all, n, c0, c, maxSamples) && c == currentSamples - Weight(last)
      {
        currentSamples := currentSamples - Weight(last);
        ghost var c' := c + Total(bill(all[n]));
        NextSettled(bill, all, n, n + 1, c0, c, c', maxSamples);
        var windows;
        ok, windows, last := EvalSeries(it, all[n], q, output, bill, points);
        if !ok {
          return;
        }
        c := c';
        AnswersSnoc(points, all, n, results, windows);
        results := results + [windows];
      }
      currentSamples := currentSamples - Weight(last);
    }

    method TakeAll(ps: seq<Sample>, ghost c: seq<Sample>, lowF: int, lowH: int)
      returns (ok: bool, fs: seq<Sample>, hs: seq<Sample>)
      requires |ps| == |c| && forall k :: 0 <= k < |c| ==> ps[k] == c[k].AsFloat()
      modifies this`currentSamples
      ensures ok ==> fs == After(c, lowF, false) && hs == After(c, lowH, true)
      ensures ok ==> currentSamples == old(currentSamples) + Load(c, lowF, lowH)
      ensures ok == (|After(c, lowF, false)| + |After(c, lowH, true)| == 0
                     || old(currentSamples) + Load(c, lowF, lowH) <= maxSamples)
    {
      fs, hs := [], [];
      for n := 0 to |ps|
        invariant Collected(c, n, lowF, lowH, fs, hs, currentSamples - old(currentSamples))
        invariant |fs| + |hs| == 0 || currentSamples <= maxSamples
      {
        CollectedStep(c, n, lowF, lowH, fs, hs, currentSamples - old(currentSamples));
        ok, fs, hs := Take(ps[n], c[n], lowF, lowH, fs, hs);
        if !ok {
          CollectedGrows(c, n + 1, lowF, lowH, fs, hs, currentSamples - old(currentSamples));
          return;
        }
      }
      assert c[..|c|] == c;
      ok := true;
    }
  }

  /** Runs the ring's iterator to its end. */
  method ReadAll(ring: SampleRing) returns (ps: seq<Sample>)
    requires ring.Valid()
    ensures |ps| == |ring.contents|
    ensures forall k :: 0 <= k < |ps| ==> ps[k] == ring.contents[k].AsFloat()
  {
    var iter := new SampleRingIterator(ring);
    ps := [];
    while true
      invariant fresh(iter) && iter.Valid() && iter.r == ring && -1 <= iter.i < ring.l
      invariant |ps| == iter.i + 1
      invariant forall k :: 0 <= k < |ps| ==> ps[k] == ring.contents[k].AsFloat()
      decreases ring.l - iter.i
    {
      var vt := iter.Next();
      if vt == ValNone {
        return;
      }
      ps := ps + [iter.Point(vt).value];
    }
  }
}
