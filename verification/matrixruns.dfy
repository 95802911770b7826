/**
 * The step loop of range selectors: it reuses the points of the previous step and shrinks the
 * look-back after the first non-empty one. Windows and counter of every step of a query.
 */
module MatrixRuns {
  import opened Samples
  import opened Ring
  import opened Buffered
  import opened Ledger
  import opened MatrixSelector

  // ----- the step loop over one series, as a function of values -----

  datatype Query = Query(start: int, end: int, interval: int, range: int, offset: int, pinned: bool) {
    /** The window of a step at `ts`: with an `@` modifier every step reads the first one's. */
    function Window(ts: int): Span {
      var maxt := (if pinned then start else ts) - offset;
      Span(maxt - range, maxt)
    }

    function StepRange(): int {
      if range > interval then interval else range
    }

    function StepTime(k: nat): int {
      if k == 0 then start else StepTime(k - 1) + interval
    }

    lemma {:induction false} StepTimeIs(k: nat)
      ensures StepTime(k) == start + k * interval
    {
      if k > 0 {
        StepTimeIs(k - 1);
      }
    }

    lemma {:induction false} StepTimeGrows(k: nat)
      requires interval > 0
      ensures StepTime(k) >= start
    {
      if k > 0 {
        StepTimeGrows(k - 1);
      }
    }

    lemma StepTimeNext(n: nat, m: nat)
      requires m == n + 1
      ensures StepTime(m) == StepTime(n) + interval
    {
    }

    /** Number of steps up to the end. */
    function NumSteps(): nat {
      if end < start || interval <= 0 then 0 else (end - start) / interval + 1
    }

    /** Exactly the step times below that number do not pass the end. */
    lemma StepCounted(k: nat, ts: int)
      requires interval > 0 && ts == StepTime(k)
      ensures ts <= end <==> k < NumSteps()
      ensures ts <= end < ts + interval ==> NumSteps() == k + 1
    {
      StepTimeIs(k);
      if start <= end {
        var d := (end - start) / interval;
        Quotient(end - start, interval, d);
        StepOrder(k, d);
        StepOrder(d, k);
      } else {
        StepTimeGrows(k);
      }
    }

    lemma Quotient(a: int, b: int, d: int)
      requires b > 0 && d == a / b
      ensures d * b <= a < (d + 1) * b
    {
    }

    lemma StepOrder(k: int, m: int)
      requires interval > 0
      ensures k <= m ==> k * interval <= m * interval
      ensures k < m ==> (k + 1) * interval <= m * interval
    {
      if k <= m {
        Longer(m - k);
        Distribute(k, m - k);
      }
      if k < m {
        Longer(m - k - 1);
        Distribute(k + 1, m - k - 1);
      }
    }

    lemma Longer(d: int)
      requires d >= 0 && interval > 0
      ensures d * interval >= 0
    {
    }

    lemma Distribute(a: int, b: int)
      ensures a * interval + b * interval == (a + b) * interval
    {
    }

    /** The window of a step against that of the step before. */
    ghost predicate Follows(w0: Span, w: Span) {
      if pinned then w == w0 else
        w0.hi - w0.lo == w.hi - w.lo == range && w.hi == w0.hi + interval && MIN_TIME < w.lo
    }

    lemma StepFollows(ts: int, next: int)
      requires Sane() && start <= ts && next == ts + interval
      ensures Follows(Window(ts), Window(next))
    {
    }

    ghost predicate Sane() {
      range > 0 && interval > 0 && MIN_TIME < start - offset - range
    }
  }

  /** The iterator and the points carried from step to step. */
  datatype Turned = Turned(b: BufState, points: Points)

  function Turn(r: Turned, evaluate: bool, w: Span, stepRange: int): Turned {
    var b := if evaluate then SeekState(r.b, w.hi) else r.b;
    var p := if evaluate then Slices(b, r.points, w) else r.points;
    Turned(if |p.floats| + |p.hists| > 0 then ReduceState(b, stepRange) else b, p)
  }

  // ----- every window is the filter -----

  /** What a step must see: the wanted samples of its window. */
  function Expected(series: seq<Sample>, w: Span): Points {
    Points(InRange(series, w.lo, w.hi, false), InRange(series, w.lo, w.hi, true))
  }

  /** An iterator as a `Seek(maxt)` leaves it. */
  ghost predicate Landed(b: BufState, st: nat, maxt: int) {
    Covers(b, st, maxt) && (!b.Exhausted() ==> b.series[b.pos].t >= maxt)
  }

  /** First step: the look-back covers the whole range, and there are no earlier points. */
  lemma FirstStep(b: BufState, st: nat, w: Span)
    requires Landed(b, st, w.hi) && w.lo < w.hi && b.delta == w.hi - w.lo
    ensures Slices(b, NO_POINTS, w) == Expected(b.series, w)
  {
    InRangeEmpty(b.series, w.lo, w.lo, false);
    InRangeEmpty(b.series, w.lo, w.lo, true);
    SliceIsFilter(b, st, w.lo, w.lo, w.lo, w.hi, false);
    SliceIsFilter(b, st, w.lo, w.lo, w.lo, w.hi, true);
  }

  /** Later steps: the look-back covers the advance, and the earlier points are reused. */
  lemma NextStep(b: BufState, st: nat, w0: Span, w: Span)
    requires Landed(b, st, w.hi) && w0.lo <= w.lo < w.hi && w0.hi < w.hi
    requires w.hi - b.delta <= w.lo + 1 || w.hi - b.delta <= w0.hi + 1
    ensures Slices(b, Expected(b.series, w0), w) == Expected(b.series, w)
  {
    SliceIsFilter(b, st, w0.lo, w0.hi, w.lo, w.hi, false);
    SliceIsFilter(b, st, w0.lo, w0.hi, w.lo, w.hi, true);
  }

  /**
   * Between turns: the iterator covers the window's end and reaches back one range, or one
   * interval when that is shorter, and the points are those of the window.
   */
  ghost predicate Between(q: Query, r: Turned, st: nat, w: Span) {
    && Covers(r.b, st, w.hi)
    && (r.b.delta == q.range || r.b.delta == q.StepRange())
    && r.points == Expected(r.b.series, w)
  }

  /** The delta reduction after a non-empty step keeps the coverage. */
  lemma AfterReduction(q: Query, b: BufState, st: nat, hi: int, p: Points) returns (st': nat)
    requires q.Sane() && Covers(b, st, hi) && (b.delta == q.range || b.delta == q.StepRange())
    ensures var b' := if |p.floats| + |p.hists| > 0 then ReduceState(b, q.StepRange()) else b;
            && Covers(b', st', hi) && b'.series == b.series
            && (b'.delta == q.range || b'.delta == q.StepRange())
  {
    st' := st;
    if |p.floats| + |p.hists| > 0 {
      st' := ReduceCovers(b, st, hi, q.StepRange());
    }
  }

  lemma FirstTurn(q: Query, b: BufState, st: nat, w: Span) returns (st': nat)
    requires q.Sane() && Covers(b, st, w.hi) && b.delta == q.range == w.hi - w.lo && MIN_TIME < w.lo
    ensures var r := Turn(Turned(b, NO_POINTS), true, w, q.StepRange());
            Between(q, r, st', w) && r.b.series == b.series
  {
    st' := SeekCovers(b, st, w.hi);
    var b' := SeekState(b, w.hi);
    FirstStep(b', st', w);
    st' := AfterReduction(q, b', st', w.hi, Expected(b.series, w));
  }

  lemma NextTurn(q: Query, r: Turned, st: nat, w0: Span, w: Span) returns (st': nat)
    requires q.Sane() && Between(q, r, st, w0) && w0.hi - w0.lo == w.hi - w.lo == q.range
    requires w.hi == w0.hi + q.interval && MIN_TIME < w.lo
    ensures var r' := Turn(r, true, w, q.StepRange());
            Between(q, r', st', w) && r'.b.series == r.b.series
  {
    CoversMonotone(r.b, st, w0.hi, w.hi);
    st' := SeekCovers(r.b, st, w.hi);
    var b' := SeekState(r.b, w.hi);
    NextStep(b', st', w0, w);
    st' := AfterReduction(q, b', st', w.hi, Expected(r.b.series, w));
  }

  lemma PinnedTurn(q: Query, r: Turned, st: nat, w: Span) returns (st': nat)
    requires q.Sane() && Between(q, r, st, w)
    ensures var r' := Turn(r, false, w, q.StepRange());
            Between(q, r', st', w) && r'.b.series == r.b.series
  {
    st' := AfterReduction(q, r.b, st, w.hi, r.points);
  }

  function WindowAt(q: Query, series: seq<Sample>): nat -> Points {
    (k: nat) => Expected(series, q.Window(q.StepTime(k)))
  }

  /** The plain filter for each of the first `n` steps. */
  function Windows(q: Query, series: seq<Sample>, n: nat): (r: seq<Points>)
    ensures |r| == n
  {
    Tabulate(WindowAt(q, series), n)
  }

  /**
   * The window of each step: the wanted samples of the range that ends at the step time, or
   * with `@` at the first one, less the offset.
   */
  lemma WindowsAt(q: Query, series: seq<Sample>, n: nat, k: nat, maxt: int)
    requires k < n && maxt == (if q.pinned then q.start else q.start + k * q.interval) - q.offset
    ensures Windows(q, series, n)[k]
            == Points(InRange(series, maxt - q.range, maxt, false), InRange(series, maxt - q.range, maxt, true))
  {
    q.StepTimeIs(k);
    var ts := q.StepTime(k);
    WindowAtTime(q, series, n, k, ts);
    assert q.Window(ts) == Span(maxt - q.range, maxt);
  }

  lemma WindowAtTime(q: Query, series: seq<Sample>, n: nat, k: nat, ts: int)
    requires k < n && ts == q.StepTime(k)
    ensures Windows(q, series, n)[k] == Expected(series, q.Window(ts))
  {
    TabulateAt(WindowAt(q, series), n, k);
  }

  predicate Due(q: Query, k: nat) {
    q.start + k * q.interval <= q.end
  }

  predicate FilteredAt(q: Query, series: seq<Sample>, windows: seq<Points>, k: nat)
    requires k < |windows|
  {
    var maxt := (if q.pinned then q.start else q.start + k * q.interval) - q.offset;
    windows[k] == Points(InRange(series, maxt - q.range, maxt, false), InRange(series, maxt - q.range, maxt, true))
  }

  /** One window for each step time up to the end, each the plain filter of its range. */
  ghost predicate Filtered(q: Query, series: seq<Sample>, windows: seq<Points>) {
    && (forall k: nat :: k < |windows| <==> Due(q, k))
    && (forall k: nat :: k < |windows| ==> FilteredAt(q, series, windows, k))
  }

  lemma WindowsFiltered(q: Query, series: seq<Sample>)
    requires q.interval > 0
    ensures Filtered(q, series, Windows(q, series, q.NumSteps()))
  {
    forall k: nat ensures k < q.NumSteps() <==> Due(q, k) {
      q.StepTimeIs(k);
      q.StepCounted(k, q.StepTime(k));
    }
    forall k: nat | k < q.NumSteps() ensures FilteredAt(q, series, Windows(q, series, q.NumSteps()), k) {
      WindowsAt(q, series, q.NumSteps(), k, (if q.pinned then q.start else q.start + k * q.interval) - q.offset);
    }
  }

  // ----- the counter over all steps -----

  const NO_POINTS := Points([], [])

  /** What a step costs: the change in weight, and the drift. */
  function StepCost(series: seq<Sample>, p: Points, w: Span): int {
    Weight(Expected(series, w)) - Weight(p) + Drift(p, w)
  }

  /** The window has points that the step before did not have. */
  predicate Grows(series: seq<Sample>, p: Points, w: Span) {
    || |InRange(series, w.lo, w.hi, false)| > |Retained(p.floats, w.lo)|
    || |InRange(series, w.lo, w.hi, true)| > |Retained(p.hists, w.lo)|
  }

  function TurnCost(r: Turned, evaluate: bool, w: Span): int {
    if evaluate then Cost(SeekState(r.b, w.hi), r.points, w) else 0
  }

  predicate TurnFits(r: Turned, evaluate: bool, w: Span, current: int, max: int) {
    evaluate ==> Appended(SeekState(r.b, w.hi), r.points, w) == 0 || current + TurnCost(r, true, w) <= max
  }

  /** What the iterator makes of a step that yields the filter, in terms of the series. */
  lemma TurnAccounting(r: Turned, series: seq<Sample>, w: Span)
    requires Slices(SeekState(r.b, w.hi), r.points, w) == Expected(series, w)
    ensures TurnCost(r, true, w) == StepCost(series, r.points, w)
    ensures Appended(SeekState(r.b, w.hi), r.points, w) > 0 <==> Grows(series, r.points, w)
  {
    Accounting(SeekState(r.b, w.hi), r.points, w);
  }

  /** The points carried into step `k`. */
  function Carried(q: Query, series: seq<Sample>, k: nat): Points {
    if k == 0 then NO_POINTS else Expected(series, q.Window(q.StepTime(k - 1)))
  }

  lemma LastWindow(q: Query, series: seq<Sample>, n: nat)
    ensures Carried(q, series, n) == if n > 0 then Windows(q, series, n)[n - 1] else NO_POINTS
  {
    if n > 0 {
      TabulateAt(WindowAt(q, series), n, n - 1);
    }
  }

  /** With `@` only the first step is evaluated. */
  predicate Evaluated(q: Query, k: nat) {
    k == 0 || !q.pinned
  }

  /** What step `k` does to the counter; it is checked only where points are added. */
  function StepEntry(q: Query, series: seq<Sample>, k: nat): Entry {
    var p, w := Carried(q, series, k), q.Window(q.StepTime(k));
    if Evaluated(q, k) then Entry(StepCost(series, p, w), Grows(series, p, w)) else Entry(0, false)
  }

  function EntryAt(q: Query, series: seq<Sample>): nat -> Entry {
    (k: nat) => StepEntry(q, series, k)
  }

  function StepEntries(q: Query, series: seq<Sample>, n: nat): (r: seq<Entry>)
    ensures |r| == n
  {
    Tabulate(EntryAt(q, series), n)
  }

  ghost predicate ItemAt(q: Query, series: seq<Sample>, es: seq<Entry>, ws: seq<Points>, k: nat) {
    k < |es| == |ws| && es[k] == StepEntry(q, series, k) && ws[k] == Expected(series, q.Window(q.StepTime(k)))
  }

  /** Entries and windows, step by step. */
  ghost predicate Itemised(q: Query, series: seq<Sample>, es: seq<Entry>, ws: seq<Points>) {
    |es| == |ws| && forall k: nat :: k < |es| ==> ItemAt(q, series, es, ws, k)
  }

  lemma StepsItemised(q: Query, series: seq<Sample>, n: nat)
    ensures Itemised(q, series, StepEntries(q, series, n), Windows(q, series, n))
  {
    forall k: nat | k < n ensures ItemAt(q, series, StepEntries(q, series, n), Windows(q, series, n), k) {
      TabulateAt(EntryAt(q, series), n, k);
      TabulateAt(WindowAt(q, series), n, k);
    }
  }

  ghost predicate Prefix<T>(a: seq<T>, b: seq<T>, n: nat) {
    n <= |b| && a == b[..n]
  }

  lemma PrefixSnoc<T>(a: seq<T>, b: seq<T>, n: nat, m: nat, x: T)
    requires Prefix(a, b, n) && m == n + 1 <= |b| && x == b[n]
    ensures Prefix(a + [x], b, m)
  {
  }

  lemma FirstItem(q: Query, series: seq<Sample>, es: seq<Entry>, ws: seq<Points>, w: Span)
    requires Itemised(q, series, es, ws) && es != [] && w == q.Window(q.start)
    ensures es[0] == Entry(StepCost(series, NO_POINTS, w), Grows(series, NO_POINTS, w)) && ws[0] == Expected(series, w)
  {
    assert ItemAt(q, series, es, ws, 0);
    assert q.StepTime(0) == q.start;
  }

  lemma NextItem(q: Query, series: seq<Sample>, es: seq<Entry>, ws: seq<Points>, n: nat, m: nat, w0: Span, w: Span)
    requires m == n + 1 < |es| && Itemised(q, series, es, ws)
    requires w0 == q.Window(q.StepTime(n)) && w == q.Window(q.StepTime(n) + q.interval)
    ensures es[m] == if q.pinned then Entry(0, false)
                     else Entry(StepCost(series, Expected(series, w0), w), Grows(series, Expected(series, w0), w))
    ensures ws[m] == Expected(series, w)
  {
    assert ItemAt(q, series, es, ws, m);
    assert q.StepTime(m) == q.StepTime(n) + q.interval;
  }

  /** Step `n`, at `ts`, is done. */
  ghost predicate Underway(q: Query, r: Turned, st: nat, ts: int, n: nat, windows: seq<Points>,
                           es: seq<Entry>, ws: seq<Points>, c0: int, c: int, max: int)
  {
    && n < |es| == |ws| && q.start <= ts == q.StepTime(n) <= q.end && Between(q, r, st, q.Window(ts))
    && Prefix(windows, ws, n + 1)
    && PaysFrom(es, 0, c0, max) == PaysFrom(es, n + 1, c, max)
    && c + TotalFrom(es, n + 1) == c0 + TotalFrom(es, 0)
  }

  lemma FirstUnderway(q: Query, r: Turned, st: nat, es: seq<Entry>, ws: seq<Points>, c0: int, c: int, max: int)
    requires q.start <= q.end && Between(q, r, st, q.Window(q.start)) && es != [] && |es| == |ws|
    requires r.points == ws[0] && Admits(es[0], c0, max) && c == c0 + es[0].cost
    ensures Underway(q, r, st, q.start, 0, [r.points], es, ws, c0, c, max)
  {
    PaysNext(es, 0, 1, c0, c, max);
    PrefixSnoc([], ws, 0, 1, r.points);
    assert [] + [r.points] == [r.points];
  }

  lemma NextUnderway(q: Query, r: Turned, st: nat, next: int, n: nat, m: nat, windows: seq<Points>,
                     es: seq<Entry>, ws: seq<Points>, c0: int, c: int, c': int, max: int)
    requires m == n + 1 < |es| == |ws| && q.start <= next == q.StepTime(m) <= q.end && Between(q, r, st, q.Window(next))
    requires Prefix(windows, ws, m) && PaysFrom(es, 0, c0, max) == PaysFrom(es, m, c, max)
    requires c + TotalFrom(es, m) == c0 + TotalFrom(es, 0)
    requires r.points == ws[m] && Admits(es[m], c, max) && c' == c + es[m].cost
    ensures Underway(q, r, st, next, m, windows + [r.points], es, ws, c0, c', max)
  {
    PaysNext(es, m, m + 1, c, c', max);
    PrefixSnoc(windows, ws, m, m + 1, r.points);
  }

  /** There is a step `m` after step `n`; if it is not admitted, the entries are not paid for. */
  lemma AnotherStep(q: Query, r: Turned, st: nat, ts: int, next: int, n: nat, windows: seq<Points>,
                    es: seq<Entry>, ws: seq<Points>, c0: int, c: int, max: int) returns (m: nat)
    requires q.interval > 0 && |es| == q.NumSteps() && next == ts + q.interval <= q.end
    requires Underway(q, r, st, ts, n, windows, es, ws, c0, c, max)
    ensures m == n + 1 < |es| && q.StepTime(m) == next
    ensures !Admits(es[m], c, max) ==> !PaysFrom(es, 0, c0, max)
  {
    m := n + 1;
    q.StepTimeNext(n, m);
    q.StepCounted(m, next);
    if !Admits(es[m], c, max) {
      PaysNot(es, m, c, max);
    }
  }

  lemma LastUnderway(q: Query, r: Turned, st: nat, ts: int, n: nat, windows: seq<Points>,
                     es: seq<Entry>, ws: seq<Points>, c0: int, c: int, max: int)
    requires q.interval > 0 && |es| == q.NumSteps() && ts + q.interval > q.end
    requires Underway(q, r, st, ts, n, windows, es, ws, c0, c, max)
    ensures PaysFrom(es, 0, c0, max) && windows == ws && c == c0 + TotalFrom(es, 0)
  {
    q.StepCounted(n, ts);
  }

  function Given(p: Points): int {
    0 - Weight(p)
  }

  /** A series: its steps, its output, and the points of the last step that are given back. */
  function SeriesEntries(q: Query, series: seq<Sample>, output: seq<Points> -> nat): seq<Entry> {
    var n := q.NumSteps();
    Closed(StepEntries(q, series, n), output(Windows(q, series, n)), Carried(q, series, n))
  }

  function Closed(steps: seq<Entry>, out: nat, last: Points): seq<Entry> {
    steps + [Entry(out, out > 0)] + [Entry(Given(last), false)]
  }

  function SeriesBill(q: Query, output: seq<Points> -> nat): seq<Sample> -> seq<Entry> {
    s => SeriesEntries(q, s, output)
  }

  ghost predicate DescribeOne(q: Query, output: seq<Points> -> nat, bill: seq<Sample> -> seq<Entry>,
                              points: seq<Sample> -> seq<Points>, series: seq<Sample>)
  {
    bill(series) == SeriesEntries(q, series, output) && points(series) == Windows(q, series, q.NumSteps())
  }

  /** Entries and windows, series by series. */
  ghost predicate Describe(q: Query, output: seq<Points> -> nat, bill: seq<Sample> -> seq<Entry>,
                           points: seq<Sample> -> seq<Points>)
  {
    forall series :: DescribeOne(q, output, bill, points, series)
  }

  lemma Described(q: Query, output: seq<Points> -> nat, points: seq<Sample> -> seq<Points>)
    requires forall s :: points(s) == Windows(q, s, q.NumSteps())
    ensures Describe(q, output, SeriesBill(q, output), points)
  {
  }

  lemma SeriesPays(q: Query, series: seq<Sample>, output: seq<Points> -> nat, bill: seq<Sample> -> seq<Entry>,
                   points: seq<Sample> -> seq<Points>, es: seq<Entry>, ws: seq<Points>, last: Points, current: int, max: int)
    requires Describe(q, output, bill, points) && es == StepEntries(q, series, q.NumSteps())
    requires ws == Windows(q, series, q.NumSteps()) && last == Carried(q, series, q.NumSteps())
    ensures Pays(bill(series), current, max)
            == (Pays(es, current, max) && (output(ws) == 0 || current + Total(es) + output(ws) <= max))
    ensures Total(bill(series)) == Total(es) + output(ws) - Weight(last)
    ensures points(series) == ws
  {
    assert bill(series) == Closed(es, output(ws), last) && points(series) == ws by {
      assert DescribeOne(q, output, bill, points, series);
    }
    ClosedPays(es, output(ws), last, current, max);
  }

  lemma ClosedPays(es: seq<Entry>, out: nat, last: Points, current: int, max: int)
    ensures Pays(Closed(es, out, last), current, max) == (Pays(es, current, max) && (out == 0 || current + Total(es) + out <= max))
    ensures Total(Closed(es, out, last)) == Total(es) + out - Weight(last)
  {
    PaysSnoc(es, Entry(out, out > 0), current, max);
    PaysSnoc(es + [Entry(out, out > 0)], Entry(Given(last), false), current, max);
  }

  /** The entries of all series from series `n` on. */
  function Concat(bill: seq<Sample> -> seq<Entry>, all: seq<seq<Sample>>, n: nat): seq<Entry>
    decreases |all| - n
  {
    if n >= |all| then [] else bill(all[n]) + Concat(bill, all, n + 1)
  }

  ghost predicate Answers(points: seq<Sample> -> seq<Points>, all: seq<seq<Sample>>, n: nat, results: seq<seq<Points>>)
    requires n <= |all|
  {
    |results| == n && forall i :: 0 <= i < n ==> results[i] == points(all[i])
  }

  lemma AnswersSnoc(points: seq<Sample> -> seq<Points>, all: seq<seq<Sample>>, n: nat, results: seq<seq<Points>>, r: seq<Points>)
    requires n < |all| && Answers(points, all, n, results) && r == points(all[n])
    ensures Answers(points, all, n + 1, results + [r])
  {
  }

  /** The first `n` series are paid for, which took the counter from `c0` to `c`. */
  ghost predicate Settled(bill: seq<Sample> -> seq<Entry>, all: seq<seq<Sample>>, n: nat, c0: int, c: int, max: int) {
    && Pays(Concat(bill, all, 0), c0, max) == Pays(Concat(bill, all, n), c, max)
    && c + Total(Concat(bill, all, n)) == c0 + Total(Concat(bill, all, 0))
  }

  lemma NextSettled(bill: seq<Sample> -> seq<Entry>, all: seq<seq<Sample>>, n: nat, m: nat, c0: int, c: int, c': int, max: int)
    requires n < |all| && m == n + 1 && Settled(bill, all, n, c0, c, max) && c' == c + Total(bill(all[n]))
    ensures if Pays(bill(all[n]), c, max) then Settled(bill, all, m, c0, c', max) else !Pays(Concat(bill, all, 0), c0, max)
  {
    var mine, rest := bill(all[n]), Concat(bill, all, m);
    PaysConcat(mine, rest, c, max);
    TotalConcat(mine, rest);
  }

  // ----- series without histograms -----

  predicate FloatOnly(series: seq<Sample>) {
    forall i :: 0 <= i < |series| ==> series[i].FSample?
  }

  lemma {:induction false} NoHistograms(series: seq<Sample>, lo: int, hi: int)
    requires FloatOnly(series)
    ensures InRange(series, lo, hi, true) == []
    decreases |series|
  {
    if series != [] {
      NoHistograms(series[..|series| - 1], lo, hi);
    }
  }

  /** After any number of steps the counter has grown by exactly the length of the latest window. */
  lemma {:induction false} FloatCounter(q: Query, series: seq<Sample>, n: nat)
    requires FloatOnly(series)
    ensures Total(StepEntries(q, series, n)) == |Carried(q, series, n).floats| == Weight(Carried(q, series, n))
    ensures Carried(q, series, n).hists == []
  {
    if n > 0 {
      FloatCounter(q, series, n - 1);
      PaysSnoc(StepEntries(q, series, n - 1), EntryAt(q, series)(n - 1), 0, 0);
      var w := q.Window(q.StepTime(n - 1));
      NoHistograms(series, w.lo, w.hi);
    }
  }

  /** Step `k` has no points, or room for all of them. */
  ghost predicate RoomAt(q: Query, series: seq<Sample>, k: nat, current: int, max: int) {
    var w := Expected(series, q.Window(q.StepTime(k))).floats;
    w == [] || current + |w| <= max
  }

  lemma RetainedShorter(points: seq<Sample>, mint: int)
    ensures |Retained(points, mint)| <= |points|
  {
    if points != [] {
      DropOldShorter(points, mint + 1);
    }
  }

  lemma {:induction false} DropOldShorter(points: seq<Sample>, tmin: int)
    ensures |DropOld(points, tmin)| <= |points|
    decreases |points|
  {
    if points != [] {
      DropOldShorter(points[1..], tmin);
    }
  }

  /** One step: given that the step before had room, this one is admitted exactly if it has room. */
  lemma FloatStep(q: Query, series: seq<Sample>, k: nat, current: int, max: int)
    requires FloatOnly(series) && (k > 0 ==> RoomAt(q, series, k - 1, current, max))
    ensures Admits(StepEntry(q, series, k), current + Total(StepEntries(q, series, k)), max) <==> RoomAt(q, series, k, current, max)
  {
    var w, p := q.Window(q.StepTime(k)), Carried(q, series, k);
    FloatCounter(q, series, k);
    NoHistograms(series, w.lo, w.hi);
    FloatEntry(series, p, w, Expected(series, w));
    RetainedShorter(p.floats, w.lo);
  }

  /** Cost and growth of a step without histograms. */
  lemma FloatEntry(series: seq<Sample>, p: Points, w: Span, now: Points)
    requires now == Expected(series, w) && now.hists == [] && p.hists == []
    ensures StepCost(series, p, w) == |now.floats| - |p.floats|
    ensures Grows(series, p, w) <==> |now.floats| > |Retained(p.floats, w.lo)|
  {
  }

  /**
   * The limit for series without histograms: all steps succeed exactly if every window is empty
   * or fits on top of what was counted before the series.
   */
  lemma FloatLimit(q: Query, series: seq<Sample>, n: nat, current: int, max: int)
    requires FloatOnly(series)
    ensures Pays(StepEntries(q, series, n), current, max) <==> forall k: nat :: k < n ==> RoomAt(q, series, k, current, max)
  {
    var room := (k: nat) => RoomAt(q, series, k, current, max);
    forall k: nat ensures Linked(StepEntries(q, series, n), room, k, current, max) {
      FloatLinked(q, series, n, room, k, current, max);
    }
    PaysLinked(StepEntries(q, series, n), n, room, current, max);
    assert StepEntries(q, series, n)[..n] == StepEntries(q, series, n);
    assert forall k: nat :: room(k) == RoomAt(q, series, k, current, max);
  }

  lemma FloatLinked(q: Query, series: seq<Sample>, n: nat, room: nat -> bool, k: nat, current: int, max: int)
    requires FloatOnly(series) && forall k: nat :: room(k) == RoomAt(q, series, k, current, max)
    ensures Linked(StepEntries(q, series, n), room, k, current, max)
  {
    if k < n && (k > 0 ==> room(k - 1)) {
      TabulateAt(EntryAt(q, series), n, k);
      assert k > 0 ==> RoomAt(q, series, k - 1, current, max);
      FloatStep(q, series, k, current, max);
      assert room(k) == RoomAt(q, series, k, current, max);
    }
  }

  /** A series leaves nothing but its output on the counter. */
  lemma FloatLeaves(q: Query, series: seq<Sample>, output: seq<Points> -> nat)
    requires FloatOnly(series)
    ensures Total(SeriesEntries(q, series, output)) == output(Windows(q, series, q.NumSteps()))
  {
    var n := q.NumSteps();
    ClosedPays(StepEntries(q, series, n), output(Windows(q, series, n)), Carried(q, series, n), 0, 0);
    FloatCounter(q, series, n);
  }

  // ----- a run that miscounts -----

  const LONE_HISTOGRAM := FHSample(10, FloatHistogram(Finite(0.0), 1, 0))

  /**
   * A series with one histogram of size one, in the windows of both steps of a query: the second
   * step retains it and takes it off the counter, which ends at zero.
   */
  lemma MiscountedRun(q: Query, series: seq<Sample>) returns (r1: Turned, r2: Turned)
    requires q == Query(10, 15, 5, 10, 0, false) && series == [LONE_HISTOGRAM]
    ensures var r0 := Turned(Opened(series, q.range), NO_POINTS);
            && r1 == Turn(r0, true, q.Window(10), q.StepRange()) && r2 == Turn(r1, true, q.Window(15), q.StepRange())
            && r1.points == r2.points == Points([], series) && Weight(r2.points) == 1
            && TurnCost(r0, true, q.Window(10)) == 1 && TurnCost(r1, true, q.Window(15)) == -1
  {
    var w1, w2 := Span(0, 10), Span(5, 15);
    r1, r2 := TwoTurns(q, series, w1, w2);
    LoneWindow(series, w1);
    LoneWindow(series, w2);
    LoneCosts(series, w1, w2);
  }

  /** The first two turns of any query, in terms of its series. */
  lemma TwoTurns(q: Query, series: seq<Sample>, w1: Span, w2: Span) returns (r1: Turned, r2: Turned)
    requires q.Sane() && !q.pinned && Increasing(series)
    requires w1 == q.Window(q.start) && w2 == q.Window(q.start + q.interval)
    ensures var r0 := Turned(Opened(series, q.range), NO_POINTS);
            && r1 == Turn(r0, true, w1, q.StepRange()) && r2 == Turn(r1, true, w2, q.StepRange())
            && r1.points == Expected(series, w1) && r2.points == Expected(series, w2)
            && TurnCost(r0, true, w1) == StepCost(series, NO_POINTS, w1)
            && TurnCost(r1, true, w2) == StepCost(series, r1.points, w2)
  {
    var r0 := Turned(Opened(series, q.range), NO_POINTS);
    OpenedCovers(series, q.range, w1.hi);
    var st := FirstTurn(q, r0.b, 0, w1);
    r1 := Turn(r0, true, w1, q.StepRange());
    TurnAccounting(r0, series, w1);
    st := NextTurn(q, r1, st, w1, w2);
    r2 := Turn(r1, true, w2, q.StepRange());
    TurnAccounting(r1, series, w2);
  }

  lemma LoneCosts(series: seq<Sample>, w1: Span, w2: Span)
    requires series == [LONE_HISTOGRAM] && w1 == Span(0, 10) && w2 == Span(5, 15)
    requires Expected(series, w1) == Expected(series, w2) == Points([], series)
    ensures StepCost(series, NO_POINTS, w1) == 1 && StepCost(series, Points([], series), w2) == -1
    ensures Weight(Points([], series)) == 1
  {
    SingleSize(LONE_HISTOGRAM);
    assert Retained(series, 5) == series;
  }

  lemma LoneWindow(series: seq<Sample>, w: Span)
    requires series == [LONE_HISTOGRAM] && w.lo < 10 <= w.hi
    ensures Expected(series, w) == Points([], series)
  {
    InRangeSingle(LONE_HISTOGRAM, w.lo, w.hi, false);
    InRangeSingle(LONE_HISTOGRAM, w.lo, w.hi, true);
  }

  lemma CoversMonotone(b: BufState, st: nat, t: int, t': int)
    requires Covers(b, st, t) && t <= t'
    ensures Covers(b, st, t')
  {
  }
}
