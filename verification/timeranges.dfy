/**
 * Time ranges: where subqueries place their steps, and the interval of samples the engine
 * asks storage for before it evaluates a query. Times and durations are milliseconds.
 */
module TimeRanges {
  import opened Options

  const MAX_INT64: int := 0x7fff_ffff_ffff_ffff
  const MIN_INT64: int := -0x8000_0000_0000_0000

  // ----- subquery steps -----

  ghost predicate Multiple(x: int, step: int) {
    exists k: int :: x == step * k
  }

  /** Division that truncates toward zero. */
  function TruncDiv(a: int, b: int): int
    requires b > 0
  {
    if a >= 0 then a / b else -((-a) / b)
  }

  /** First step of a subquery whose window opens at `x` (exclusive). */
  function FirstStep(x: int, step: int): int
    requires step > 0
  {
    var q := step * TruncDiv(x, step);
    if q <= x then q + step else q
  }

  lemma MultipleGap(a: int, b: int, step: int)
    requires step > 0 && step * a < step * b
    ensures step * a + step <= step * b
  {
    StepOfMultiple(step, a, b);
    assert a != b;
    MultipleSum(step, a, 1);
    MultipleSum(step, a + 1, b - a - 1);
    if b > a + 1 {
      Positive(step, b - a - 1);
    }
  }

  /** The truncated quotient lands within one step of `x`, on either side of zero. */
  lemma TruncDivNear(x: int, step: int)
    requires step > 0
    ensures x - step < step * TruncDiv(x, step) < x + step
  {
  }

  /** It is the least multiple of the step above `x`, whatever the sign of `x`. */
  lemma FirstStepIsLeast(x: int, step: int)
    requires step > 0
    ensures Multiple(FirstStep(x, step), step) && x < FirstStep(x, step) <= x + step
    ensures forall g: int :: x < g && Multiple(g, step) ==> FirstStep(x, step) <= g
  {
    TruncDivNear(x, step);
    var d := TruncDiv(x, step);
    var k0 := if step * d <= x then d + 1 else d;
    assert FirstStep(x, step) == step * k0;
    forall g: int | x < g && Multiple(g, step) ensures step * k0 <= g {
      var k: int :| g == step * k;
      if g < step * k0 {
        MultipleGap(k, k0, step);
      }
    }
  }

  /** An evaluator: from `start` to `end` in steps of `interval`. */
  datatype Grid = Grid(start: int, end: int, interval: int) {
    ghost predicate Has(t: int) {
      start <= t <= end && exists k: nat :: t == start + interval * k
    }
  }

  /** A subquery without `@`. */
  datatype Sub = Sub(offset: int, range: int, step: int)

  /** The evaluator of a subquery's inner expression. */
  function Inner(ev: Grid, q: Sub): Grid
    requires q.step > 0
  {
    Grid(FirstStep(ev.start - q.offset - q.range, q.step), ev.end - q.offset, q.step)
  }

  lemma StepOfMultiple(step: int, k0: int, k: int)
    requires step > 0 && step * k0 <= step * k
    ensures k0 <= k
  {
    if k < k0 {
      MultipleSum(step, k, k0 - k);
      Positive(step, k0 - k);
    }
  }

  lemma Positive(a: int, b: int)
    requires a > 0 && b > 0
    ensures a * b > 0
  {
  }

  lemma NatSteps(start: int, step: int, g: int)
    requires step > 0 && Multiple(start, step)
    ensures (exists n: nat :: g == start + step * n) <==> start <= g && Multiple(g, step)
  {
    var k0: int :| start == step * k0;
    if n: nat :| g == start + step * n {
      MultipleSum(step, k0, n);
      assert step * n >= 0;
    }
    if start <= g && Multiple(g, step) {
      var k: int :| g == step * k;
      StepOfMultiple(step, k0, k);
      var n: nat := k - k0;
      MultipleSum(step, k0, n);
    }
  }

  lemma MultipleSum(step: int, a: int, b: int)
    ensures step * a + step * b == step * (a + b)
  {
  }

  /**
   * Whatever point of the outer evaluation a subquery is windowed at, the inner points in its
   * window are exactly the multiples of its step there: none is missing, none is extra.
   */
  lemma SubqueryWindow(ev: Grid, q: Sub, t: int, g: int)
    requires q.step > 0 && ev.start <= t <= ev.end && t - q.offset - q.range < g <= t - q.offset
    ensures Inner(ev, q).Has(g) <==> Multiple(g, q.step)
  {
    FirstStepIsLeast(ev.start - q.offset - q.range, q.step);
    NatSteps(Inner(ev, q).start, q.step, g);
  }

  // ----- sums along the path -----

  /** A node on the path to a selector: a subquery, perhaps with `@`, or anything else. */
  datatype Node = Other | SubqueryNode(q: Sub, at: Option<int>)

  /** Offset and range summed so far, and the last timestamp seen. */
  datatype Times = Times(offset: int, range: int, ts: int)

  function Advance(s: Times, n: Node): Times {
    match n
    case Other => s
    case SubqueryNode(q, None) => Times(s.offset + q.offset, s.range + q.range, s.ts)
    case SubqueryNode(q, Some(t)) => Times(q.offset, q.range, t)
  }

  function Accumulate(s: Times, path: seq<Node>): Times
    decreases |path|
  {
    if path == [] then s else Accumulate(Advance(s, path[0]), path[1..])
  }

  const NO_TIMES := Times(0, 0, MAX_INT64)

  /** `subqueryTimes`. */
  method SubqueryTimes(path: seq<Node>) returns (offset: int, range: int, at: Option<int>)
    ensures var s := Accumulate(NO_TIMES, path);
            offset == s.offset && range == s.range && at == if s.ts != MAX_INT64 then Some(s.ts) else None
  {
    offset, range := 0, 0;
    var ts := MAX_INT64;
    for i := 0 to |path|
      invariant Accumulate(Times(offset, range, ts), path[i..]) == Accumulate(NO_TIMES, path)
    {
      if path[i].SubqueryNode? {
        offset := offset + path[i].q.offset;
        range := range + path[i].q.range;
        if path[i].at.Some? {
          offset := path[i].q.offset;
          range := path[i].q.range;
          ts := path[i].at.value;
        }
      }
    }
    at := if ts != MAX_INT64 then Some(ts) else None;
  }

  function TotalOffset(path: seq<Node>): int {
    if path == [] then 0 else (if path[0].SubqueryNode? then path[0].q.offset else 0) + TotalOffset(path[1..])
  }

  function TotalRange(path: seq<Node>): int {
    if path == [] then 0 else (if path[0].SubqueryNode? then path[0].q.range else 0) + TotalRange(path[1..])
  }

  predicate Floating(path: seq<Node>) {
    forall i :: 0 <= i < |path| ==> path[i].SubqueryNode? ==> path[i].at.None?
  }

  lemma {:induction false} AccumulateFloating(s: Times, path: seq<Node>)
    requires Floating(path)
    ensures Accumulate(s, path) == Times(s.offset + TotalOffset(path), s.range + TotalRange(path), s.ts)
    decreases |path|
  {
    if path != [] {
      AccumulateFloating(Advance(s, path[0]), path[1..]);
    }
  }

  /** An `@` discards every sum above it: only the nodes from the last one on count. */
  lemma {:induction false} AccumulatePinned(s: Times, path: seq<Node>, k: nat)
    requires k < |path| && path[k].SubqueryNode? && path[k].at.Some? && Floating(path[k + 1..])
    ensures Accumulate(s, path) == Times(TotalOffset(path[k..]), TotalRange(path[k..]), path[k].at.value)
    decreases |path|
  {
    if k == 0 {
      AccumulateFloating(Advance(s, path[0]), path[1..]);
    } else {
      assert path[1..][k - 1..] == path[k..] && path[1..][k..] == path[k + 1..];
      AccumulatePinned(Advance(s, path[0]), path[1..], k - 1);
    }
  }

  // ----- the range of one selector -----

  /** Statement: first and last step, their distance, and the look-back of instant selectors. */
  datatype Stmt = Stmt(grid: Grid, lookback: int)

  datatype Interval = Interval(lo: int, hi: int)

  /** Width of what a selector reads at a step; 0 stands for an instant selector. */
  function Width(s: Stmt, evalRange: int): int {
    if evalRange == 0 then s.lookback else evalRange
  }

  /** `getTimeRangesForSelector`. */
  function SelectorRange(s: Stmt, offset: int, at: Option<int>, path: seq<Node>, evalRange: int): Interval {
    var sums := Accumulate(NO_TIMES, path);
    var base := Base(s.grid, sums);
    var span := if at.Some? then Interval(at.value, at.value)
                else Interval(base.lo - sums.offset - sums.range, base.hi - sums.offset);
    Interval(span.lo - (Width(s, evalRange) - 1) - offset, span.hi - offset)
  }

  /** What a selector reads at step `t`: the half-open window that ends at `t - offset`. */
  function Read(s: Stmt, offset: int, evalRange: int, t: int): Interval {
    Interval(t - offset - Width(s, evalRange) + 1, t - offset)
  }

  predicate Within(a: Interval, b: Interval) {
    b.lo <= a.lo && a.hi <= b.hi
  }

  /** Where a subquery with `@` is meant to be evaluated: at its timestamp only. */
  function Placed(ev: Grid, at: Option<int>): Grid {
    if at.Some? then Grid(at.value, at.value, ev.interval) else ev
  }

  /**
   * The evaluator inside all subqueries of a path. Without `@` it is the engine's; with `@` it
   * has the steps that the windows need, and the engine's may have others.
   */
  function Nested(ev: Grid, path: seq<Node>): Grid
    requires Steps(path)
    decreases |path|
  {
    if path == [] then ev
    else Nested(if path[0].SubqueryNode? then Inner(Placed(ev, path[0].at), path[0].q) else ev, path[1..])
  }

  /** Steps are positive, and no timestamp is the one that stands for none. */
  predicate Steps(path: seq<Node>) {
    forall i :: 0 <= i < |path| ==> path[i].SubqueryNode? ==> path[i].q.step > 0 && path[i].at != Some(MAX_INT64)
  }

  /** What the sums are relative to: the last timestamp, or else the whole query. */
  function Base(ev: Grid, sums: Times): Interval {
    if sums.ts != MAX_INT64 then Interval(sums.ts, sums.ts) else Interval(ev.start, ev.end)
  }

  /** The evaluator `ev` inside some subqueries stays within the sums for them. */
  ghost predicate Bounded(outer: Grid, sums: Times, ev: Grid) {
    var base := Base(outer, sums);
    base.lo - sums.offset - sums.range <= ev.start && ev.end <= base.hi - sums.offset
  }

  lemma {:induction false} NestedBounds(outer: Grid, sums: Times, ev: Grid, path: seq<Node>)
    requires Steps(path) && Bounded(outer, sums, ev)
    ensures Bounded(outer, Accumulate(sums, path), Nested(ev, path))
    decreases |path|
  {
    if path != [] {
      var n := path[0];
      if n.SubqueryNode? {
        var at := Placed(ev, n.at);
        FirstStepIsLeast(at.start - n.q.offset - n.q.range, n.q.step);
        NestedBounds(outer, Advance(sums, n), Inner(at, n.q), path[1..]);
      } else {
        NestedBounds(outer, sums, ev, path[1..]);
      }
    }
  }

  /** Where a selector is read: at its timestamp, or else at the step. */
  function Anchor(at: Option<int>, t: int): int {
    if at.Some? then at.value else t
  }

  /**
   * At any nesting depth, everything a selector has to read lies in the range asked for: without
   * `@` all that the engine reads, with `@` all that the meaning of the query needs.
   */
  lemma RangeCovers(s: Stmt, offset: int, at: Option<int>, path: seq<Node>, evalRange: int, t: int)
    requires Steps(path) && Nested(s.grid, path).Has(t)
    ensures Within(Read(s, offset, evalRange, Anchor(at, t)), SelectorRange(s, offset, at, path, evalRange))
  {
    NestedBounds(s.grid, NO_TIMES, s.grid, path);
  }

  /** The range itself: from what is read at the start of the query to what is read at its end. */
  lemma RangeExactly(s: Stmt, offset: int, at: Option<int>, path: seq<Node>, evalRange: int, width: int)
    requires width == if evalRange == 0 then s.lookback else evalRange
    ensures var r := SelectorRange(s, offset, at, path, evalRange);
            && (at.Some? ==> r == Interval(at.value - offset - width + 1, at.value - offset))
            && (at.None? && Floating(path) ==>
                  r == Interval(s.grid.start - TotalOffset(path) - TotalRange(path) - offset - width + 1,
                                s.grid.end - TotalOffset(path) - offset))
  {
    if Floating(path) {
      AccumulateFloating(NO_TIMES, path);
    }
  }

  /** An `@` on the path takes the place of the query's start and end. */
  lemma RangePinned(s: Stmt, offset: int, path: seq<Node>, evalRange: int, width: int, k: nat)
    requires width == if evalRange == 0 then s.lookback else evalRange
    requires Steps(path) && k < |path| && path[k].SubqueryNode? && path[k].at.Some? && Floating(path[k + 1..])
    ensures var t, last := path[k].at.value, path[k..];
            SelectorRange(s, offset, None, path, evalRange)
            == Interval(t - TotalOffset(last) - TotalRange(last) - offset - width + 1, t - TotalOffset(last) - offset)
  {
    AccumulatePinned(NO_TIMES, path, k);
  }

  function TotalStep(path: seq<Node>): int {
    if path == [] then 0 else (if path[0].SubqueryNode? then path[0].q.step else 0) + TotalStep(path[1..])
  }

  /** The innermost evaluator ends where the sums say, and starts at most all steps later than they say. */
  lemma {:induction false} NestedTight(ev: Grid, path: seq<Node>)
    requires Steps(path) && Floating(path)
    ensures Nested(ev, path).end == ev.end - TotalOffset(path)
    ensures Nested(ev, path).start <= ev.start - TotalOffset(path) - TotalRange(path) + TotalStep(path)
    decreases |path|
  {
    if path != [] {
      var n := path[0];
      if n.SubqueryNode? {
        FirstStepIsLeast(ev.start - n.q.offset - n.q.range, n.q.step);
        NestedTight(Inner(ev, n.q), path[1..]);
      } else {
        NestedTight(ev, path[1..]);
      }
    }
  }

  /**
   * No more is asked for than needed: the read at the first step begins where the range does, but
   * for the steps of the subqueries, and a read at the evaluator's end ends where the range does.
   */
  lemma RangeReached(s: Stmt, offset: int, path: seq<Node>, evalRange: int, first: int, last: int)
    requires Steps(path) && Floating(path) && first == Nested(s.grid, path).start && last == Nested(s.grid, path).end
    ensures var r := SelectorRange(s, offset, None, path, evalRange);
            && r.lo <= Read(s, offset, evalRange, first).lo <= r.lo + TotalStep(path)
            && Read(s, offset, evalRange, last).hi == r.hi
  {
    RangeExactly(s, offset, None, path, evalRange, Width(s, evalRange));
    NestedTight(s.grid, path);
    NestedBounds(s.grid, NO_TIMES, s.grid, path);
    AccumulateFloating(NO_TIMES, path);
  }

  // ----- the range of a whole query -----

  /** Queries, reduced to what the traversal looks at. */
  datatype Expr =
    | Vector(offset: int, at: Option<int>)
    | Matrix(range: int, vector: Expr)
    | Subquery(expr: Expr, q: Sub, at: Option<int>)
    | Compound(args: seq<Expr>)

  /**
   * As the parser guarantees: ranges and steps are positive, range selectors hold a selector. A
   * subquery is not pinned to the timestamp that stands for none.
   */
  predicate WellFormed(e: Expr) {
    match e
    case Vector(_, _) => true
    case Matrix(range, v) => range > 0 && v.Vector?
    case Subquery(x, q, at) => q.step > 0 && at != Some(MAX_INT64) && WellFormed(x)
    case Compound(args) => forall i :: 0 <= i < |args| ==> WellFormed(args[i])
  }

  /** Some selector in `e`, meant to be evaluated over `ev`, needs `r` at some step. */
  ghost predicate Reads(s: Stmt, e: Expr, ev: Grid, r: Interval)
    requires WellFormed(e)
  {
    match e
    case Vector(offset, at) => exists t :: ev.Has(t) && r == Read(s, offset, 0, Anchor(at, t))
    case Matrix(range, v) => exists t :: ev.Has(t) && r == Read(s, v.offset, range, Anchor(v.at, t))
    case Subquery(x, q, at) => Reads(s, x, Inner(Placed(ev, at), q), r)
    case Compound(args) => exists i :: 0 <= i < |args| && Reads(s, args[i], ev, r)
  }

  /** The variables the traversal updates. */
  datatype Found = Found(lo: int, hi: int, evalRange: int)

  function Select(st: Found, r: Interval): Found {
    Found(if r.lo < st.lo then r.lo else st.lo, if r.hi > st.hi then r.hi else st.hi, 0)
  }

  /** The traversal visits a node before its children. */
  function Visit(s: Stmt, e: Expr, path: seq<Node>, st: Found): Found
    decreases e
  {
    match e
    case Vector(offset, at) => Select(st, SelectorRange(s, offset, at, path, st.evalRange))
    case Matrix(range, v) => Visit(s, v, path + [Other], st.(evalRange := range))
    case Subquery(x, q, at) => Visit(s, x, path + [SubqueryNode(q, at)], st)
    case Compound(args) => VisitAll(s, args, path + [Other], st)
  }

  function VisitAll(s: Stmt, args: seq<Expr>, path: seq<Node>, st: Found): Found
    decreases args
  {
    if args == [] then st else VisitAll(s, args[1..], path, Visit(s, args[0], path, st))
  }

  /** `FindMinMaxTime`: the traversal's closure keeps the extremes in captured variables. */
  class Traversal {
    const stmt: Stmt
    var minTimestamp: int
    var maxTimestamp: int
    var evalRange: int

    constructor (stmt: Stmt)
      ensures this.stmt == stmt && Value() == Found(MAX_INT64, MIN_INT64, 0)
    {
      this.stmt := stmt;
      minTimestamp, maxTimestamp, evalRange := MAX_INT64, MIN_INT64, 0;
    }

    function Value(): Found
      reads this
    {
      Found(minTimestamp, maxTimestamp, evalRange)
    }

    method Inspect(e: Expr, path: seq<Node>)
      modifies this
      ensures Value() == Visit(stmt, e, path, old(Value()))
      decreases e, 1
    {
      match e {
        case Vector(offset, at) =>
          var r := SelectorRange(stmt, offset, at, path, evalRange);
          if r.lo < minTimestamp {
            minTimestamp := r.lo;
          }
          if r.hi > maxTimestamp {
            maxTimestamp := r.hi;
          }
          evalRange := 0;
        case Matrix(range, v) =>
          evalRange := range;
          Inspect(v, path + [Other]);
        case Subquery(x, q, at) =>
          Inspect(x, path + [SubqueryNode(q, at)]);
        case Compound(args) =>
          InspectAll(args, path + [Other]);
      }
    }

    method InspectAll(args: seq<Expr>, path: seq<Node>)
      modifies this
      ensures Value() == VisitAll(stmt, args, path, old(Value()))
      decreases args, 0
    {
      for i := 0 to |args|
        invariant VisitAll(stmt, args[i..], path, Value()) == VisitAll(stmt, args, path, old(Value()))
      {
        assert args[i..][0] == args[i] && args[i..][1..] == args[i + 1..];
        Inspect(args[i], path);
      }
    }
  }

  /** The extremes only widen, and `evalRange` is back to 0 after every node. */
  lemma {:induction false} VisitWidens(s: Stmt, e: Expr, path: seq<Node>, st: Found)
    requires WellFormed(e) && st.evalRange == 0
    ensures var st' := Visit(s, e, path, st);
            st'.lo <= st.lo && st.hi <= st'.hi && st'.evalRange == 0
    decreases e
  {
    match e
    case Vector(_, _) =>
    case Matrix(_, _) =>
    case Subquery(x, q, at) => VisitWidens(s, x, path + [SubqueryNode(q, at)], st);
    case Compound(args) => VisitAllWidens(s, args, path + [Other], st);
  }

  lemma {:induction false} VisitAllWidens(s: Stmt, args: seq<Expr>, path: seq<Node>, st: Found)
    requires (forall i :: 0 <= i < |args| ==> WellFormed(args[i])) && st.evalRange == 0
    ensures var st' := VisitAll(s, args, path, st);
            st'.lo <= st.lo && st.hi <= st'.hi && st'.evalRange == 0
    decreases args
  {
    if args != [] {
      VisitWidens(s, args[0], path, st);
      VisitAllWidens(s, args[1..], path, Visit(s, args[0], path, st));
    }
  }

  lemma {:induction false} NestedSnoc(ev: Grid, path: seq<Node>, n: Node)
    requires Steps(path) && (n.SubqueryNode? ==> n.q.step > 0 && n.at != Some(MAX_INT64))
    ensures Steps(path + [n])
    ensures Nested(ev, path + [n])
            == if n.SubqueryNode? then Inner(Placed(Nested(ev, path), n.at), n.q) else Nested(ev, path)
    decreases |path|
  {
    var all := path + [n];
    if path == [] {
      assert all[0] == n && all[1..] == [];
    } else {
      assert all[0] == path[0] && all[1..] == path[1..] + [n];
      NestedSnoc(if path[0].SubqueryNode? then Inner(Placed(ev, path[0].at), path[0].q) else ev, path[1..], n);
    }
  }

  lemma {:induction false} VisitCovers(s: Stmt, e: Expr, path: seq<Node>, st: Found, r: Interval)
    requires WellFormed(e) && st.evalRange == 0 && Steps(path)
    requires Reads(s, e, Nested(s.grid, path), r)
    ensures var st' := Visit(s, e, path, st);
            st'.lo <= r.lo && r.hi <= st'.hi
    decreases e
  {
    var ev := Nested(s.grid, path);
    match e
    case Vector(offset, at) =>
      var t :| ev.Has(t) && r == Read(s, offset, 0, Anchor(at, t));
      RangeCovers(s, offset, at, path, 0, t);
    case Matrix(range, v) =>
      var t :| ev.Has(t) && r == Read(s, v.offset, range, Anchor(v.at, t));
      NestedSnoc(s.grid, path, Other);
      RangeCovers(s, v.offset, v.at, path + [Other], range, t);
    case Subquery(x, q, at) =>
      NestedSnoc(s.grid, path, SubqueryNode(q, at));
      VisitCovers(s, x, path + [SubqueryNode(q, at)], st, r);
    case Compound(args) =>
      var i :| 0 <= i < |args| && Reads(s, args[i], ev, r);
      NestedSnoc(s.grid, path, Other);
      VisitAllCovers(s, args, path + [Other], st, i, r);
  }

  lemma {:induction false} VisitAllCovers(s: Stmt, args: seq<Expr>, path: seq<Node>, st: Found, k: nat, r: Interval)
    requires (forall i :: 0 <= i < |args| ==> WellFormed(args[i]))
    requires st.evalRange == 0 && Steps(path)
    requires k < |args| && Reads(s, args[k], Nested(s.grid, path), r)
    ensures var st' := VisitAll(s, args, path, st);
            st'.lo <= r.lo && r.hi <= st'.hi
    decreases args
  {
    var st' := Visit(s, args[0], path, st);
    VisitWidens(s, args[0], path, st);
    if k == 0 {
      VisitCovers(s, args[0], path, st, r);
      VisitAllWidens(s, args[1..], path, st');
    } else {
      VisitAllCovers(s, args[1..], path, st', k - 1, r);
    }
  }

  /** Every sample any selector of the query needs lies in the range found. */
  lemma QueryCovered(s: Stmt, e: Expr, r: Interval)
    requires WellFormed(e) && Reads(s, e, s.grid, r)
    ensures var st := Visit(s, e, [], Found(MAX_INT64, MIN_INT64, 0));
            st.lo <= r.lo && r.hi <= st.hi
  {
    VisitCovers(s, e, [], Found(MAX_INT64, MIN_INT64, 0), r);
  }

  /** `FindMinMaxTime`. */
  method FindMinMaxTime(s: Stmt, e: Expr) returns (lo: int, hi: int)
    requires WellFormed(e)
    ensures var st := Visit(s, e, [], Found(MAX_INT64, MIN_INT64, 0));
            if st.hi == MIN_INT64 then lo == 0 && hi == 0 else lo == st.lo && hi == st.hi
    ensures forall r :: Reads(s, e, s.grid, r) && r.hi > MIN_INT64 ==> lo <= r.lo && r.hi <= hi
  {
    var t := new Traversal(s);
    t.Inspect(e, []);
    lo, hi := t.minTimestamp, t.maxTimestamp;
    forall r | Reads(s, e, s.grid, r) ensures lo <= r.lo && r.hi <= hi {
      QueryCovered(s, e, r);
    }
    if hi == MIN_INT64 {
      lo, hi := 0, 0;
    }
  }
}
