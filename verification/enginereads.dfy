/**
 * What the engine reads from storage against what it asked storage for. A read enters the result
 * if the engine's value depends on it; steps of a subquery that are evaluated and then cut off by
 * its window do not.
 */
module EngineReads {
  import opened Options
  import opened StepInvariant
  import T = TimeRanges

  /**
   * One read of a selector: where the selector stands (its timestamp, its offset and the
   * subqueries above it), the time it is read at, and how far the evaluator had slipped.
   */
  datatype Leaf = Leaf(
    id: nat, matrix: bool, at: Option<int>, offset: int, above: seq<T.Node>, time: int, slip: int)

  /** The timestamp of a node in a rewritten tree. */
  function Timestamp(at: At): Option<int> {
    if at.AtTime? then Some(at.t) else None
  }

  /** The subquery `e` as a node on a path. */
  function NodeOf<V>(e: Expr<V>): T.Node
    requires e.Subquery?
  {
    T.SubqueryNode(T.Sub(e.offset, e.range, e.step), Timestamp(e.at))
  }

  function InnerEvaluator<V>(e: Expr<V>, ev: Span, path: Path): Span
    requires e.Subquery? && e.step > 0
  {
    Span(InnerStart(path, ev.start, e.range, e.step, e.at, e.offset), ev.end - OffsetField(path, ev.start, e.at, e.offset))
  }

  function WindowEnd<V>(e: Expr<V>, t: int): int
    requires e.Subquery?
  {
    (if e.at.AtTime? then e.at.t else t) - e.offset
  }

  function PathBelow<V>(e: Expr<V>, ev: Span, path: Path): Path
    requires e.Subquery? && e.step > 0
  {
    InnerPath(path, ev.start, InnerEvaluator(e, ev, path).start, e.at, e.offset)
  }

  /** Point `g` of the subquery `e` is evaluated, and in its window at `t`. */
  ghost predicate Enters<V>(e: Expr<V>, ev: Span, t: int, path: Path, g: int)
    requires e.Subquery? && e.step > 0
  {
    var ev', hi := InnerEvaluator(e, ev, path), WindowEnd(e, t);
    T.Multiple(g, e.step) && ev'.start <= g <= ev'.end && hi - e.range < g <= hi
  }

  /** The reads that enter the value of the rewritten tree `e` at `t`. */
  ghost predicate Reads<V>(e: Expr<V>, ev: Span, t: int, path: Path, above: seq<T.Node>, leaf: Leaf)
    requires Stepped(e)
    decreases e, 0
  {
    match e
    case Literal(_) => false
    case Selector(id, matrix, at, offset) =>
      var anchor := if matrix && at.AtTime? then ev.start else t;
      leaf == Leaf(id, matrix, Timestamp(at), offset, above,
                   anchor - OffsetField(path, ev.start, at, offset), Slip(path, ev.start))
    case Unary(_, x) => Reads(x, ev, t, path, above, leaf)
    case Aggregate(_, x) => Reads(x, ev, t, path, above, leaf)
    case Binary(_, l, r) => Reads(l, ev, t, path, above, leaf) || Reads(r, ev, t, path, above, leaf)
    case Call(_, args) => AnyReads(args, ev, t, path, above, leaf)
    case Subquery(x, _, _, _, _) =>
      exists g :: Enters(e, ev, t, path, g) &&
        Reads(x, InnerEvaluator(e, ev, path), g, PathBelow(e, ev, path), above + [NodeOf(e)], leaf)
    case Invariant(x) => Reads(x, Span(ev.start, ev.start), ev.start, path, above, leaf)
  }

  ghost predicate AnyReads<V>(args: seq<Expr<V>>, ev: Span, t: int, path: Path, above: seq<T.Node>, leaf: Leaf)
    requires AllStepped(args)
    decreases args, 0
  {
    args != [] && (Reads(Unwrapped(args[0]), ev, t, path, above, leaf) || AnyReads(args[1..], ev, t, path, above, leaf))
  }

  // ----- the value depends on nothing else -----

  /** The environments compute alike and return the same for the given reads. */
  ghost predicate Agree<V(!new)>(env: Env<V>, env': Env<V>, e: Expr<V>, ev: Span, t: int, path: Path, above: seq<T.Node>)
    requires Stepped(e)
  {
    env' == env.(read := env'.read) &&
    forall leaf :: Reads(e, ev, t, path, above, leaf) ==> env.read(leaf.id, leaf.time) == env'.read(leaf.id, leaf.time)
  }

  ghost predicate AgreeAll<V(!new)>(env: Env<V>, env': Env<V>, args: seq<Expr<V>>, ev: Span, t: int, path: Path, above: seq<T.Node>)
    requires AllStepped(args)
  {
    env' == env.(read := env'.read) &&
    forall leaf :: AnyReads(args, ev, t, path, above, leaf) ==> env.read(leaf.id, leaf.time) == env'.read(leaf.id, leaf.time)
  }

  /** If storage returns the same for the reads that enter the value, the value is the same. */
  lemma {:induction false} ValueOfReads<V(!new)>(env: Env<V>, env': Env<V>, e: Expr<V>, ev: Span, t: int, path: Path, above: seq<T.Node>)
    requires Stepped(e) && Agree(env, env', e, ev, t, path, above)
    ensures Eval(env, e, ev, t, path) == Eval(env', e, ev, t, path)
    decreases e, 1
  {
    match e
    case Literal(_) =>
    case Selector(id, matrix, at, offset) =>
      var anchor := if matrix && at.AtTime? then ev.start else t;
      var leaf := Leaf(id, matrix, Timestamp(at), offset, above,
                       anchor - OffsetField(path, ev.start, at, offset), Slip(path, ev.start));
      assert Reads(e, ev, t, path, above, leaf);
    case Unary(_, x) => ValueOfReads(env, env', x, ev, t, path, above);
    case Aggregate(_, x) => ValueOfReads(env, env', x, ev, t, path, above);
    case Binary(_, l, r) =>
      ValueOfReads(env, env', l, ev, t, path, above);
      ValueOfReads(env, env', r, ev, t, path, above);
    case Call(_, args) => ValuesOfReads(env, env', args, ev, t, path, above);
    case Subquery(_, _, _, _, _) => RangeOfReads(env, env', e, ev, t, path, above);
    case Invariant(x) => ValueOfReads(env, env', x, Span(ev.start, ev.start), ev.start, path, above);
  }

  lemma {:induction false} ValuesOfReads<V(!new)>(env: Env<V>, env': Env<V>, args: seq<Expr<V>>, ev: Span, t: int, path: Path, above: seq<T.Node>)
    requires AllStepped(args) && AgreeAll(env, env', args, ev, t, path, above)
    ensures Evals(env, args, ev, t, path) == Evals(env', args, ev, t, path)
    decreases args, 0
  {
    if args != [] {
      ValueOfReads(env, env', Unwrapped(args[0]), ev, t, path, above);
      ValuesOfReads(env, env', args[1..], ev, t, path, above);
    }
  }

  lemma {:induction false} RangeOfReads<V(!new)>(env: Env<V>, env': Env<V>, e: Expr<V>, ev: Span, t: int, path: Path, above: seq<T.Node>)
    requires e.Subquery? && Stepped(e) && Agree(env, env', e, ev, t, path, above)
    ensures Eval(env, e, ev, t, path) == Eval(env', e, ev, t, path)
    decreases e, 0
  {
    var ev', hi := InnerEvaluator(e, ev, path), WindowEnd(e, t);
    T.FirstStepIsLeast(ev.start - OffsetField(path, ev.start, e.at, e.offset) - e.range, e.step);
    WindowOfReads(env, env', e, ev, t, path, above, ev'.start, hi - e.range, hi);
  }

  lemma {:induction false} WindowOfReads<V(!new)>(env: Env<V>, env': Env<V>, e: Expr<V>, ev: Span, t: int, path: Path, above: seq<T.Node>, g: int, lo: int, hi: int)
    requires e.Subquery? && Stepped(e) && Agree(env, env', e, ev, t, path, above)
    requires hi == WindowEnd(e, t) && lo == hi - e.range && InnerEvaluator(e, ev, path).start <= g && T.Multiple(g, e.step)
    ensures var ev', path' := InnerEvaluator(e, ev, path), PathBelow(e, ev, path);
            Window(env, e.expr, ev', g, lo, hi, e.step, path') == Window(env', e.expr, ev', g, lo, hi, e.step, path')
    decreases e, -1, if g > InnerEvaluator(e, ev, path).end then 0 else 1 + InnerEvaluator(e, ev, path).end - g
  {
    var ev', path' := InnerEvaluator(e, ev, path), PathBelow(e, ev, path);
    if g <= ev'.end {
      if lo < g <= hi {
        assert Enters(e, ev, t, path, g);
        assert Agree(env, env', e.expr, ev', g, path', above + [NodeOf(e)]);
        ValueOfReads(env, env', e.expr, ev', g, path', above + [NodeOf(e)]);
      }
      NextMultiple(g, e.step);
      WindowOfReads(env, env', e, ev, t, path, above, g + e.step, lo, hi);
    }
  }

  // ----- where the reads are -----

  /** Subqueries are not pinned to the timestamp that stands for none. */
  predicate Timestamped<V>(q: Query, e: Expr<V>) {
    match e
    case Literal(_) => true
    case Selector(_, _, _, _) => true
    case Unary(_, x) => Timestamped(q, x)
    case Aggregate(_, x) => Timestamped(q, x)
    case Binary(_, l, r) => Timestamped(q, l) && Timestamped(q, r)
    case Call(_, args) => AllTimestamped(q, args)
    case Subquery(x, _, _, at, _) => Pin(q, at) != Some(T.MAX_INT64) && Timestamped(q, x)
    case Invariant(x) => Timestamped(q, x)
  }

  predicate AllTimestamped<V>(q: Query, args: seq<Expr<V>>) {
    args != [] ==> Timestamped(q, args[0]) && AllTimestamped(q, args[1..])
  }

  /** The statement whose ranges are asked for. */
  function StmtOf(q: Query, lookback: int): T.Stmt {
    T.Stmt(T.Grid(q.start, q.end, q.interval), lookback)
  }

  /**
   * A read of a selector at its timestamp, but for the slip, or else at a step of the evaluator
   * inside the subqueries above it.
   */
  ghost predicate Located(grid: T.Grid, leaf: Leaf, v: int) {
    && T.Steps(leaf.above) && T.Nested(grid, leaf.above).Has(v)
    && leaf.time == (if leaf.at.Some? then leaf.at.value + leaf.slip else v) - leaf.offset
  }

  /**
   * Where the tree for `e` is evaluated: at the step `u` of the evaluator that the ranges are
   * computed for, or, for an invariant node, at the first step.
   */
  ghost predicate Standing<V>(grid: T.Grid, q: Query, e: Expr<V>, ev: Span, t: int, u: int, above: seq<T.Node>)
    requires Parsed(e)
  {
    && T.Steps(above) && T.Nested(grid, above).Has(u) && Timestamped(q, e)
    && (t == u || Prepared(q, e).1)
    && (Prepared(q, e).1 && !IsRange(e) ==> t == ev.start)
  }

  ghost predicate StandingAll<V>(grid: T.Grid, q: Query, args: seq<Expr<V>>, u: int, above: seq<T.Node>) {
    T.Steps(above) && T.Nested(grid, above).Has(u) && AllTimestamped(q, args)
  }

  lemma {:induction false} ReadAt<V>(grid: T.Grid, q: Query, e: Expr<V>, ev: Span, t: int, u: int, path: Path, above: seq<T.Node>, leaf: Leaf)
    returns (v: int)
    requires Parsed(e) && Standing(grid, q, e, ev, t, u, above) && Reads(Prepared(q, e).0, ev, t, path, above, leaf)
    ensures Located(grid, leaf, v)
    decreases e, 1
  {
    match e
    case Selector(_, _, _, _) => v := u;
    case Unary(_, x) => v := ReadAt(grid, q, x, ev, t, u, path, above, leaf);
    case Aggregate(_, x) => v := ReadAt(grid, q, x, ev, t, u, path, above, leaf);
    case Binary(_, l, r) =>
      if Prepared(q, l).1 && Prepared(q, r).1 {
        if Reads(Prepared(q, l).0, ev, t, path, above, leaf) {
          v := ReadAt(grid, q, l, ev, t, u, path, above, leaf);
        } else {
          v := ReadAt(grid, q, r, ev, t, u, path, above, leaf);
        }
      } else if Reads(Wrapped(Prepared(q, l)), ev, t, path, above, leaf) {
        v := WrappedReadAt(grid, q, l, ev, t, path, above, leaf);
      } else {
        v := WrappedReadAt(grid, q, r, ev, t, path, above, leaf);
      }
    case Call(f, args) =>
      if f !in UNSAFE_FUNCTIONS && AllInvariant(q, args) {
        v := ArgReadAt(grid, q, args, ev, t, u, path, above, leaf);
      } else {
        v := WrappedArgReadAt(grid, q, args, ev, t, path, above, leaf);
      }
    case Subquery(_, _, _, _, _) => v := RangeReadAt(grid, q, e, ev, t, u, path, above, leaf);
  }

  lemma {:induction false} WrappedReadAt<V>(grid: T.Grid, q: Query, e: Expr<V>, ev: Span, t: int, path: Path, above: seq<T.Node>, leaf: Leaf)
    returns (v: int)
    requires Parsed(e) && T.Steps(above) && T.Nested(grid, above).Has(t) && Timestamped(q, e)
    requires Reads(Wrapped(Prepared(q, e)), ev, t, path, above, leaf)
    ensures Located(grid, leaf, v)
    decreases e, 2
  {
    if Prepared(q, e).1 {
      v := ReadAt(grid, q, e, Span(ev.start, ev.start), ev.start, t, path, above, leaf);
    } else {
      v := ReadAt(grid, q, e, ev, t, t, path, above, leaf);
    }
  }

  lemma {:induction false} ArgReadAt<V>(grid: T.Grid, q: Query, args: seq<Expr<V>>, ev: Span, t: int, u: int, path: Path, above: seq<T.Node>, leaf: Leaf)
    returns (v: int)
    requires AllParsed(args) && AllInvariant(q, args) && t == ev.start && StandingAll(grid, q, args, u, above)
    requires AnyReads(PreparedArgs(q, args), ev, t, path, above, leaf)
    ensures Located(grid, leaf, v)
    decreases args, 0
  {
    var ps := PreparedArgs(q, args);
    assert ps[0] == Prepared(q, args[0]).0 && ps[1..] == PreparedArgs(q, args[1..]);
    if Reads(ps[0], ev, t, path, above, leaf) {
      v := ReadAt(grid, q, args[0], ev, t, u, path, above, leaf);
    } else {
      v := ArgReadAt(grid, q, args[1..], ev, t, u, path, above, leaf);
    }
  }

  lemma {:induction false} WrappedArgReadAt<V>(grid: T.Grid, q: Query, args: seq<Expr<V>>, ev: Span, t: int, path: Path, above: seq<T.Node>, leaf: Leaf)
    returns (v: int)
    requires AllParsed(args) && StandingAll(grid, q, args, t, above)
    requires AnyReads(WrappedArgs(q, args), ev, t, path, above, leaf)
    ensures Located(grid, leaf, v)
    decreases args, 0
  {
    var ps := WrappedArgs(q, args);
    assert ps[0] == Wrapped(Prepared(q, args[0])) && ps[1..] == WrappedArgs(q, args[1..]);
    if !Reads(Unwrapped(ps[0]), ev, t, path, above, leaf) {
      v := WrappedArgReadAt(grid, q, args[1..], ev, t, path, above, leaf);
    } else if IsRange(args[0]) {
      v := ReadAt(grid, q, args[0], ev, t, t, path, above, leaf);
    } else {
      v := WrappedReadAt(grid, q, args[0], ev, t, path, above, leaf);
    }
  }

  /** The points that enter are steps of the evaluator that the ranges are computed for. */
  lemma EnteringStep<V>(grid: T.Grid, q: Query, e: Expr<V>, ev: Span, t: int, u: int, path: Path, above: seq<T.Node>, g: int)
    requires e.Subquery? && Parsed(e) && Standing(grid, q, e, ev, t, u, above) && Enters(Prepared(q, e).0, ev, t, path, g)
    ensures var below := above + [NodeOf(Prepared(q, e).0)];
            T.Steps(below) && T.Nested(grid, below).Has(g)
  {
    var e' := Prepared(q, e).0;
    var n, outer := NodeOf(e'), T.Nested(grid, above);
    T.NestedSnoc(grid, above, n);
    var at := T.Placed(outer, n.at);
    T.SubqueryWindow(at, n.q, if n.at.Some? then n.at.value else u, g);
  }

  lemma {:induction false} RangeReadAt<V>(grid: T.Grid, q: Query, e: Expr<V>, ev: Span, t: int, u: int, path: Path, above: seq<T.Node>, leaf: Leaf)
    returns (v: int)
    requires e.Subquery? && Parsed(e) && Standing(grid, q, e, ev, t, u, above)
    requires Reads(Prepared(q, e).0, ev, t, path, above, leaf)
    ensures Located(grid, leaf, v)
    decreases e, 0
  {
    var e' := Prepared(q, e).0;
    var below := above + [NodeOf(e')];
    var g :| Enters(e', ev, t, path, g) && Reads(e'.expr, InnerEvaluator(e', ev, path), g, PathBelow(e', ev, path), below, leaf);
    EnteringStep(grid, q, e, ev, t, u, path, above, g);
    v := WrappedReadAt(grid, q, e.expr, InnerEvaluator(e', ev, path), g, PathBelow(e', ev, path), below, leaf);
  }

  // ----- against the range asked for -----

  /** The samples a read looks at lie in the range asked for its selector; `range` is 0 for an instant selector. */
  ghost predicate AskedFor(s: T.Stmt, leaf: Leaf, range: int) {
    T.Within(T.Read(s, leaf.offset, range, leaf.time + leaf.offset), T.SelectorRange(s, leaf.offset, leaf.at, leaf.above, range))
  }

  /**
   * A read that enters the value of a query at one of its steps is one that was asked for, if and
   * only if its selector is not pinned or has not slipped.
   */
  lemma AskedForExactly<V>(q: Query, lookback: int, e: Expr<V>, t: int, leaf: Leaf, range: int)
    requires Parsed(e) && Timestamped(q, e) && t in StepsOf(q)
    requires Reads(Preprocess(q, e), Span(q.start, q.end), t, FRESH, [], leaf)
    ensures AskedFor(StmtOf(q, lookback), leaf, range) <==> (leaf.at.Some? ==> leaf.slip == 0)
  {
    var s := StmtOf(q, lookback);
    var v := WrappedReadAt(s.grid, q, e, Span(q.start, q.end), t, FRESH, [], leaf);
    if leaf.at.None? {
      T.RangeCovers(s, leaf.offset, None, leaf.above, range, v);
    }
  }

  lemma ReadsThroughPoint<V>(e: Expr<V>, ev: Span, t: int, path: Path, above: seq<T.Node>, leaf: Leaf, g: int, ev': Span, path': Path)
    requires e.Subquery? && Stepped(e) && ev' == InnerEvaluator(e, ev, path) && path' == PathBelow(e, ev, path)
    requires Enters(e, ev, t, path, g) && Reads(e.expr, ev', g, path', above + [NodeOf(e)], leaf)
    ensures Reads(e, ev, t, path, above, leaf)
  {
  }

  lemma ZeroIsMultiple(step: int)
    ensures T.Multiple(0, step)
  {
    assert 0 == step * 0;
  }

  /** A subquery over a selector pinned to 0, which starts where the outer evaluator does, at 0. */
  ghost predicate Slips<V>(e: Expr<V>, ev: Span, t: int) {
    && e.Subquery? && e.at == Unpinned && e.step > 0 && e.range > 0 && e.expr == Invariant(Selector(0, false, AtTime(0), 0))
    && ev.start == 0 && InnerStart(FRESH, 0, e.range, e.step, Unpinned, e.offset) == 0 && t == e.offset <= ev.end
  }

  lemma SlippedPoint<V>(e: Expr<V>, ev: Span, t: int)
    requires Slips(e, ev, t)
    ensures InnerEvaluator(e, ev, FRESH) == Span(0, ev.end - e.offset) && PathBelow(e, ev, FRESH) == Path(e.offset, None)
    ensures Enters(e, ev, t, FRESH, 0)
  {
    ZeroIsMultiple(e.step);
  }

  lemma SlippedLeaf<V>(e: Expr<V>, ev: Span, t: int, leaf: Leaf)
    requires Slips(e, ev, t) && leaf == Leaf(0, false, Some(0), 0, [] + [NodeOf(e)], t, t)
    ensures Stepped(e) && Reads(e, ev, t, FRESH, [], leaf)
  {
    SlippedPoint(e, ev, t);
    var ev', path' := Span(0, ev.end - e.offset), Path(e.offset, None);
    PinnedLeaf(e.expr, ev', path', leaf.above, leaf);
    ReadsThroughPoint(e, ev, t, FRESH, [], leaf, 0, ev', path');
  }

  lemma PinnedLeaf<V>(x: Expr<V>, ev: Span, path: Path, above: seq<T.Node>, leaf: Leaf)
    requires x == Invariant(Selector(0, false, AtTime(0), 0)) && ev.start == 0 && path.at.None?
    requires leaf == Leaf(0, false, Some(0), 0, above, path.offset, path.offset)
    ensures Stepped(x) && Reads(x, ev, 0, path, above, leaf)
  {
    assert Reads(x.expr, Span(0, 0), 0, path, above, leaf);
  }

  lemma ReadsOnlyArgument<V>(f: string, e: Expr<V>, ev: Span, t: int, path: Path, above: seq<T.Node>, leaf: Leaf)
    requires Stepped(e) && !e.Invariant? && Reads(e, ev, t, path, above, leaf)
    ensures Stepped(Call(f, [e])) && Reads(Call(f, [e]), ev, t, path, above, leaf)
  {
    assert [e][0] == e && [e][1..] == [] && Unwrapped(e) == e;
    assert AnyReads([e], ev, t, path, above, leaf);
  }

  lemma LastOverReads(q: Query, inner: Expr<Reading>, ev: Span, leaf: Leaf)
    requires inner == Slipping(Invariant(Pinned())) && ev == Span(0, 60000)
    requires leaf == Leaf(0, false, Some(0), 0, [] + [NodeOf(inner)], 60000, 60000)
    ensures Parsed(LastOver(Pinned())) && Reads(Preprocess(q, LastOver(Pinned())), ev, 60000, FRESH, [], leaf)
  {
    SlippingStart();
    SlippedLeaf(inner, ev, 60000, leaf);
    ReadsOnlyArgument("last_over_time", inner, ev, 60000, FRESH, [], leaf);
    SlippingPrepared(q, Invariant(Pinned()));
  }

  lemma LastOverTimestamped(q: Query)
    ensures Timestamped(q, LastOver(Pinned()))
  {
    assert [Slipping(Pinned())][1..] == [];
    assert Timestamped(q, Pinned());
  }

  /** The query of `SlippedPin` reads the selector at one minute, but asks for it up to its timestamp 0 only. */
  lemma SlippedRead(q: Query, e: Expr<Reading>) returns (leaf: Leaf)
    requires q == Query(0, 60000, 60000) && e == LastOver(Pinned())
    ensures Parsed(e) && leaf.at == Some(0) && leaf.time == 60000
    ensures Reads(Preprocess(q, e), Span(q.start, q.end), 60000, FRESH, [], leaf)
    ensures !AskedFor(StmtOf(q, LOOKBACK), leaf, 0)
  {
    var inner := Slipping(Invariant(Pinned()));
    leaf := Leaf(0, false, Some(0), 0, [] + [NodeOf(inner)], 60000, 60000);
    LastOverReads(q, inner, Span(0, 60000), leaf);
    LastOverTimestamped(q);
    assert 60000 in StepsOf(q) by {
      SlippedPin(q, e);
    }
    AskedForExactly(q, LOOKBACK, e, 60000, leaf, 0);
  }

  // ----- nothing slips where rewriting preserves the meaning -----

  lemma {:induction false} HeldFast<V>(q: Query, e: Expr<V>, ev: Span, times: iset<int>, t: int, path: Path, above: seq<T.Node>, leaf: Leaf)
    requires Parsed(e) && Holds(q, e, ev, times, path) && t in times && leaf.at.Some?
    requires Reads(Prepared(q, e).0, ev, t, path, above, leaf)
    ensures leaf.slip == 0
    decreases e, 1
  {
    match e
    case Selector(_, _, _, _) =>
    case Unary(_, x) => HeldFast(q, x, ev, times, t, path, above, leaf);
    case Aggregate(_, x) => HeldFast(q, x, ev, times, t, path, above, leaf);
    case Binary(_, l, r) =>
      if Prepared(q, l).1 && Prepared(q, r).1 {
        if Reads(Prepared(q, l).0, ev, t, path, above, leaf) {
          HeldFast(q, l, ev, times, t, path, above, leaf);
        } else {
          HeldFast(q, r, ev, times, t, path, above, leaf);
        }
      } else if Reads(Wrapped(Prepared(q, l)), ev, t, path, above, leaf) {
        NothingSlips(q, l, ev, times, t, path, above, leaf);
      } else {
        NothingSlips(q, r, ev, times, t, path, above, leaf);
      }
    case Call(f, args) =>
      if f !in UNSAFE_FUNCTIONS && AllInvariant(q, args) {
        ArgsHeldFast(q, args, ev, times, t, path, above, leaf);
      } else {
        NoArgSlips(q, args, ev, times, t, path, above, leaf);
      }
    case Subquery(_, _, _, _, _) => RangeHeldFast(q, e, ev, times, t, path, above, leaf);
  }

  /** Under the condition of `PreservedExactlyWhen`, every pinned selector is read at its timestamp. */
  lemma {:induction false} NothingSlips<V>(q: Query, e: Expr<V>, ev: Span, times: iset<int>, t: int, path: Path, above: seq<T.Node>, leaf: Leaf)
    requires Parsed(e) && Sound(q, e, ev, times, path) && t in times && leaf.at.Some?
    requires Reads(Wrapped(Prepared(q, e)), ev, t, path, above, leaf)
    ensures leaf.slip == 0
    decreases e, 2
  {
    if Prepared(q, e).1 {
      HeldFast(q, e, Span(ev.start, ev.start), iset{ev.start}, ev.start, path, above, leaf);
    } else {
      HeldFast(q, e, ev, times, t, path, above, leaf);
    }
  }

  lemma {:induction false} ArgsHeldFast<V>(q: Query, args: seq<Expr<V>>, ev: Span, times: iset<int>, t: int, path: Path, above: seq<T.Node>, leaf: Leaf)
    requires AllParsed(args) && AllHold(q, args, ev, times, path) && t in times && leaf.at.Some?
    requires AnyReads(PreparedArgs(q, args), ev, t, path, above, leaf)
    ensures leaf.slip == 0
    decreases args, 0
  {
    var ps := PreparedArgs(q, args);
    assert ps[0] == Prepared(q, args[0]).0 && ps[1..] == PreparedArgs(q, args[1..]);
    if Reads(ps[0], ev, t, path, above, leaf) {
      HeldFast(q, args[0], ev, times, t, path, above, leaf);
    } else {
      ArgsHeldFast(q, args[1..], ev, times, t, path, above, leaf);
    }
  }

  lemma {:induction false} NoArgSlips<V>(q: Query, args: seq<Expr<V>>, ev: Span, times: iset<int>, t: int, path: Path, above: seq<T.Node>, leaf: Leaf)
    requires AllParsed(args) && AllSound(q, args, ev, times, path) && t in times && leaf.at.Some?
    requires AnyReads(WrappedArgs(q, args), ev, t, path, above, leaf)
    ensures leaf.slip == 0
    decreases args, 0
  {
    var ps := WrappedArgs(q, args);
    assert ps[0] == Wrapped(Prepared(q, args[0])) && ps[1..] == WrappedArgs(q, args[1..]);
    if !Reads(Unwrapped(ps[0]), ev, t, path, above, leaf) {
      NoArgSlips(q, args[1..], ev, times, t, path, above, leaf);
    } else if IsRange(args[0]) {
      HeldFast(q, args[0], ev, times, t, path, above, leaf);
    } else {
      NothingSlips(q, args[0], ev, times, t, path, above, leaf);
    }
  }

  lemma {:induction false} RangeHeldFast<V>(q: Query, e: Expr<V>, ev: Span, times: iset<int>, t: int, path: Path, above: seq<T.Node>, leaf: Leaf)
    requires e.Subquery? && Parsed(e) && Holds(q, e, ev, times, path) && t in times && leaf.at.Some?
    requires Reads(Prepared(q, e).0, ev, t, path, above, leaf)
    ensures leaf.slip == 0
    decreases e, 0
  {
    var e' := Prepared(q, e).0;
    var below := above + [NodeOf(e')];
    var g :| Enters(e', ev, t, path, g) && Reads(e'.expr, InnerEvaluator(e', ev, path), g, PathBelow(e', ev, path), below, leaf);
    assert InWindow(q, e, t, g) && g in Needed(q, e, times);
    NothingSlips(q, e.expr, InnerSpan(q, e, ev, path), Needed(q, e, times), g, Below(q, e, ev, path), below, leaf);
  }

  /** Where rewriting preserves the meaning, every read that enters the result was asked for. */
  lemma SoundAsksForAll<V>(q: Query, lookback: int, e: Expr<V>, t: int, leaf: Leaf, range: int)
    requires Parsed(e) && Timestamped(q, e) && Sound(q, e, Span(q.start, q.end), StepsOf(q), FRESH) && t in StepsOf(q)
    requires Reads(Preprocess(q, e), Span(q.start, q.end), t, FRESH, [], leaf)
    ensures AskedFor(StmtOf(q, lookback), leaf, range)
  {
    AskedForExactly(q, lookback, e, t, leaf, range);
    if leaf.at.Some? {
      NothingSlips(q, e, Span(q.start, q.end), StepsOf(q), t, FRESH, [], leaf);
    }
  }

  // ----- selectors of a query -----

  /** The leaf is of a selector in `e`, at any time. */
  ghost predicate Selects<V>(e: Expr<V>, above: seq<T.Node>, leaf: Leaf)
    decreases e, 0
  {
    match e
    case Literal(_) => false
    case Selector(id, matrix, at, offset) =>
      leaf.id == id && leaf.matrix == matrix && leaf.at == Timestamp(at) && leaf.offset == offset && leaf.above == above
    case Unary(_, x) => Selects(x, above, leaf)
    case Aggregate(_, x) => Selects(x, above, leaf)
    case Binary(_, l, r) => Selects(l, above, leaf) || Selects(r, above, leaf)
    case Call(_, args) => AnySelects(args, above, leaf)
    case Subquery(x, _, _, _, _) => Selects(x, above + [NodeOf(e)], leaf)
    case Invariant(x) => Selects(x, above, leaf)
  }

  ghost predicate AnySelects<V>(args: seq<Expr<V>>, above: seq<T.Node>, leaf: Leaf)
    decreases args, 0
  {
    args != [] && (Selects(args[0], above, leaf) || AnySelects(args[1..], above, leaf))
  }

  lemma {:induction false} ReadsSelects<V>(e: Expr<V>, ev: Span, t: int, path: Path, above: seq<T.Node>, leaf: Leaf)
    requires Stepped(e) && Reads(e, ev, t, path, above, leaf)
    ensures Selects(e, above, leaf)
    decreases e, 1
  {
    match e
    case Selector(_, _, _, _) =>
    case Unary(_, x) => ReadsSelects(x, ev, t, path, above, leaf);
    case Aggregate(_, x) => ReadsSelects(x, ev, t, path, above, leaf);
    case Binary(_, l, r) =>
      if Reads(l, ev, t, path, above, leaf) {
        ReadsSelects(l, ev, t, path, above, leaf);
      } else {
        ReadsSelects(r, ev, t, path, above, leaf);
      }
    case Call(_, args) => AnyReadsSelects(args, ev, t, path, above, leaf);
    case Subquery(x, _, _, _, _) =>
      var ev', path', below := InnerEvaluator(e, ev, path), PathBelow(e, ev, path), above + [NodeOf(e)];
      var g :| Enters(e, ev, t, path, g) && Reads(x, ev', g, path', below, leaf);
      ReadsSelects(x, ev', g, path', below, leaf);
    case Invariant(x) => ReadsSelects(x, Span(ev.start, ev.start), ev.start, path, above, leaf);
  }

  lemma {:induction false} AnyReadsSelects<V>(args: seq<Expr<V>>, ev: Span, t: int, path: Path, above: seq<T.Node>, leaf: Leaf)
    requires AllStepped(args) && AnyReads(args, ev, t, path, above, leaf)
    ensures AnySelects(args, above, leaf)
    decreases args, 0
  {
    if Reads(Unwrapped(args[0]), ev, t, path, above, leaf) {
      ReadsSelects(Unwrapped(args[0]), ev, t, path, above, leaf);
    } else {
      AnyReadsSelects(args[1..], ev, t, path, above, leaf);
    }
  }

  /** Range of a selector: that of its matrix selector, or 0. */
  function RangeOf(ranges: nat -> int, leaf: Leaf): int {
    if leaf.matrix then ranges(leaf.id) else 0
  }

  /** For the selectors of `e`, storage returns what it holds in the range asked for, and anything outside. */
  ghost predicate Answers<V(!new)>(env: Env<V>, env': Env<V>, s: T.Stmt, ranges: nat -> int, e: Expr<V>) {
    env' == env.(read := env'.read) &&
    forall leaf :: Selects(e, [], leaf) && AskedFor(s, leaf, RangeOf(ranges, leaf)) ==>
                     env.read(leaf.id, leaf.time) == env'.read(leaf.id, leaf.time)
  }

  /**
   * The engine on storage that only answers what was asked for has the meaning of the query on
   * all of storage, at every step, under the same condition.
   */
  lemma SelectedIsEnough<V(!new)>(env: Env<V>, env': Env<V>, q: Query, lookback: int, ranges: nat -> int, e: Expr<V>, t: int)
    requires Parsed(e) && Timestamped(q, e) && TimeFree(env) && t in StepsOf(q)
    requires Sound(q, e, Span(q.start, q.end), StepsOf(q), FRESH)
    requires Answers(env, env', StmtOf(q, lookback), ranges, Preprocess(q, e))
    ensures Eval(env', Preprocess(q, e), Span(q.start, q.end), t, FRESH) == Meaning(env, q, e, t)
  {
    var ev := Span(q.start, q.end);
    forall leaf | Reads(Preprocess(q, e), ev, t, FRESH, [], leaf)
      ensures env.read(leaf.id, leaf.time) == env'.read(leaf.id, leaf.time)
    {
      SoundAsksForAll(q, lookback, e, t, leaf, RangeOf(ranges, leaf));
      ReadsSelects(Preprocess(q, e), ev, t, FRESH, [], leaf);
    }
    ValueOfReads(env, env', Preprocess(q, e), ev, t, FRESH, []);
    PreprocessPreserves(env, q, e);
  }

  // ----- the range of the whole query -----

  /** The rewritten tree as the traversal for the whole range sees it. */
  function Shape<V>(e: Expr<V>, ranges: nat -> int): T.Expr
    decreases e, 0
  {
    match e
    case Literal(_) => T.Compound([])
    case Selector(id, matrix, at, offset) =>
      var v := T.Vector(offset, Timestamp(at));
      if matrix then T.Matrix(ranges(id), v) else v
    case Unary(_, x) => T.Compound([Shape(x, ranges)])
    case Aggregate(_, x) => T.Compound([Shape(x, ranges)])
    case Binary(_, l, r) => T.Compound([Shape(l, ranges), Shape(r, ranges)])
    case Call(_, args) => T.Compound(Shapes(args, ranges))
    case Subquery(x, range, step, at, offset) => T.Expr.Subquery(Shape(x, ranges), T.Sub(offset, range, step), Timestamp(at))
    case Invariant(x) => T.Compound([Shape(x, ranges)])
  }

  function Shapes<V>(args: seq<Expr<V>>, ranges: nat -> int): seq<T.Expr>
    decreases args, 0
  {
    if args == [] then [] else [Shape(args[0], ranges)] + Shapes(args[1..], ranges)
  }

  /** Other nodes on a path do not change the sums. */
  lemma {:induction false} SumsSnoc(sums: T.Times, path: seq<T.Node>, n: T.Node)
    ensures T.Accumulate(sums, path + [n]) == T.Advance(T.Accumulate(sums, path), n)
    decreases |path|
  {
    var all := path + [n];
    if path == [] {
      assert all[0] == n && all[1..] == [];
    } else {
      assert all[0] == path[0] && all[1..] == path[1..] + [n];
      SumsSnoc(T.Advance(sums, path[0]), path[1..], n);
    }
  }

  /** The range asked for a selector lies in what the traversal has found. */
  ghost predicate Inside(s: T.Stmt, leaf: Leaf, range: int, st: T.Found) {
    T.Within(T.SelectorRange(s, leaf.offset, leaf.at, leaf.above, range), T.Interval(st.lo, st.hi))
  }

  ghost predicate SameSums(path: seq<T.Node>, above: seq<T.Node>) {
    T.Accumulate(T.NO_TIMES, path) == T.Accumulate(T.NO_TIMES, above)
  }

  lemma VisitOne(s: T.Stmt, a: T.Expr, path: seq<T.Node>, st: T.Found)
    ensures T.VisitAll(s, [a], path, st) == T.Visit(s, a, path, st)
    ensures T.WellFormed(T.Compound([a])) ==> T.WellFormed(a)
  {
    assert [a][0] == a && [a][1..] == [];
  }

  lemma VisitTwo(s: T.Stmt, a: T.Expr, b: T.Expr, path: seq<T.Node>, st: T.Found)
    ensures T.VisitAll(s, [a, b], path, st) == T.Visit(s, b, path, T.Visit(s, a, path, st))
    ensures T.WellFormed(T.Compound([a, b])) ==> T.WellFormed(a) && T.WellFormed(b)
  {
    assert [a, b][0] == a && [a, b][1] == b && [a, b][1..] == [b];
    VisitOne(s, b, path, T.Visit(s, a, path, st));
  }

  lemma {:induction false} VisitFinds<V>(s: T.Stmt, e: Expr<V>, ranges: nat -> int, path: seq<T.Node>, above: seq<T.Node>, st: T.Found, leaf: Leaf)
    requires T.WellFormed(Shape(e, ranges)) && st.evalRange == 0 && SameSums(path, above) && Selects(e, above, leaf)
    ensures Inside(s, leaf, RangeOf(ranges, leaf), T.Visit(s, Shape(e, ranges), path, st))
    decreases e, 1
  {
    SumsSnoc(T.NO_TIMES, path, T.Other);
    match e
    case Selector(_, _, _, _) =>
    case Unary(_, x) =>
      VisitOne(s, Shape(x, ranges), path + [T.Other], st);
      VisitFinds(s, x, ranges, path + [T.Other], above, st, leaf);
    case Aggregate(_, x) =>
      VisitOne(s, Shape(x, ranges), path + [T.Other], st);
      VisitFinds(s, x, ranges, path + [T.Other], above, st, leaf);
    case Binary(_, l, r) =>
      var a, b, inner := Shape(l, ranges), Shape(r, ranges), path + [T.Other];
      assert [a, b][0] == a && [a, b][1] == b;
      VisitTwo(s, a, b, inner, st);
      T.VisitWidens(s, a, inner, st);
      if Selects(l, above, leaf) {
        VisitFinds(s, l, ranges, inner, above, st, leaf);
        T.VisitWidens(s, b, inner, T.Visit(s, a, inner, st));
      } else {
        VisitFinds(s, r, ranges, inner, above, T.Visit(s, a, inner, st), leaf);
      }
    case Call(_, args) => VisitAllFinds(s, args, ranges, path + [T.Other], above, st, leaf);
    case Subquery(x, _, _, _, _) =>
      SumsSnoc(T.NO_TIMES, path, NodeOf(e));
      SumsSnoc(T.NO_TIMES, above, NodeOf(e));
      VisitFinds(s, x, ranges, path + [NodeOf(e)], above + [NodeOf(e)], st, leaf);
    case Invariant(x) =>
      VisitOne(s, Shape(x, ranges), path + [T.Other], st);
      VisitFinds(s, x, ranges, path + [T.Other], above, st, leaf);
  }

  lemma {:induction false} VisitAllFinds<V>(s: T.Stmt, args: seq<Expr<V>>, ranges: nat -> int, path: seq<T.Node>, above: seq<T.Node>, st: T.Found, leaf: Leaf)
    requires (forall i :: 0 <= i < |Shapes(args, ranges)| ==> T.WellFormed(Shapes(args, ranges)[i]))
    requires st.evalRange == 0 && SameSums(path, above) && AnySelects(args, above, leaf)
    ensures Inside(s, leaf, RangeOf(ranges, leaf), T.VisitAll(s, Shapes(args, ranges), path, st))
    decreases args, 0
  {
    var es := Shapes(args, ranges);
    var st' := T.Visit(s, es[0], path, st);
    assert es[0] == Shape(args[0], ranges) && es[1..] == Shapes(args[1..], ranges);
    T.VisitWidens(s, es[0], path, st);
    if Selects(args[0], above, leaf) {
      VisitFinds(s, args[0], ranges, path, above, st, leaf);
      T.VisitAllWidens(s, es[1..], path, st');
    } else {
      VisitAllFinds(s, args[1..], ranges, path, above, st', leaf);
    }
  }

  // ----- rewritten trees are well formed -----

  ghost predicate Positive(ranges: nat -> int) {
    forall id: nat :: ranges(id) > 0
  }

  lemma {:induction false} ShapeWellFormed<V>(q: Query, e: Expr<V>, ranges: nat -> int)
    requires Parsed(e) && Timestamped(q, e) && Positive(ranges)
    ensures T.WellFormed(Shape(Prepared(q, e).0, ranges)) && T.WellFormed(Shape(Wrapped(Prepared(q, e)), ranges))
    decreases e, 1
  {
    match e
    case Literal(_) =>
    case Selector(_, _, _, _) =>
    case Unary(_, x) => ShapeWellFormed(q, x, ranges);
    case Aggregate(_, x) => ShapeWellFormed(q, x, ranges);
    case Binary(_, l, r) =>
      ShapeWellFormed(q, l, ranges);
      ShapeWellFormed(q, r, ranges);
    case Call(_, args) => ShapesWellFormed(q, args, ranges);
    case Subquery(x, _, _, _, _) => ShapeWellFormed(q, x, ranges);
  }

  ghost predicate AllWellFormed(es: seq<T.Expr>) {
    forall i :: 0 <= i < |es| ==> T.WellFormed(es[i])
  }

  lemma {:induction false} ShapesWellFormed<V>(q: Query, args: seq<Expr<V>>, ranges: nat -> int)
    requires AllParsed(args) && AllTimestamped(q, args) && Positive(ranges)
    ensures AllWellFormed(Shapes(PreparedArgs(q, args), ranges)) && AllWellFormed(Shapes(WrappedArgs(q, args), ranges))
    decreases args, 0
  {
    if args != [] {
      ShapeWellFormed(q, args[0], ranges);
      ShapesWellFormed(q, args[1..], ranges);
      assert PreparedArgs(q, args)[1..] == PreparedArgs(q, args[1..]);
      assert WrappedArgs(q, args)[1..] == WrappedArgs(q, args[1..]);
    }
  }

  /**
   * `FindMinMaxTime` and the reads of the engine: under the condition, every sample that a read
   * which enters the result looks at lies in the range that the querier is opened for.
   */
  lemma SoundWithinFound<V>(q: Query, lookback: int, ranges: nat -> int, e: Expr<V>, t: int, leaf: Leaf)
    requires Parsed(e) && Timestamped(q, e) && Positive(ranges) && t in StepsOf(q)
    requires Sound(q, e, Span(q.start, q.end), StepsOf(q), FRESH)
    requires Reads(Preprocess(q, e), Span(q.start, q.end), t, FRESH, [], leaf)
    ensures var s := StmtOf(q, lookback);
            var st := T.Visit(s, Shape(Preprocess(q, e), ranges), [], T.Found(T.MAX_INT64, T.MIN_INT64, 0));
            T.Within(T.Read(s, leaf.offset, RangeOf(ranges, leaf), leaf.time + leaf.offset), T.Interval(st.lo, st.hi))
  {
    var range := RangeOf(ranges, leaf);
    SoundAsksForAll(q, lookback, e, t, leaf, range);
    ReadsSelects(Preprocess(q, e), Span(q.start, q.end), t, FRESH, [], leaf);
    ShapeWellFormed(q, e, ranges);
    VisitFinds(StmtOf(q, lookback), Preprocess(q, e), ranges, [], [], T.Found(T.MAX_INT64, T.MIN_INT64, 0), leaf);
  }
}
