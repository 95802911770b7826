/**
 * Step-invariant wrapping. `Meaning` gives an expression its value at each time; `Eval` is
 * what the engine computes from the rewritten tree, where a selector pinned by `@` is an
 * offset from the evaluator's start and therefore right only at the first step.
 */
module StepInvariant {
  import opened Options
  import opened TimeRanges

  /** The `@` modifier. */
  datatype At = Unpinned | AtTime(t: int) | AtStart | AtEnd

  datatype Expr<V> =
    | Literal(value: V)
    | Selector(id: nat, matrix: bool, at: At, offset: int)
    | Unary(op: nat, expr: Expr<V>)
    | Aggregate(op: nat, expr: Expr<V>)
    | Binary(op: nat, lhs: Expr<V>, rhs: Expr<V>)
    | Call(func: string, args: seq<Expr<V>>)
    | Subquery(expr: Expr<V>, range: int, step: int, at: At, offset: int)
    | Invariant(expr: Expr<V>)

  /** Functions whose result can change with the evaluation time alone. */
  const UNSAFE_FUNCTIONS: set<string> := {
    "days_in_month", "day_of_month", "day_of_week", "day_of_year", "hour", "minute", "month", "year",
    "predict_linear", "time", "timestamp"
  }

  /**
   * What selectors return when read at a time, and what operators and functions compute.
   * A function also sees the evaluation time; `collect` forms a range vector from points.
   */
  datatype Env<!V(!new)> = Env(
    read: (nat, int) -> V, unary: (nat, V) -> V, aggregate: (nat, V) -> V, binary: (nat, V, V) -> V,
    call: (string, seq<V>, int) -> V, collect: seq<(int, V)> -> V)

  /** The functions that compute with the time they are evaluated at. */
  predicate LooksAtTime(f: string) {
    || f == "time" || f == "timestamp" || f == "predict_linear"
    || f == "minute" || f == "hour" || f == "day_of_week" || f == "day_of_month" || f == "day_of_year"
    || f == "days_in_month" || f == "month" || f == "year"
  }

  lemma UnsafeLookAtTime(f: string)
    ensures f in UNSAFE_FUNCTIONS <==> LooksAtTime(f)
  {
  }

  /** No other function does. */
  ghost predicate TimeFree<V(!new)>(env: Env<V>) {
    forall f, args, t, t' :: !LooksAtTime(f) ==> env.call(f, args, t) == env.call(f, args, t')
  }

  /** First and last step of the query, and the distance between steps. */
  datatype Query = Query(start: int, end: int, interval: int)

  function Pin(q: Query, at: At): Option<int> {
    match at
    case Unpinned => None
    case AtTime(t) => Some(t)
    case AtStart => Some(q.start)
    case AtEnd => Some(q.end)
  }

  /** Subquery steps are positive. */
  predicate Stepped<V>(e: Expr<V>) {
    match e
    case Literal(_) => true
    case Selector(_, _, _, _) => true
    case Unary(_, x) => Stepped(x)
    case Aggregate(_, x) => Stepped(x)
    case Binary(_, l, r) => Stepped(l) && Stepped(r)
    case Call(_, args) => AllStepped(args)
    case Subquery(x, _, step, _, _) => step > 0 && Stepped(x)
    case Invariant(x) => Stepped(x)
  }

  predicate AllStepped<V>(args: seq<Expr<V>>) {
    args != [] ==> Stepped(args[0]) && AllStepped(args[1..])
  }

  /** A parsed expression holds no wrapper yet. */
  predicate Parsed<V>(e: Expr<V>) {
    match e
    case Literal(_) => true
    case Selector(_, _, _, _) => true
    case Unary(_, x) => Parsed(x)
    case Aggregate(_, x) => Parsed(x)
    case Binary(_, l, r) => Parsed(l) && Parsed(r)
    case Call(_, args) => AllParsed(args)
    case Subquery(x, _, step, _, _) => step > 0 && Parsed(x)
    case Invariant(_) => false
  }

  predicate AllParsed<V>(args: seq<Expr<V>>) {
    args != [] ==> Parsed(args[0]) && AllParsed(args[1..])
  }

  // ----- meaning -----

  /** Value of the parsed expression at time `t`. */
  ghost function Meaning<V(!new)>(env: Env<V>, q: Query, e: Expr<V>, t: int): V
    requires Parsed(e)
    decreases e, 0
  {
    match e
    case Literal(v) => v
    case Selector(id, _, at, offset) => env.read(id, Anchor(q, at, t) - offset)
    case Unary(op, x) => env.unary(op, Meaning(env, q, x, t))
    case Aggregate(op, x) => env.aggregate(op, Meaning(env, q, x, t))
    case Binary(op, l, r) => env.binary(op, Meaning(env, q, l, t), Meaning(env, q, r, t))
    case Call(f, args) => env.call(f, Meanings(env, q, args, t), t)
    case Subquery(x, range, step, at, offset) =>
      var hi := Anchor(q, at, t) - offset;
      env.collect(Points(env, q, x, FirstStep(hi - range, step), hi, step))
  }

  /** The time a selector or subquery is placed at: its pin, or else the step. */
  function Anchor(q: Query, at: At, t: int): int {
    if Pin(q, at).Some? then Pin(q, at).value else t
  }

  ghost function Meanings<V(!new)>(env: Env<V>, q: Query, args: seq<Expr<V>>, t: int): seq<V>
    requires AllParsed(args)
    decreases args, 0
  {
    if args == [] then [] else [Meaning(env, q, args[0], t)] + Meanings(env, q, args[1..], t)
  }

  /** The points at `g`, `g + step`, ... up to `hi`. */
  ghost function Points<V(!new)>(env: Env<V>, q: Query, x: Expr<V>, g: int, hi: int, step: int): seq<(int, V)>
    requires Parsed(x) && step > 0
    decreases x, if g > hi then 1 else 2 + hi - g
  {
    if g > hi then [] else [(g, Meaning(env, q, x, g))] + Points(env, q, x, g + step, hi, step)
  }

  // ----- preprocessing -----

  /** `preprocessExprHelper`: the rewritten node, and whether it is step invariant. */
  function Prepared<V>(q: Query, e: Expr<V>): (p: (Expr<V>, bool))
    requires Parsed(e)
    ensures Stepped(p.0) && !p.0.Invariant?
    decreases e, 0
  {
    match e
    case Literal(_) => (e, true)
    case Selector(id, matrix, at, offset) =>
      var at' := Resolved(q, at);
      (Selector(id, matrix, at', offset), at' != Unpinned)
    case Unary(op, x) => var p := Prepared(q, x); (Unary(op, p.0), p.1)
    case Aggregate(op, x) => var p := Prepared(q, x); (Aggregate(op, p.0), p.1)
    case Binary(op, l, r) =>
      var pl, pr := Prepared(q, l), Prepared(q, r);
      if pl.1 && pr.1 then (Binary(op, pl.0, pr.0), true) else (Binary(op, Wrapped(pl), Wrapped(pr)), false)
    case Call(f, args) =>
      if f !in UNSAFE_FUNCTIONS && AllInvariant(q, args)
      then (Call(f, PreparedArgs(q, args)), true)
      else (Call(f, WrappedArgs(q, args)), false)
    case Subquery(x, range, step, at, offset) =>
      var at' := Resolved(q, at);
      (Expr.Subquery(Wrapped(Prepared(q, x)), range, step, at', offset), at' != Unpinned)
  }

  function Resolved(q: Query, at: At): At {
    if Pin(q, at).Some? then AtTime(Pin(q, at).value) else Unpinned
  }

  function Wrapped<V>(p: (Expr<V>, bool)): Expr<V> {
    if p.1 then Invariant(p.0) else p.0
  }

  predicate AllInvariant<V>(q: Query, args: seq<Expr<V>>)
    requires AllParsed(args)
    decreases args, 0
  {
    args != [] ==> Prepared(q, args[0]).1 && AllInvariant(q, args[1..])
  }

  function PreparedArgs<V>(q: Query, args: seq<Expr<V>>): (r: seq<Expr<V>>)
    requires AllParsed(args)
    ensures AllStepped(r)
    decreases args, 0
  {
    if args == [] then [] else [Prepared(q, args[0]).0] + PreparedArgs(q, args[1..])
  }

  function WrappedArgs<V>(q: Query, args: seq<Expr<V>>): (r: seq<Expr<V>>)
    requires AllParsed(args)
    ensures AllStepped(r)
    decreases args, 0
  {
    if args == [] then [] else [Wrapped(Prepared(q, args[0]))] + WrappedArgs(q, args[1..])
  }

  /** `PreprocessExpr`. */
  function Preprocess<V>(q: Query, e: Expr<V>): (r: Expr<V>)
    requires Parsed(e)
    ensures Stepped(r)
  {
    Wrapped(Prepared(q, e))
  }

  // ----- the engine -----

  /** Offsets of enclosing subqueries that `setOffsetForAtModifier` took into account. */
  datatype Path = Path(offset: int, at: Option<int>)

  const FRESH := Path(0, None)

  /** How far off a pinned node below `path` is placed when the evaluator starts at `start`. */
  function Slip(path: Path, start: int): int {
    path.offset + if path.at.Some? then start - path.at.value else 0
  }

  /** The offset field of a node, last set for an evaluator that starts at `start`. */
  function OffsetField(path: Path, start: int, at: At, original: int): int {
    if at.AtTime? then original + (start - at.t) - Slip(path, start) else original
  }

  /** Start of the evaluator of a subquery. */
  function InnerStart(path: Path, start: int, range: int, step: int, at: At, offset: int): int
    requires step > 0
  {
    FirstStep(start - OffsetField(path, start, at, offset) - range, step)
  }

  /** The offsets below a subquery are set anew unless its evaluator starts where the outer one does. */
  function InnerPath(path: Path, start: int, start': int, at: At, offset: int): Path {
    if start' != start then FRESH
    else if at.AtTime? then Path(offset, Some(at.t))
    else Path(path.offset + offset, path.at)
  }

  /** An evaluator. */
  datatype Span = Span(start: int, end: int)

  /** Value the engine has for `e` at step `t`. Range vectors with `@` are read at the first step only. */
  ghost function Eval<V(!new)>(env: Env<V>, e: Expr<V>, ev: Span, t: int, path: Path): V
    requires Stepped(e)
    decreases e, 0
  {
    match e
    case Literal(v) => v
    case Selector(id, matrix, at, offset) =>
      var anchor := if matrix && at.AtTime? then ev.start else t;
      env.read(id, anchor - OffsetField(path, ev.start, at, offset))
    case Unary(op, x) => env.unary(op, Eval(env, x, ev, t, path))
    case Aggregate(op, x) => env.aggregate(op, Eval(env, x, ev, t, path))
    case Binary(op, l, r) => env.binary(op, Eval(env, l, ev, t, path), Eval(env, r, ev, t, path))
    case Call(f, args) => env.call(f, Evals(env, args, ev, t, path), t)
    case Subquery(x, range, step, at, offset) =>
      var start' := InnerStart(path, ev.start, range, step, at, offset);
      var ev' := Span(start', ev.end - OffsetField(path, ev.start, at, offset));
      var hi := if at.AtTime? then ev.start - (offset + (ev.start - at.t)) else t - offset;
      env.collect(Window(env, x, ev', start', hi - range, hi, step, InnerPath(path, ev.start, start', at, offset)))
    case Invariant(x) => Eval(env, x, Span(ev.start, ev.start), ev.start, path)
  }

  /** Range vectors, which only occur as arguments of functions. */
  predicate IsRange<V>(e: Expr<V>) {
    e.Subquery? || (e.Selector? && e.matrix)
  }

  /** A function takes a range vector out of its wrapper and has it evaluated at all steps. */
  ghost function Unwrapped<V>(e: Expr<V>): (r: Expr<V>)
    ensures Stepped(e) ==> Stepped(r)
    ensures r == e || r < e
  {
    if e.Invariant? && IsRange(e.expr) then e.expr else e
  }

  ghost function Evals<V(!new)>(env: Env<V>, args: seq<Expr<V>>, ev: Span, t: int, path: Path): seq<V>
    requires AllStepped(args)
    decreases args, 0
  {
    if args == [] then [] else [Eval(env, Unwrapped(args[0]), ev, t, path)] + Evals(env, args[1..], ev, t, path)
  }

  /** The evaluated points from `g` on, cut to the window `(lo, hi]`. */
  ghost function Window<V(!new)>(env: Env<V>, x: Expr<V>, ev: Span, g: int, lo: int, hi: int, step: int, path: Path): seq<(int, V)>
    requires Stepped(x) && step > 0
    decreases x, if g > ev.end then 1 else 2 + ev.end - g
  {
    if g > ev.end then [] else
      (if lo < g <= hi then [(g, Eval(env, x, ev, g, path))] else [])
      + Window(env, x, ev, g + step, lo, hi, step, path)
  }

  // ----- what is marked invariant does not vary -----

  lemma {:induction false} Constant<V(!new)>(env: Env<V>, q: Query, e: Expr<V>, t: int, t': int)
    requires Parsed(e) && TimeFree(env) && Prepared(q, e).1
    ensures Meaning(env, q, e, t) == Meaning(env, q, e, t')
    decreases e
  {
    match e
    case Literal(_) =>
    case Selector(_, _, _, _) =>
    case Unary(_, x) => Constant(env, q, x, t, t');
    case Aggregate(_, x) => Constant(env, q, x, t, t');
    case Binary(_, l, r) =>
      Constant(env, q, l, t, t');
      Constant(env, q, r, t, t');
    case Call(f, args) =>
      UnsafeLookAtTime(f);
      ConstantArgs(env, q, args, t, t');
    case Subquery(_, _, _, _, _) =>
  }

  lemma {:induction false} ConstantArgs<V(!new)>(env: Env<V>, q: Query, args: seq<Expr<V>>, t: int, t': int)
    requires AllParsed(args) && TimeFree(env) && AllInvariant(q, args)
    ensures Meanings(env, q, args, t) == Meanings(env, q, args, t')
    decreases args
  {
    if args != [] {
      Constant(env, q, args[0], t, t');
      ConstantArgs(env, q, args[1..], t, t');
    }
  }

  // ----- when the engine computes the meaning -----

  /** Point `g` is in the window of a subquery that is evaluated at `t`. */
  ghost predicate InWindow<V>(q: Query, e: Expr<V>, t: int, g: int)
    requires e.Subquery?
  {
    var hi := Anchor(q, e.at, t) - e.offset;
    Multiple(g, e.step) && hi - e.range < g <= hi
  }

  ghost predicate InSomeWindow<V>(q: Query, e: Expr<V>, times: iset<int>, g: int)
    requires e.Subquery?
  {
    exists t :: t in times && InWindow(q, e, t, g)
  }

  /** The points that some window needs. */
  ghost function Needed<V>(q: Query, e: Expr<V>, times: iset<int>): iset<int>
    requires e.Subquery?
  {
    iset g: int | InSomeWindow(q, e, times, g)
  }

  ghost predicate Any(times: iset<int>) {
    exists t :: t in times
  }

  /** Where the subquery `e` evaluates its inner expression. */
  function InnerSpan<V>(q: Query, e: Expr<V>, ev: Span, path: Path): Span
    requires e.Subquery? && e.step > 0
  {
    var at' := Resolved(q, e.at);
    Span(InnerStart(path, ev.start, e.range, e.step, at', e.offset),
         ev.end - OffsetField(path, ev.start, at', e.offset))
  }

  function Below<V>(q: Query, e: Expr<V>, ev: Span, path: Path): Path
    requires e.Subquery? && e.step > 0
  {
    InnerPath(path, ev.start, InnerSpan(q, e, ev, path).start, Resolved(q, e.at), e.offset)
  }

  /**
   * The exact condition for `e`, evaluated unwrapped at the given times: no pinned selector that
   * is read has slipped, and every subquery evaluates all points that its windows need.
   */
  ghost predicate Holds<V>(q: Query, e: Expr<V>, ev: Span, times: iset<int>, path: Path)
    requires Parsed(e)
    decreases e, 0
  {
    match e
    case Literal(_) => true
    case Selector(_, _, at, _) => Pin(q, at).Some? && Any(times) ==> Slip(path, ev.start) == 0
    case Unary(_, x) => Holds(q, x, ev, times, path)
    case Aggregate(_, x) => Holds(q, x, ev, times, path)
    case Binary(_, l, r) =>
      if Prepared(q, l).1 && Prepared(q, r).1 then Holds(q, l, ev, times, path) && Holds(q, r, ev, times, path)
      else Sound(q, l, ev, times, path) && Sound(q, r, ev, times, path)
    case Call(f, args) =>
      if f !in UNSAFE_FUNCTIONS && AllInvariant(q, args) then AllHold(q, args, ev, times, path)
      else AllSound(q, args, ev, times, path)
    case Subquery(x, _, _, _, _) =>
      var ev' := InnerSpan(q, e, ev, path);
      && (forall g :: g in Needed(q, e, times) ==> ev'.start <= g <= ev'.end)
      && Sound(q, x, ev', Needed(q, e, times), Below(q, e, ev, path))
  }

  /** The same for `e` in its wrapper, if it gets one: it is then evaluated at the first step only. */
  ghost predicate Sound<V>(q: Query, e: Expr<V>, ev: Span, times: iset<int>, path: Path)
    requires Parsed(e)
    decreases e, 1
  {
    if Prepared(q, e).1 then Any(times) ==> Holds(q, e, Span(ev.start, ev.start), iset{ev.start}, path)
    else Holds(q, e, ev, times, path)
  }

  ghost predicate AllHold<V>(q: Query, args: seq<Expr<V>>, ev: Span, times: iset<int>, path: Path)
    requires AllParsed(args)
    decreases args, 0
  {
    args != [] ==> Holds(q, args[0], ev, times, path) && AllHold(q, args[1..], ev, times, path)
  }

  ghost predicate AllSound<V>(q: Query, args: seq<Expr<V>>, ev: Span, times: iset<int>, path: Path)
    requires AllParsed(args)
    decreases args, 0
  {
    args != [] ==>
      && (if IsRange(args[0]) then Holds(q, args[0], ev, times, path) else Sound(q, args[0], ev, times, path))
      && AllSound(q, args[1..], ev, times, path)
  }

  // ----- the condition suffices -----

  /** Times of an evaluator; an invariant node is only evaluated at the first step, unless it is a range vector. */
  ghost predicate Timed<V>(q: Query, e: Expr<V>, ev: Span, times: iset<int>)
    requires Parsed(e)
  {
    && (forall t :: t in times ==> ev.start <= t <= ev.end)
    && (Prepared(q, e).1 && !IsRange(e) ==> ev.end == ev.start)
  }

  lemma {:induction false} Direct<V(!new)>(env: Env<V>, q: Query, e: Expr<V>, ev: Span, times: iset<int>, t: int, path: Path)
    requires Parsed(e) && TimeFree(env) && Timed(q, e, ev, times) && t in times && Holds(q, e, ev, times, path)
    ensures Eval(env, Prepared(q, e).0, ev, t, path) == Meaning(env, q, e, t)
    decreases e, 1
  {
    match e
    case Literal(_) =>
    case Selector(_, _, _, _) =>
    case Unary(_, x) => Direct(env, q, x, ev, times, t, path);
    case Aggregate(_, x) => Direct(env, q, x, ev, times, t, path);
    case Binary(_, l, r) =>
      if Prepared(q, l).1 && Prepared(q, r).1 {
        Direct(env, q, l, ev, times, t, path);
        Direct(env, q, r, ev, times, t, path);
      } else {
        EachStep(env, q, l, ev, times, t, path);
        EachStep(env, q, r, ev, times, t, path);
      }
    case Call(f, args) =>
      if f !in UNSAFE_FUNCTIONS && AllInvariant(q, args) {
        DirectArgs(env, q, args, ev, times, t, path);
      } else {
        EachStepArgs(env, q, args, ev, times, t, path);
      }
    case Subquery(x, range, step, at, offset) =>
      DirectSubquery(env, q, e, ev, times, t, path);
  }

  lemma {:induction false} DirectArgs<V(!new)>(env: Env<V>, q: Query, args: seq<Expr<V>>, ev: Span, times: iset<int>, t: int, path: Path)
    requires AllParsed(args) && TimeFree(env) && AllInvariant(q, args) && ev.end == ev.start
    requires (forall t :: t in times ==> ev.start <= t <= ev.end) && t in times && AllHold(q, args, ev, times, path)
    ensures Evals(env, PreparedArgs(q, args), ev, t, path) == Meanings(env, q, args, t)
    decreases args, 0
  {
    if args != [] {
      Direct(env, q, args[0], ev, times, t, path);
      DirectArgs(env, q, args[1..], ev, times, t, path);
      assert PreparedArgs(q, args)[1..] == PreparedArgs(q, args[1..]);
    }
  }

  /** With its wrapper, every node is right at every step. */
  lemma {:induction false} EachStep<V(!new)>(env: Env<V>, q: Query, e: Expr<V>, ev: Span, times: iset<int>, t: int, path: Path)
    requires Parsed(e) && TimeFree(env) && Sound(q, e, ev, times, path)
    requires (forall t :: t in times ==> ev.start <= t <= ev.end) && t in times
    ensures Eval(env, Wrapped(Prepared(q, e)), ev, t, path) == Meaning(env, q, e, t)
    decreases e, 2
  {
    if Prepared(q, e).1 {
      Direct(env, q, e, Span(ev.start, ev.start), iset{ev.start}, ev.start, path);
      Constant(env, q, e, ev.start, t);
    } else {
      Direct(env, q, e, ev, times, t, path);
    }
  }

  lemma {:induction false} EachStepArgs<V(!new)>(env: Env<V>, q: Query, args: seq<Expr<V>>, ev: Span, times: iset<int>, t: int, path: Path)
    requires AllParsed(args) && TimeFree(env) && AllSound(q, args, ev, times, path)
    requires (forall t :: t in times ==> ev.start <= t <= ev.end) && t in times
    ensures Evals(env, WrappedArgs(q, args), ev, t, path) == Meanings(env, q, args, t)
    decreases args, 0
  {
    if args != [] {
      if IsRange(args[0]) {
        Direct(env, q, args[0], ev, times, t, path);
      } else {
        EachStep(env, q, args[0], ev, times, t, path);
      }
      EachStepArgs(env, q, args[1..], ev, times, t, path);
      assert WrappedArgs(q, args)[1..] == WrappedArgs(q, args[1..]);
    }
  }

  /** What the engine has for a subquery, in terms of its window. */
  lemma SubqueryEval<V(!new)>(env: Env<V>, q: Query, e: Expr<V>, ev: Span, t: int, path: Path, hi: int)
    requires e.Subquery? && Parsed(e) && hi == Anchor(q, e.at, t) - e.offset
    ensures var ev' := InnerSpan(q, e, ev, path);
            Eval(env, Prepared(q, e).0, ev, t, path) == env.collect(
              Window(env, Wrapped(Prepared(q, e.expr)), ev', ev'.start, hi - e.range, hi, e.step, Below(q, e, ev, path)))
  {
  }

  lemma {:induction false} DirectSubquery<V(!new)>(env: Env<V>, q: Query, e: Expr<V>, ev: Span, times: iset<int>, t: int, path: Path)
    requires e.Subquery? && Parsed(e) && TimeFree(env) && t in times && Holds(q, e, ev, times, path)
    ensures Eval(env, Prepared(q, e).0, ev, t, path) == Meaning(env, q, e, t)
    decreases e, 0
  {
    var ev', path' := InnerSpan(q, e, ev, path), Below(q, e, ev, path);
    var hi := Anchor(q, e.at, t) - e.offset;
    var lo := hi - e.range;
    var first := FirstStep(lo, e.step);
    SubqueryEval(env, q, e, ev, t, path, hi);
    FirstStepIsLeast(lo, e.step);
    InnerAligned(q, e, ev, path);
    var x := Wrapped(Prepared(q, e.expr));
    if first <= hi {
      assert InWindow(q, e, t, first) && first in Needed(q, e, times);
      WindowSkip(env, x, ev', ev'.start, lo, hi, e.step, path', first);
      WindowTake(env, q, e, ev', Needed(q, e, times), times, t, first, hi, path');
    } else {
      WindowNone(env, x, ev', ev'.start, lo, hi, e.step, path');
    }
  }

  lemma InnerAligned<V>(q: Query, e: Expr<V>, ev: Span, path: Path)
    requires e.Subquery? && e.step > 0
    ensures Multiple(InnerSpan(q, e, ev, path).start, e.step)
  {
    FirstStepIsLeast(ev.start - OffsetField(path, ev.start, Resolved(q, e.at), e.offset) - e.range, e.step);
  }

  lemma NextMultiple(g: int, step: int)
    requires step > 0 && Multiple(g, step)
    ensures Multiple(g + step, step)
  {
    var a: int :| g == step * a;
    MultipleSum(step, a, 1);
    assert g + step == step * (a + 1);
  }

  /** Points before the window leave no trace. */
  lemma {:induction false} WindowSkip<V(!new)>(env: Env<V>, x: Expr<V>, ev: Span, g: int, lo: int, hi: int, step: int, path: Path, first: int)
    requires Stepped(x) && step > 0 && Multiple(g, step) && g <= first == FirstStep(lo, step)
    ensures Window(env, x, ev, g, lo, hi, step, path) == Window(env, x, ev, first, lo, hi, step, path)
    decreases first - g
  {
    if g < first && g <= ev.end {
      FirstStepIsLeast(lo, step);
      var a: int, b: int :| g == step * a && first == step * b;
      MultipleGap(a, b, step);
      NextMultiple(g, step);
      WindowSkip(env, x, ev, g + step, lo, hi, step, path, first);
    }
  }

  /** A window without multiples of the step is empty. */
  lemma {:induction false} WindowNone<V(!new)>(env: Env<V>, x: Expr<V>, ev: Span, g: int, lo: int, hi: int, step: int, path: Path)
    requires Stepped(x) && step > 0 && Multiple(g, step) && FirstStep(lo, step) > hi
    ensures Window(env, x, ev, g, lo, hi, step, path) == []
    decreases if g > ev.end then 0 else 1 + ev.end - g
  {
    if g <= ev.end {
      FirstStepIsLeast(lo, step);
      NextMultiple(g, step);
      WindowNone(env, x, ev, g + step, lo, hi, step, path);
    }
  }

  /** From its first point on, the window holds the points of the meaning. */
  lemma {:induction false} WindowTake<V(!new)>(env: Env<V>, q: Query, e: Expr<V>, ev: Span, needed: iset<int>, times: iset<int>, t: int, g: int, hi: int, path: Path)
    requires e.Subquery? && Parsed(e) && TimeFree(env) && t in times && needed == Needed(q, e, times)
    requires (forall g :: g in needed ==> ev.start <= g <= ev.end) && Sound(q, e.expr, ev, needed, path)
    requires hi == Anchor(q, e.at, t) - e.offset && hi - e.range < g && Multiple(g, e.step)
    ensures Window(env, Wrapped(Prepared(q, e.expr)), ev, g, hi - e.range, hi, e.step, path)
            == Points(env, q, e.expr, g, hi, e.step)
    decreases e, -1, if g > ev.end then 0 else 1 + ev.end - g
  {
    if g <= hi {
      assert InWindow(q, e, t, g) && g in needed;
      NextMultiple(g, e.step);
      EachStep(env, q, e.expr, ev, needed, g, path);
      WindowTake(env, q, e, ev, needed, times, t, g + e.step, hi, path);
    } else if g <= ev.end {
      NextMultiple(g, e.step);
      WindowTake(env, q, e, ev, needed, times, t, g + e.step, hi, path);
    }
  }

  /** The times the query is evaluated at. */
  ghost function StepsOf(q: Query): iset<int> {
    iset t: int | Grid(q.start, q.end, q.interval).Has(t)
  }

  /** The engine has the meaning at every step. */
  ghost predicate Preserved<V(!new)>(env: Env<V>, q: Query, e: Expr<V>)
    requires Parsed(e)
  {
    forall t :: t in StepsOf(q) ==> Eval(env, Preprocess(q, e), Span(q.start, q.end), t, FRESH) == Meaning(env, q, e, t)
  }

  /** Under the condition, preprocessing preserves meaning at every step. */
  lemma PreprocessPreserves<V(!new)>(env: Env<V>, q: Query, e: Expr<V>)
    requires Parsed(e) && TimeFree(env) && Sound(q, e, Span(q.start, q.end), StepsOf(q), FRESH)
    ensures Preserved(env, q, e)
  {
    forall t | t in StepsOf(q)
      ensures Eval(env, Preprocess(q, e), Span(q.start, q.end), t, FRESH) == Meaning(env, q, e, t)
    {
      EachStep(env, q, e, Span(q.start, q.end), StepsOf(q), t, FRESH);
    }
  }

  // ----- the condition is necessary -----

  /** Values that record how they were computed. */
  datatype Term =
    | Number(n: int)
    | ReadAt(id: nat, t: int)
    | UnaryOf(op: nat, x: Term)
    | AggregateOf(op: nat, x: Term)
    | BinaryOf(op: nat, l: Term, r: Term)
    | CallOf(func: string, args: seq<Term>, at: Option<int>)
    | RangeOf(points: seq<(int, Term)>)

  /** The environment that tells all computations apart. */
  const RECORDING: Env<Term> := Env(
    (id: nat, t: int) => ReadAt(id, t), (op: nat, x: Term) => UnaryOf(op, x), (op: nat, x: Term) => AggregateOf(op, x),
    (op: nat, l: Term, r: Term) => BinaryOf(op, l, r),
    (f: string, args: seq<Term>, t: int) => CallOf(f, args, if LooksAtTime(f) then Some(t) else None),
    (points: seq<(int, Term)>) => RangeOf(points))

  lemma RecordingTimeFree()
    ensures TimeFree(RECORDING)
  {
  }

  /** The unwrapped node is right at all the given times. */
  ghost predicate Right(q: Query, e: Expr<Term>, ev: Span, times: iset<int>, path: Path)
    requires Parsed(e)
  {
    forall t :: t in times ==> Eval(RECORDING, Prepared(q, e).0, ev, t, path) == Meaning(RECORDING, q, e, t)
  }

  ghost predicate RightWrapped(q: Query, e: Expr<Term>, ev: Span, times: iset<int>, path: Path)
    requires Parsed(e)
  {
    forall t :: t in times ==> Eval(RECORDING, Wrapped(Prepared(q, e)), ev, t, path) == Meaning(RECORDING, q, e, t)
  }

  lemma {:induction false} RightHolds(q: Query, e: Expr<Term>, ev: Span, times: iset<int>, path: Path)
    requires Parsed(e) && Timed(q, e, ev, times) && Right(q, e, ev, times, path)
    ensures Holds(q, e, ev, times, path)
    decreases e, 1
  {
    match e
    case Literal(_) =>
    case Selector(_, _, at, _) =>
      if Any(times) {
        var t :| t in times;
        assert Eval(RECORDING, Prepared(q, e).0, ev, t, path) == Meaning(RECORDING, q, e, t);
      }
    case Unary(_, x) =>
      forall t | t in times ensures Eval(RECORDING, Prepared(q, x).0, ev, t, path) == Meaning(RECORDING, q, x, t) {
        assert Eval(RECORDING, Prepared(q, e).0, ev, t, path) == Meaning(RECORDING, q, e, t);
      }
      RightHolds(q, x, ev, times, path);
    case Aggregate(_, x) =>
      forall t | t in times ensures Eval(RECORDING, Prepared(q, x).0, ev, t, path) == Meaning(RECORDING, q, x, t) {
        assert Eval(RECORDING, Prepared(q, e).0, ev, t, path) == Meaning(RECORDING, q, e, t);
      }
      RightHolds(q, x, ev, times, path);
    case Binary(_, l, r) =>
      RightBinary(q, e, ev, times, path);
    case Call(f, args) =>
      RightCall(q, e, ev, times, path);
    case Subquery(_, _, _, _, _) =>
      RightSubquery(q, e, ev, times, path);
  }

  lemma {:induction false} RightBinary(q: Query, e: Expr<Term>, ev: Span, times: iset<int>, path: Path)
    requires e.Binary? && Parsed(e) && Timed(q, e, ev, times) && Right(q, e, ev, times, path)
    ensures Holds(q, e, ev, times, path)
    decreases e, 0
  {
    var l, r := e.lhs, e.rhs;
    if Prepared(q, l).1 && Prepared(q, r).1 {
      forall t | t in times
        ensures Eval(RECORDING, Prepared(q, l).0, ev, t, path) == Meaning(RECORDING, q, l, t)
        ensures Eval(RECORDING, Prepared(q, r).0, ev, t, path) == Meaning(RECORDING, q, r, t)
      {
        assert Eval(RECORDING, Prepared(q, e).0, ev, t, path) == Meaning(RECORDING, q, e, t);
      }
      RightHolds(q, l, ev, times, path);
      RightHolds(q, r, ev, times, path);
    } else {
      forall t | t in times
        ensures Eval(RECORDING, Wrapped(Prepared(q, l)), ev, t, path) == Meaning(RECORDING, q, l, t)
        ensures Eval(RECORDING, Wrapped(Prepared(q, r)), ev, t, path) == Meaning(RECORDING, q, r, t)
      {
        assert Eval(RECORDING, Prepared(q, e).0, ev, t, path) == Meaning(RECORDING, q, e, t);
      }
      RightSound(q, l, ev, times, path);
      RightSound(q, r, ev, times, path);
    }
  }

  lemma {:induction false} RightSound(q: Query, e: Expr<Term>, ev: Span, times: iset<int>, path: Path)
    requires Parsed(e) && (forall t :: t in times ==> ev.start <= t <= ev.end) && RightWrapped(q, e, ev, times, path)
    ensures Sound(q, e, ev, times, path)
    decreases e, 2
  {
    if Prepared(q, e).1 {
      if Any(times) {
        var t :| t in times;
        assert Eval(RECORDING, Wrapped(Prepared(q, e)), ev, t, path) == Meaning(RECORDING, q, e, t);
        RecordingTimeFree();
        Constant(RECORDING, q, e, t, ev.start);
        RightHolds(q, e, Span(ev.start, ev.start), iset{ev.start}, path);
      }
    } else {
      forall t | t in times ensures Eval(RECORDING, Prepared(q, e).0, ev, t, path) == Meaning(RECORDING, q, e, t) {
        assert Eval(RECORDING, Wrapped(Prepared(q, e)), ev, t, path) == Meaning(RECORDING, q, e, t);
      }
      RightHolds(q, e, ev, times, path);
    }
  }

  lemma {:induction false} RightCall(q: Query, e: Expr<Term>, ev: Span, times: iset<int>, path: Path)
    requires e.Call? && Parsed(e) && Timed(q, e, ev, times) && Right(q, e, ev, times, path)
    ensures Holds(q, e, ev, times, path)
    decreases e, 0
  {
    if e.func !in UNSAFE_FUNCTIONS && AllInvariant(q, e.args) {
      forall t | t in times ensures Evals(RECORDING, PreparedArgs(q, e.args), ev, t, path) == Meanings(RECORDING, q, e.args, t) {
        assert Eval(RECORDING, Prepared(q, e).0, ev, t, path) == Meaning(RECORDING, q, e, t);
      }
      RightArgs(q, e.args, ev, times, path);
    } else {
      forall t | t in times ensures Evals(RECORDING, WrappedArgs(q, e.args), ev, t, path) == Meanings(RECORDING, q, e.args, t) {
        assert Eval(RECORDING, Prepared(q, e).0, ev, t, path) == Meaning(RECORDING, q, e, t);
      }
      RightWrappedArgs(q, e.args, ev, times, path);
    }
  }

  lemma {:induction false} RightArgs(q: Query, args: seq<Expr<Term>>, ev: Span, times: iset<int>, path: Path)
    requires AllParsed(args) && AllInvariant(q, args) && ev.end == ev.start
    requires forall t :: t in times ==> ev.start <= t <= ev.end
    requires forall t :: t in times ==> Evals(RECORDING, PreparedArgs(q, args), ev, t, path) == Meanings(RECORDING, q, args, t)
    ensures AllHold(q, args, ev, times, path)
    decreases args, 0
  {
    if args != [] {
      var ps := PreparedArgs(q, args);
      assert ps[1..] == PreparedArgs(q, args[1..]);
      forall t | t in times
        ensures Eval(RECORDING, Prepared(q, args[0]).0, ev, t, path) == Meaning(RECORDING, q, args[0], t)
        ensures Evals(RECORDING, PreparedArgs(q, args[1..]), ev, t, path) == Meanings(RECORDING, q, args[1..], t)
      {
        var a, b := Evals(RECORDING, ps, ev, t, path), Meanings(RECORDING, q, args, t);
        assert a == b && a[0] == b[0] && a[1..] == b[1..];
        assert a[1..] == Evals(RECORDING, ps[1..], ev, t, path) && b[1..] == Meanings(RECORDING, q, args[1..], t);
      }
      RightHolds(q, args[0], ev, times, path);
      RightArgs(q, args[1..], ev, times, path);
    }
  }

  lemma {:induction false} RightWrappedArgs(q: Query, args: seq<Expr<Term>>, ev: Span, times: iset<int>, path: Path)
    requires AllParsed(args) && forall t :: t in times ==> ev.start <= t <= ev.end
    requires forall t :: t in times ==> Evals(RECORDING, WrappedArgs(q, args), ev, t, path) == Meanings(RECORDING, q, args, t)
    ensures AllSound(q, args, ev, times, path)
    decreases args, 0
  {
    if args != [] {
      var ps := WrappedArgs(q, args);
      assert ps[1..] == WrappedArgs(q, args[1..]);
      forall t | t in times
        ensures Eval(RECORDING, Unwrapped(Wrapped(Prepared(q, args[0]))), ev, t, path) == Meaning(RECORDING, q, args[0], t)
        ensures Evals(RECORDING, WrappedArgs(q, args[1..]), ev, t, path) == Meanings(RECORDING, q, args[1..], t)
      {
        var a, b := Evals(RECORDING, ps, ev, t, path), Meanings(RECORDING, q, args, t);
        assert a == b && a[0] == b[0] && a[1..] == b[1..];
        assert a[1..] == Evals(RECORDING, ps[1..], ev, t, path) && b[1..] == Meanings(RECORDING, q, args[1..], t);
      }
      if IsRange(args[0]) {
        RightHolds(q, args[0], ev, times, path);
      } else {
        RightSound(q, args[0], ev, times, path);
      }
      RightWrappedArgs(q, args[1..], ev, times, path);
    }
  }

  /** Every multiple of the step from `g` up to `hi` is among the points. */
  lemma {:induction false} PointsHave(q: Query, x: Expr<Term>, g: int, hi: int, step: int, m: int)
    requires Parsed(x) && step > 0 && Multiple(g, step) && Multiple(m, step) && g <= m <= hi
    ensures (m, Meaning(RECORDING, q, x, m)) in Points(RECORDING, q, x, g, hi, step)
    decreases m - g
  {
    if g < m {
      var a: int, b: int :| g == step * a && m == step * b;
      MultipleGap(a, b, step);
      NextMultiple(g, step);
      PointsHave(q, x, g + step, hi, step, m);
    }
  }

  lemma {:induction false} WindowIs(x: Expr<Term>, ev: Span, g: int, lo: int, hi: int, step: int, path: Path, p: (int, Term))
    requires Stepped(x) && step > 0 && p in Window(RECORDING, x, ev, g, lo, hi, step, path)
    ensures g <= p.0 <= ev.end && p.1 == Eval(RECORDING, x, ev, p.0, path)
    decreases if g > ev.end then 0 else 1 + ev.end - g
  {
    if g <= ev.end && p != (g, Eval(RECORDING, x, ev, g, path)) {
      WindowIs(x, ev, g + step, lo, hi, step, path, p);
    }
  }

  /** A needed point is evaluated, and rightly so. */
  lemma NeededPoint(q: Query, e: Expr<Term>, ev: Span, times: iset<int>, path: Path, g: int)
    requires e.Subquery? && Parsed(e) && Right(q, e, ev, times, path) && g in Needed(q, e, times)
    ensures var ev' := InnerSpan(q, e, ev, path);
            && ev'.start <= g <= ev'.end
            && Eval(RECORDING, Wrapped(Prepared(q, e.expr)), ev', g, Below(q, e, ev, path)) == Meaning(RECORDING, q, e.expr, g)
  {
    var t :| t in times && InWindow(q, e, t, g);
    var ev', path' := InnerSpan(q, e, ev, path), Below(q, e, ev, path);
    var hi := Anchor(q, e.at, t) - e.offset;
    var lo := hi - e.range;
    var x := Wrapped(Prepared(q, e.expr));
    FirstStepIsLeast(lo, e.step);
    SubqueryEval(RECORDING, q, e, ev, t, path, hi);
    var w := Window(RECORDING, x, ev', ev'.start, lo, hi, e.step, path');
    var ps := Points(RECORDING, q, e.expr, FirstStep(lo, e.step), hi, e.step);
    assert Eval(RECORDING, Prepared(q, e).0, ev, t, path) == Meaning(RECORDING, q, e, t);
    assert RangeOf(w) == RangeOf(ps);
    var p := (g, Meaning(RECORDING, q, e.expr, g));
    PointsHave(q, e.expr, FirstStep(lo, e.step), hi, e.step, g);
    assert p in w;
    WindowIs(x, ev', ev'.start, lo, hi, e.step, path', p);
  }

  lemma {:induction false} RightSubquery(q: Query, e: Expr<Term>, ev: Span, times: iset<int>, path: Path)
    requires e.Subquery? && Parsed(e) && Right(q, e, ev, times, path)
    ensures Holds(q, e, ev, times, path)
    decreases e, 0
  {
    var ev', path', needed := InnerSpan(q, e, ev, path), Below(q, e, ev, path), Needed(q, e, times);
    forall g | g in needed
      ensures ev'.start <= g <= ev'.end
      ensures Eval(RECORDING, Wrapped(Prepared(q, e.expr)), ev', g, path') == Meaning(RECORDING, q, e.expr, g)
    {
      NeededPoint(q, e, ev, times, path, g);
    }
    RightSound(q, e.expr, ev', needed, path');
  }

  /**
   * Preprocessing preserves the meaning at every step if and only if the condition holds: it
   * suffices in every environment (`PreprocessPreserves`), and where it fails, the environment
   * that tells computations apart sees a difference.
   */
  lemma PreservedExactlyWhen(q: Query, e: Expr<Term>)
    requires Parsed(e)
    ensures Sound(q, e, Span(q.start, q.end), StepsOf(q), FRESH) <==> Preserved(RECORDING, q, e)
  {
    var ev := Span(q.start, q.end);
    RecordingTimeFree();
    if Sound(q, e, ev, StepsOf(q), FRESH) {
      PreprocessPreserves(RECORDING, q, e);
    }
    if Preserved(RECORDING, q, e) {
      RightSound(q, e, ev, StepsOf(q), FRESH);
    }
  }

  // ----- a simple condition -----

  /** Every subquery moves the evaluator's start, or else has neither offset nor `@`. */
  ghost predicate Restarts<V>(q: Query, e: Expr<V>, start: int, path: Path)
    requires Parsed(e)
    decreases e
  {
    match e
    case Literal(_) => true
    case Selector(_, _, _, _) => true
    case Unary(_, x) => Restarts(q, x, start, path)
    case Aggregate(_, x) => Restarts(q, x, start, path)
    case Binary(_, l, r) => Restarts(q, l, start, path) && Restarts(q, r, start, path)
    case Call(_, args) => AllRestart(q, args, start, path)
    case Subquery(x, range, step, at, offset) =>
      var at' := Resolved(q, at);
      var start' := InnerStart(path, start, range, step, at', offset);
      && (start' != start || (offset == 0 && Pin(q, at).None?))
      && Restarts(q, x, start', InnerPath(path, start, start', at', offset))
  }

  ghost predicate AllRestart<V>(q: Query, args: seq<Expr<V>>, start: int, path: Path)
    requires AllParsed(args)
    decreases args
  {
    args != [] ==> Restarts(q, args[0], start, path) && AllRestart(q, args[1..], start, path)
  }

  /** A subquery on which nothing has slipped evaluates all points its windows need. */
  lemma NeededInside<V>(q: Query, e: Expr<V>, ev: Span, times: iset<int>, path: Path, g: int)
    requires e.Subquery? && Parsed(e) && Timed(q, e, ev, times) && Slip(path, ev.start) == 0 && g in Needed(q, e, times)
    ensures var ev' := InnerSpan(q, e, ev, path); ev'.start <= g <= ev'.end
  {
    var t :| t in times && InWindow(q, e, t, g);
    FirstStepIsLeast(ev.start - OffsetField(path, ev.start, Resolved(q, e.at), e.offset) - e.range, e.step);
  }

  lemma {:induction false} RestartsHold<V>(q: Query, e: Expr<V>, ev: Span, times: iset<int>, path: Path)
    requires Parsed(e) && Timed(q, e, ev, times) && Restarts(q, e, ev.start, path) && Slip(path, ev.start) == 0
    ensures Holds(q, e, ev, times, path)
    decreases e, 0
  {
    match e
    case Literal(_) =>
    case Selector(_, _, _, _) =>
    case Unary(_, x) => RestartsHold(q, x, ev, times, path);
    case Aggregate(_, x) => RestartsHold(q, x, ev, times, path);
    case Binary(_, l, r) =>
      if Prepared(q, l).1 && Prepared(q, r).1 {
        RestartsHold(q, l, ev, times, path);
        RestartsHold(q, r, ev, times, path);
      } else {
        RestartsSound(q, l, ev, times, path);
        RestartsSound(q, r, ev, times, path);
      }
    case Call(_, args) =>
      AllRestartHold(q, args, ev, times, path);
    case Subquery(x, _, _, _, _) =>
      var ev', needed := InnerSpan(q, e, ev, path), Needed(q, e, times);
      forall g | g in needed ensures ev'.start <= g <= ev'.end {
        NeededInside(q, e, ev, times, path, g);
      }
      RestartsSound(q, x, ev', needed, Below(q, e, ev, path));
  }

  /** If every subquery restarts its evaluator, preprocessing preserves the meaning. */
  lemma {:induction false} RestartsSound<V>(q: Query, e: Expr<V>, ev: Span, times: iset<int>, path: Path)
    requires Parsed(e) && (forall t :: t in times ==> ev.start <= t <= ev.end)
    requires Restarts(q, e, ev.start, path) && Slip(path, ev.start) == 0
    ensures Sound(q, e, ev, times, path)
    decreases e, 1
  {
    if Prepared(q, e).1 {
      RestartsHold(q, e, Span(ev.start, ev.start), iset{ev.start}, path);
    } else {
      RestartsHold(q, e, ev, times, path);
    }
  }

  lemma {:induction false} AllRestartHold<V>(q: Query, args: seq<Expr<V>>, ev: Span, times: iset<int>, path: Path)
    requires AllParsed(args) && (forall t :: t in times ==> ev.start <= t <= ev.end)
    requires AllRestart(q, args, ev.start, path) && Slip(path, ev.start) == 0
    ensures AllInvariant(q, args) && ev.end == ev.start ==> AllHold(q, args, ev, times, path)
    ensures AllSound(q, args, ev, times, path)
    decreases args, 0
  {
    if args != [] {
      if Prepared(q, args[0]).1 && ev.end == ev.start {
        RestartsHold(q, args[0], ev, times, path);
      }
      if IsRange(args[0]) {
        RestartsHold(q, args[0], ev, times, path);
      } else {
        RestartsSound(q, args[0], ev, times, path);
      }
      AllRestartHold(q, args[1..], ev, times, path);
    }
  }

  // ----- a query for which it fails -----

  /** What a selector of one series finds, or the last value in a range of it. */
  datatype Reading = Absent | Present(value: int)

  function LastPresent(points: seq<(int, Reading)>): Reading {
    if points == [] then Absent
    else if points[|points| - 1].1.Present? then points[|points| - 1].1
    else LastPresent(points[..|points| - 1])
  }

  const LOOKBACK := 300000
  const SAMPLE_TIME := -290000

  /** One series with one sample, a look-back of five minutes, and `last_over_time`. */
  const LONE_SAMPLE: Env<Reading> := Env(
    (id: nat, t: int) => if t - LOOKBACK < SAMPLE_TIME <= t then Present(1) else Absent,
    (op: nat, v: Reading) => v, (op: nat, v: Reading) => v, (op: nat, v: Reading, w: Reading) => v,
    (f: string, args: seq<Reading>, t: int) => if args == [] then Absent else args[0],
    (points: seq<(int, Reading)>) => LastPresent(points))

  function Pinned(): Expr<Reading> { Selector(0, false, AtTime(0), 0) }

  function Slipping(x: Expr<Reading>): Expr<Reading> { Expr.Subquery(x, 60000, 300000, Unpinned, 60000) }

  /** `last_over_time((x)[1m:5m] offset 1m)`. */
  function LastOver(x: Expr<Reading>): Expr<Reading> { Call("last_over_time", [Slipping(x)]) }

  lemma SlippingStart()
    ensures FirstStep(-120000, 300000) == 0 && FirstStep(-60000, 300000) == 0
    ensures InnerStart(FRESH, 0, 60000, 300000, Unpinned, 60000) == 0
  {
  }

  lemma SlippingMeaning(q: Query)
    ensures Meaning(LONE_SAMPLE, q, Slipping(Pinned()), 60000) == Present(1)
  {
    SlippingStart();
    assert Points(LONE_SAMPLE, q, Pinned(), 300000, 0, 300000) == [];
    assert Points(LONE_SAMPLE, q, Pinned(), 0, 0, 300000) == [(0, Present(1))];
  }

  lemma SlippingEval(x: Expr<Reading>)
    requires x == Invariant(Pinned())
    ensures Eval(LONE_SAMPLE, Slipping(x), Span(0, 60000), 60000, FRESH) == Absent
  {
    var ev', path' := Span(0, 0), Path(60000, None);
    SlippingStart();
    assert InnerPath(FRESH, 0, 0, Unpinned, 60000) == path';
    assert Eval(LONE_SAMPLE, x, ev', 0, path') == Absent;
    assert Window(LONE_SAMPLE, x, ev', 300000, -60000, 0, 300000, path') == [];
    var w := Window(LONE_SAMPLE, x, ev', 0, -60000, 0, 300000, path');
    assert w == [(0, Absent)] && w[..0] == [];
    assert LastPresent(w) == Absent;
  }

  lemma SlippingPrepared(q: Query, x: Expr<Reading>)
    requires x == Invariant(Pinned())
    ensures Prepared(q, Slipping(Pinned())) == (Slipping(x), false)
    ensures Parsed(LastOver(Pinned())) && Prepared(q, LastOver(Pinned())) == (LastOver(x), false)
    ensures Preprocess(q, LastOver(Pinned())) == LastOver(x)
  {
    assert Prepared(q, Pinned()) == (Pinned(), true);
    var args := [Slipping(Pinned())];
    assert args[1..] == [] && AllParsed(args[1..]);
    assert Prepared(q, args[0]) == (Slipping(x), false) && !AllInvariant(q, args);
    assert WrappedArgs(q, args) == [Slipping(x)] + WrappedArgs(q, args[1..]);
    assert WrappedArgs(q, args) == [Slipping(x)];
  }

  /** The query as a whole is its subquery. */
  lemma LastOverValue(q: Query, x: Expr<Reading>, t: int, ev: Span)
    requires x == Invariant(Pinned())
    ensures Parsed(LastOver(Pinned()))
    ensures Meaning(LONE_SAMPLE, q, LastOver(Pinned()), t) == Meaning(LONE_SAMPLE, q, Slipping(Pinned()), t)
    ensures Eval(LONE_SAMPLE, LastOver(x), ev, t, FRESH) == Eval(LONE_SAMPLE, Slipping(x), ev, t, FRESH)
  {
    SlippingPrepared(q, x);
    var args, rewritten := [Slipping(Pinned())], [Slipping(x)];
    assert args[1..] == [] && rewritten[1..] == [];
    assert Meanings(LONE_SAMPLE, q, args, t) == [Meaning(LONE_SAMPLE, q, args[0], t)] + [];
    assert Evals(LONE_SAMPLE, rewritten, ev, t, FRESH) == [Eval(LONE_SAMPLE, rewritten[0], ev, t, FRESH)] + [];
  }

  /**
   * `last_over_time((x @ 0)[1m:5m] offset 1m)`, whose subquery starts where the query does, at 0:
   * the step at one minute reads the selector one minute late and misses a sample that a read at
   * its timestamp finds.
   */
  lemma SlippedPin(q: Query, e: Expr<Reading>)
    requires q == Query(0, 60000, 60000) && e == LastOver(Pinned())
    ensures Parsed(e) && TimeFree(LONE_SAMPLE) && !Sound(q, e, Span(0, 60000), StepsOf(q), FRESH)
    ensures 60000 in StepsOf(q) && Meaning(LONE_SAMPLE, q, e, 60000) == Present(1)
    ensures Eval(LONE_SAMPLE, Preprocess(q, e), Span(0, 60000), 60000, FRESH) == Absent
  {
    var x := Invariant(Pinned());
    SlippingPrepared(q, x);
    LastOverValue(q, x, 60000, Span(0, 60000));
    SlippingMeaning(q);
    SlippingEval(x);
    assert 60000 == 0 + 60000 * 1;
    assert 60000 in StepsOf(q);
    if Sound(q, e, Span(0, 60000), StepsOf(q), FRESH) {
      PreprocessPreserves(LONE_SAMPLE, q, e);
      assert false;
    }
  }

  /** No window of the subquery at these steps holds one of its points. */
  lemma NoPoint(q: Query, t: int, g: int)
    requires q == Query(0, 150000, 150000) && t in StepsOf(q)
    ensures !InWindow(q, Slipping(Pinned()), t, g)
  {
    var k: nat :| t == 0 + 150000 * k;
    if Multiple(g, 300000) {
      var a: int :| g == 300000 * a;
    }
  }

  /** The same query with other steps, whose windows hold no point of the subquery, is right. */
  lemma SlipUnseen(q: Query, e: Expr<Reading>)
    requires q == Query(0, 150000, 150000) && e == LastOver(Pinned())
    ensures Parsed(e) && Sound(q, e, Span(0, 150000), StepsOf(q), FRESH)
  {
    var x := Slipping(Pinned());
    SlippingPrepared(q, Invariant(Pinned()));
    forall t, g | t in StepsOf(q) ensures !InWindow(q, x, t, g) {
      NoPoint(q, t, g);
    }
    assert Prepared(q, Pinned()).1;
    assert Holds(q, x, Span(0, 150000), StepsOf(q), FRESH);
    var args := [x];
    assert args[1..] == [] && IsRange(args[0]);
    assert AllSound(q, args, Span(0, 150000), StepsOf(q), FRESH);
    assert !AllInvariant(q, args);
  }
}
