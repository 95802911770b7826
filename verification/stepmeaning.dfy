/**
 * What the values of `StepInvariant` are, in the terms of the query language: where a selector
 * and a subquery look, which calls are marked step invariant, and that time itself passes.
 */
module StepMeaning {
  import TimeRanges
  import opened StepInvariant

  // ----- where selectors and subqueries look -----

  /** A selector reads at the step, or at its `@`, less its offset. */
  lemma MeaningOfSelector<V(!new)>(env: Env<V>, q: Query, id: nat, matrix: bool, offset: int, t: int, at: int)
    ensures Meaning(env, q, Selector(id, matrix, Unpinned, offset), t) == env.read(id, t - offset)
    ensures Meaning(env, q, Selector(id, matrix, AtTime(at), offset), t) == env.read(id, at - offset)
    ensures Meaning(env, q, Selector(id, matrix, AtStart, offset), t) == env.read(id, q.start - offset)
    ensures Meaning(env, q, Selector(id, matrix, AtEnd, offset), t) == env.read(id, q.end - offset)
  {
  }

  ghost predicate PointAt<V(!new)>(env: Env<V>, q: Query, x: Expr<V>, ps: seq<(int, V)>, g: int)
    requires Parsed(x)
  {
    (g, Meaning(env, q, x, g)) in ps
  }

  predicate Before<V>(ps: seq<(int, V)>, i: nat, j: nat)
    requires i < |ps| && j < |ps|
  {
    ps[i].0 < ps[j].0
  }

  /** In ascending order, the values of `x` at exactly the multiples of the step in `(lo, hi]`. */
  ghost predicate Sampled<V(!new)>(env: Env<V>, q: Query, x: Expr<V>, ps: seq<(int, V)>, lo: int, hi: int, step: int)
    requires Parsed(x)
  {
    && (forall i: nat, j: nat :: i < j < |ps| ==> Before(ps, i, j))
    && (forall i :: 0 <= i < |ps| ==> ps[i].1 == Meaning(env, q, x, ps[i].0))
    && (forall i :: 0 <= i < |ps| ==> lo < ps[i].0 <= hi && TimeRanges.Multiple(ps[i].0, step))
    && (forall g :: lo < g <= hi && TimeRanges.Multiple(g, step) ==> PointAt(env, q, x, ps, g))
  }

  /** Points from a multiple of the step on. */
  lemma {:induction false} PointsSampled<V(!new)>(env: Env<V>, q: Query, x: Expr<V>, g: int, hi: int, step: int)
    requires Parsed(x) && step > 0 && TimeRanges.Multiple(g, step)
    ensures Sampled(env, q, x, Points(env, q, x, g, hi, step), g - 1, hi, step)
    decreases if g > hi then 0 else 1 + hi - g
  {
    if g <= hi {
      var ps, rest := Points(env, q, x, g, hi, step), Points(env, q, x, g + step, hi, step);
      NextMultiple(g, step);
      PointsSampled(env, q, x, g + step, hi, step);
      forall i: nat, j: nat | i < j < |ps| ensures Before(ps, i, j) {
        assert i > 0 ==> Before(rest, i - 1, j - 1);
      }
      forall m | g - 1 < m <= hi && TimeRanges.Multiple(m, step) ensures PointAt(env, q, x, ps, m) {
        if m > g {
          var a: int, b: int :| g == step * a && m == step * b;
          TimeRanges.MultipleGap(a, b, step);
          assert PointAt(env, q, x, rest, m);
        }
      }
    }
  }

  /**
   * A subquery collects the values of its expression at the multiples of its step within the
   * half-open window that ends at the step, or at its `@`, less its offset.
   */
  lemma MeaningOfSubquery<V(!new)>(env: Env<V>, q: Query, x: Expr<V>, range: int, step: int, at: At, offset: int,
                                   t: int, hi: int) returns (ps: seq<(int, V)>)
    requires Parsed(x) && step > 0
    requires hi == (match at case Unpinned => t case AtTime(s) => s case AtStart => q.start case AtEnd => q.end) - offset
    ensures Meaning(env, q, Expr.Subquery(x, range, step, at, offset), t) == env.collect(ps)
    ensures Sampled(env, q, x, ps, hi - range, hi, step)
  {
    var first := TimeRanges.FirstStep(hi - range, step);
    ps := Points(env, q, x, first, hi, step);
    TimeRanges.FirstStepIsLeast(hi - range, step);
    PointsSampled(env, q, x, first, hi, step);
  }

  // ----- which calls are marked -----

  predicate Marked<V>(q: Query, args: seq<Expr<V>>, i: nat) {
    i < |args| && Parsed(args[i]) && Prepared(q, args[i]).1
  }

  lemma {:induction false} AllMarked<V>(q: Query, args: seq<Expr<V>>)
    requires AllParsed(args)
    ensures AllInvariant(q, args) <==> forall i: nat :: i < |args| ==> Marked(q, args, i)
  {
    if args != [] {
      AllMarked(q, args[1..]);
      assert Marked(q, args, 0) <==> Prepared(q, args[0]).1;
      forall i: nat ensures Marked(q, args[1..], i) <==> Marked(q, args, i + 1) {
      }
      if AllInvariant(q, args) {
        forall i: nat | i < |args| ensures Marked(q, args, i) {
          assert i > 0 ==> Marked(q, args[1..], i - 1);
        }
      }
    }
  }

  /** A call is step invariant exactly if all its arguments are and it is none of eleven functions. */
  lemma MarkedExactly<V>(q: Query, f: string, args: seq<Expr<V>>)
    requires AllParsed(args)
    ensures Prepared(q, Call(f, args)).1
            <==> && f != "time" && f != "timestamp" && f != "predict_linear" && f != "minute" && f != "hour"
                 && f != "day_of_week" && f != "day_of_month" && f != "day_of_year" && f != "days_in_month"
                 && f != "month" && f != "year"
                 && forall i: nat :: i < |args| ==> Marked(q, args, i)
  {
    AllMarked(q, args);
  }

  // ----- time passes -----

  /** The evaluation time itself. */
  const CLOCK: Env<int> := Env(
    (id: nat, t: int) => t, (op: nat, x: int) => x, (op: nat, x: int) => x, (op: nat, l: int, r: int) => l,
    (f: string, args: seq<int>, t: int) => t, (ps: seq<(int, int)>) => |ps|)

  /** Each of these functions is called at every step, with the time of that step. */
  lemma CalledAtEveryStep<V(!new)>(env: Env<V>, q: Query, f: string, t: int)
    requires f in ["time", "minute", "hour", "day_of_week", "day_of_month", "day_of_year", "days_in_month", "month", "year"]
    ensures Eval(env, Preprocess(q, Call(f, [])), Span(q.start, q.end), t, FRESH) == env.call(f, [], t)
  {
    MarkedExactly<V>(q, f, []);
  }

  /** `time()` is the time of the step, at every step of every query. */
  lemma TimePasses(q: Query, t: int)
    requires t in StepsOf(q)
    ensures Eval(CLOCK, Preprocess(q, Call("time", [])), Span(q.start, q.end), t, FRESH) == t
  {
    CalledAtEveryStep(CLOCK, q, "time", t);
  }
}
