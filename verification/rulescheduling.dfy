/**
 * The scheduling loop of `Group.Eval` as a transition system. The loop launches one rule
 * after the other; a rule that is allowed to runs in the background, any other holds the loop
 * up until it is done. A rule reads metric by metric, and its results reach the store series
 * by series, so that everything that can interleave does.
 */
module RuleScheduling {
  import opened RuleGroups

  datatype Series = Series(name: string, id: nat)
  type Store = map<Series, int>

  /** Samples of one metric. */
  function Metric(s: Store, name: string): Store {
    map k | k in s && k.name == name :: s[k]
  }

  ghost predicate Same(s: Store, t: Store, k: Series) {
    (k in s <==> k in t) && (k in s ==> s[k] == t[k])
  }

  ghost predicate AgreeOn(s: Store, t: Store, d: RuleDef) {
    forall k: Series :: Reads(d, k.name) ==> Same(s, t, k)
  }

  /**
   * A group, the metrics there are, the store it starts from, and what each rule writes given
   * what it finds: samples, and staleness markers for the series it no longer produces.
   */
  datatype Group = Group(defs: seq<RuleDef>, metrics: set<string>, base: Store, eval: (nat, Store) -> Store)

  /** A rule sees only the metrics it selects. */
  ghost predicate ReadsOnly(g: Group) {
    forall i: nat, s: Store, t: Store :: i < |g.defs| && AgreeOn(s, t, g.defs[i]) ==> g.eval(i, s) == g.eval(i, t)
  }

  /** A rule writes to its own metric. */
  ghost predicate WritesOwn(g: Group) {
    && (forall k :: k in g.base ==> k.name in g.metrics)
    && (forall i: nat, s: Store, k: Series :: i < |g.defs| && Writes(g, i, s, k) ==>
          k.name in Outputs(g.defs[i]) && k.name in g.metrics)
  }

  ghost predicate Writes(g: Group, i: nat, s: Store, k: Series) {
    k in g.eval(i, s)
  }

  /** No two rules write the same series. */
  ghost predicate Separate(g: Group) {
    forall i: nat, j: nat, s: Store, t: Store, k: Series ::
      i < |g.defs| && j < |g.defs| && Writes(g, i, s, k) && Writes(g, j, t, k) ==> i == j
  }

  ghost predicate WellBehaved(g: Group) {
    Parsed(g.defs) && ReadsOnly(g) && WritesOwn(g) && Separate(g)
  }

  // ----- one rule after the other -----

  /** The store after the first `n` rules, in order. */
  ghost function Sequential(g: Group, n: nat): Store {
    if n == 0 then g.base else
      var s := Sequential(g, n - 1);
      s + g.eval(n - 1, s)
  }

  /** What rule `i` writes when the rules run in order. */
  ghost function Result(g: Group, i: nat): Store {
    g.eval(i, Sequential(g, i))
  }

  lemma OneWriter(g: Group, k: Series, i: nat, j: nat)
    requires Separate(g) && i < |g.defs| && j < |g.defs| && i != j && k in Result(g, i)
    ensures k !in Result(g, j)
  {
    assert Writes(g, i, Sequential(g, i), k);
    assert k in Result(g, j) ==> Writes(g, j, Sequential(g, j), k);
  }

  lemma WritesToOutputs(g: Group, k: Series, i: nat)
    requires WritesOwn(g) && i < |g.defs| && k in Result(g, i)
    ensures k.name in Outputs(g.defs[i]) && k.name in g.metrics
  {
    assert Writes(g, i, Sequential(g, i), k);
  }

  /** Once the rule that writes a series has run, the series has its value. */
  lemma {:induction false} SequentialWritten(g: Group, n: nat, k: Series, i: nat)
    requires Separate(g) && i < n <= |g.defs| && k in Result(g, i)
    ensures k in Sequential(g, n) && Sequential(g, n)[k] == Result(g, i)[k]
  {
    if i < n - 1 {
      SequentialWritten(g, n - 1, k, i);
      OneWriter(g, k, i, n - 1);
    }
  }

  /** Until then it has its first value. */
  lemma {:induction false} SequentialUnwritten(g: Group, n: nat, k: Series)
    requires n <= |g.defs| && forall i: nat :: i < n ==> k !in Result(g, i)
    ensures Same(Sequential(g, n), g.base, k)
  {
    if n > 0 {
      SequentialUnwritten(g, n - 1, k);
      assert k !in Result(g, n - 1);
    }
  }

  lemma {:induction false} SequentialMetrics(g: Group, n: nat, k: Series)
    requires WritesOwn(g) && n <= |g.defs| && k in Sequential(g, n)
    ensures k.name in g.metrics
  {
    if n > 0 {
      if k in Sequential(g, n - 1) {
        SequentialMetrics(g, n - 1, k);
      } else {
        WritesToOutputs(g, k, n - 1);
      }
    }
  }

  // ----- the loop and its goroutines -----

  datatype Run =
    | NotYet
    | Reading(unread: set<string>, seen: Store)
    | Writing(todo: Store)
    | Over

  /**
   * Next rule of the loop, progress of the rules, which run in the background, which of them
   * hold a slot, and how many slots other groups hold.
   */
  datatype State = State(next: nat, runs: seq<Run>, back: seq<bool>, store: Store, slots: set<nat>, others: nat)

  datatype Step =
    | Launch(background: bool)
    | Read(i: nat, name: string)
    | Compute(i: nat)
    | Write(i: nat, k: Series)
    | Finish(i: nat)
    | Return(i: nat)  // a rule that is over returns its slot
    | Acquire         // another group takes a slot
    | Release         // another group returns one

  ghost function Initial(g: Group, others: nat): State {
    State(0, seq(|g.defs|, _ => NotYet), seq(|g.defs|, _ => false), g.base, {}, others)
  }

  ghost predicate Shaped(g: Group, st: State) {
    |st.runs| == |st.back| == |g.defs| && st.next <= |g.defs|
  }

  /** The loop is not held up by a rule in the foreground. */
  ghost predicate Free(g: Group, st: State)
    requires Shaped(g, st)
  {
    forall i :: 0 <= i < st.next ==> st.back[i] || st.runs[i].Over?
  }

  ghost predicate Enabled(g: Group, max: nat, st: State, step: Step)
    requires Shaped(g, st)
  {
    match step
    case Launch(background) =>
      st.next < |g.defs| && Free(g, st) && (background ==> Independent(g.defs, st.next) && |st.slots| + st.others < max)
    case Read(i, name) => i < |g.defs| && st.runs[i].Reading? && name in st.runs[i].unread
    case Compute(i) => i < |g.defs| && st.runs[i].Reading? && st.runs[i].unread == {}
    case Write(i, k) => i < |g.defs| && st.runs[i].Writing? && k in st.runs[i].todo
    case Finish(i) => i < |g.defs| && st.runs[i].Writing? && st.runs[i].todo == map[]
    case Return(i) => i in st.slots && i < |g.defs| && st.runs[i].Over?
    case Acquire => |st.slots| + st.others < max
    case Release => st.others > 0
  }

  /** The metrics rule `i` looks at. */
  ghost function ToRead(g: Group, i: nat): set<string>
    requires i < |g.defs|
  {
    set name | name in g.metrics && Reads(g.defs[i], name)
  }

  ghost function Do(g: Group, max: nat, st: State, step: Step): State
    requires Shaped(g, st) && Enabled(g, max, st, step)
  {
    match step
    case Launch(background) =>
      st.(next := st.next + 1, runs := st.runs[st.next := Reading(ToRead(g, st.next), map[])],
          back := st.back[st.next := background], slots := if background then st.slots + {st.next} else st.slots)
    case Read(i, name) =>
      st.(runs := st.runs[i := Reading(st.runs[i].unread - {name}, st.runs[i].seen + Metric(st.store, name))])
    case Compute(i) => st.(runs := st.runs[i := Writing(g.eval(i, st.runs[i].seen))])
    case Write(i, k) =>
      st.(store := st.store[k := st.runs[i].todo[k]], runs := st.runs[i := Writing(st.runs[i].todo - {k})])
    case Finish(i) => st.(runs := st.runs[i := Over])
    case Return(i) => st.(slots := st.slots - {i})
    case Acquire => st.(others := st.others + 1)
    case Release => st.(others := st.others - 1)
  }

  // ----- what every step keeps -----

  /** Rules run in order; all but the latest in the foreground are over. */
  ghost predicate InOrder(g: Group, max: nat, st: State) {
    && Shaped(g, st)
    && (forall i :: 0 <= i < |g.defs| ==> (st.runs[i].NotYet? <==> st.next <= i))
    && (forall i :: 0 <= i < st.next && st.back[i] ==> Independent(g.defs, i))
    && (forall i :: 0 <= i < st.next - 1 ==> st.back[i] || st.runs[i].Over?)
  }

  /** Rules that are being evaluated in the background. */
  ghost function Running(st: State): set<nat> {
    set i: nat | i < |st.back| && i < |st.runs| && i < st.next && st.back[i] && !st.runs[i].Over?
  }

  /** Rule `i` holds a slot while it runs in the background, and only rules that were launched there hold one. */
  ghost predicate SlotRight(g: Group, st: State, i: nat)
    requires Shaped(g, st)
  {
    && (i in st.slots ==> i < st.next && st.back[i])
    && (i < st.next && st.back[i] && !st.runs[i].Over? ==> i in st.slots)
  }

  ghost predicate SlotsCounted(g: Group, max: nat, st: State) {
    Shaped(g, st) && |st.slots| + st.others <= max && forall i: nat :: SlotRight(g, st, i)
  }

  /** What a rule has read is what it would have read had the rules run in order. */
  ghost predicate ReadRight(g: Group, st: State, i: nat)
    requires Shaped(g, st) && i < |g.defs|
  {
    match st.runs[i]
    case Reading(unread, seen) =>
      && (forall k :: k in seen ==> k.name !in unread)
      && (forall k: Series :: Reads(g.defs[i], k.name) && k.name !in unread ==> Same(seen, Sequential(g, i), k))
    case Writing(todo) => forall k :: k in todo ==> k in Result(g, i) && todo[k] == Result(g, i)[k]
    case _ => true
  }

  /** Rule `i` has written series `k`. */
  ghost predicate Written(g: Group, st: State, i: nat, k: Series)
    requires Shaped(g, st)
  {
    && i < |g.defs| && k in Result(g, i)
    && (st.runs[i].Over? || (st.runs[i].Writing? && k !in st.runs[i].todo))
  }

  ghost predicate StoredRight(g: Group, st: State, k: Series)
    requires Shaped(g, st)
  {
    && (forall i: nat :: Written(g, st, i, k) ==> k in st.store && st.store[k] == Result(g, i)[k])
    && ((forall i: nat :: !Written(g, st, i, k)) ==> Same(st.store, g.base, k))
  }

  ghost predicate AllRight(g: Group, st: State)
    requires Shaped(g, st)
  {
    && (forall i: nat :: i < |g.defs| ==> ReadRight(g, st, i))
    && (forall k: Series :: StoredRight(g, st, k))
  }

  /** What a rule that is reading finds in the store now is what it would find had the rules run in order. */
  lemma ReadsAsInOrder(g: Group, max: nat, st: State, i: nat, k: Series)
    requires WellBehaved(g) && InOrder(g, max, st) && i < |g.defs| && st.runs[i].Reading?
    requires Reads(g.defs[i], k.name) && StoredRight(g, st, k)
    ensures Same(st.store, Sequential(g, i), k)
  {
    forall j: nat | j < |g.defs| && j != i && k in Result(g, j)
      ensures Written(g, st, j, k) <==> j < i
    {
      WritesToOutputs(g, k, j);
      ConflictsStayInFront(g.defs, j, i, k.name);
    }
    if j: nat :| Written(g, st, j, k) {
      SequentialWritten(g, i, k, j);
    } else {
      SequentialUnwritten(g, i, k);
    }
  }

  lemma InOrderStep(g: Group, max: nat, st: State, step: Step)
    requires InOrder(g, max, st) && Enabled(g, max, st, step)
    ensures InOrder(g, max, Do(g, max, st, step))
  {
  }

  lemma SlotsStep(g: Group, max: nat, st: State, step: Step)
    requires InOrder(g, max, st) && SlotsCounted(g, max, st) && Enabled(g, max, st, step)
    ensures SlotsCounted(g, max, Do(g, max, st, step))
  {
    var st' := Do(g, max, st, step);
    forall i: nat ensures SlotRight(g, st', i) {
      assert SlotRight(g, st, i);
    }
    if step.Launch? {
      assert SlotRight(g, st, st.next);
    }
  }

  lemma ReadRightStep(g: Group, max: nat, st: State, step: Step, i: nat)
    requires WellBehaved(g) && InOrder(g, max, st) && AllRight(g, st) && Enabled(g, max, st, step) && i < |g.defs|
    ensures ReadRight(g, Do(g, max, st, step), i)
  {
    var st' := Do(g, max, st, step);
    assert ReadRight(g, st, i);
    match step
    case Launch(_) =>
      if i == st.next {
        forall k: Series | Reads(g.defs[i], k.name) && k.name !in ToRead(g, i)
          ensures Same(map[], Sequential(g, i), k)
        {
          if k in Sequential(g, i) {
            SequentialMetrics(g, i, k);
          }
        }
      }
    case Read(j, name) =>
      if j == i {
        forall k: Series | Reads(g.defs[i], k.name) && k.name !in st'.runs[i].unread
          ensures Same(st'.runs[i].seen, Sequential(g, i), k)
        {
          if k.name == name {
            assert StoredRight(g, st, k);
            ReadsAsInOrder(g, max, st, i, k);
          }
        }
      }
    case Compute(j) =>
      if j == i {
        assert AgreeOn(st.runs[i].seen, Sequential(g, i), g.defs[i]);
      }
    case _ =>
  }

  lemma StoredRightStep(g: Group, max: nat, st: State, step: Step, k: Series)
    requires WellBehaved(g) && InOrder(g, max, st) && AllRight(g, st) && Enabled(g, max, st, step)
    ensures StoredRight(g, Do(g, max, st, step), k)
  {
    var st' := Do(g, max, st, step);
    assert StoredRight(g, st, k);
    match step
    case Write(i, k') =>
      assert ReadRight(g, st, i);
      forall j: nat ensures Written(g, st', j, k) <==> Written(g, st, j, k) || (j == i && k == k') {
      }
      WriteStored(g, st, st', i, k', k);
    case Compute(i) =>
      assert st'.runs[i].todo == Result(g, i) by {
        assert ReadRight(g, st, i);
        assert AgreeOn(st.runs[i].seen, Sequential(g, i), g.defs[i]);
      }
      SameWritten(g, st, st', k);
    case _ =>
      SameWritten(g, st, st', k);
  }

  lemma SameWritten(g: Group, st: State, st': State, k: Series)
    requires Shaped(g, st) && Shaped(g, st') && StoredRight(g, st, k) && st'.store == st.store
    requires forall j: nat :: Written(g, st', j, k) <==> Written(g, st, j, k)
    ensures StoredRight(g, st', k)
  {
  }

  lemma WriteStored(g: Group, st: State, st': State, i: nat, k': Series, k: Series)
    requires Shaped(g, st) && Shaped(g, st') && Separate(g) && StoredRight(g, st, k)
    requires i < |g.defs| && k' in Result(g, i) && st'.store == st.store[k' := Result(g, i)[k']]
    requires forall j: nat :: Written(g, st', j, k) <==> Written(g, st, j, k) || (j == i && k == k')
    ensures StoredRight(g, st', k)
  {
    forall j: nat | Written(g, st', j, k) ensures k in st'.store && st'.store[k] == Result(g, j)[k] {
      if k == k' && j != i {
        OneWriter(g, k, i, j);
      }
    }
  }

  ghost predicate Inv(g: Group, max: nat, st: State) {
    InOrder(g, max, st) && SlotsCounted(g, max, st) && AllRight(g, st)
  }

  lemma InvStep(g: Group, max: nat, st: State, step: Step)
    requires WellBehaved(g) && Inv(g, max, st) && Enabled(g, max, st, step)
    ensures Inv(g, max, Do(g, max, st, step))
  {
    InOrderStep(g, max, st, step);
    SlotsStep(g, max, st, step);
    var st' := Do(g, max, st, step);
    forall i: nat | i < |g.defs| ensures ReadRight(g, st', i) {
      ReadRightStep(g, max, st, step, i);
    }
    forall k: Series ensures StoredRight(g, st', k) {
      StoredRightStep(g, max, st, step, k);
    }
  }

  lemma InitialInv(g: Group, max: nat, others: nat)
    requires others <= max
    ensures Inv(g, max, Initial(g, others))
  {
    forall i: nat ensures SlotRight(g, Initial(g, others), i) {
    }
  }

  // ----- runs -----

  ghost predicate Allowed(g: Group, max: nat, st: State, steps: seq<Step>)
    decreases |steps|
  {
    Shaped(g, st) &&
    (steps != [] ==> Enabled(g, max, st, steps[0]) && Allowed(g, max, Do(g, max, st, steps[0]), steps[1..]))
  }

  ghost function After(g: Group, max: nat, st: State, steps: seq<Step>): State
    requires Allowed(g, max, st, steps)
    decreases |steps|
  {
    if steps == [] then st else After(g, max, Do(g, max, st, steps[0]), steps[1..])
  }

  lemma {:induction false} RunInv(g: Group, max: nat, st: State, steps: seq<Step>)
    requires WellBehaved(g) && Inv(g, max, st) && Allowed(g, max, st, steps)
    ensures Inv(g, max, After(g, max, st, steps))
    decreases |steps|
  {
    if steps != [] {
      InvStep(g, max, st, steps[0]);
      RunInv(g, max, Do(g, max, st, steps[0]), steps[1..]);
    }
  }

  /** The loop is through and has waited for all goroutines. */
  ghost predicate Finished(g: Group, st: State) {
    Shaped(g, st) && st.next == |g.defs| && forall i :: 0 <= i < |g.defs| ==> st.runs[i].Over?
  }

  lemma FinishedStore(g: Group, max: nat, st: State)
    requires WellBehaved(g) && Inv(g, max, st) && Finished(g, st)
    ensures st.store == Sequential(g, |g.defs|) && forall i :: i in st.slots ==> Enabled(g, max, st, Return(i))
  {
    forall i | i in st.slots ensures Enabled(g, max, st, Return(i)) {
      assert SlotRight(g, st, i);
    }
    var end := Sequential(g, |g.defs|);
    forall k: Series ensures Same(st.store, end, k) {
      assert StoredRight(g, st, k);
      if i: nat :| i < |g.defs| && k in Result(g, i) {
        assert Written(g, st, i, k);
        SequentialWritten(g, |g.defs|, k, i);
      } else {
        SequentialUnwritten(g, |g.defs|, k);
      }
    }
    assert forall k: Series :: Same(st.store, end, k);
    SameStores(st.store, end);
  }

  lemma SameStores(s: Store, t: Store)
    requires forall k: Series :: Same(s, t, k)
    ensures s == t
  {
    forall k: Series ensures k in s <==> k in t {
      assert Same(s, t, k);
    }
    forall k | k in s ensures s[k] == t[k] {
      assert Same(s, t, k);
    }
  }

  /**
   * Every interleaving of the loop, the background rules and other groups that finishes leaves
   * the store that evaluating the rules one after the other leaves, and no slot that cannot be
   * returned.
   */
  lemma Confluent(g: Group, max: nat, others: nat, steps: seq<Step>)
    requires WellBehaved(g) && others <= max && Allowed(g, max, Initial(g, others), steps)
    requires Finished(g, After(g, max, Initial(g, others), steps))
    ensures var st := After(g, max, Initial(g, others), steps);
            && st.store == Sequential(g, |g.defs|)
            && forall i :: i in st.slots ==> Enabled(g, max, st, Return(i))
  {
    InitialInv(g, max, others);
    RunInv(g, max, Initial(g, others), steps);
    FinishedStore(g, max, After(g, max, Initial(g, others), steps));
  }

  /**
   * At no point of a run are more slots taken than there are, and every rule in the background
   * holds one. A slot may outlive its rule: it is returned after the loop was told.
   */
  lemma Bounded(g: Group, max: nat, others: nat, steps: seq<Step>)
    requires WellBehaved(g) && others <= max && Allowed(g, max, Initial(g, others), steps)
    ensures var st := After(g, max, Initial(g, others), steps);
            |st.slots| + st.others <= max && Running(st) <= st.slots && |Running(st)| + st.others <= max
  {
    InitialInv(g, max, others);
    RunInv(g, max, Initial(g, others), steps);
    var st := After(g, max, Initial(g, others), steps);
    forall i | i in Running(st) ensures i in st.slots {
      assert SlotRight(g, st, i);
    }
    Smaller(Running(st), st.slots);
  }

  lemma Smaller(a: set<nat>, b: set<nat>)
    requires a <= b
    ensures |a| <= |b|
  {
    assert b == a + (b - a);
  }

  /** A run that has not finished can go on, whatever other groups do. */
  lemma NeverStuck(g: Group, max: nat, others: nat, steps: seq<Step>) returns (step: Step)
    requires WellBehaved(g) && others <= max && Allowed(g, max, Initial(g, others), steps)
    requires !Finished(g, After(g, max, Initial(g, others), steps))
    ensures var st := After(g, max, Initial(g, others), steps);
            Shaped(g, st) && Enabled(g, max, st, step) && !step.Return? && !step.Acquire? && !step.Release?
  {
    InitialInv(g, max, others);
    RunInv(g, max, Initial(g, others), steps);
    var st := After(g, max, Initial(g, others), steps);
    if i: nat :| i < st.next && !st.runs[i].Over? {
      match st.runs[i]
      case Reading(unread, _) =>
        if name :| name in unread {
          step := Read(i, name);
        } else {
          step := Compute(i);
        }
      case Writing(todo) =>
        if k :| k in todo {
          step := Write(i, k);
        } else {
          step := Finish(i);
        }
    } else {
      step := Launch(false);
    }
  }
}
