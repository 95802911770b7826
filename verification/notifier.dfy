/**
 * The notification queue: `Send` appends alerts and drops the oldest when the queue
 * overflows; a single send loop takes batches from the front when the one-slot channel
 * `more` says there are any.
 */
module Notifier {
  /** An alert after relabelling. */
  datatype Alert = Alert(id: nat)

  const MAX_BATCH_SIZE: nat := 64

  // ----- the queue operations -----

  /** The last `n` elements, or all of them. */
  function Last(s: seq<Alert>, n: nat): (r: seq<Alert>)
    ensures |r| == if |s| < n then |s| else n
  {
    if |s| <= n then s else s[|s| - n..]
  }

  /** What `nextBatch` takes. */
  function Front(q: seq<Alert>): seq<Alert> {
    if |q| > MAX_BATCH_SIZE then q[..MAX_BATCH_SIZE] else q
  }

  /** Keeping the newest of the queue and the newest of the alerts keeps the newest of all. */
  lemma LastOfBoth(q: seq<Alert>, a: seq<Alert>, n: nat, kept: seq<Alert>)
    requires kept == Last(a, n)
    ensures Last(q, n - |kept|) + kept == Last(q + a, n)
  {
  }

  class Manager {
    const capacity: nat
    var queue: seq<Alert>
    var dropped: nat
    var more: bool

    ghost predicate Valid()
      reads this
    {
      |queue| <= capacity
    }

    constructor (capacity: nat)
      ensures Valid() && this.capacity == capacity && queue == [] && dropped == 0 && !more
    {
      this.capacity, queue, dropped, more := capacity, [], 0, false;
    }

    /** `Send` up to the signal, given the alerts that relabelling kept; tells whether to signal. */
    method Enqueue(alerts0: seq<Alert>) returns (signal: bool)
      requires Valid()
      modifies this`queue, this`dropped
      ensures Valid()
      ensures queue == Last(old(queue) + alerts0, capacity)
      ensures |queue| == if |old(queue)| + |alerts0| > capacity then capacity else |old(queue)| + |alerts0|
      ensures queue == (old(queue) + alerts0)[|old(queue)| + |alerts0| - |queue|..]
      ensures dropped + |queue| == old(dropped) + |old(queue)| + |alerts0|
      ensures signal <==> |alerts0| > 0
    {
      if |alerts0| == 0 {
        assert old(queue) + alerts0 == old(queue);
        return false;
      }
      var alerts := alerts0;
      var d := |alerts| - capacity;
      if d > 0 {
        alerts := alerts[d..];
        dropped := dropped + d;
      }
      LastOfBoth(queue, alerts0, capacity, alerts);
      d := |queue| + |alerts| - capacity;
      if d > 0 {
        queue := queue[d..];
        dropped := dropped + d;
      }
      queue := queue + alerts;
      signal := true;
    }

    method NextBatch() returns (alerts: seq<Alert>)
      requires Valid()
      modifies this`queue
      ensures Valid()
      ensures alerts == Front(old(queue)) && alerts + queue == old(queue)
      ensures |alerts| == if |old(queue)| > 64 then 64 else |old(queue)|
    {
      if |queue| > MAX_BATCH_SIZE {
        alerts := queue[..MAX_BATCH_SIZE];
        queue := queue[MAX_BATCH_SIZE..];
      } else {
        alerts := queue;
        queue := [];
      }
    }

    /** `setMore`: a signal that is already there is not doubled. */
    method SetMore()
      modifies this`more
      ensures more
    {
      if !more {
        more := true;
      }
    }

    method Send(alerts: seq<Alert>)
      requires Valid()
      modifies this`queue, this`dropped, this`more
      ensures Valid()
      ensures queue == Last(old(queue) + alerts, capacity)
      ensures dropped + |queue| == old(dropped) + |old(queue)| + |alerts|
      ensures more == (old(more) || |alerts| > 0)
    {
      var signal := Enqueue(alerts);
      if signal {
        SetMore();
      }
    }
  }

  // ----- the goroutines -----

  /**
   * The send loop: waiting for the signal, woken by it, delivering a batch, looking at the
   * queue again, about to signal itself. After a stop it drains the queue, or counts it.
   */
  datatype Sender =
    | Waiting
    | Woken
    | Delivering(batch: seq<Alert>)
    | Rechecking
    | Resignalling
    | Draining
    | DrainDelivering(batch: seq<Alert>)
    | Stopped

  /** A delivered batch and its place among all accepted alerts. */
  datatype Batch = Batch(from: nat, alerts: seq<Alert>)

  /** Batches, the latest outermost. */
  datatype Batches = Nil | Snoc(init: Batches, last: Batch)

  /**
   * `signalling` is a `Send` that holds the lock and has yet to signal. The last four fields
   * are history: all alerts accepted, the batches delivered, the place of the batch in flight,
   * and how much of the queue was written off at a stop.
   */
  datatype State = State(
    capacity: nat, drains: bool, queue: seq<Alert>, dropped: nat, more: bool, signalling: bool, sender: Sender,
    stopping: bool, accepted: seq<Alert>, delivered: Batches, at: nat, writtenOff: nat)

  function Initial(capacity: nat, drains: bool): State {
    State(capacity, drains, [], 0, false, false, Waiting, false, [], Nil, 0, 0)
  }

  datatype Step =
    | Send(alerts: seq<Alert>)  // takes the lock, enqueues
    | Signal                    // signals, releases the lock
    | Wake
    | Take                      // nextBatch
    | Done(ok: bool)            // sendAll has returned
    | Recheck
    | Resignal
    | Stop                      // stop requested
    | Leave                     // the send loop sees it
    | DrainTake
    | DrainDone(ok: bool)
    | DrainEnd
    | WriteOff                  // draining is disabled

  /** Steps that look at the queue need the lock. */
  predicate Enabled(st: State, step: Step) {
    match step
    case Send(_) => !st.signalling
    case Signal => st.signalling
    case Wake => st.sender == Waiting && st.more
    case Take => st.sender == Woken && !st.signalling
    case Done(ok) => st.sender.Delivering? && (st.sender.batch == [] ==> ok)
    case Recheck => st.sender == Rechecking && !st.signalling
    case Resignal => st.sender == Resignalling
    case Stop => !st.stopping
    case Leave => st.stopping && st.sender == Waiting
    case DrainTake => st.sender == Draining && st.drains && !st.signalling && st.queue != []
    case DrainDone(_) => st.sender.DrainDelivering?
    case DrainEnd => st.sender == Draining && st.drains && !st.signalling && st.queue == []
    case WriteOff => st.sender == Draining && !st.drains && !st.signalling
  }

  function AfterBatch(st: State, batch: seq<Alert>, ok: bool, next: Sender): State {
    if ok then st.(sender := next, delivered := Snoc(st.delivered, Batch(st.at, batch)))
    else st.(sender := next, dropped := st.dropped + |batch|)
  }

  /** Where the queue begins among all accepted alerts. */
  function Head(st: State): int {
    |st.accepted| - |st.queue|
  }

  function Do(st: State, step: Step): State
    requires Enabled(st, step) && |st.queue| <= |st.accepted|
  {
    match step
    case Send(alerts) =>
      var q := Last(st.queue + alerts, st.capacity);
      var lost := if |st.queue| + |alerts| < |q| then 0 else |st.queue| + |alerts| - |q|;
      st.(queue := q, dropped := st.dropped + lost, accepted := st.accepted + alerts, signalling := alerts != [])
    case Signal => st.(more := true, signalling := false)
    case Wake => st.(more := false, sender := Woken)
    case Take =>
      st.(queue := st.queue[|Front(st.queue)|..], sender := Delivering(Front(st.queue)), at := Head(st))
    case Done(ok) => AfterBatch(st, st.sender.batch, ok, Rechecking)
    case Recheck => st.(sender := if |st.queue| > 0 then Resignalling else Waiting)
    case Resignal => st.(more := true, sender := Waiting)
    case Stop => st.(stopping := true)
    case Leave => st.(sender := Draining)
    case DrainTake =>
      st.(queue := st.queue[|Front(st.queue)|..], sender := DrainDelivering(Front(st.queue)), at := Head(st))
    case DrainDone(ok) => AfterBatch(st, st.sender.batch, ok, Draining)
    case DrainEnd => st.(sender := Stopped)
    case WriteOff => st.(sender := Stopped, dropped := st.dropped + |st.queue|, writtenOff := |st.queue|)
  }

  // ----- what every step keeps -----

  predicate Flying(st: State) {
    st.sender.Delivering? || st.sender.DrainDelivering?
  }

  function InFlight(st: State): seq<Alert> {
    if Flying(st) then st.sender.batch else []
  }

  function Total(bs: Batches): nat {
    match bs
    case Nil => 0
    case Snoc(init, last) => Total(init) + |last.alerts|
  }

  /** The queue is bounded and holds exactly the newest alerts. */
  ghost predicate Newest(st: State) {
    |st.queue| <= st.capacity && |st.queue| <= |st.accepted| && st.queue == st.accepted[Head(st)..]
  }

  /** The batch is a run of accepted alerts, all of them before place `hi`. */
  ghost predicate RunOf(accepted: seq<Alert>, b: Batch, hi: int) {
    b.from + |b.alerts| <= hi <= |accepted| && accepted[b.from..b.from + |b.alerts|] == b.alerts && |b.alerts| <= MAX_BATCH_SIZE
  }

  /** The batches are runs of accepted alerts, each after the one before, all before place `hi`. */
  ghost predicate Placed(accepted: seq<Alert>, bs: Batches, hi: int) {
    match bs
    case Nil => true
    case Snoc(init, last) => RunOf(accepted, last, hi) && Placed(accepted, init, last.from)
  }

  /** The batch in flight comes after those delivered and before the queue. */
  ghost predicate InPlace(st: State) {
    && 0 <= Head(st)
    && if !Flying(st) then Placed(st.accepted, st.delivered, Head(st))
       else RunOf(st.accepted, Batch(st.at, InFlight(st)), Head(st)) && Placed(st.accepted, st.delivered, st.at)
  }

  ghost predicate Conserved(st: State) {
    && |st.accepted| + st.writtenOff == Total(st.delivered) + |InFlight(st)| + st.dropped + |st.queue|
    && (st.writtenOff > 0 ==> st.sender == Stopped)
  }

  /** Somebody will look at the queue. */
  predicate Attended(st: State) {
    st.more || st.signalling || !(st.sender == Waiting || st.sender == Stopped)
  }

  ghost predicate Inv(st: State) {
    Newest(st) && InPlace(st) && Conserved(st) && Cared(st)
  }

  lemma {:induction false} PlacedGrows(accepted: seq<Alert>, bs: Batches, hi: int, more: seq<Alert>, hi': int)
    requires Placed(accepted, bs, hi) && hi <= hi' <= |accepted + more|
    ensures Placed(accepted + more, bs, hi')
    decreases bs
  {
    match bs
    case Nil =>
    case Snoc(init, last) =>
      PlacedGrows(accepted, init, last.from, more, last.from);
      RunGrows(accepted, last, hi, more, hi');
  }

  lemma RunGrows(accepted: seq<Alert>, b: Batch, hi: int, more: seq<Alert>, hi': int)
    requires RunOf(accepted, b, hi) && hi <= hi' <= |accepted + more|
    ensures RunOf(accepted + more, b, hi')
  {
    assert (accepted + more)[b.from..b.from + |b.alerts|] == accepted[b.from..b.from + |b.alerts|];
  }

  lemma PlacedHigher(accepted: seq<Alert>, bs: Batches, hi: int, hi': int)
    requires Placed(accepted, bs, hi) && hi <= hi' <= |accepted|
    ensures Placed(accepted, bs, hi')
  {
    assert accepted + [] == accepted;
    PlacedGrows(accepted, bs, hi, [], hi');
  }

  /** `Enqueue` on the newest alerts gives the newest alerts. */
  lemma NewestSend(accepted: seq<Alert>, q: seq<Alert>, alerts: seq<Alert>, n: nat)
    requires |q| <= |accepted| && q == accepted[|accepted| - |q|..]
    ensures var q' := Last(q + alerts, n);
            |q'| <= |q| + |alerts| && q' == (accepted + alerts)[|accepted| + |alerts| - |q'|..]
  {
  }

  lemma InPlaceSend(st: State, alerts: seq<Alert>, hi: int, hi': int)
    requires Newest(st) && InPlace(st) && Enabled(st, Send(alerts))
    requires hi == Head(st) && hi' == Head(Do(st, Send(alerts)))
    ensures InPlace(Do(st, Send(alerts)))
  {
    if !Flying(st) {
      PlacedGrows(st.accepted, st.delivered, hi, alerts, hi');
    } else {
      var b := Batch(st.at, st.sender.batch);
      PlacedGrows(st.accepted, st.delivered, st.at, alerts, st.at);
      RunGrows(st.accepted, b, hi, alerts, hi');
    }
  }

  lemma InPlaceTake(st: State, step: Step, hi: int, hi': int)
    requires Newest(st) && InPlace(st) && Enabled(st, step) && (step == Take || step == DrainTake)
    requires hi == Head(st) && hi' == hi + |Front(st.queue)|
    ensures InPlace(Do(st, step)) && Newest(Do(st, step))
  {
    var b := Batch(hi, Front(st.queue));
    assert st.accepted[hi..hi'] == st.accepted[hi..][..|b.alerts|];
    assert st.accepted[hi'..] == st.accepted[hi..][|b.alerts|..];
  }

  lemma InPlaceBatch(st: State, step: Step, ok: bool, hi: int)
    requires Newest(st) && InPlace(st) && Enabled(st, step) && (step == Done(ok) || step == DrainDone(ok)) && hi == Head(st)
    ensures InPlace(Do(st, step))
  {
    if !ok {
      PlacedHigher(st.accepted, st.delivered, st.at, hi);
    }
  }

  /** Steps that leave the queue, the batches and the batch in flight alone. */
  lemma PlaceSame(st: State, st': State)
    requires Newest(st) && InPlace(st) && st'.capacity == st.capacity && st'.accepted == st.accepted
    requires st'.queue == st.queue && st'.delivered == st.delivered && !Flying(st) && !Flying(st')
    ensures InPlace(st') && Newest(st')
  {
  }

  lemma PlaceSend(st: State, alerts: seq<Alert>)
    requires Newest(st) && InPlace(st) && Enabled(st, Send(alerts))
    ensures InPlace(Do(st, Send(alerts))) && Newest(Do(st, Send(alerts)))
  {
    NewestSend(st.accepted, st.queue, alerts, st.capacity);
    InPlaceSend(st, alerts, Head(st), Head(Do(st, Send(alerts))));
  }

  lemma PlaceBatch(st: State, step: Step, ok: bool)
    requires Newest(st) && InPlace(st) && Enabled(st, step) && (step == Done(ok) || step == DrainDone(ok))
    ensures InPlace(Do(st, step)) && Newest(Do(st, step))
  {
    InPlaceBatch(st, step, ok, Head(st));
  }

  /** Signals and requests to stop, which come from elsewhere. */
  lemma PlaceOutside(st: State, step: Step)
    requires Newest(st) && InPlace(st) && Enabled(st, step) && (step == Signal || step == Stop)
    ensures InPlace(Do(st, step)) && Newest(Do(st, step))
  {
  }

  lemma PlaceStep(st: State, step: Step)
    requires Newest(st) && InPlace(st) && Enabled(st, step)
    ensures InPlace(Do(st, step)) && Newest(Do(st, step))
  {
    if step.Send? {
      PlaceSend(st, step.alerts);
    } else if step == Take || step == DrainTake {
      InPlaceTake(st, step, Head(st), Head(st) + |Front(st.queue)|);
    } else if step.Done? || step.DrainDone? {
      PlaceBatch(st, step, step.ok);
    } else if step == Signal || step == Stop {
      PlaceOutside(st, step);
    } else {
      PlaceSame(st, Do(st, step));
    }
  }

  lemma CountQueue(st: State, step: Step)
    requires |st.queue| <= |st.accepted| && Conserved(st) && Enabled(st, step) && (step.Send? || step.Take? || step.DrainTake?)
    ensures Conserved(Do(st, step))
  {
  }

  lemma CountBatch(st: State, step: Step)
    requires |st.queue| <= |st.accepted| && Conserved(st) && Enabled(st, step) && (step.Done? || step.DrainDone?)
    ensures Conserved(Do(st, step))
  {
    BatchCounted(st, st.sender.batch, step.ok, if step.Done? then Rechecking else Draining);
  }

  lemma BatchCounted(st: State, batch: seq<Alert>, ok: bool, next: Sender)
    requires Conserved(st) && Flying(st) && batch == st.sender.batch && (next == Rechecking || next == Draining)
    ensures Conserved(AfterBatch(st, batch, ok, next))
  {
  }

  lemma CountStep(st: State, step: Step)
    requires |st.queue| <= |st.accepted| && Conserved(st) && Enabled(st, step)
    ensures Conserved(Do(st, step))
  {
    if step.Send? || step.Take? || step.DrainTake? {
      CountQueue(st, step);
    } else if step.Done? || step.DrainDone? {
      CountBatch(st, step);
    }
  }

  /** While alerts are queued and the loop has not ended, somebody will look at the queue. */
  predicate Cared(st: State) {
    st.queue != [] && st.sender != Stopped ==> Attended(st)
  }

  lemma CareStep(st: State, step: Step)
    requires |st.queue| <= |st.accepted| && Cared(st) && Enabled(st, step)
    ensures Cared(Do(st, step))
  {
  }

  lemma InvStep(st: State, step: Step)
    requires Inv(st) && Enabled(st, step)
    ensures Inv(Do(st, step))
  {
    PlaceStep(st, step);
    CountStep(st, step);
    CareStep(st, step);
  }

  // ----- runs -----

  ghost predicate Allowed(st: State, steps: seq<Step>)
    decreases |steps|
  {
    |st.queue| <= |st.accepted| &&
    (steps != [] ==> Enabled(st, steps[0]) && Allowed(Do(st, steps[0]), steps[1..]))
  }

  ghost function After(st: State, steps: seq<Step>): State
    requires Allowed(st, steps)
    decreases |steps|
  {
    if steps == [] then st else After(Do(st, steps[0]), steps[1..])
  }

  lemma {:induction false} RunInv(st: State, steps: seq<Step>)
    requires Inv(st) && Allowed(st, steps)
    ensures Inv(After(st, steps))
    decreases |steps|
  {
    if steps != [] {
      InvStep(st, steps[0]);
      RunInv(Do(st, steps[0]), steps[1..]);
    }
  }

  /** The delivered alerts, in the order of delivery. */
  function Flat(bs: Batches): seq<Alert> {
    match bs
    case Nil => []
    case Snoc(init, last) => Flat(init) + last.alerts
  }

  /** `part` is what `whole` holds at the increasing places `places`. */
  ghost predicate At(part: seq<Alert>, whole: seq<Alert>, places: seq<nat>) {
    && |places| == |part|
    && (forall i :: 0 <= i < |part| ==> places[i] < |whole| && whole[places[i]] == part[i])
    && (forall i, j :: 0 <= i < j < |places| ==> places[i] < places[j])
  }

  /** Delivery keeps the order of acceptance and repeats nothing. */
  lemma {:induction false} FlatPlaces(accepted: seq<Alert>, bs: Batches, hi: int) returns (places: seq<nat>)
    requires Placed(accepted, bs, hi) && 0 <= hi <= |accepted|
    ensures At(Flat(bs), accepted, places) && |Flat(bs)| == Total(bs)
    ensures forall i :: 0 <= i < |places| ==> places[i] < hi
    decreases bs
  {
    match bs
    case Nil =>
      places := [];
    case Snoc(init, last) =>
      var before := FlatPlaces(accepted, init, last.from);
      var run := seq(|last.alerts|, i requires 0 <= i < |last.alerts| => last.from + i);
      places := before + run;
      var n := |before|;
      assert forall i :: 0 <= i < |last.alerts| ==> run[i] == last.from + i && accepted[run[i]] == last.alerts[i];
      forall i | 0 <= i < |places| ensures places[i] < hi && accepted[places[i]] == Flat(bs)[i] {
        assert i >= n ==> places[i] == run[i - n] && Flat(bs)[i] == last.alerts[i - n];
      }
  }

  /**
   * Conservation in every run: each accepted alert was delivered, is in flight, was counted as
   * dropped, or is in the queue. The queue never exceeds its capacity and holds exactly the
   * newest accepted alerts; what was delivered is in the order of acceptance and before those.
   */
  lemma NothingLost(capacity: nat, drains: bool, steps: seq<Step>) returns (places: seq<nat>)
    requires Allowed(Initial(capacity, drains), steps)
    ensures var st := After(Initial(capacity, drains), steps);
            && |st.accepted| + st.writtenOff == |Flat(st.delivered)| + |InFlight(st)| + st.dropped + |st.queue|
            && (st.sender != Stopped || drains ==> st.writtenOff == 0)
            && |st.queue| <= capacity && |st.queue| <= |st.accepted|
            && st.queue == st.accepted[|st.accepted| - |st.queue|..]
            && At(Flat(st.delivered), st.accepted, places)
            && (forall i :: 0 <= i < |places| ==> places[i] < |st.accepted| - |st.queue|)
  {
    var st0 := Initial(capacity, drains);
    RunInv(st0, steps);
    RunFrame(st0, steps);
    var st := After(st0, steps);
    if Flying(st) {
      PlacedHigher(st.accepted, st.delivered, st.at, Head(st));
    }
    places := FlatPlaces(st.accepted, st.delivered, Head(st));
  }

  /** Configuration does not change, and nothing is written off when the queue is drained. */
  lemma {:induction false} RunFrame(st: State, steps: seq<Step>)
    requires Allowed(st, steps) && (st.drains ==> st.writtenOff == 0)
    ensures var st' := After(st, steps);
            st'.capacity == st.capacity && st'.drains == st.drains && (st.drains ==> st'.writtenOff == 0)
    decreases |steps|
  {
    if steps != [] {
      RunFrame(Do(st, steps[0]), steps[1..]);
    }
  }

  /**
   * No wake-up is lost in any run: while alerts are queued and the send loop has not ended, the
   * signal is set, or a `Send` is about to set it, or the loop is going to look at the queue.
   */
  lemma NoLostWakeup(capacity: nat, drains: bool, steps: seq<Step>)
    requires Allowed(Initial(capacity, drains), steps)
    ensures var st := After(Initial(capacity, drains), steps);
            st.queue != [] && st.sender != Stopped ==> st.more || st.signalling || st.sender != Waiting
  {
    RunInv(Initial(capacity, drains), steps);
  }

  /** In every run a draining loop ends only when each accepted alert was delivered or counted as dropped. */
  lemma DrainedAtTheEnd(capacity: nat, steps: seq<Step>)
    requires Allowed(Initial(capacity, true), steps) && Enabled(After(Initial(capacity, true), steps), DrainEnd)
    ensures var st := After(Initial(capacity, true), steps);
            |st.accepted| == |Flat(st.delivered)| + st.dropped
  {
    var _ := NothingLost(capacity, true, steps);
  }
}
