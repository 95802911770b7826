/**
 * What an alert instance tells about the past: over every run of evaluations with
 * increasing time, its state and timestamps are explained by the results that were seen.
 */
module AlertingRuns {
  import opened Options
  import opened Alerting

  /** What a round means for one instance: it failed, it emptied the map, or it took a step. */
  datatype Event =
    | Skipped(ts: Time)
    | Cleared(ts: Time)
    | Stepped(ts: Time, result: Option<int>)

  function EventOf(r: Rule, active: Active, round: Round, fp: Fingerprint): Event {
    match OutcomeOf(r, active, round)
    case Ok => Stepped(round.ts, Lookup(ResultsOf(round.rows.value), fp))
    case LimitExceeded => Cleared(round.ts)
    case _ => Skipped(round.ts)
  }

  function History(r: Rule, rounds: seq<Round>, fp: Fingerprint): (h: seq<Event>)
    ensures |h| == |rounds| && forall i :: 0 <= i < |h| ==> h[i].ts == rounds[i].ts
  {
    if rounds == [] then [] else
      var init := rounds[..|rounds| - 1];
      History(r, init, fp) + [EventOf(r, AfterRounds(r, init), rounds[|rounds| - 1], fp)]
  }

  /** One event of one instance. */
  function Tracked(r: Rule, cell: Option<Alert>, e: Event): Option<Alert> {
    match e
    case Skipped(_) => cell
    case Cleared(_) => None
    case Stepped(ts, result) =>
      var c := Evaluated(r, cell, result, ts);
      if c.Some? then Some(AfterSend(r, c.value, ts)) else None
  }

  function Track(r: Rule, evs: seq<Event>): Option<Alert> {
    if evs == [] then None else Tracked(r, Track(r, evs[..|evs| - 1]), evs[|evs| - 1])
  }

  lemma RoundAt(r: Rule, active: Active, round: Round, fp: Fingerprint)
    ensures Lookup(AfterRound(r, active, round), fp) == Tracked(r, Lookup(active, fp), EventOf(r, active, round, fp))
  {
    if OutcomeOf(r, active, round).Ok? {
      EvalMapAt(r, active, ResultsOf(round.rows.value), round.ts, fp);
    }
  }

  /** The rule's map holds, for each instance, what that instance's own events lead to. */
  lemma {:induction false} InstancesAreSeparate(r: Rule, rounds: seq<Round>, fp: Fingerprint)
    ensures Lookup(AfterRounds(r, rounds), fp) == Track(r, History(r, rounds, fp))
    decreases |rounds|
  {
    if rounds != [] {
      var init := rounds[..|rounds| - 1];
      InstancesAreSeparate(r, init, fp);
      RoundAt(r, AfterRounds(r, init), rounds[|rounds| - 1], fp);
      var h := History(r, rounds, fp);
      assert h[..|h| - 1] == History(r, init, fp);
    }
  }

  // ----- reading a history -----

  /** Times increase, and lie further from the zero time than the resend delay. */
  ghost predicate Ordered(r: Rule, evs: seq<Event>) {
    && (forall i :: 0 <= i < |evs| ==> 0 <= r.resendDelay < evs[i].ts)
    && (forall i, j :: 0 <= i < j < |evs| ==> evs[i].ts < evs[j].ts)
  }

  function Now(evs: seq<Event>): Time {
    if evs == [] then 0 else evs[|evs| - 1].ts
  }

  /** There was a step at `t`, with the instance present or absent. */
  ghost predicate StepAt(evs: seq<Event>, t: Time, present: bool) {
    exists i :: 0 <= i < |evs| && evs[i].Stepped? && evs[i].ts == t && evs[i].result.Some? == present
  }

  /** In `[lo, hi]` the map was not emptied and every step had the instance present, or absent. */
  ghost predicate Throughout(evs: seq<Event>, lo: Time, hi: Time, present: bool) {
    forall i :: 0 <= i < |evs| && lo <= evs[i].ts <= hi ==>
      !evs[i].Cleared? && (evs[i].Stepped? ==> evs[i].result.Some? == present)
  }

  ghost predicate NotCleared(evs: seq<Event>, lo: Time) {
    forall i :: 0 <= i < |evs| && lo <= evs[i].ts ==> !evs[i].Cleared?
  }

  /** All steps in `[lo, hi)` come less than `d` after `lo`. */
  ghost predicate Within(evs: seq<Event>, lo: Time, hi: Time, d: int) {
    forall i :: 0 <= i < |evs| && evs[i].Stepped? && lo <= evs[i].ts < hi ==> evs[i].ts - lo < d
  }

  ghost predicate LastBefore(evs: seq<Event>, i: int, t: Time) {
    && 0 <= i < |evs| && evs[i].Stepped? && evs[i].result.Some? && evs[i].ts < t
    && forall j :: i < j < |evs| && evs[j].ts < t ==> evs[j].Skipped?
  }

  /** The last step before `t` had the instance, and the map was not emptied since. */
  ghost predicate PresentBefore(evs: seq<Event>, t: Time) {
    exists i :: LastBefore(evs, i, t)
  }

  /** An absence that began at `k` and lasted at least until `t`. */
  ghost predicate Gap(evs: seq<Event>, k: Time, t: Time) {
    k <= t && StepAt(evs, k, false) && Throughout(evs, k, t, false) && PresentBefore(evs, k)
  }

  ghost predicate ShortGap(evs: seq<Event>, lo: Time, t: Time, d: int) {
    exists k :: lo < k && t - k < d && Gap(evs, k, t)
  }

  /** Every step in `(lo, hi)` without the instance came less than `d` after its absence began. */
  ghost predicate ShortGaps(evs: seq<Event>, lo: Time, hi: Time, d: int) {
    forall i :: 0 <= i < |evs| && evs[i].Stepped? && evs[i].result.None? && lo < evs[i].ts < hi ==>
      ShortGap(evs, lo, evs[i].ts, d)
  }

  // ----- what the state of an alert says about its history -----

  /** It fired at the first step that came `hold` after `activeAt`, and was present at every step until then. */
  ghost predicate FiredDuly(r: Rule, evs: seq<Event>, a: Alert) {
    && a.activeAt <= a.firedAt && StepAt(evs, a.firedAt, true)
    && Throughout(evs, a.activeAt, a.firedAt, true)
    && a.firedAt - a.activeAt >= r.hold && Within(evs, a.activeAt, a.firedAt, r.hold)
  }

  /** It resolved at the first step that came `keepFiringFor` after its absence began. */
  ghost predicate ResolvedDuly(r: Rule, evs: seq<Event>, firedAt: Time, t: Time) {
    exists k :: firedAt < k && Gap(evs, k, t) &&
      if r.keepFiringFor > 0 then t - k >= r.keepFiringFor && Within(evs, k, t, r.keepFiringFor) else k == t
  }

  /** It was sent no longer than the resend delay before the latest step. */
  ghost predicate SentLately(r: Rule, evs: seq<Event>, a: Alert) {
    forall i :: 0 <= i < |evs| && evs[i].Stepped? ==> evs[i].ts <= a.lastSentAt + r.resendDelay
  }

  ghost predicate PendingStory(r: Rule, evs: seq<Event>, a: Alert) {
    && a.firedAt == 0 && a.lastSentAt == 0 && a.keepFiringSince == 0
    && Throughout(evs, a.activeAt, Now(evs), true)
    && Within(evs, a.activeAt, Now(evs) + 1, r.hold)
    && PresentBefore(evs, Now(evs) + 1)
  }

  ghost predicate FiringSoFar(r: Rule, evs: seq<Event>, a: Alert) {
    && FiredDuly(r, evs, a)
    && a.firedAt <= a.lastSentAt && SentLately(r, evs, a)
    && ShortGaps(evs, a.firedAt, Now(evs) + 1, r.keepFiringFor)
  }

  /** It was in the latest result, or is within the grace period that began when it went missing. */
  ghost predicate AbsenceNoted(r: Rule, evs: seq<Event>, a: Alert) {
    if a.keepFiringSince == 0 then PresentBefore(evs, Now(evs) + 1)
    else
      && a.firedAt < a.keepFiringSince && Gap(evs, a.keepFiringSince, Now(evs))
      && Within(evs, a.keepFiringSince, Now(evs) + 1, r.keepFiringFor)
  }

  ghost predicate FiringStory(r: Rule, evs: seq<Event>, a: Alert) {
    FiringSoFar(r, evs, a) && AbsenceNoted(r, evs, a)
  }

  /** It fired, went missing, and resolved when its grace period was over. */
  ghost predicate FiredAndResolved(r: Rule, evs: seq<Event>, a: Alert) {
    && FiredDuly(r, evs, a) && a.firedAt < a.resolvedAt
    && ShortGaps(evs, a.firedAt, a.resolvedAt, r.keepFiringFor)
    && StepAt(evs, a.resolvedAt, false) && ResolvedDuly(r, evs, a.firedAt, a.resolvedAt)
  }

  ghost predicate InactiveStory(r: Rule, evs: seq<Event>, a: Alert) {
    && FiredAndResolved(r, evs, a)
    && a.resolvedAt <= a.lastSentAt && SentLately(r, evs, a)
    && Throughout(evs, a.resolvedAt, Now(evs), false)
    && Within(evs, a.resolvedAt, Now(evs) + 1, 900_001)
  }

  /** It has been active since a step that had it, and was last sent, if ever, in the past. */
  ghost predicate Rooted(evs: seq<Event>, a: Alert) {
    0 < a.activeAt && StepAt(evs, a.activeAt, true) && NotCleared(evs, a.activeAt) && 0 <= a.lastSentAt <= Now(evs)
  }

  ghost predicate Story(r: Rule, evs: seq<Event>, a: Alert) {
    && Rooted(evs, a)
    && (a.state == Inactive <==> a.resolvedAt != 0)
    && match a.state
       case Pending => PendingStory(r, evs, a)
       case Firing => FiringStory(r, evs, a)
       case Inactive => InactiveStory(r, evs, a)
  }

  /** An instance without an entry was not in the latest result. */
  ghost predicate Explained(r: Rule, evs: seq<Event>, cell: Option<Alert>) {
    if cell.Some? then Story(r, evs, cell.value) else !PresentBefore(evs, Now(evs) + 1)
  }

  // ----- histories only grow -----

  lemma StepAtGrows(evs: seq<Event>, e: Event, t: Time, present: bool)
    requires StepAt(evs, t, present)
    ensures StepAt(evs + [e], t, present)
  {
    var i :| 0 <= i < |evs| && evs[i].Stepped? && evs[i].ts == t && evs[i].result.Some? == present;
    assert (evs + [e])[i] == evs[i];
  }

  lemma PresentBeforeGrows(evs: seq<Event>, e: Event, t: Time)
    requires e.ts >= t && PresentBefore(evs, t)
    ensures PresentBefore(evs + [e], t)
  {
    var i :| LastBefore(evs, i, t);
    assert LastBefore(evs + [e], i, t);
  }

  lemma GapGrows(evs: seq<Event>, e: Event, k: Time, t: Time)
    requires e.ts > t && Gap(evs, k, t)
    ensures Gap(evs + [e], k, t)
  {
    StepAtGrows(evs, e, k, false);
    PresentBeforeGrows(evs, e, k);
  }

  lemma ShortGapsGrow(evs: seq<Event>, e: Event, lo: Time, hi: Time, d: int)
    requires e.ts >= hi && ShortGaps(evs, lo, hi, d)
    ensures ShortGaps(evs + [e], lo, hi, d)
  {
    var evs' := evs + [e];
    forall i | 0 <= i < |evs'| && evs'[i].Stepped? && evs'[i].result.None? && lo < evs'[i].ts < hi
      ensures ShortGap(evs', lo, evs'[i].ts, d)
    {
      assert evs'[i] == evs[i];
      var t := evs[i].ts;
      var k :| lo < k && t - k < d && Gap(evs, k, t);
      GapGrows(evs, e, k, t);
    }
  }

  /** One more step extends a run of short gaps. */
  lemma ShortGapsExtend(evs: seq<Event>, e: Event, lo: Time, hi: Time, d: int)
    requires ShortGaps(evs, lo, hi, d) && e.ts >= hi && forall i :: 0 <= i < |evs| ==> evs[i].ts < hi
    requires e.Stepped? && e.result.None? ==> ShortGap(evs + [e], lo, e.ts, d)
    ensures ShortGaps(evs + [e], lo, e.ts + 1, d)
  {
    ShortGapsGrow(evs, e, lo, hi, d);
    var evs' := evs + [e];
    forall i | 0 <= i < |evs'| && evs'[i].Stepped? && evs'[i].result.None? && lo < evs'[i].ts < e.ts + 1
      ensures ShortGap(evs', lo, evs'[i].ts, d)
    {
      if i < |evs| {
        assert evs'[i].ts < hi;
      }
    }
  }

  lemma FiredDulyGrows(r: Rule, evs: seq<Event>, e: Event, a: Alert, b: Alert)
    requires FiredDuly(r, evs, a) && a.firedAt < e.ts && b.activeAt == a.activeAt && b.firedAt == a.firedAt
    ensures FiredDuly(r, evs + [e], b)
  {
    StepAtGrows(evs, e, a.firedAt, true);
  }

  lemma ResolvedDulyGrows(r: Rule, evs: seq<Event>, e: Event, firedAt: Time, t: Time)
    requires ResolvedDuly(r, evs, firedAt, t) && t < e.ts
    ensures ResolvedDuly(r, evs + [e], firedAt, t)
  {
    var k :| firedAt < k && Gap(evs, k, t) &&
      if r.keepFiringFor > 0 then t - k >= r.keepFiringFor && Within(evs, k, t, r.keepFiringFor) else k == t;
    GapGrows(evs, e, k, t);
    assert r.keepFiringFor > 0 ==> Within(evs + [e], k, t, r.keepFiringFor);
  }

  lemma OrderedInit(r: Rule, evs: seq<Event>, e: Event)
    requires Ordered(r, evs + [e])
    ensures Ordered(r, evs) && Now(evs) < e.ts && Now(evs) >= 0
    ensures forall i :: 0 <= i < |evs| ==> evs[i].ts <= Now(evs)
    ensures Now(evs + [e]) == e.ts && 0 <= r.resendDelay < e.ts
  {
    var evs' := evs + [e];
    assert forall i :: 0 <= i < |evs| ==> evs'[i] == evs[i];
    assert evs'[|evs|] == e;
  }

  // ----- every event keeps the story true -----

  lemma PresentNow(evs: seq<Event>, e: Event, now: Time)
    requires e.Stepped? && e.result.Some? && now == e.ts + 1
    ensures PresentBefore(evs + [e], now) && StepAt(evs + [e], e.ts, true)
  {
    assert (evs + [e])[|evs|] == e;
    assert LastBefore(evs + [e], |evs|, now);
  }

  lemma AbsentNow(r: Rule, evs: seq<Event>, e: Event, now: Time)
    requires Ordered(r, evs + [e]) && e.Stepped? && e.result.None? && now == e.ts + 1
    ensures StepAt(evs + [e], e.ts, false) && !PresentBefore(evs + [e], now)
  {
    var evs' := evs + [e];
    assert evs'[|evs|] == e;
    forall i ensures !LastBefore(evs', i, now) {
      assert 0 <= i < |evs| ==> i < |evs| < |evs'| && evs'[|evs|].ts < now;
    }
  }

  lemma SkipIdle(r: Rule, evs: seq<Event>, e: Event, now: Time, now': Time)
    requires Ordered(r, evs + [e]) && e.Skipped? && now == Now(evs) + 1 && now' == e.ts + 1
    requires !PresentBefore(evs, now)
    ensures !PresentBefore(evs + [e], now')
  {
    var evs' := evs + [e];
    OrderedInit(r, evs, e);
    forall i ensures !LastBefore(evs', i, now') {
      if 0 <= i < |evs| && evs[i].Stepped? && evs[i].result.Some? {
        assert !LastBefore(evs, i, now);
        var j :| i < j < |evs| && evs[j].ts < now && !evs[j].Skipped?;
        assert evs'[j] == evs[j];
      }
    }
  }

  lemma SkipPresent(r: Rule, evs: seq<Event>, e: Event, now: Time)
    requires Ordered(r, evs + [e]) && e.Skipped? && now == Now(evs) + 1 && PresentBefore(evs, now)
    ensures PresentBefore(evs + [e], e.ts + 1)
  {
    OrderedInit(r, evs, e);
    var i :| LastBefore(evs, i, now);
    var evs' := evs + [e];
    forall j | i < j < |evs'| && evs'[j].ts < e.ts + 1 ensures evs'[j].Skipped? {
      assert j < |evs| ==> evs'[j] == evs[j] && evs[j].ts < now;
    }
    assert LastBefore(evs', i, e.ts + 1);
  }

  /** An absence goes on through a round that failed or did not have the instance either. */
  lemma GapGoesOn(r: Rule, evs: seq<Event>, e: Event, k: Time)
    requires Ordered(r, evs + [e]) && (e.Skipped? || (e.Stepped? && e.result.None?)) && Gap(evs, k, Now(evs))
    ensures Gap(evs + [e], k, e.ts)
  {
    OrderedInit(r, evs, e);
    StepAtGrows(evs, e, k, false);
    PresentBeforeGrows(evs, e, k);
  }

  lemma SentLatelyGrows(r: Rule, evs: seq<Event>, e: Event, a: Alert, a': Alert)
    requires SentLately(r, evs, a) && a.lastSentAt <= a'.lastSentAt
    requires e.Stepped? ==> e.ts <= a'.lastSentAt + r.resendDelay
    ensures SentLately(r, evs + [e], a')
  {
  }

  lemma RootedGrows(r: Rule, evs: seq<Event>, e: Event, a: Alert, a': Alert)
    requires Ordered(r, evs + [e]) && !e.Cleared? && Rooted(evs, a)
    requires a'.activeAt == a.activeAt && (a'.lastSentAt == a.lastSentAt || a'.lastSentAt == e.ts)
    ensures Rooted(evs + [e], a')
  {
    OrderedInit(r, evs, e);
    StepAtGrows(evs, e, a.activeAt, true);
  }

  lemma PendingSkip(r: Rule, evs: seq<Event>, e: Event, a: Alert)
    requires Ordered(r, evs + [e]) && e.Skipped? && PendingStory(r, evs, a)
    ensures PendingStory(r, evs + [e], a)
  {
    OrderedInit(r, evs, e);
    SkipPresent(r, evs, e, Now(evs) + 1);
  }

  lemma FiringGoesOn(r: Rule, evs: seq<Event>, e: Event, a: Alert, a': Alert)
    requires Ordered(r, evs + [e]) && FiringSoFar(r, evs, a)
    requires a.lastSentAt <= Now(evs) && a'.activeAt == a.activeAt && a'.firedAt == a.firedAt
    requires a.lastSentAt <= a'.lastSentAt && (e.Stepped? ==> e.ts <= a'.lastSentAt + r.resendDelay)
    requires e.Stepped? && e.result.None? ==> ShortGap(evs + [e], a.firedAt, e.ts, r.keepFiringFor)
    ensures FiringSoFar(r, evs + [e], a')
  {
    OrderedInit(r, evs, e);
    FiredDulyGrows(r, evs, e, a, a');
    ShortGapsExtend(evs, e, a.firedAt, Now(evs) + 1, r.keepFiringFor);
    SentLatelyGrows(r, evs, e, a, a');
  }

  lemma AbsenceSkip(r: Rule, evs: seq<Event>, e: Event, a: Alert)
    requires Ordered(r, evs + [e]) && e.Skipped? && AbsenceNoted(r, evs, a)
    ensures AbsenceNoted(r, evs + [e], a)
  {
    OrderedInit(r, evs, e);
    if a.keepFiringSince == 0 {
      SkipPresent(r, evs, e, Now(evs) + 1);
    } else {
      GapGoesOn(r, evs, e, a.keepFiringSince);
      assert Within(evs + [e], a.keepFiringSince, e.ts + 1, r.keepFiringFor);
    }
  }

  lemma FiredAndResolvedGrows(r: Rule, evs: seq<Event>, e: Event, a: Alert, a': Alert)
    requires FiredAndResolved(r, evs, a) && a.resolvedAt < e.ts
    requires a'.activeAt == a.activeAt && a'.firedAt == a.firedAt && a'.resolvedAt == a.resolvedAt
    ensures FiredAndResolved(r, evs + [e], a')
  {
    FiredDulyGrows(r, evs, e, a, a');
    ShortGapsGrow(evs, e, a.firedAt, a.resolvedAt, r.keepFiringFor);
    StepAtGrows(evs, e, a.resolvedAt, false);
    ResolvedDulyGrows(r, evs, e, a.firedAt, a.resolvedAt);
  }

  /** A resolved instance stays so through a round that failed or did not have it. */
  lemma InactiveGoesOn(r: Rule, evs: seq<Event>, e: Event, a: Alert, a': Alert)
    requires Ordered(r, evs + [e]) && InactiveStory(r, evs, a) && a.lastSentAt <= Now(evs)
    requires e.Skipped? || (e.Stepped? && e.result.None? && e.ts - a.resolvedAt <= RESOLVED_RETENTION)
    requires a'.activeAt == a.activeAt && a'.firedAt == a.firedAt && a'.resolvedAt == a.resolvedAt
    requires a.lastSentAt <= a'.lastSentAt && SentLately(r, evs + [e], a')
    ensures InactiveStory(r, evs + [e], a')
  {
    OrderedInit(r, evs, e);
    FiredAndResolvedGrows(r, evs, e, a, a');
  }

  lemma SkipStory(r: Rule, evs: seq<Event>, e: Event, a: Alert)
    requires Ordered(r, evs + [e]) && e.Skipped? && Story(r, evs, a)
    ensures Story(r, evs + [e], a)
  {
    RootedGrows(r, evs, e, a, a);
    match a.state
    case Pending => PendingSkip(r, evs, e, a);
    case Firing =>
      FiringGoesOn(r, evs, e, a, a);
      AbsenceSkip(r, evs, e, a);
    case Inactive =>
      SentLatelyGrows(r, evs, e, a, a);
      InactiveGoesOn(r, evs, e, a, a);
  }

  /** The instance is new, or back after it had resolved. */
  lemma BornStory(r: Rule, evs: seq<Event>, e: Event, v: int, a: Alert)
    requires Ordered(r, evs + [e]) && e == Stepped(e.ts, Some(v))
    requires a == AfterSend(r, Seen(r, Born(v, e.ts), e.ts), e.ts)
    ensures Story(r, evs + [e], a)
  {
    var evs' := evs + [e];
    OrderedInit(r, evs, e);
    PresentNow(evs, e, e.ts + 1);
  }

  lemma PendingSeen(r: Rule, evs: seq<Event>, e: Event, v: int, a: Alert, a': Alert)
    requires Ordered(r, evs + [e]) && e == Stepped(e.ts, Some(v)) && Story(r, evs, a) && a.state == Pending
    requires a' == AfterSend(r, Seen(r, a.(value := v), e.ts), e.ts)
    ensures Story(r, evs + [e], a')
  {
    var evs' := evs + [e];
    OrderedInit(r, evs, e);
    PresentNow(evs, e, e.ts + 1);
    RootedGrows(r, evs, e, a, a');
    if a'.state == Firing {
      assert Within(evs', a.activeAt, e.ts, r.hold);
      assert a'.lastSentAt == e.ts;
      assert ShortGaps(evs', e.ts, e.ts + 1, r.keepFiringFor);
    }
  }

  /** The absence of a firing instance, as of this step. */
  lemma FiringGap(r: Rule, evs: seq<Event>, e: Event, a: Alert, k: Time)
    requires Ordered(r, evs + [e]) && e.Stepped? && e.result.None? && FiringStory(r, evs, a)
    requires a.lastSentAt <= Now(evs) && k == if a.keepFiringSince == 0 then e.ts else a.keepFiringSince
    ensures a.firedAt < k && Gap(evs + [e], k, e.ts) && Within(evs + [e], k, e.ts, r.keepFiringFor)
  {
    OrderedInit(r, evs, e);
    AbsentNow(r, evs, e, e.ts + 1);
    if a.keepFiringSince == 0 {
      var i :| LastBefore(evs, i, Now(evs) + 1);
      assert LastBefore(evs + [e], i, e.ts);
    } else {
      GapGoesOn(r, evs, e, k);
    }
  }

  lemma MissedKeepsFiring(r: Rule, evs: seq<Event>, e: Event, a: Alert, a': Alert, k: Time)
    requires Ordered(r, evs + [e]) && e.Stepped? && e.result.None? && FiringStory(r, evs, a)
    requires a.lastSentAt <= Now(evs) && k == if a.keepFiringSince == 0 then e.ts else a.keepFiringSince
    requires e.ts - k < r.keepFiringFor && 0 < k
    requires a'.activeAt == a.activeAt && a'.firedAt == a.firedAt && a'.keepFiringSince == k
    requires a.lastSentAt <= a'.lastSentAt && e.ts <= a'.lastSentAt + r.resendDelay
    ensures FiringStory(r, evs + [e], a')
  {
    OrderedInit(r, evs, e);
    FiringGap(r, evs, e, a, k);
    assert ShortGap(evs + [e], a.firedAt, e.ts, r.keepFiringFor);
    FiringGoesOn(r, evs, e, a, a');
    assert Within(evs + [e], k, e.ts + 1, r.keepFiringFor);
  }

  /** Without a grace period a firing instance has never been missing. */
  lemma GapIsNew(r: Rule, evs: seq<Event>, a: Alert)
    requires FiringStory(r, evs, a)
    ensures r.keepFiringFor <= 0 ==> a.keepFiringSince == 0
  {
  }

  lemma MissedResolves(r: Rule, evs: seq<Event>, e: Event, a: Alert, a': Alert, k: Time)
    requires Ordered(r, evs + [e]) && e.Stepped? && e.result.None? && FiringStory(r, evs, a)
    requires a.lastSentAt <= Now(evs) && k == if a.keepFiringSince == 0 then e.ts else a.keepFiringSince
    requires r.keepFiringFor > 0 ==> e.ts - k >= r.keepFiringFor
    requires a'.activeAt == a.activeAt && a'.firedAt == a.firedAt && a'.resolvedAt == e.ts == a'.lastSentAt
    ensures InactiveStory(r, evs + [e], a')
  {
    var evs' := evs + [e];
    OrderedInit(r, evs, e);
    FiringGap(r, evs, e, a, k);
    FiredDulyGrows(r, evs, e, a, a');
    ShortGapsUpTo(evs, e, a.firedAt, Now(evs) + 1, r.keepFiringFor);
    AbsentNow(r, evs, e, e.ts + 1);
    SentLatelyGrows(r, evs, e, a, a');
    GapIsNew(r, evs, a);
    assert ResolvedDuly(r, evs', a.firedAt, e.ts);
  }

  lemma ShortGapsUpTo(evs: seq<Event>, e: Event, lo: Time, hi: Time, d: int)
    requires ShortGaps(evs, lo, hi, d) && e.ts >= hi && forall i :: 0 <= i < |evs| ==> evs[i].ts < hi
    ensures ShortGaps(evs + [e], lo, e.ts, d)
  {
    ShortGapsGrow(evs, e, lo, hi, d);
  }

  lemma FiringSeen(r: Rule, evs: seq<Event>, e: Event, v: int, a: Alert, a': Alert)
    requires Ordered(r, evs + [e]) && e == Stepped(e.ts, Some(v)) && FiringStory(r, evs, a)
    requires a.state == Firing && a.resolvedAt == 0 && a.lastSentAt <= Now(evs)
    requires a' == AfterSend(r, Seen(r, a.(value := v), e.ts), e.ts)
    ensures SameRoots(a, a', e.ts)
    ensures a'.state == Firing && a'.resolvedAt == 0 && FiringStory(r, evs + [e], a')
  {
    OrderedInit(r, evs, e);
    FiringGoesOn(r, evs, e, a, a');
    PresentNow(evs, e, e.ts + 1);
  }

  lemma SeenStory(r: Rule, evs: seq<Event>, e: Event, v: int, cell: Option<Alert>)
    requires Ordered(r, evs + [e]) && e == Stepped(e.ts, Some(v)) && (cell.Some? ==> Story(r, evs, cell.value))
    ensures Tracked(r, cell, e).Some? && Story(r, evs + [e], Tracked(r, cell, e).value)
  {
    var a' := Tracked(r, cell, e).value;
    if cell.None? || cell.value.state == Inactive {
      BornStory(r, evs, e, v, a');
    } else if cell.value.state == Pending {
      PendingSeen(r, evs, e, v, cell.value, a');
    } else {
      FiringSeen(r, evs, e, v, cell.value, a');
      RootedGrows(r, evs, e, cell.value, a');
    }
  }

  /** Fields that a step leaves alone, and the one sending sets. */
  predicate SameRoots(a: Alert, a': Alert, ts: Time) {
    a'.activeAt == a.activeAt && (a'.lastSentAt == a.lastSentAt || a'.lastSentAt == ts)
  }

  /** What a step makes of a firing instance that is missing from its result. */
  lemma MissedShape(r: Rule, a: Alert, ts: Time, a': Alert, k: Time)
    requires a.state == Firing && a.resolvedAt == 0 && 0 <= r.resendDelay < ts && a.lastSentAt < ts
    requires k == (if a.keepFiringSince == 0 then ts else a.keepFiringSince)
    requires Tracked(r, Some(a), Stepped(ts, None)) == Some(a')
    ensures SameRoots(a, a', ts) && a'.firedAt == a.firedAt
    ensures if r.keepFiringFor > 0 && ts - k < r.keepFiringFor
            then a'.state == Firing && a'.resolvedAt == 0 && a'.keepFiringSince == k
                 && a.lastSentAt <= a'.lastSentAt && ts <= a'.lastSentAt + r.resendDelay
            else a'.state == Inactive && a'.resolvedAt == ts == a'.lastSentAt
  {
  }

  lemma FiringMissed(r: Rule, evs: seq<Event>, e: Event, a: Alert, a': Alert)
    requires Ordered(r, evs + [e]) && e == Stepped(e.ts, None) && FiringStory(r, evs, a)
    requires a.state == Firing && a.resolvedAt == 0 && a.lastSentAt <= Now(evs)
    requires Tracked(r, Some(a), e) == Some(a')
    ensures SameRoots(a, a', e.ts)
    ensures if a'.state == Firing then FiringStory(r, evs + [e], a') && a'.resolvedAt == 0
            else a'.state == Inactive && InactiveStory(r, evs + [e], a') && a'.resolvedAt != 0
  {
    var k := if a.keepFiringSince == 0 then e.ts else a.keepFiringSince;
    assert k > 0 && a.lastSentAt < e.ts && 0 <= r.resendDelay < e.ts by {
      MissedTimes(r, evs, e, a, k);
    }
    MissedShape(r, a, e.ts, a', k);
    if a'.state == Firing {
      MissedKeepsFiring(r, evs, e, a, a', k);
    } else {
      MissedResolves(r, evs, e, a, a', k);
    }
  }

  lemma MissedTimes(r: Rule, evs: seq<Event>, e: Event, a: Alert, k: Time)
    requires Ordered(r, evs + [e]) && e == Stepped(e.ts, None) && FiringStory(r, evs, a) && a.lastSentAt <= Now(evs)
    requires k == if a.keepFiringSince == 0 then e.ts else a.keepFiringSince
    ensures k > 0 && a.lastSentAt < e.ts && 0 <= r.resendDelay < e.ts
  {
    OrderedInit(r, evs, e);
    FiringGap(r, evs, e, a, k);
  }

  lemma InactiveMissed(r: Rule, evs: seq<Event>, e: Event, a: Alert, a': Alert)
    requires Ordered(r, evs + [e]) && e == Stepped(e.ts, None) && InactiveStory(r, evs, a)
    requires a.state == Inactive && a.resolvedAt != 0 && a.lastSentAt <= Now(evs)
    requires Tracked(r, Some(a), e) == Some(a')
    ensures SameRoots(a, a', e.ts)
    ensures a'.state == Inactive && InactiveStory(r, evs + [e], a') && a'.resolvedAt != 0
  {
    OrderedInit(r, evs, e);
    SentLatelyGrows(r, evs, e, a, a');
    InactiveGoesOn(r, evs, e, a, a');
  }

  lemma MissedStory(r: Rule, evs: seq<Event>, e: Event, a: Alert)
    requires Ordered(r, evs + [e]) && e == Stepped(e.ts, None) && Story(r, evs, a)
    ensures Tracked(r, Some(a), e).Some? ==> Story(r, evs + [e], Tracked(r, Some(a), e).value)
  {
    var cell := Tracked(r, Some(a), e);
    if cell.Some? && a.state == Inactive {
      InactiveMissed(r, evs, e, a, cell.value);
      RootedGrows(r, evs, e, a, cell.value);
    } else if cell.Some? {
      FiringMissed(r, evs, e, a, cell.value);
      RootedGrows(r, evs, e, a, cell.value);
    }
  }

  lemma ExplainedStep(r: Rule, evs: seq<Event>, e: Event, cell: Option<Alert>)
    requires Ordered(r, evs + [e]) && Explained(r, evs, cell)
    ensures Explained(r, evs + [e], Tracked(r, cell, e))
  {
    OrderedInit(r, evs, e);
    match e
    case Skipped(_) =>
      if cell.Some? {
        SkipStory(r, evs, e, cell.value);
      } else {
        SkipIdle(r, evs, e, Now(evs) + 1, e.ts + 1);
      }
    case Cleared(_) =>
      ClearedNow(r, evs, e, e.ts + 1);
    case Stepped(_, result) =>
      if result.Some? {
        SeenStory(r, evs, e, result.value, cell);
      } else {
        AbsentNow(r, evs, e, e.ts + 1);
        if cell.Some? {
          MissedStory(r, evs, e, cell.value);
        }
      }
  }

  lemma ClearedNow(r: Rule, evs: seq<Event>, e: Event, now: Time)
    requires Ordered(r, evs + [e]) && e.Cleared? && now == e.ts + 1
    ensures !PresentBefore(evs + [e], now)
  {
    var evs' := evs + [e];
    assert evs'[|evs|] == e;
    forall i ensures !LastBefore(evs', i, now) {
      assert 0 <= i < |evs| ==> i < |evs| < |evs'| && evs'[|evs|].ts < now;
    }
  }

  /** Over every run, the state of an instance is explained by what was seen of it. */
  lemma {:induction false} EveryRunIsExplained(r: Rule, evs: seq<Event>)
    requires Ordered(r, evs)
    ensures Explained(r, evs, Track(r, evs))
    decreases |evs|
  {
    if evs != [] {
      var init, e := evs[..|evs| - 1], evs[|evs| - 1];
      assert init + [e] == evs;
      OrderedInit(r, init, e);
      EveryRunIsExplained(r, init);
      ExplainedStep(r, init, e, Track(r, init));
    }
  }

  // ----- over every run of rounds -----

  ghost predicate InTimeOrder(r: Rule, rounds: seq<Round>) {
    && (forall i :: 0 <= i < |rounds| ==> 0 <= r.resendDelay < rounds[i].ts)
    && (forall i, j :: 0 <= i < j < |rounds| ==> rounds[i].ts < rounds[j].ts)
  }

  /** Every entry of the rule's map, after any run, has its story. */
  lemma EveryAlertIsExplained(r: Rule, rounds: seq<Round>, fp: Fingerprint)
    requires InTimeOrder(r, rounds)
    ensures var cell := Lookup(AfterRounds(r, rounds), fp);
            Explained(r, History(r, rounds, fp), cell)
  {
    InstancesAreSeparate(r, rounds, fp);
    EveryRunIsExplained(r, History(r, rounds, fp));
  }

  /** `from` may become `to` in one successful round; a firing alert never vanishes. */
  predicate Legal(from: Option<AlertState>, to: Option<AlertState>) {
    match from
    case Some(Pending) => to != Some(Inactive)
    case Some(Firing) => to == Some(Firing) || to == Some(Inactive)
    case _ => true
  }

  function StateOf(cell: Option<Alert>): Option<AlertState> {
    if cell.Some? then Some(cell.value.state) else None
  }

  lemma RoundsAppend(r: Rule, rounds: seq<Round>, round: Round, fp: Fingerprint)
    requires InTimeOrder(r, rounds + [round])
    ensures AfterRounds(r, rounds + [round]) == AfterRound(r, AfterRounds(r, rounds), round)
    ensures InTimeOrder(r, rounds) && Now(History(r, rounds, fp)) < round.ts
    ensures 0 <= r.resendDelay < round.ts
  {
    var all := rounds + [round];
    assert all[..|rounds|] == rounds && all[|rounds|] == round;
    assert forall i :: 0 <= i < |rounds| ==> all[i] == rounds[i];
  }

  /** The part of the story that decides about sending. */
  predicate Brief(r: Rule, cell: Option<Alert>, ts: Time) {
    && 0 <= r.resendDelay < ts
    && (cell.Some? ==>
          var a := cell.value;
          && a.lastSentAt < ts && (a.state == Inactive <==> a.resolvedAt != 0)
          && (a.state == Pending ==> a.lastSentAt == 0)
          && (a.state == Inactive ==> a.resolvedAt <= a.lastSentAt))
  }

  lemma BriefHolds(r: Rule, rounds: seq<Round>, round: Round, fp: Fingerprint)
    requires InTimeOrder(r, rounds + [round])
    ensures Brief(r, Lookup(AfterRounds(r, rounds), fp), round.ts)
  {
    RoundsAppend(r, rounds, round, fp);
    EveryAlertIsExplained(r, rounds, fp);
  }

  /** An instance is given to the notifier if its evaluated state needs sending. */
  lemma SentInAt(r: Rule, active: Active, round: Round, fp: Fingerprint)
    requires OutcomeOf(r, active, round).Ok?
    ensures var c := Evaluated(r, Lookup(active, fp), Lookup(ResultsOf(round.rows.value), fp), round.ts);
            && (fp in SentIn(r, active, round) <==> c.Some? && NeedsSending(c.value, round.ts, r.resendDelay))
            && (fp in SentIn(r, active, round) ==> SentIn(r, active, round)[fp] == Sent(r, c.value, round.ts))
  {
    EvalMapAt(r, active, ResultsOf(round.rows.value), round.ts, fp);
  }

  /** What one successful round does to an instance that it may pass to the notifier. */
  ghost predicate SentRightly(r: Rule, before: Option<Alert>, after: Option<Alert>, ts: Time, sent: Option<Alert>) {
    && Legal(StateOf(before), StateOf(after))
    && (sent.Some? ==> after == sent && sent.value.state != Pending)
    && (sent.Some? <==> after.Some? && after.value.lastSentAt == ts)
    && (after.Some? && after.value.state in {Firing, Inactive} ==>
          if StateOf(before) != StateOf(after) then sent.Some?
          else sent.Some? <==> before.value.lastSentAt + r.resendDelay < ts)
  }

  lemma InstanceSentRightly(r: Rule, before: Option<Alert>, result: Option<int>, ts: Time)
    requires Brief(r, before, ts)
    ensures var c := Evaluated(r, before, result, ts);
            SentRightly(r, before, Tracked(r, before, Stepped(ts, result)), ts,
                        if c.Some? && NeedsSending(c.value, ts, r.resendDelay) then Some(Sent(r, c.value, ts)) else None)
  {
  }

  /**
   * In a successful round an instance is passed to the notifier exactly if it just started
   * firing or just resolved, or is in the same state as before, not pending, and was last sent
   * more than the resend delay ago. It is never sent while pending, and a firing instance
   * never leaves the map without having been sent as resolved.
   */
  lemma SentWhenItMatters(r: Rule, rounds: seq<Round>, round: Round, fp: Fingerprint)
    requires InTimeOrder(r, rounds + [round]) && OutcomeOf(r, AfterRounds(r, rounds), round).Ok?
    ensures SentRightly(r, Lookup(AfterRounds(r, rounds), fp), Lookup(AfterRounds(r, rounds + [round]), fp),
                        round.ts, Lookup(SentIn(r, AfterRounds(r, rounds), round), fp))
  {
    var active := AfterRounds(r, rounds);
    RoundsAppend(r, rounds, round, fp);
    RoundAt(r, active, round, fp);
    SentInAt(r, active, round, fp);
    BriefHolds(r, rounds, round, fp);
    InstanceSentRightly(r, Lookup(active, fp), Lookup(ResultsOf(round.rows.value), fp), round.ts);
  }

  // ----- case by case, in milliseconds -----

  /** What a successful round makes of an instance that is in the query result. */
  predicate WhenPresent(r: Rule, before: Option<Alert>, v: int, ts: Time, a: Alert) {
    && a.value == v && a.resolvedAt == 0 && a.keepFiringSince == 0
    && (match StateOf(before)
        case Some(Pending) =>
          && a.activeAt == before.value.activeAt
          && if ts - a.activeAt >= r.hold then a.state == Firing && a.firedAt == ts else a.state == Pending
        case Some(Firing) =>
          a.activeAt == before.value.activeAt && a.state == Firing && a.firedAt == before.value.firedAt
        case _ =>
          && a.activeAt == ts
          && if r.hold <= 0 then a.state == Firing && a.firedAt == ts else a.state == Pending)
  }

  /**
   * And of one that is not: pending ones go at once, firing ones resolve after `keepFiringFor`,
   * and resolved ones stay as they are for 15 minutes and no longer.
   */
  predicate WhenAbsent(r: Rule, before: Option<Alert>, ts: Time, after: Option<Alert>) {
    match StateOf(before)
    case Some(Firing) =>
      var b := before.value;
      var since := if b.keepFiringSince == 0 then ts else b.keepFiringSince;
      && after.Some? && after.value.activeAt == b.activeAt && after.value.firedAt == b.firedAt
      && after.value.value == b.value
      && if r.keepFiringFor > 0 && ts - since < r.keepFiringFor
         then after.value.state == Firing && after.value.keepFiringSince == since && after.value.resolvedAt == 0
         else after.value.state == Inactive && after.value.resolvedAt == ts
    case Some(Inactive) =>
      if ts - before.value.resolvedAt <= 900_000 then Resolved(before.value, after) else after == None
    case _ => after == None
  }

  /** Still there, and still resolved at the same time. */
  predicate Resolved(b: Alert, cell: Option<Alert>) {
    && cell.Some? && cell.value.state == Inactive && cell.value.resolvedAt == b.resolvedAt
    && cell.value.activeAt == b.activeAt && cell.value.firedAt == b.firedAt && cell.value.value == b.value
  }

  /** Only an alert that is sent is stamped, and it is valid for four resend delays or intervals. */
  predicate StampedAs(r: Rule, before: Option<Alert>, ts: Time, after: Option<Alert>, sent: Option<Alert>) {
    if sent.Some? then
      && sent.value.lastSentAt == ts && sent.value.validUntil >= ts + 4 * r.interval
      && sent.value.validUntil >= ts + 4 * r.resendDelay
      && (sent.value.validUntil == ts + 4 * r.interval || sent.value.validUntil == ts + 4 * r.resendDelay)
    else after.Some? && before.Some? && !(before.value.state == Inactive && after.value.state != Inactive) ==>
      after.value.lastSentAt == before.value.lastSentAt && after.value.validUntil == before.value.validUntil
  }

  lemma InstanceByCases(r: Rule, before: Option<Alert>, result: Option<int>, ts: Time)
    requires Brief(r, before, ts)
    ensures var after, c := Tracked(r, before, Stepped(ts, result)), Evaluated(r, before, result, ts);
            && (if result.Some? then after.Some? && WhenPresent(r, before, result.value, ts, after.value)
                else WhenAbsent(r, before, ts, after))
            && StampedAs(r, before, ts, after,
                         if c.Some? && NeedsSending(c.value, ts, r.resendDelay) then Some(Sent(r, c.value, ts)) else None)
  {
  }

  /** The whole transition of an instance in a successful round of any run, and what is sent of it. */
  lemma RoundByCases(r: Rule, rounds: seq<Round>, round: Round, fp: Fingerprint)
    requires InTimeOrder(r, rounds + [round]) && OutcomeOf(r, AfterRounds(r, rounds), round).Ok?
    ensures var before, after := Lookup(AfterRounds(r, rounds), fp), Lookup(AfterRounds(r, rounds + [round]), fp);
            var results := ResultsOf(round.rows.value);
            && (if fp in results then after.Some? && WhenPresent(r, before, results[fp], round.ts, after.value)
                else WhenAbsent(r, before, round.ts, after))
            && StampedAs(r, before, round.ts, after, Lookup(SentIn(r, AfterRounds(r, rounds), round), fp))
  {
    var active := AfterRounds(r, rounds);
    RoundsAppend(r, rounds, round, fp);
    RoundAt(r, active, round, fp);
    SentInAt(r, active, round, fp);
    BriefHolds(r, rounds, round, fp);
    InstanceByCases(r, Lookup(active, fp), Lookup(ResultsOf(round.rows.value), fp), round.ts);
  }

  /** A round is over the limit exactly if more instances than that would be pending or firing. */
  lemma OverTheLimit(r: Rule, active: Active, round: Round, after: Active, live: set<Fingerprint>)
    requires round.rows.Some? && Distinct(round.rows.value)
    requires after == EvalMap(r, active, ResultsOf(round.rows.value), round.ts)
    requires forall fp :: fp in live <==> fp in after && (after[fp].state == Pending || after[fp].state == Firing)
    ensures OutcomeOf(r, active, round).LimitExceeded? <==> 0 < r.limit < |live|
  {
    assert Alive(after) == live;
  }

  ghost predicate AbsentSince(evs: seq<Event>, n: nat) {
    forall i :: n <= i < |evs| ==> evs[i].Skipped? || (evs[i].Stepped? && evs[i].result.None?)
  }

  ghost predicate Recent(evs: seq<Event>, n: nat, t: Time) {
    forall i :: n <= i < |evs| && evs[i].Stepped? ==> evs[i].ts - t <= 900_000
  }

  lemma {:induction false} TrackResolved(r: Rule, evs: seq<Event>, n: nat)
    requires n <= |evs| && Track(r, evs[..n]).Some? && Track(r, evs[..n]).value.state == Inactive
    requires Track(r, evs[..n]).value.resolvedAt != 0 && AbsentSince(evs, n)
    ensures var b := Track(r, evs[..n]).value;
            if Recent(evs, n, b.resolvedAt) then Resolved(b, Track(r, evs)) else Track(r, evs).None?
    decreases |evs|
  {
    if n == |evs| {
      assert evs[..n] == evs;
    } else {
      var init, last := evs[..|evs| - 1], evs[|evs| - 1];
      assert init[..n] == evs[..n];
      TrackResolved(r, init, n);
    }
  }

  /**
   * A resolved instance that stays out of the results is in the map after any run exactly if
   * no successful round came more than 15 minutes after it resolved, and it is unchanged then.
   */
  lemma ResolvedStays(r: Rule, rounds: seq<Round>, n: nat, fp: Fingerprint, b: Alert)
    requires InTimeOrder(r, rounds) && n <= |rounds| && AbsentSince(History(r, rounds, fp), n)
    requires Lookup(AfterRounds(r, rounds[..n]), fp) == Some(b) && b.state == Inactive
    ensures var cell := Lookup(AfterRounds(r, rounds), fp);
            if Recent(History(r, rounds, fp), n, b.resolvedAt) then Resolved(b, cell) else cell == None
  {
    var evs := History(r, rounds, fp);
    HistoryPrefix(r, rounds, n, fp);
    InstancesAreSeparate(r, rounds, fp);
    InstancesAreSeparate(r, rounds[..n], fp);
    ResolvedOnce(r, rounds, n, fp);
    TrackResolved(r, evs, n);
  }

  lemma ResolvedOnce(r: Rule, rounds: seq<Round>, n: nat, fp: Fingerprint)
    requires InTimeOrder(r, rounds) && n <= |rounds|
    ensures var cell := Lookup(AfterRounds(r, rounds[..n]), fp);
            cell.Some? && cell.value.state == Inactive ==> cell.value.resolvedAt != 0
  {
    var init := rounds[..n];
    assert init != [] ==> 0 <= r.resendDelay < rounds[0].ts;
    forall i | 0 <= i < |init| ensures r.resendDelay < init[i].ts {
      assert init[i] == rounds[i];
    }
    forall i, j | 0 <= i < j < |init| ensures init[i].ts < init[j].ts {
      assert init[i] == rounds[i] && init[j] == rounds[j];
    }
    EveryAlertIsExplained(r, init, fp);
  }

  lemma {:induction false} HistoryPrefix(r: Rule, rounds: seq<Round>, n: nat, fp: Fingerprint)
    requires n <= |rounds|
    ensures History(r, rounds, fp)[..n] == History(r, rounds[..n], fp)
    decreases |rounds|
  {
    if n == |rounds| {
      assert rounds[..n] == rounds;
    } else {
      var init := rounds[..|rounds| - 1];
      assert init[..n] == rounds[..n];
      HistoryPrefix(r, init, n, fp);
    }
  }
}
