/**
 * Alert instances of one alerting rule: `AlertingRule.Eval` and `sendAlerts`. Times are
 * milliseconds since the zero time, which 0 stands for.
 */
module Alerting {
  import opened Options

  type Fingerprint = nat
  type Time = int

  datatype AlertState = Inactive | Pending | Firing

  datatype Alert = Alert(
    state: AlertState, value: int, activeAt: Time, firedAt: Time, resolvedAt: Time,
    lastSentAt: Time, validUntil: Time, keepFiringSince: Time)

  datatype Rule = Rule(hold: int, keepFiringFor: int, resendDelay: int, interval: int, limit: int)

  /** How long a resolved alert is kept: 15 minutes. */
  const RESOLVED_RETENTION: int := 15 * 60 * 1000

  // ----- one instance -----

  function Born(v: int, ts: Time): Alert {
    Alert(Pending, v, ts, 0, 0, 0, 0, 0)
  }

  /** The entry once the query result is merged in. */
  function Merged(cell: Option<Alert>, result: Option<int>, ts: Time): Option<Alert> {
    if result.None? then cell
    else if cell.Some? && cell.value.state != Inactive then Some(cell.value.(value := result.value))
    else Some(Born(result.value, ts))
  }

  /** The instance is in the query result. */
  function Seen(r: Rule, a: Alert, ts: Time): Alert {
    var b := a.(keepFiringSince := 0);
    if b.state == Pending && ts - b.activeAt >= r.hold then b.(state := Firing, firedAt := ts) else b
  }

  /** Start of the grace period of a firing instance that has gone missing. */
  function Grace(r: Rule, a: Alert, ts: Time): Time {
    if a.state == Firing && r.keepFiringFor > 0 && a.keepFiringSince == 0 then ts else a.keepFiringSince
  }

  predicate KeepsFiring(r: Rule, a: Alert, ts: Time) {
    a.state == Firing && r.keepFiringFor > 0 && ts - Grace(r, a, ts) < r.keepFiringFor
  }

  predicate Forgotten(a: Alert, ts: Time) {
    a.state == Pending || (a.resolvedAt != 0 && ts - a.resolvedAt > RESOLVED_RETENTION)
  }

  /** The instance is missing from the query result; `None` drops it from the active map. */
  function Missing(r: Rule, a: Alert, ts: Time): Option<Alert> {
    var b := a.(keepFiringSince := Grace(r, a, ts));
    if Forgotten(a, ts) then None
    else if b.state != Inactive && !KeepsFiring(r, a, ts) then Some(b.(state := Inactive, resolvedAt := ts))
    else Some(b)
  }

  function Advanced(r: Rule, cell: Option<Alert>, present: bool, ts: Time): Option<Alert> {
    if cell.None? then None
    else if present then Some(Seen(r, cell.value, ts))
    else Missing(r, cell.value, ts)
  }

  function Evaluated(r: Rule, cell: Option<Alert>, result: Option<int>, ts: Time): Option<Alert> {
    Advanced(r, Merged(cell, result, ts), result.Some?, ts)
  }

  predicate NeedsSending(a: Alert, ts: Time, resendDelay: int) {
    a.state != Pending && (a.resolvedAt > a.lastSentAt || a.lastSentAt + resendDelay < ts)
  }

  function Sent(r: Rule, a: Alert, ts: Time): Alert {
    var delta := if r.interval > r.resendDelay then r.interval else r.resendDelay;
    a.(lastSentAt := ts, validUntil := ts + 4 * delta)
  }

  function AfterSend(r: Rule, a: Alert, ts: Time): Alert {
    if NeedsSending(a, ts, r.resendDelay) then Sent(r, a, ts) else a
  }

  // ----- all instances of a rule -----

  type Active = map<Fingerprint, Alert>
  type Results = map<Fingerprint, int>

  function Lookup<T>(m: map<Fingerprint, T>, fp: Fingerprint): Option<T> {
    if fp in m then Some(m[fp]) else None
  }

  lemma Pointwise(m: Active, n: Active)
    requires forall fp: Fingerprint :: Lookup(m, fp) == Lookup(n, fp)
    ensures m == n
  {
    forall fp: Fingerprint
      ensures fp in m <==> fp in n
      ensures fp in m ==> m[fp] == n[fp]
    {
      assert Lookup(m, fp) == Lookup(n, fp);
    }
  }

  /** Every instance takes its own step. */
  function EvalMap(r: Rule, before: Active, results: Results, ts: Time): Active {
    map fp | fp in before.Keys + results.Keys && Evaluated(r, Lookup(before, fp), Lookup(results, fp), ts).Some?
      :: Evaluated(r, Lookup(before, fp), Lookup(results, fp), ts).value
  }

  lemma EvalMapAt(r: Rule, before: Active, results: Results, ts: Time, fp: Fingerprint)
    ensures Lookup(EvalMap(r, before, results, ts), fp) == Evaluated(r, Lookup(before, fp), Lookup(results, fp), ts)
  {
  }

  /** Resolved instances that stay out of the result are kept, unchanged, for 15 minutes and no longer. */
  ghost predicate Retains(before: Active, results: Results, ts: Time, after: Active) {
    forall fp :: fp in before && before[fp].state == Inactive && before[fp].resolvedAt != 0 && fp !in results ==>
      Lookup(after, fp) == if ts - before[fp].resolvedAt <= 900_000 then Some(before[fp]) else None
  }

  lemma EvalMapRetains(r: Rule, before: Active, results: Results, ts: Time)
    ensures Retains(before, results, ts, EvalMap(r, before, results, ts))
  {
  }

  function SendMap(r: Rule, active: Active, ts: Time): Active {
    map fp | fp in active :: AfterSend(r, active[fp], ts)
  }

  function SentOut(r: Rule, active: Active, ts: Time): Active {
    map fp | fp in active && NeedsSending(active[fp], ts, r.resendDelay) :: Sent(r, active[fp], ts)
  }

  /** Instances that count toward the limit. */
  function Alive(active: Active): set<Fingerprint> {
    set fp | fp in active && active[fp].state != Inactive
  }

  /** One row of the query result, its labels already reduced to their hash. */
  datatype Row = Row(fp: Fingerprint, value: int)

  predicate Distinct(rows: seq<Row>) {
    forall i, j :: 0 <= i < j < |rows| ==> rows[i].fp != rows[j].fp
  }

  function ResultsOf(rows: seq<Row>): Results {
    if rows == [] then map[] else ResultsOf(rows[..|rows| - 1])[rows[|rows| - 1].fp := rows[|rows| - 1].value]
  }

  lemma {:induction false} ResultsOfKeys(rows: seq<Row>)
    ensures forall fp :: fp in ResultsOf(rows) <==> exists i :: 0 <= i < |rows| && rows[i].fp == fp
    decreases |rows|
  {
    if rows != [] {
      var last := |rows| - 1;
      ResultsOfKeys(rows[..last]);
      assert forall i :: 0 <= i < last ==> rows[..last][i] == rows[i];
    }
  }

  /** One evaluation: its time and the rows the query returned, unless it failed. */
  datatype Round = Round(ts: Time, rows: Option<seq<Row>>)

  datatype Outcome = Ok | QueryFailed | DuplicateLabelset | LimitExceeded

  function OutcomeOf(r: Rule, active: Active, round: Round): Outcome {
    if round.rows.None? then QueryFailed
    else if !Distinct(round.rows.value) then DuplicateLabelset
    else if r.limit > 0 && |Alive(EvalMap(r, active, ResultsOf(round.rows.value), round.ts))| > r.limit then LimitExceeded
    else Ok
  }

  /** What a round evaluates to; a failed one changes nothing, one over the limit forgets all. */
  function AfterEval(r: Rule, active: Active, round: Round): Active {
    match OutcomeOf(r, active, round)
    case Ok => EvalMap(r, active, ResultsOf(round.rows.value), round.ts)
    case LimitExceeded => map[]
    case _ => active
  }

  /** A whole round: alerts are sent only when the evaluation succeeded. */
  function AfterRound(r: Rule, active: Active, round: Round): Active {
    var m := AfterEval(r, active, round);
    if OutcomeOf(r, active, round).Ok? then SendMap(r, m, round.ts) else m
  }

  function AfterRounds(r: Rule, rounds: seq<Round>): Active {
    if rounds == [] then map[] else AfterRound(r, AfterRounds(r, rounds[..|rounds| - 1]), rounds[|rounds| - 1])
  }

  /** Alerts passed to the notifier in a round. */
  function SentIn(r: Rule, active: Active, round: Round): Active {
    if OutcomeOf(r, active, round).Ok? then SentOut(r, AfterEval(r, active, round), round.ts) else map[]
  }

  predicate Unresolved(active: Active) {
    forall fp :: fp in active && active[fp].state != Inactive ==> active[fp].resolvedAt == 0
  }

  lemma UnresolvedKept(r: Rule, active: Active, results: Results, ts: Time)
    requires Unresolved(active)
    ensures Unresolved(EvalMap(r, active, results, ts)) && Unresolved(SendMap(r, EvalMap(r, active, results, ts), ts))
  {
  }

  lemma AliveStep(active: Active, done: set<Fingerprint>, fp: Fingerprint)
    requires fp !in done
    ensures |(done + {fp}) * Alive(active)| == |done * Alive(active)| + if fp in Alive(active) then 1 else 0
  {
    if fp in Alive(active) {
      assert (done + {fp}) * Alive(active) == done * Alive(active) + {fp};
    } else {
      assert (done + {fp}) * Alive(active) == done * Alive(active);
    }
  }

  /** After merging, all results have an entry that counts. */
  lemma MergedAlive(before: Active, results: Results, ts: Time, merged: Active)
    requires Unresolved(before)
    requires forall fp: Fingerprint :: Lookup(merged, fp) == Merged(Lookup(before, fp), Lookup(results, fp), ts)
    ensures Unresolved(merged)
    ensures forall fp :: fp in results ==> fp in merged && merged[fp].state != Inactive
  {
    forall fp: Fingerprint
      ensures fp in results ==> fp in merged && merged[fp].state != Inactive
      ensures fp in merged && merged[fp].state != Inactive ==> merged[fp].resolvedAt == 0
    {
      assert Lookup(merged, fp) == Merged(Lookup(before, fp), Lookup(results, fp), ts);
    }
  }

  /** The loop over the active map has visited `done`. */
  ghost predicate Through(r: Rule, was: Active, results: Results, ts: Time, now: Active,
                          done: set<Fingerprint>, count: nat)
  {
    && (forall fp: Fingerprint :: Lookup(now, fp) ==
          (if fp in done then Advanced(r, Lookup(was, fp), fp in results, ts) else Lookup(was, fp)))
    && count == |done * Alive(now)|
  }

  lemma ThroughStep(r: Rule, was: Active, results: Results, ts: Time, now: Active, next: Active,
                    done: set<Fingerprint>, fp: Fingerprint, count: nat, count': nat)
    requires Through(r, was, results, ts, now, done, count) && fp !in done
    requires Lookup(next, fp) == Advanced(r, Lookup(was, fp), fp in results, ts)
    requires forall x: Fingerprint :: x != fp ==> Lookup(next, x) == Lookup(now, x)
    requires count' == count + if fp in Alive(next) then 1 else 0
    ensures Through(r, was, results, ts, next, done + {fp}, count')
  {
    AliveElsewhere(now, next, done, fp);
    AliveStep(next, done, fp);
  }

  /** The loop of `sendAlerts` has `todo` left to visit. */
  ghost predicate Sending(r: Rule, was: Active, ts: Time, now: Active, alerts: Active, todo: set<Fingerprint>) {
    && now.Keys == was.Keys
    && (forall fp :: fp in was ==> now[fp] == if fp in todo then was[fp] else AfterSend(r, was[fp], ts))
    && alerts == SentOut(r, was, ts) - todo
  }

  lemma SendingStart(r: Rule, was: Active, ts: Time)
    ensures Sending(r, was, ts, was, map[], was.Keys)
  {
    assert SentOut(r, was, ts) - was.Keys == map[];
  }

  lemma SendingEnd(r: Rule, was: Active, ts: Time, now: Active, alerts: Active)
    requires Sending(r, was, ts, now, alerts, {})
    ensures now == SendMap(r, was, ts) && alerts == SentOut(r, was, ts)
  {
    assert SentOut(r, was, ts) - {} == SentOut(r, was, ts);
  }

  lemma SendingStep(r: Rule, was: Active, ts: Time, now: Active, alerts: Active, todo: set<Fingerprint>, fp: Fingerprint,
                    now': Active, alerts': Active, todo': set<Fingerprint>)
    requires Sending(r, was, ts, now, alerts, todo) && fp in todo && fp in now && todo' == todo - {fp}
    requires now' == now[fp := AfterSend(r, now[fp], ts)]
    requires alerts' == if NeedsSending(now[fp], ts, r.resendDelay) then alerts[fp := Sent(r, now[fp], ts)] else alerts
    ensures Sending(r, was, ts, now', alerts', todo')
  {
  }

  class AlertingRule {
    const rule: Rule
    var active: Active

    constructor (rule: Rule)
      ensures this.rule == rule && active == map[]
    {
      this.rule := rule;
      active := map[];
    }

    /** Turns the rows into one alert per labelset; two rows with the same one are refused. */
    method Collect(rows: seq<Row>) returns (ok: bool, results: Results)
      ensures ok <==> Distinct(rows)
      ensures ok ==> results == ResultsOf(rows)
    {
      ok, results := true, map[];
      for i := 0 to |rows|
        invariant results == ResultsOf(rows[..i])
        invariant Distinct(rows[..i])
      {
        ResultsOfKeys(rows[..i]);
        assert rows[..i + 1][..i] == rows[..i];
        if rows[i].fp in results {
          ok := false;
          return;
        }
        results := results[rows[i].fp := rows[i].value];
      }
      assert rows[..|rows|] == rows;
    }

    /** Refreshes known alerts and adds new ones. */
    method Merge(results: Results, ts: Time)
      modifies this
      ensures forall fp: Fingerprint :: Lookup(active, fp) == Merged(Lookup(old(active), fp), Lookup(results, fp), ts)
    {
      var todo := results.Keys;
      while todo != {}
        invariant todo <= results.Keys
        invariant forall fp: Fingerprint :: fp in todo ==> Lookup(active, fp) == Lookup(old(active), fp)
        invariant forall fp: Fingerprint :: fp !in todo ==>
          Lookup(active, fp) == Merged(Lookup(old(active), fp), Lookup(results, fp), ts)
        decreases |todo|
      {
        var fp :| fp in todo;
        assert Lookup(active, fp) == Lookup(old(active), fp);
        if fp in active && active[fp].state != Inactive {
          active := active[fp := active[fp].(value := results[fp])];
        } else {
          active := active[fp := Born(results[fp], ts)];
        }
        todo := todo - {fp};
      }
    }

    /** One turn of the loop over the active map; tells whether the instance counts. */
    method Turn(fp: Fingerprint, present: bool, ts: Time) returns (counts: bool)
      requires fp in active && (active[fp].state != Inactive ==> active[fp].resolvedAt == 0)
      requires present ==> active[fp].state != Inactive
      modifies this
      ensures Lookup(active, fp) == Advanced(rule, Lookup(old(active), fp), present, ts)
      ensures forall x: Fingerprint :: x != fp ==> Lookup(active, x) == Lookup(old(active), x)
      ensures counts <==> fp in Alive(active)
    {
      var a := active[fp];
      if !present {
        var keepFiring := false;
        if a.state == Firing && rule.keepFiringFor > 0 {
          if a.keepFiringSince == 0 {
            a := a.(keepFiringSince := ts);
          }
          keepFiring := ts - a.keepFiringSince < rule.keepFiringFor;
        }
        if a.state == Pending || (a.resolvedAt != 0 && ts - a.resolvedAt > RESOLVED_RETENTION) {
          active := active - {fp};
          return false;
        }
        if a.state != Inactive && !keepFiring {
          a := a.(state := Inactive, resolvedAt := ts);
        }
        active := active[fp := a];
        return keepFiring;
      }
      a := a.(keepFiringSince := 0);
      if a.state == Pending && ts - a.activeAt >= rule.hold {
        a := a.(state := Firing, firedAt := ts);
      }
      active := active[fp := a];
      counts := true;
    }

    /** Fires, resolves and forgets alerts; counts those that are pending or firing. */
    method Advance(results: Results, ts: Time) returns (count: nat)
      requires Unresolved(active)
      requires forall fp :: fp in results ==> fp in active && active[fp].state != Inactive
      modifies this
      ensures Through(rule, old(active), results, ts, active, old(active).Keys, count)
    {
      var all, done := active.Keys, {};
      count := 0;
      while done != all
        invariant done <= all && Through(rule, old(active), results, ts, active, done, count)
        decreases |all - done|
      {
        var fp :| fp in all - done;
        ghost var before, n := active, count;
        assert Lookup(active, fp) == Lookup(old(active), fp);
        var counts := Turn(fp, fp in results, ts);
        if counts {
          count := count + 1;
        }
        ThroughStep(rule, old(active), results, ts, before, active, done, fp, n, count);
        done := done + {fp};
      }
    }

    /** Merges the results in and advances all alerts. */
    method EvalResults(results: Results, ts: Time) returns (count: nat)
      requires Unresolved(active)
      modifies this
      ensures active == EvalMap(rule, old(active), results, ts) && count == |Alive(active)| && Unresolved(active)
    {
      ghost var before := active;
      Merge(results, ts);
      MergedAlive(before, results, ts, active);
      ghost var merged := active;
      count := Advance(results, ts);
      ThroughAll(rule, before, merged, results, ts, active, count);
      UnresolvedKept(rule, before, results, ts);
    }

    /** `Eval`; the rows are what the query returned. */
    method Eval(round: Round) returns (outcome: Outcome)
      requires Unresolved(active)
      modifies this
      ensures outcome == OutcomeOf(rule, old(active), round)
      ensures active == AfterEval(rule, old(active), round) && Unresolved(active)
      ensures outcome.Ok? ==> Retains(old(active), ResultsOf(round.rows.value), round.ts, active)
    {
      if round.rows.None? {
        return QueryFailed;
      }
      var ok, results := Collect(round.rows.value);
      if !ok {
        return DuplicateLabelset;
      }
      var count := EvalResults(results, round.ts);
      if rule.limit > 0 && count > rule.limit {
        active := map[];
        return LimitExceeded;
      }
      EvalMapRetains(rule, old(active), results, round.ts);
      return Ok;
    }

    /** The visit of one alert in `sendAlerts`. */
    method SendOne(fp: Fingerprint, ts: Time) returns (due: bool)
      requires fp in active
      modifies this
      ensures due == NeedsSending(old(active)[fp], ts, rule.resendDelay)
      ensures active == old(active)[fp := AfterSend(rule, old(active)[fp], ts)]
      ensures due ==> active[fp] == Sent(rule, old(active)[fp], ts)
    {
      var a := active[fp];
      due := NeedsSending(a, ts, rule.resendDelay);
      if due {
        var delta := rule.resendDelay;
        if rule.interval > rule.resendDelay {
          delta := rule.interval;
        }
        active := active[fp := a.(lastSentAt := ts, validUntil := ts + 4 * delta)];
      }
    }

    /** `sendAlerts`; the result is what the notifier is given. */
    method SendAlerts(ts: Time) returns (alerts: Active)
      modifies this
      ensures active == SendMap(rule, old(active), ts) && alerts == SentOut(rule, old(active), ts)
    {
      alerts := map[];
      var todo := active.Keys;
      SendingStart(rule, active, ts);
      while todo != {}
        invariant todo <= active.Keys && Sending(rule, old(active), ts, active, alerts, todo)
        decreases |todo|
      {
        var fp :| fp in todo;
        ghost var before, was := active, alerts;
        var due := SendOne(fp, ts);
        if due {
          alerts := alerts[fp := active[fp]];
        }
        SendingStep(rule, old(active), ts, before, was, todo, fp, active, alerts, todo - {fp});
        todo := todo - {fp};
      }
      SendingEnd(rule, old(active), ts, active, alerts);
    }

    /** What the group does with an alerting rule at each evaluation. */
    method RunRound(round: Round) returns (alerts: Active)
      requires Unresolved(active)
      modifies this
      ensures active == AfterRound(rule, old(active), round) && Unresolved(active)
      ensures alerts == SentIn(rule, old(active), round)
    {
      alerts := map[];
      var outcome := Eval(round);
      if outcome == Ok {
        alerts := SendAlerts(round.ts);
      }
    }
  }

  lemma AliveElsewhere(m: Active, n: Active, done: set<Fingerprint>, fp: Fingerprint)
    requires fp !in done && forall x: Fingerprint :: x != fp ==> Lookup(n, x) == Lookup(m, x)
    ensures done * Alive(n) == done * Alive(m)
  {
    forall x | x in done ensures x in Alive(n) <==> x in Alive(m) {
      assert Lookup(n, x) == Lookup(m, x);
    }
  }

  /** Once all entries are visited, the map is the evaluated one and all alive ones are counted. */
  lemma ThroughAll(r: Rule, before: Active, merged: Active, results: Results, ts: Time, now: Active, count: nat)
    requires forall fp: Fingerprint :: Lookup(merged, fp) == Merged(Lookup(before, fp), Lookup(results, fp), ts)
    requires Through(r, merged, results, ts, now, merged.Keys, count)
    ensures now == EvalMap(r, before, results, ts) && count == |Alive(now)|
  {
    var m := EvalMap(r, before, results, ts);
    forall fp: Fingerprint ensures Lookup(now, fp) == Lookup(m, fp) && (fp in now ==> fp in merged) {
      assert Lookup(merged, fp) == Merged(Lookup(before, fp), Lookup(results, fp), ts);
      EvalMapAt(r, before, results, ts, fp);
    }
    Pointwise(now, m);
    assert merged.Keys * Alive(now) == Alive(now);
  }

  function Log(r: Rule, rounds: seq<Round>): seq<Active> {
    if rounds == [] then [] else
      var init, last := rounds[..|rounds| - 1], rounds[|rounds| - 1];
      Log(r, init) + [SentIn(r, AfterRounds(r, init), last)]
  }

  /** Any run of rounds, as the group drives them; `log` holds what was sent in each. */
  method Execute(r: Rule, rounds: seq<Round>) returns (active: Active, log: seq<Active>)
    ensures active == AfterRounds(r, rounds) && log == Log(r, rounds)
  {
    var ar := new AlertingRule(r);
    log := [];
    for i := 0 to |rounds|
      invariant fresh(ar) && ar.rule == r && Unresolved(ar.active)
      invariant ar.active == AfterRounds(r, rounds[..i]) && log == Log(r, rounds[..i])
    {
      assert rounds[..i + 1][..i] == rounds[..i];
      var alerts := ar.RunRound(rounds[i]);
      log := log + [alerts];
    }
    assert rounds[..|rounds|] == rounds;
    active := ar.active;
  }
}
