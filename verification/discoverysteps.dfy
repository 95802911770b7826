/**
 * The discovery manager as a transition system. ApplyConfig holds the manager's lock from
 * `Begin` to `Return`; an updater holds its provider's lock while it applies a batch, and
 * touches the store for one subscriber at a time.
 */
module DiscoverySteps {
  import opened Discovery

  /** An updater: waiting for a batch, applying one to the subscribers left, about to trigger. */
  datatype Updater = Waiting | Updating(batch: seq<Group>, todo: set<SetName>) | Triggering

  /** A provider; `log` holds the groups of all batches applied to all subscribers. */
  datatype Provider = Provider(
    subs: set<SetName>, newSubs: set<SetName>, log: seq<Group>, updater: Updater, started: bool, cancelled: bool)

  /** Where ApplyConfig stands; `woke` tells whether it pulled the trigger. */
  datatype Applier = Idle | Switching(todo: set<Name>) | Listing(woke: bool) | Draining(woke: bool)

  /** What `allGroups` returns, up to order: the groups of each subscription. */
  type View = map<Key, Groups>

  datatype Sender = Resting | HasToken | HasSnapshot(view: View) | PutBack

  datatype State = State(
    provs: map<Name, Provider>, listed: set<Name>, targets: Targets, trigger: bool,
    applier: Applier, sender: Sender, last: View)

  const INITIAL := State(map[], {}, map[], false, Idle, Resting, map[])

  /** Subscriptions of listed providers. */
  ghost function Subscribed(st: State): set<Key> {
    set p, job | p in st.listed && p in st.provs && job in st.provs[p].subs :: Key(job, p)
  }

  ghost function ViewOf(st: State): View {
    map k | k in Subscribed(st) :: At(st.targets, k)
  }

  datatype Step =
    | Begin(plan: map<Name, set<SetName>>)  // registerProviders: subscribers each provider is to have
    | Cancel(p: Name)                       // no subscriber left: the provider is obsolete
    | Switch(p: Name, ref: SetName)         // new subscribers; `ref` is an old one
    | Wake                                  // ApplyConfig pulls the trigger
    | List                                  // ApplyConfig replaces the provider list
    | Return                                // all cancelled providers are cleaned
    | Receive(p: Name, batch: seq<Group>)
    | Update(p: Name, job: SetName)
    | Finish(p: Name)
    | Pull(p: Name)                         // the updater pulls the trigger
    | Clean(p: Name)
    | Take                                  // the sender takes the token
    | Snapshot
    | Deliver
    | Miss                                  // the receiver's channel is full
    | Retry                                 // the sender puts the token back

  ghost predicate Enabled(st: State, step: Step) {
    match step
    case Begin(plan) =>
      st.applier == Idle && st.provs.Keys <= plan.Keys && forall p :: p in plan && p !in st.provs ==> plan[p] != {}
    case Cancel(p) => st.applier.Switching? && p in st.applier.todo && p in st.provs && st.provs[p].newSubs == {}
    case Switch(p, ref) =>
      && st.applier.Switching? && p in st.applier.todo && p in st.provs && st.provs[p].newSubs != {}
      && !st.provs[p].updater.Updating? && (st.provs[p].subs == {} || ref in st.provs[p].subs)
    case Wake => st.applier == Switching({})
    case List => st.applier.Listing?
    case Return => st.applier.Draining? && forall p :: p in st.provs ==> !st.provs[p].cancelled
    case Receive(p, _) => p in st.provs && st.provs[p].started && st.provs[p].updater == Waiting
    case Update(p, job) => p in st.provs && st.provs[p].updater.Updating? && job in st.provs[p].updater.todo
    case Finish(p) => p in st.provs && st.provs[p].updater.Updating? && st.provs[p].updater.todo == {}
    case Pull(p) => p in st.provs && st.provs[p].updater == Triggering
    case Clean(p) => p in st.provs && st.provs[p].cancelled && st.provs[p].updater == Waiting
    case Take => st.sender == Resting && st.trigger
    case Snapshot => st.sender == HasToken && st.applier == Idle
    case Deliver => st.sender.HasSnapshot?
    case Miss => st.sender.HasSnapshot?
    case Retry => st.sender == PutBack
  }

  /** A provider before ApplyConfig first serves it. */
  function Planned(st: State, p: Name, jobs: set<SetName>): Provider {
    if p in st.provs then st.provs[p].(newSubs := jobs) else Provider({}, jobs, [], Waiting, false, false)
  }

  ghost function Do(st: State, step: Step): State
    requires Enabled(st, step)
  {
    match step
    case Begin(plan) =>
      st.(provs := (map p | p in plan :: Planned(st, p, plan[p])), listed := plan.Keys, applier := Switching(plan.Keys))
    case Cancel(p) =>
      st.(provs := st.provs[p := st.provs[p].(cancelled := true)], applier := Switching(st.applier.todo - {p}))
    case Switch(p, ref) =>
      var x := st.provs[p];
      var groups := if x.subs == {} then map[] else At(st.targets, Key(ref, p));
      st.(targets := Switched(st.targets, p, x.subs, x.newSubs, groups),
          provs := st.provs[p := x.(subs := x.newSubs, newSubs := {}, started := true)],
          applier := Switching(st.applier.todo - {p}))
    case Wake => st.(trigger := st.trigger || st.listed != {}, applier := Listing(st.listed != {}))
    case List =>
      st.(listed := (set p | p in st.provs && !st.provs[p].cancelled), applier := Draining(st.applier.woke))
    case Return => st.(applier := Idle)
    case Receive(p, batch) => st.(provs := st.provs[p := st.provs[p].(updater := Updating(batch, st.provs[p].subs))])
    case Update(p, job) =>
      var x, k := st.provs[p], Key(job, p);
      st.(targets := st.targets[k := Replay(At(st.targets, k), x.updater.batch)],
          provs := st.provs[p := x.(updater := Updating(x.updater.batch, x.updater.todo - {job}))])
    case Finish(p) =>
      var x := st.provs[p];
      st.(provs := st.provs[p := x.(log := x.log + x.updater.batch, updater := Triggering)])
    case Pull(p) => st.(trigger := true, provs := st.provs[p := st.provs[p].(updater := Waiting)])
    case Clean(p) => st.(targets := Dropped(st.targets, p, st.provs[p].subs), provs := st.provs - {p})
    case Take => st.(trigger := false, sender := HasToken)
    case Snapshot => st.(sender := HasSnapshot(ViewOf(st)))
    case Deliver => st.(last := st.sender.view, sender := Resting)
    case Miss => st.(sender := PutBack)
    case Retry => st.(trigger := true, sender := Resting)
  }

  // ----- bookkeeping -----

  /** A provider that is being served: kept by the current configuration. */
  predicate Serving(x: Provider) {
    x.started && !x.cancelled && x.newSubs == {}
  }

  /** Per phase of ApplyConfig, what is known about the providers. */
  ghost predicate Phase(st: State) {
    match st.applier
    case Idle => st.listed == st.provs.Keys && forall p :: p in st.provs ==> Serving(st.provs[p])
    case Switching(todo) =>
      && st.provs.Keys <= st.listed && todo <= st.provs.Keys
      && (forall p :: p in todo ==> !st.provs[p].cancelled)
      && (forall p :: p in st.provs && p !in todo ==> st.provs[p].cancelled || Serving(st.provs[p]))
    case Listing(_) =>
      st.provs.Keys <= st.listed && forall p :: p in st.provs ==> st.provs[p].cancelled || Serving(st.provs[p])
    case Draining(_) =>
      && st.listed <= st.provs.Keys
      && forall p :: p in st.provs ==>
           if p in st.listed then Serving(st.provs[p]) else st.provs[p].cancelled
  }

  /** A provider's own consistency: nothing arrives before it starts. */
  predicate Sound(x: Provider) {
    && (if x.started then x.subs != {} else x.subs == {} && x.log == [] && x.updater == Waiting)
    && (x.updater.Updating? ==> x.updater.todo <= x.subs)
  }

  /** What subscriber `job` of `x` must see: every batch, but for one still on its way to it. */
  function Expected(x: Provider, job: SetName): Groups {
    if x.updater.Updating? && job !in x.updater.todo then Replay(map[], x.log + x.updater.batch)
    else Replay(map[], x.log)
  }

  ghost predicate Replayed(st: State) {
    forall p, job :: p in st.provs && job in st.provs[p].subs ==> At(st.targets, Key(job, p)) == Expected(st.provs[p], job)
  }

  ghost predicate NoStrays(st: State) {
    forall k :: k in st.targets ==> k.prov in st.provs && k.job in st.provs[k.prov].subs
  }

  ghost predicate AllSound(st: State) {
    forall p :: p in st.provs ==> Sound(st.provs[p])
  }

  predicate ByApplyConfig(step: Step) {
    step.Begin? || step.Cancel? || step.Switch? || step.Wake? || step.List? || step.Return?
  }

  lemma PhaseStepApply(st: State, step: Step)
    requires Enabled(st, step) && Phase(st) && ByApplyConfig(step)
    ensures Phase(Do(st, step))
  {
  }

  lemma PhaseStep(st: State, step: Step)
    requires Enabled(st, step) && Phase(st)
    ensures Phase(Do(st, step))
  {
    if ByApplyConfig(step) {
      PhaseStepApply(st, step);
    }
  }

  lemma SoundStep(st: State, step: Step)
    requires Enabled(st, step) && AllSound(st)
    ensures AllSound(Do(st, step))
  {
  }

  lemma NoStraysSwitch(st: State, p: Name, ref: SetName)
    requires Enabled(st, Switch(p, ref)) && NoStrays(st) && AllSound(st)
    ensures NoStrays(Do(st, Switch(p, ref)))
  {
    var x, st' := st.provs[p], Do(st, Switch(p, ref));
    var groups := if x.subs == {} then map[] else At(st.targets, Key(ref, p));
    forall k | k in st'.targets ensures k.prov in st.provs && k.job in st'.provs[k.prov].subs {
      SwitchedAt(st.targets, p, x.subs, x.newSubs, groups, k);
    }
  }

  lemma NoStraysClean(st: State, p: Name)
    requires Enabled(st, Clean(p)) && NoStrays(st) && AllSound(st)
    ensures NoStrays(Do(st, Clean(p)))
  {
    forall k | k in Do(st, Clean(p)).targets ensures k.prov != p && k in st.targets {
      DroppedAt(st.targets, p, st.provs[p].subs, k);
    }
  }

  lemma NoStraysStep(st: State, step: Step)
    requires Enabled(st, step) && NoStrays(st) && AllSound(st)
    ensures NoStrays(Do(st, step))
  {
    match step
    case Switch(p, ref) => NoStraysSwitch(st, p, ref);
    case Clean(p) => NoStraysClean(st, p);
    case _ =>
  }

  lemma ReplayedSwitch(st: State, p: Name, ref: SetName)
    requires Enabled(st, Switch(p, ref)) && Replayed(st) && NoStrays(st) && AllSound(st)
    ensures Replayed(Do(st, Switch(p, ref)))
  {
    var x, st' := st.provs[p], Do(st, Switch(p, ref));
    var groups := if x.subs == {} then map[] else At(st.targets, Key(ref, p));
    assert groups == Replay(map[], x.log);
    forall p', job | p' in st'.provs && job in st'.provs[p'].subs
      ensures At(st'.targets, Key(job, p')) == Expected(st'.provs[p'], job)
    {
      SwitchedAt(st.targets, p, x.subs, x.newSubs, groups, Key(job, p'));
      if p' != p {
        assert At(st.targets, Key(job, p')) == Expected(st.provs[p'], job);
      } else if groups == map[] && job in x.subs {
        assert At(st.targets, Key(job, p)) == Expected(x, job);
      }
    }
  }

  lemma ReplayedUpdate(st: State, p: Name, job: SetName)
    requires Enabled(st, Update(p, job)) && Replayed(st) && AllSound(st)
    ensures Replayed(Do(st, Update(p, job)))
  {
    var x, st' := st.provs[p], Do(st, Update(p, job));
    assert Sound(x);
    assert At(st.targets, Key(job, p)) == Expected(x, job);
    ReplayAppend(map[], x.log, x.updater.batch);
    forall p', job' | p' in st'.provs && job' in st'.provs[p'].subs
      ensures At(st'.targets, Key(job', p')) == Expected(st'.provs[p'], job')
    {
      if Key(job', p') != Key(job, p) {
        assert At(st.targets, Key(job', p')) == Expected(st.provs[p'], job');
      }
    }
  }

  lemma ReplayedOther(st: State, step: Step)
    requires Enabled(st, step) && Replayed(st) && !step.Switch? && !step.Update?
    ensures Replayed(Do(st, step))
  {
    var st' := Do(st, step);
    forall p, job | p in st'.provs && job in st'.provs[p].subs
      ensures At(st'.targets, Key(job, p)) == Expected(st'.provs[p], job)
    {
      assert At(st.targets, Key(job, p)) == Expected(st.provs[p], job);
      if step.Clean? {
        DroppedAt(st.targets, step.p, st.provs[step.p].subs, Key(job, p));
      }
    }
  }

  // ----- wake-ups -----

  /** Somebody is going to pull the trigger. */
  ghost predicate Pending(st: State) {
    || (st.applier.Switching? && st.listed != {})
    || exists p :: p in st.provs && st.provs[p].updater != Waiting
  }

  /** The trigger is set, or about to be set, or the sender will take a new snapshot. */
  ghost predicate Awake(st: State) {
    st.trigger || Pending(st) || st.sender.HasToken? || st.sender.PutBack?
  }

  /** The last snapshot, delivered or in the sender's hands. */
  function Latest(st: State): View {
    if st.sender.HasSnapshot? then st.sender.view else st.last
  }

  ghost predicate NothingLost(st: State) {
    Awake(st) || Latest(st) == ViewOf(st)
  }

  /** After ApplyConfig pulled the trigger, its token is still there: no snapshot is taken meanwhile. */
  ghost predicate TokenKept(st: State) {
    st.applier.Listing? || st.applier.Draining? ==>
      if st.applier.woke then st.trigger || st.sender.HasToken? else st.provs == map[] && st.listed == {}
  }

  lemma TokenKeptStep(st: State, step: Step)
    requires Enabled(st, step) && TokenKept(st) && Phase(st)
    ensures TokenKept(Do(st, step))
  {
  }

  lemma NothingLostStep(st: State, step: Step)
    requires Enabled(st, step) && NothingLost(st) && TokenKept(st) && Phase(st)
    ensures NothingLost(Do(st, step))
  {
    var st' := Do(st, step);
    match step
    case Cancel(p) => assert Pending(st');
    case Switch(p, _) => assert Pending(st');
    case Receive(p, _) => assert st'.provs[p].updater != Waiting;
    case Update(p, _) => assert st'.provs[p].updater != Waiting;
    case Finish(p) => assert st'.provs[p].updater != Waiting;
    case Begin(plan) => assert plan.Keys != {} ==> Pending(st');
    case _ =>
  }

  // ----- runs -----

  ghost predicate Inv(st: State) {
    Phase(st) && AllSound(st) && NoStrays(st) && Replayed(st) && TokenKept(st) && NothingLost(st)
  }

  lemma InvStep(st: State, step: Step)
    requires Enabled(st, step) && Inv(st)
    ensures Inv(Do(st, step))
  {
    PhaseStep(st, step);
    SoundStep(st, step);
    NoStraysStep(st, step);
    TokenKeptStep(st, step);
    NothingLostStep(st, step);
    match step {
      case Switch(p, ref) => ReplayedSwitch(st, p, ref);
      case Update(p, job) => ReplayedUpdate(st, p, job);
      case _ => ReplayedOther(st, step);
    }
  }

  /** A run: each step is enabled where it is taken. */
  ghost predicate Allowed(st: State, steps: seq<Step>)
    decreases |steps|
  {
    steps != [] ==> Enabled(st, steps[0]) && Allowed(Do(st, steps[0]), steps[1..])
  }

  ghost function After(st: State, steps: seq<Step>): State
    requires Allowed(st, steps)
    decreases |steps|
  {
    if steps == [] then st else After(Do(st, steps[0]), steps[1..])
  }

  lemma {:induction false} RunInv(st: State, steps: seq<Step>)
    requires Inv(st) && Allowed(st, steps)
    ensures Inv(After(st, steps))
    decreases |steps|
  {
    if steps != [] {
      InvStep(st, steps[0]);
      RunInv(Do(st, steps[0]), steps[1..]);
    }
  }

  lemma InitialInv()
    ensures Inv(INITIAL)
  {
    assert ViewOf(INITIAL) == map[];
  }

  /**
   * In every interleaving, a subscriber of a provider that is not applying a batch holds, for
   * each source, the last group the provider ever sent, unless that one is empty.
   */
  lemma ReplayHolds(steps: seq<Step>, p: Name, job: SetName, source: Source)
    requires Allowed(INITIAL, steps)
    requires var st := After(INITIAL, steps);
             p in st.provs && job in st.provs[p].subs && !st.provs[p].updater.Updating?
    ensures var st := After(INITIAL, steps);
            var held, log := At(st.targets, Key(job, p)), st.provs[p].log;
            && held == Replay(map[], log)
            && (source in held <==> exists i :: LastOfSource(log, i) && log[i].source == source && log[i].targets != [])
            && (forall i :: LastOfSource(log, i) && log[i].source == source && log[i].targets != [] ==> held[source] == log[i])
  {
    InitialInv();
    RunInv(INITIAL, steps);
    ReplayIsLast(After(INITIAL, steps).provs[p].log, source);
  }

  /** Once ApplyConfig has returned, the store has keys of listed providers' subscribers only. */
  lemma NothingLeftBehind(steps: seq<Step>, k: Key)
    requires Allowed(INITIAL, steps)
    requires After(INITIAL, steps).applier == Idle && k in After(INITIAL, steps).targets
    ensures var st := After(INITIAL, steps);
            k.prov in st.listed && k.prov in st.provs && k.job in st.provs[k.prov].subs && !st.provs[k.prov].cancelled
  {
    InitialInv();
    RunInv(INITIAL, steps);
  }

  /** No wake-up is lost: what the receiver has is current, or a new snapshot is on its way. */
  lemma NoLostWakeup(steps: seq<Step>)
    requires Allowed(INITIAL, steps)
    ensures var st := After(INITIAL, steps);
            st.last != ViewOf(st) ==>
              || st.trigger || Pending(st) || st.sender.HasToken? || st.sender.PutBack?
              || st.sender == HasSnapshot(ViewOf(st))
  {
    InitialInv();
    RunInv(INITIAL, steps);
  }
}
