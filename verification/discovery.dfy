/**
 * The discovery manager: providers deliver batches of target groups to their updaters,
 * ApplyConfig changes who subscribes to whom, and a sender passes full snapshots on when a
 * one-slot trigger says so. Every step that can interleave with others is a separate step.
 */
module Discovery {
  type SetName = string
  type Source = string
  type Name = nat

  /** Some discoverers send nil groups. */
  datatype Group = Nil | Group(source: Source, targets: seq<string>)

  type Groups = map<Source, Group>

  // ----- replaying batches -----

  /** One round of the loop of `updateGroup`. */
  function Put(m: Groups, g: Group): Groups {
    if g.Nil? then m
    else if g.targets != [] then m[g.source := g]
    else m - {g.source}
  }

  function Replay(m: Groups, gs: seq<Group>): Groups {
    if gs == [] then m else Put(Replay(m, gs[..|gs| - 1]), gs[|gs| - 1])
  }

  lemma {:induction false} ReplayAppend(m: Groups, gs: seq<Group>, hs: seq<Group>)
    ensures Replay(m, gs + hs) == Replay(Replay(m, gs), hs)
    decreases |hs|
  {
    if hs == [] {
      assert gs + hs == gs;
    } else {
      var last := |hs| - 1;
      assert (gs + hs)[..|gs + hs| - 1] == gs + hs[..last];
      ReplayAppend(m, gs, hs[..last]);
    }
  }

  /** Group `i` is the last one of its source. */
  ghost predicate LastOfSource(gs: seq<Group>, i: int) {
    && 0 <= i < |gs| && gs[i].Group?
    && forall j :: i < j < |gs| && gs[j].Group? ==> gs[j].source != gs[i].source
  }

  /** What a replay holds: per source the last group received, unless that one is empty. */
  lemma {:induction false} ReplayIsLast(gs: seq<Group>, s: Source)
    ensures s in Replay(map[], gs) <==>
            exists i :: LastOfSource(gs, i) && gs[i].source == s && gs[i].targets != []
    ensures forall i :: LastOfSource(gs, i) && gs[i].source == s && gs[i].targets != [] ==>
            s in Replay(map[], gs) && Replay(map[], gs)[s] == gs[i]
    decreases |gs|
  {
    if gs != [] {
      var last := |gs| - 1;
      var init, g := gs[..last], gs[last];
      ReplayIsLast(init, s);
      if g.Group? && g.source == s {
        assert LastOfSource(gs, last);
      } else {
        forall i | 0 <= i < last && gs[i].Group? && gs[i].source == s
          ensures LastOfSource(gs, i) <==> LastOfSource(init, i)
        {
          assert forall j :: i < j < last ==> init[j] == gs[j];
        }
        assert forall i :: LastOfSource(gs, i) && gs[i].source == s ==> i < last && init[i] == gs[i];
        assert forall i :: LastOfSource(init, i) && init[i].source == s ==> init[i] == gs[i];
      }
    }
  }

  // ----- the target store -----

  datatype Key = Key(job: SetName, prov: Name)

  type Targets = map<Key, Groups>

  function At(t: Targets, k: Key): Groups {
    if k in t then t[k] else map[]
  }

  function KeysOf(p: Name, jobs: set<SetName>): set<Key> {
    set job | job in jobs :: Key(job, p)
  }

  /** Without the entries of `jobs`. */
  function Dropped(t: Targets, p: Name, jobs: set<SetName>): Targets {
    t - KeysOf(p, jobs)
  }

  /** A copy of `ref` for each of `jobs`, unless it is empty. */
  function Copied(t: Targets, p: Name, jobs: set<SetName>, ref: Groups): Targets {
    if ref == map[] then t else t + (map k | k in KeysOf(p, jobs) :: ref)
  }

  /** The store once provider `p` serves `newSubs` in place of `subs`. */
  function Switched(t: Targets, p: Name, subs: set<SetName>, newSubs: set<SetName>, ref: Groups): Targets {
    Copied(Dropped(t, p, subs - newSubs), p, newSubs, ref)
  }

  function With(jobs: set<SetName>, job: SetName): set<SetName> {
    jobs + {job}
  }

  function Without(t: Targets, k: Key): Targets {
    t - {k}
  }

  lemma WithMinus(done: set<SetName>, kept: set<SetName>, job: SetName)
    ensures With(done, job) - kept == if job in kept then done - kept else With(done - kept, job)
  {
  }

  lemma DroppedStep(t: Targets, p: Name, jobs: set<SetName>, job: SetName)
    ensures Dropped(t, p, With(jobs, job)) == Without(Dropped(t, p, jobs), Key(job, p))
    ensures job !in jobs ==> At(Dropped(t, p, jobs), Key(job, p)) == At(t, Key(job, p))
  {
    assert KeysOf(p, With(jobs, job)) == KeysOf(p, jobs) + {Key(job, p)};
  }

  lemma CopiedStep(t: Targets, p: Name, jobs: set<SetName>, job: SetName, ref: Groups)
    requires |ref| > 0
    ensures Copied(t, p, With(jobs, job), ref) == Copied(t, p, jobs, ref)[Key(job, p) := ref]
  {
    assert KeysOf(p, With(jobs, job)) == KeysOf(p, jobs) + {Key(job, p)};
  }

  /** The map that all goroutines share, guarded by `targetsMtx`. */
  class Store {
    var targets: Targets

    constructor ()
      ensures targets == map[]
    {
      targets := map[];
    }

    /** `updateGroup`. */
    method UpdateGroup(key: Key, tgs: seq<Group>)
      modifies this
      ensures targets == old(targets)[key := Replay(At(old(targets), key), tgs)]
    {
      if key !in targets {
        targets := targets[key := map[]];
      }
      for i := 0 to |tgs|
        invariant targets == old(targets)[key := Replay(At(old(targets), key), tgs[..i])]
      {
        assert tgs[..i + 1][..i] == tgs[..i];
        var tg := tgs[i];
        if tg == Nil {
          continue;
        }
        if |tg.targets| > 0 {
          targets := targets[key := targets[key][tg.source := tg]];
        } else {
          targets := targets[key := targets[key] - {tg.source}];
        }
      }
      assert tgs[..|tgs|] == tgs;
    }

    /** The part of `ApplyConfig` that switches a kept provider to its new subscribers. */
    method Switch(p: Name, subs: set<SetName>, newSubs: set<SetName>) returns (ref: Groups)
      modifies this
      ensures if subs == {} then ref == map[] else exists job :: job in subs && ref == At(old(targets), Key(job, p))
      ensures targets == Switched(old(targets), p, subs, newSubs, ref)
    {
      ref := Drop(p, subs, newSubs);
      Copy(p, newSubs, ref);
    }

    method Drop(p: Name, subs: set<SetName>, newSubs: set<SetName>) returns (ref: Groups)
      modifies this
      ensures if subs == {} then ref == map[] else exists job :: job in subs && ref == At(old(targets), Key(job, p))
      ensures targets == Dropped(old(targets), p, subs - newSubs)
    {
      ref := map[];
      var done: set<SetName>, gone: set<SetName> := {}, {};
      ghost var was := targets;
      ghost var last: SetName :| true;
      while done != subs
        invariant done <= subs && gone == done - newSubs
        invariant targets == Dropped(was, p, gone)
        invariant if done == {} then ref == map[] else last in subs && ref == At(was, Key(last, p))
        decreases |subs - done|
      {
        var job :| job in subs - done;
        last := job;
        DroppedStep(was, p, gone, job);
        WithMinus(done, newSubs, job);
        ref := At(targets, Key(job, p));
        if job !in newSubs {
          targets := Without(targets, Key(job, p));
          gone := With(gone, job);
        }
        done := With(done, job);
      }
    }

    method Copy(p: Name, newSubs: set<SetName>, ref: Groups)
      modifies this
      ensures targets == Copied(old(targets), p, newSubs, ref)
    {
      var done: set<SetName> := {};
      while done != newSubs
        invariant done <= newSubs
        invariant targets == Copied(old(targets), p, done, ref)
        decreases |newSubs - done|
      {
        var job :| job in newSubs - done;
        if |ref| > 0 {
          CopiedStep(old(targets), p, done, job, ref);
          targets := targets[Key(job, p) := ref];
        }
        done := With(done, job);
      }
    }
  }

  lemma SwitchedAt(t: Targets, p: Name, subs: set<SetName>, newSubs: set<SetName>, ref: Groups, k: Key)
    ensures var t' := Switched(t, p, subs, newSubs, ref);
            && (k.prov != p ==> (k in t' <==> k in t) && At(t', k) == At(t, k))
            && (k.prov == p && k.job in newSubs ==> At(t', k) == if ref == map[] then At(t, k) else ref)
            && (k.prov == p && k.job in newSubs && k !in t && ref == map[] ==> k !in t')
            && (k.prov == p && k.job in subs && k.job !in newSubs ==> k !in t')
            && (k.prov == p && k.job !in subs && k.job !in newSubs ==> (k in t' <==> k in t))
  {
    assert k in KeysOf(p, newSubs) <==> k.prov == p && k.job in newSubs by {
      if k.prov == p && k.job in newSubs { assert k == Key(k.job, p); }
    }
    assert k in KeysOf(p, subs - newSubs) <==> k.prov == p && k.job in subs - newSubs by {
      if k.prov == p && k.job in subs - newSubs { assert k == Key(k.job, p); }
    }
  }

  lemma DroppedAt(t: Targets, p: Name, jobs: set<SetName>, k: Key)
    ensures var t' := Dropped(t, p, jobs);
            && (k in t' <==> k in t && !(k.prov == p && k.job in jobs))
            && (k.prov != p ==> At(t', k) == At(t, k))
  {
    if k.prov == p && k.job in jobs {
      assert k == Key(k.job, p) && k in KeysOf(p, jobs);
    }
  }
}
