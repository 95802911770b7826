/**
 * Dependencies between the rules of a group: which rules use the output of which, and which
 * may therefore be evaluated in the background.
 */
module RuleGroups {
  import opened Options

  /** A vector selector: its metric name, empty if it has none, and the number of its matchers. */
  datatype Selector = Selector(name: string, matchers: nat)

  /** A recording or alerting rule; rules are identified by their index in the group. */
  datatype RuleDef = RuleDef(name: string, alert: bool, selectors: seq<Selector>)

  const ALERTS := "ALERTS"
  const ALERTS_FOR_STATE := "ALERTS_FOR_STATE"

  /** A wildcard, or one of the series that alerting rules write. */
  predicate Vague(s: Selector) {
    (s.name == "" && s.matchers > 0) || s.name == "ALERTS" || s.name == "ALERTS_FOR_STATE"
  }

  predicate Uses(d: RuleDef, name: string) {
    exists k :: 0 <= k < |d.selectors| && d.selectors[k].name == name
  }

  predicate Indeterminate(d: RuleDef) {
    exists k :: 0 <= k < |d.selectors| && Vague(d.selectors[k])
  }

  /** Rule `i` uses the output of rule `j`. */
  predicate Feeds(defs: seq<RuleDef>, j: nat, i: nat)
    requires j < |defs| && i < |defs|
  {
    Uses(defs[i], defs[j].name)
  }

  // ----- the dependency map -----

  type Index = map<string, seq<nat>>

  /** For each rule, the rules that use its output. */
  type DependencyMap = map<nat, seq<nat>>

  function Get<K>(m: map<K, seq<nat>>, k: K): seq<nat> {
    if k in m then m[k] else []
  }

  predicate Lists<K>(m: map<K, seq<nat>>, k: K, x: nat) {
    x in Get(m, k)
  }

  function Append<K>(m: map<K, seq<nat>>, k: K, s: seq<nat>): map<K, seq<nat>> {
    m[k := Get(m, k) + s]
  }

  lemma AppendAt<K>(m: map<K, seq<nat>>, k: K, s: seq<nat>, k': K, x: nat)
    ensures Lists(Append(m, k, s), k', x) <==> Lists(m, k', x) || (k' == k && x in s)
  {
  }

  /** `inputs` lists the rules before `n` under the names they use, rule `n` under those of its first `k` selectors. */
  ghost predicate InputsUpTo(defs: seq<RuleDef>, inputs: Index, n: nat, k: nat)
    requires n <= |defs| && (n < |defs| ==> k <= |defs[n].selectors|)
  {
    forall name: string, i: nat :: Lists(inputs, name, i) <==>
      (i < n && Uses(defs[i], name)) || (i == n < |defs| && UsesUpTo(defs[n], k, name))
  }

  predicate UsesUpTo(d: RuleDef, k: nat, name: string)
    requires k <= |d.selectors|
  {
    exists j :: 0 <= j < k && d.selectors[j].name == name
  }

  ghost predicate OutputsUpTo(defs: seq<RuleDef>, outputs: Index, n: nat)
    requires n <= |defs|
  {
    forall name: string, i: nat :: Lists(outputs, name, i) <==> i < n && defs[i].name == name
  }

  /** Adds the names that rule `n` uses; stops being meaningful once something vague is met. */
  method Inspect(defs: seq<RuleDef>, n: nat, inputs0: Index) returns (vague: bool, inputs: Index)
    requires n < |defs| && InputsUpTo(defs, inputs0, n, 0)
    ensures vague <==> Indeterminate(defs[n])
    ensures !vague ==> InputsUpTo(defs, inputs, n + 1, 0)
  {
    vague, inputs := false, inputs0;
    var selectors := defs[n].selectors;
    for k := 0 to |selectors|
      invariant vague <==> exists j :: 0 <= j < k && Vague(selectors[j])
      invariant !vague ==> InputsUpTo(defs, inputs, n, k)
    {
      var s := selectors[k];
      if s.name == "" && s.matchers > 0 {
        vague := true;
      } else if s.name == ALERTS || s.name == ALERTS_FOR_STATE {
        vague := true;
      } else {
        ghost var was := inputs;
        inputs := Append(inputs, s.name, [n]);
        if !vague {
          forall name: string, i: nat
            ensures Lists(inputs, name, i) <==>
              (i < n && Uses(defs[i], name)) || (i == n && UsesUpTo(defs[n], k + 1, name))
          {
            AppendAt(was, s.name, [n], name, i);
          }
        }
      }
    }
    if !vague {
      forall name: string, i: nat ensures Lists(inputs, name, i) <==> i < n + 1 && Uses(defs[i], name) {
      }
    }
  }

  /** First half of `buildDependencyMap`: who uses and who produces each name. */
  method Scan(defs: seq<RuleDef>) returns (vague: bool, inputs: Index, outputs: Index)
    ensures vague <==> exists i :: 0 <= i < |defs| && Indeterminate(defs[i])
    ensures !vague ==> InputsUpTo(defs, inputs, |defs|, 0) && OutputsUpTo(defs, outputs, |defs|)
  {
    vague, inputs, outputs := false, map[], map[];
    for n := 0 to |defs|
      invariant !vague && forall i :: 0 <= i < n ==> !Indeterminate(defs[i])
      invariant InputsUpTo(defs, inputs, n, 0) && OutputsUpTo(defs, outputs, n)
    {
      ghost var was := outputs;
      outputs := Append(outputs, defs[n].name, [n]);
      forall name: string, i: nat ensures Lists(outputs, name, i) <==> i < n + 1 && defs[i].name == name {
        AppendAt(was, defs[n].name, [n], name, i);
      }
      vague, inputs := Inspect(defs, n, inputs);
      if vague {
        return;
      }
    }
  }

  /** Rules `out` have been entered with the rules `users`. */
  method Enter(m0: DependencyMap, out: seq<nat>, users: seq<nat>) returns (m: DependencyMap)
    ensures forall j: nat, i: nat :: Lists(m, j, i) <==> Lists(m0, j, i) || (j in out && i in users)
  {
    m := m0;
    for n := 0 to |out|
      invariant forall j: nat, i: nat :: Lists(m, j, i) <==> Lists(m0, j, i) || (j in out[..n] && i in users)
    {
      if |users| > 0 {
        ghost var was := m;
        m := Append(m, out[n], users);
        forall j: nat, i: nat ensures Lists(m, j, i) <==> Lists(m0, j, i) || (j in out[..n + 1] && i in users) {
          AppendAt(was, out[n], users, j, i);
          assert out[..n + 1] == out[..n] + [out[n]];
        }
      }
    }
    assert out[..|out|] == out;
  }

  /** `buildDependencyMap`; `None` stands for nil. */
  method BuildDependencyMap(defs: seq<RuleDef>) returns (m: Option<DependencyMap>)
    ensures |defs| <= 1 ==> m == Some(map[])
    ensures |defs| > 1 ==> (m.None? <==> exists i :: 0 <= i < |defs| && Indeterminate(defs[i]))
    ensures |defs| > 1 ==>
              (m.None? <==> exists i, k :: 0 <= i < |defs| && 0 <= k < |defs[i].selectors| &&
                              var s := defs[i].selectors[k];
                              (s.name == "" && s.matchers > 0) || s.name == "ALERTS" || s.name == "ALERTS_FOR_STATE")
    ensures |defs| > 1 && m.Some? ==> forall j: nat, i: nat ::
              Lists(m.value, j, i) <==> j < |defs| && i < |defs| && Feeds(defs, j, i)
    ensures |defs| > 1 && m.Some? ==> forall j: nat, i: nat ::
              Lists(m.value, j, i) <==>
                j < |defs| && i < |defs| && exists k :: 0 <= k < |defs[i].selectors| && defs[i].selectors[k].name == defs[j].name
  {
    if |defs| <= 1 {
      return Some(map[]);
    }
    var vague, inputs, outputs := Scan(defs);
    if vague {
      return None;
    }
    var dependencies: DependencyMap := map[];
    var todo := outputs.Keys;
    forall j | 0 <= j < |defs| ensures defs[j].name in todo {
      assert Lists(outputs, defs[j].name, j);
    }
    while todo != {}
      invariant todo <= outputs.Keys
      invariant forall j: nat, i: nat :: Lists(dependencies, j, i) <==>
        j < |defs| && defs[j].name !in todo && Lists(inputs, defs[j].name, i)
      decreases |todo|
    {
      var name :| name in todo;
      ghost var was, todo0 := dependencies, todo;
      dependencies := Enter(dependencies, outputs[name], Get(inputs, name));
      todo := todo - {name};
      forall j: nat, i: nat
        ensures Lists(dependencies, j, i) <==>
          j < |defs| && defs[j].name !in todo && Lists(inputs, defs[j].name, i)
      {
        assert Lists(outputs, name, j) <==> j < |defs| && defs[j].name == name;
      }
    }
    m := Some(dependencies);
  }

  // ----- what the map is asked -----

  function Dependents(m: DependencyMap, r: nat): nat {
    |Get(m, r)|
  }

  /** `dependencies`: how many entries of other rules list `r`. */
  method Dependencies(m: DependencyMap, r: nat) returns (count: nat)
    ensures count == 0 <==> forall j: nat :: !Lists(m, j, r)
  {
    count := 0;
    var done: set<nat> := {};
    while done != m.Keys
      invariant done <= m.Keys
      invariant count == 0 <==> forall j: nat :: j in done ==> !Lists(m, j, r)
      decreases |m.Keys - done|
    {
      var j :| j in m.Keys - done;
      var children := m[j];
      var before := count;
      for k := 0 to |children|
        invariant count >= before && (count == before <==> r !in children[..k])
      {
        assert children[..k + 1] == children[..k] + [children[k]];
        if children[k] == r {
          count := count + 1;
        }
      }
      assert children[..|children|] == children && Get(m, j) == children;
      done := done + {j};
    }
  }

  class GroupRule {
    const def: RuleDef
    var noDependentRules: bool
    var noDependencyRules: bool

    /** Both flags are set, so that `Allow` may let the rule run in the background. */
    predicate Background()
      reads this
    {
      noDependentRules && noDependencyRules
    }

    /** The flags say what the analysis of `defs` found of rule `i`. */
    predicate Flagged(defs: seq<RuleDef>, i: nat)
      requires i < |defs|
      reads this
    {
      noDependentRules == NoDependents(defs, i) && noDependencyRules == NoDependencies(defs, i)
    }

    constructor (def: RuleDef)
      ensures this.def == def && !noDependentRules && !noDependencyRules
    {
      this.def := def;
      noDependentRules, noDependencyRules := false, false;
    }
  }

  /** No rule of the group uses the output of rule `i`. */
  predicate NoDependents(defs: seq<RuleDef>, i: nat)
    requires i < |defs|
  {
    |defs| == 1 || forall j :: 0 <= j < |defs| ==> !Feeds(defs, i, j)
  }

  /** Rule `i` uses no output of the group. */
  predicate NoDependencies(defs: seq<RuleDef>, i: nat)
    requires i < |defs|
  {
    |defs| == 1 || forall j :: 0 <= j < |defs| ==> !Feeds(defs, j, i)
  }

  predicate Clear(defs: seq<RuleDef>) {
    |defs| <= 1 || forall i :: 0 <= i < |defs| ==> !Indeterminate(defs[i])
  }

  function Defs(rules: seq<GroupRule>): (defs: seq<RuleDef>)
    ensures |defs| == |rules| && forall i :: 0 <= i < |rules| ==> defs[i] == rules[i].def
  {
    if rules == [] then [] else Defs(rules[..|rules| - 1]) + [rules[|rules| - 1].def]
  }

  /** `AnalyseRules`: the flags are set only if all inputs are known. */
  method AnalyseRules(rules: seq<GroupRule>)
    requires forall i, j :: 0 <= i < j < |rules| ==> rules[i] != rules[j]
    modifies rules
    ensures var defs := Defs(rules);
            && (Clear(defs) ==> forall i :: 0 <= i < |rules| ==> rules[i].Flagged(defs, i))
            && (!Clear(defs) ==> forall i :: 0 <= i < |rules| ==> unchanged(rules[i]))
    ensures (forall i :: 0 <= i < |rules| ==> !old(rules[i].Background())) ==>
            forall i :: 0 <= i < |rules| ==> (rules[i].Background() <==> Independent(Defs(rules), i))
  {
    var defs := Defs(rules);
    var depMap := BuildDependencyMap(defs);
    if depMap.Some? {
      FlagAll(rules, defs, depMap.value);
    }
  }

  /** The map lists exactly the uses of outputs, unless there is only one rule. */
  ghost predicate Reflects(m: DependencyMap, defs: seq<RuleDef>) {
    && (|defs| == 1 ==> m == map[])
    && (|defs| > 1 ==> forall j: nat, i: nat :: Lists(m, j, i) <==> j < |defs| && i < |defs| && Feeds(defs, j, i))
  }

  method FlagAll(rules: seq<GroupRule>, defs: seq<RuleDef>, m: DependencyMap)
    requires forall i, j :: 0 <= i < j < |rules| ==> rules[i] != rules[j]
    requires |defs| == |rules| && Reflects(m, defs)
    modifies rules
    ensures forall i :: 0 <= i < |rules| ==> rules[i].Flagged(defs, i)
  {
    for n := 0 to |rules|
      invariant forall i :: 0 <= i < n ==> rules[i].Flagged(defs, i)
    {
      var dependencies := Dependencies(m, n);
      FlagsRight(defs, m, n, dependencies);
      rules[n].noDependentRules := Dependents(m, n) == 0;
      rules[n].noDependencyRules := dependencies == 0;
    }
  }

  lemma FlagsRight(defs: seq<RuleDef>, m: DependencyMap, n: nat, count: nat)
    requires n < |defs| && (count == 0 <==> forall j: nat :: !Lists(m, j, n)) && Reflects(m, defs)
    ensures Dependents(m, n) == 0 <==> NoDependents(defs, n)
    ensures count == 0 <==> NoDependencies(defs, n)
  {
    if |defs| > 1 {
      if Dependents(m, n) == 0 {
        forall j | 0 <= j < |defs| ensures !Feeds(defs, n, j) {
          assert !Lists(m, n, j);
        }
      } else {
        assert Lists(m, n, Get(m, n)[0]);
      }
      if NoDependencies(defs, n) {
        forall j: nat ensures !Lists(m, j, n) {
          assert j < |defs| ==> !Feeds(defs, j, n);
        }
      }
    }
  }

  /** `concurrentRuleEvalController`: a weighted semaphore shared by all groups. */
  class ConcurrencyController {
    const max: nat
    var held: nat

    ghost predicate Valid()
      reads this
    {
      held <= max
    }

    constructor (max: nat)
      ensures Valid() && this.max == max && held == 0
    {
      this.max, held := max, 0;
    }

    method Allow(r: GroupRule) returns (ok: bool)
      requires Valid()
      modifies this
      ensures Valid() && held == old(held) + (if ok then 1 else 0)
      ensures ok <==> r.Background() && old(held) < max
    {
      ok := false;
      if r.noDependentRules && r.noDependencyRules {
        if held < max {
          held, ok := held + 1, true;
        }
      }
    }

    method Done()
      requires Valid() && held > 0
      modifies this
      ensures Valid() && held == old(held) - 1
    {
      held := held - 1;
    }
  }

  // ----- what the analysis guarantees -----

  /** Metric names a rule writes to: its own name, or those of the synthetic alert series. */
  function Outputs(d: RuleDef): set<string> {
    if d.alert then {"ALERTS", "ALERTS_FOR_STATE"} else {d.name}
  }

  /** A selector without a name may match any series. */
  predicate Reads(d: RuleDef, name: string) {
    exists k :: 0 <= k < |d.selectors| && (d.selectors[k].name == "" || d.selectors[k].name == name)
  }

  /** The parser refuses selectors without any matcher. */
  predicate Parsed(defs: seq<RuleDef>) {
    forall i, k :: 0 <= i < |defs| && 0 <= k < |defs[i].selectors| && defs[i].selectors[k].name == "" ==>
      defs[i].selectors[k].matchers > 0
  }

  /** May be run in the background. */
  predicate Independent(defs: seq<RuleDef>, i: nat)
    requires i < |defs|
  {
    Clear(defs) && NoDependents(defs, i) && NoDependencies(defs, i)
  }

  /** If one rule reads what another writes, neither may run in the background. */
  lemma ConflictsStayInFront(defs: seq<RuleDef>, j: nat, i: nat, name: string)
    requires Parsed(defs) && i < |defs| && j < |defs| && i != j
    requires name in Outputs(defs[j]) && Reads(defs[i], name)
    ensures !Independent(defs, i) && !Independent(defs, j)
  {
    if Clear(defs) {
      var k :| 0 <= k < |defs[i].selectors| && (defs[i].selectors[k].name == "" || defs[i].selectors[k].name == name);
      assert !Vague(defs[i].selectors[k]);
      assert Feeds(defs, j, i);
    }
  }
}
