/**
 * TwoLevelScheduler.next_round of bcfuzzer/scheduler.py and the admission pass of
 * bcfuzzer_campaign.py. A random draw is any member of its pool; a choice from an empty
 * pool, which raises, makes `ok` false. Seeds are placed in module Seeds.
 */
module Scheduler {
  import opened Results
  import opened Values
  import opened Text
  import opened Items
  import opened Mei
  import opened Plans
  import opened Runs

  /** A random choice: any member of the pool. */
  method Choose<T>(pool: seq<T>) returns (x: T)
    requires pool != []
    ensures x in pool
  {
    var k: int := *;
    x := pool[k % |pool|];
  }

  /** The chance of a fresh draw for an item with n explored pairs: certain for none. */
  function PUnexplored(n: nat): (p: real)
    ensures 0.0 < p <= 1.0 && (p == 1.0 <==> n == 0)
  {
    1.0 / (n as real + 1.0)
  }

  method RuleCandidates(item: Item, rules: seq<string>, tried: set<Pair>)
    returns (out: seq<Pair>, ok: bool)
    requires forall rule | rule in rules :: rule in Rules(item.kind)
    ensures (forall rule | rule in rules :: None !in Outcomes(item, rule, item.default)) ==> ok
    ensures ok ==> forall rule | rule in rules :: Yields(item, rule)
    ensures ok ==> AllUntried(item, tried, out)
    ensures ok && out == [] ==> forall rule | rule in rules :: SomeTried(item, tried, rule)
  {
    out := [];
    for k := 0 to |rules|
      invariant AllUntried(item, tried, out)
      invariant forall j | 0 <= j < k :: Yields(item, rules[j])
      invariant out == [] ==> forall j | 0 <= j < k :: SomeTried(item, tried, rules[j])
    {
      var more, drawn := RuleCandidate(item, rules[k], tried);
      if !drawn { return out, false; }
      AllUntriedBoth(item, tried, out, more);
      out := out + more;
    }
    ok := true;
  }

  method RuleCandidate(item: Item, rule: string, tried: set<Pair>) returns (out: seq<Pair>, ok: bool)
    requires rule in Rules(item.kind)
    ensures None !in Outcomes(item, rule, item.default) ==> ok
    ensures ok ==> Yields(item, rule)
    ensures AllUntried(item, tried, out)
    ensures ok && out == [] ==> SomeTried(item, tried, rule)
  {
    var draw :| draw in Outcomes(item, rule, item.default);
    if draw == None { return [], false; }
    out, ok := if PairOf(rule, draw.value) in tried then [] else [(rule, draw.value)], true;
  }

  method DangerousCandidates(item: Item, tried: set<Pair>) returns (out: seq<Pair>)
    ensures AllUntried(item, tried, out)
    ensures out == [] ==> forall v | v in item.dangerous :: PairOf("dangerous", v) in tried
  {
    out := [];
    for k := 0 to |item.dangerous|
      invariant AllUntried(item, tried, out)
      invariant out == [] ==> forall j | 0 <= j < k :: PairOf("dangerous", item.dangerous[j]) in tried
    {
      var value := item.dangerous[k];
      if PairOf("dangerous", value) !in tried { out := out + [("dangerous", value)]; }
    }
  }

  class TwoLevelScheduler {
    const catalog: seq<Item>
    const nodes: nat
    const controlled: seq<nat>
    const explorationRounds: nat
    var round: nat
    var pool: seq<string>

    ghost predicate Valid()
      reads this
    {
      && pool != [] && pool[0] == "default"
      && forall i, j | 0 <= i < j < |pool| :: pool[i] != pool[j]
    }

    constructor (catalog: seq<Item>, nodes: nat, controlled: seq<nat>, explorationRounds: nat)
      ensures Valid() && round == 0 && pool == ["default"]
      ensures this.catalog == catalog && this.nodes == nodes && this.controlled == controlled
      ensures this.explorationRounds == explorationRounds
    {
      this.catalog, this.nodes := catalog, nodes;
      this.controlled, this.explorationRounds := controlled, explorationRounds;
      round, pool := 0, ["default"];
    }

    method AdmitConfig(config: string)
      requires Valid()
      modifies this`pool
      ensures Valid() && config in pool
      ensures pool == if config in old(pool) then old(pool) else old(pool) + [config]
      ensures PoolSet() == old(PoolSet()) + {config}
    {
      if config !in pool { pool := pool + [config]; }
    }

    function PoolSet(): set<string>
      reads this`pool
    {
      set c | c in pool
    }

    function Parameters(): Setup { Setup(catalog, nodes, controlled, explorationRounds) }

    /** Pairs never tried for the item: one draw for every rule, and every dangerous value. */
    method UnexploredCandidates(item: Item, mei: MeiState) returns (out: seq<Pair>, ok: bool)
      requires mei.Valid()
      ensures Generates(item) ==> ok
      ensures ok ==> CanGenerate(item) && AllUntried(item, Explored(mei.log, item.path), out)
      ensures ok && out == [] ==> Exhausted(item, Explored(mei.log, item.path))
    {
      var tried := Tried(mei.explored, item.path);
      out, ok := RuleCandidates(item, Rules(item.kind), tried);
      if ok {
        var more := DangerousCandidates(item, tried);
        AllUntriedBoth(item, tried, out, more);
        out := out + more;
      }
    }

    /** The item with the fewest pairs explored; the first in path order among equals. */
    method PickExplorationItem(mei: MeiState) returns (item: Item)
      requires mei.Valid() && catalog != []
      ensures LeastExplored(catalog, mei.log, item) && FirstInOrder(catalog, mei.log, item)
    {
      item := catalog[0];
      LeTotal(item.path, item.path);
      for k := 1 to |catalog|
        invariant item in catalog
        invariant forall j | 0 <= j < k ::
                    Before(|Explored(mei.log, item.path)|, item.path,
                           |Explored(mei.log, catalog[j].path)|, catalog[j].path)
      {
        var other := catalog[k];
        assert Tried(mei.explored, item.path) == Explored(mei.log, item.path);
        assert Tried(mei.explored, other.path) == Explored(mei.log, other.path);
        var m, n := |Tried(mei.explored, item.path)|, |Tried(mei.explored, other.path)|;
        if !Before(m, item.path, n, other.path) {
          BeforeSwitch(mei.log, catalog[..k], item, other);
          item := other;
        }
      }
      LeastIff(catalog, mei.log, item);
    }

    method PickFuzzingItem(mei: MeiState) returns (item: Item)
      requires mei.Valid() && catalog != []
      ensures Pickable(catalog, mei.log, item)
    {
      var inconsistent := [];
      for k := 0 to |catalog|
        invariant forall i | i in inconsistent :: i in catalog && StatusOf(mei.log, i.path) == Inconsistent
      {
        var status := mei.StatusFor(catalog[k].path);
        if status == Inconsistent { inconsistent := inconsistent + [catalog[k]]; }
      }
      var breadth: bool := *;
      if breadth || inconsistent == [] {
        item := PickExplorationItem(mei);
      } else {
        item := Choose(inconsistent);
      }
    }

    method PlanExploration(mei: MeiState) returns (mutations: seq<Mutation>, ok: bool)
      requires mei.Valid() && catalog != []
      ensures ok ==> exists item :: ExploringPlan(catalog, mei.log, item, mutations)
      ensures (forall i | i in catalog :: Generates(i)) ==> ok
    {
      mutations := [];
      var item := PickExplorationItem(mei);
      var candidates;
      candidates, ok := UnexploredCandidates(item, mei);
      if ok && candidates != [] {
        var p := Choose(candidates);
        assert Untried(item, Explored(mei.log, item.path), p);
        mutations := [Mutation(item.path, p.0, p.1)];
      }
      assert ok ==> ExploringPlan(catalog, mei.log, item, mutations);
    }

    method PlanFuzzing(mei: MeiState) returns (mutations: seq<Mutation>, ok: bool)
      requires mei.Valid() && catalog != []
      ensures ok ==> exists item :: FuzzingPlan(catalog, mei.log, item, mutations)
      ensures (forall i | i in catalog :: Generates(i)) ==> ok
    {
      var item := PickFuzzingItem(mei);
      mutations, ok := FreshMutation(item, mei);
      assert ok && mutations != [] ==> FreshChoice(item, mei.log, mutations[0]);
      if ok && mutations == [] {
        var pairs := mei.ValidPairs(item.path);
        ListsEmptyIff(pairs, mei.log, item.path);
        if pairs != [] {
          var p := Choose(pairs);
          assert Verdict(item.path, p.0, p.1, true) in mei.log;
          mutations := [Mutation(item.path, p.0, p.1)];
        }
      }
      assert ok ==> FuzzingPlan(catalog, mei.log, item, mutations);
    }

    /** With the item's chance, an untried candidate if there is one. */
    method FreshMutation(item: Item, mei: MeiState) returns (mutations: seq<Mutation>, ok: bool)
      requires mei.Valid()
      ensures ok ==> |mutations| <= 1 && forall m | m in mutations :: FreshChoice(item, mei.log, m)
      ensures ok && Explored(mei.log, item.path) == {} ==> |mutations| == 1
      ensures Generates(item) ==> ok
    {
      mutations, ok := [], true;
      var draw: real := *;
      if !(0.0 <= draw < 1.0) { draw := 0.0; }
      assert Tried(mei.explored, item.path) == Explored(mei.log, item.path);
      if draw < PUnexplored(|Tried(mei.explored, item.path)|) {
        var candidates;
        candidates, ok := UnexploredCandidates(item, mei);
        if ok && candidates != [] {
          var p := Choose(candidates);
          assert Untried(item, Explored(mei.log, item.path), p);
          mutations := [Mutation(item.path, p.0, p.1)];
        } else if ok {
          assert SomeTried(item, Explored(mei.log, item.path), Rules(item.kind)[0]);
        }
      }
    }

    method PlanNode(node: nat, mei: MeiState) returns (plan: NodePlan, ok: bool)
      requires Valid() && mei.Valid()
      ensures ok ==> plan.node == node && plan.role == RoleOf(Parameters(), round, node)
                     && SoundPlan(catalog, mei.log, PoolSet(), plan)
      ensures catalog != [] && (forall i | i in catalog :: Generates(i)) ==> ok
    {
      var role := RoleOf(Parameters(), round, node);
      plan, ok := NodePlan(node, role, "default", []), true;
      if role == Normal { return; }
      if catalog == [] { return plan, false; }
      var mutations;
      if role == Exploration {
        mutations, ok := PlanExploration(mei);
        plan := plan.(mutations := mutations);
      } else {
        var config := Choose(pool);
        mutations, ok := PlanFuzzing(mei);
        plan := plan.(config := config, mutations := mutations);
      }
    }

    /** One plan for every node, each drawn from the index as it is now. */
    method NextRound(mei: MeiState) returns (plans: seq<NodePlan>, ok: bool)
      requires Valid() && mei.Valid()
      modifies this`round
      ensures Valid() && round == old(round) + 1
      ensures ok ==> |plans| == nodes
      ensures ok ==> forall k | 0 <= k < nodes ::
                plans[k].node == k && plans[k].role == RoleOf(Parameters(), round, k)
                  && SoundPlan(catalog, mei.log, PoolSet(), plans[k])
      ensures catalog != [] && (forall i | i in catalog :: Generates(i)) ==> ok
    {
      round := round + 1;
      plans := [];
      for node := 0 to nodes
        invariant Valid() && round == old(round) + 1 && |plans| == node
        invariant forall k | 0 <= k < node ::
                    plans[k].node == k && plans[k].role == RoleOf(Parameters(), round, k)
                      && SoundPlan(catalog, mei.log, PoolSet(), plans[k])
      {
        var plan;
        plan, ok := PlanNode(node, mei);
        if !ok { return; }
        plans := plans + [plan];
      }
      ok := true;
    }
  }

  /** A round as the campaign plays it: plan, apply, probe, record. The run is what was played so far. */
  class Campaign {
    const scheduler: TwoLevelScheduler
    const mei: MeiState
    ghost var run: seq<Round>

    /** The index is exactly the log of a run the scheduler can produce, and the pool what was admitted in it. */
    ghost predicate Valid()
      reads this, scheduler, mei
    {
      && scheduler.Valid() && mei.Valid() && DistinctPaths(scheduler.catalog)
      && Producible(scheduler.Parameters(), run) && LastRound(run) <= scheduler.round
      && mei.log == Log(run) && scheduler.PoolSet() == Pool(run)
    }

    constructor (scheduler: TwoLevelScheduler)
      requires scheduler.Valid() && DistinctPaths(scheduler.catalog) && scheduler.pool == ["default"]
      ensures Valid() && run == [] && this.scheduler == scheduler && fresh(mei)
    {
      this.scheduler := scheduler;
      mei := new MeiState();
      run := [];
    }

    /** A completed round extends the run by the round as it was planned, applied and judged. */
    method PlayRound(verdicts: seq<bool>) returns (plans: seq<NodePlan>, ok: bool)
      requires Valid() && |verdicts| == scheduler.nodes
      modifies this, scheduler, mei
      ensures Valid() && scheduler.round == old(scheduler.round) + 1
      ensures !ok ==> run == old(run)
      ensures ok ==> |run| == |old(run)| + 1 && run[..|run| - 1] == old(run)
                     && run[|run| - 1].round == scheduler.round && run[|run| - 1].plans == plans
                     && run[|run| - 1].verdicts == verdicts
    {
      plans, ok := scheduler.NextRound(mei);
      if !ok { return; }
      var ops;
      ops, ok := ApplyPlacements(plans);
      if !ok { return; }
      AdmissionPass(plans, ops, verdicts);
      ghost var p: Round := Played(scheduler.round, plans, ops, verdicts);
      RunSnoc(scheduler.Parameters(), run, p);
      run := run + [p];
    }

    /** Applies every plan's mutations; false when a value or an edit raises, before anything is recorded. */
    method ApplyPlacements(plans: seq<NodePlan>) returns (ops: seq<seq<Op>>, ok: bool)
      requires DistinctPaths(scheduler.catalog)
      ensures ok ==> |ops| == |plans|
      ensures ok ==> forall k | 0 <= k < |plans| :: OpsFor(scheduler.catalog, plans[k].mutations, ops[k])
    {
      ops := [];
      for k := 0 to |plans|
        invariant |ops| == k && forall j | 0 <= j < k :: OpsFor(scheduler.catalog, plans[j].mutations, ops[j])
      {
        var nodeOps;
        nodeOps, ok := Apply(plans[k].mutations);
        if !ok { return; }
        ops := ops + [nodeOps];
      }
      ok := true;
    }

    method Apply(mutations: seq<Mutation>) returns (ops: seq<Op>, ok: bool)
      requires DistinctPaths(scheduler.catalog)
      ensures ok ==> OpsFor(scheduler.catalog, mutations, ops)
    {
      ops := [];
      for k := 0 to |mutations|
        invariant OpsFor(scheduler.catalog, mutations[..k], ops)
      {
        var value;
        value, ok := Reported(mutations[k]);
        if !ok { return; }
        ops := ops + [Op(mutations[k], value)];
      }
      ok := true;
    }

    /** The new value mutate_one reports for a mutation of the catalog item with its path, whatever the file holds. */
    method Reported(m: Mutation) returns (value: Value, ok: bool)
      requires DistinctPaths(scheduler.catalog)
      ensures ok ==> RecordedAs(scheduler.catalog, m, value)
    {
      value, ok := m.value, true;
      for k := 0 to |scheduler.catalog|
        invariant ok && value == m.value && forall j | 0 <= j < k :: scheduler.catalog[j].path != m.path
      {
        var item := scheduler.catalog[k];
        if item.path == m.path {
          var current: Value, edited: bool := *, *;
          value, ok := MutateOne(item, m.rule, m.value, current, edited);
          forall i | i in scheduler.catalog && i.path == m.path ensures i == item {
            SameItem(scheduler.catalog, i, item);
          }
          return;
        }
      }
    }

    /**
     * The new value for a forced one, from the current value in the file. What the file holds also
     * decides whether the edit itself goes through.
     */
    method MutateOne(item: Item, rule: string, forced: Value, current: Value, edited: bool)
      returns (value: Value, ok: bool)
      ensures ok ==> edited && Reports(item, rule, forced, value)
      ensures !ok ==> !edited || (item.kind != Listing && None in Outcomes(item, rule, current))
    {
      if item.kind == Listing { return StrV(rule), edited; }
      var draw :| draw in Outcomes(item, rule, current);
      if draw == None { return NullV, false; }
      value, ok := if forced == NullV then draw.value else forced, edited;
      assert ReportsFor(item, rule, forced, value, current);
    }

    /** The verdict of every controlled node, recorded for the mutations applied on it. */
    method AdmissionPass(plans: seq<NodePlan>, ops: seq<seq<Op>>, verdicts: seq<bool>)
      requires scheduler.Valid() && mei.Valid() && |plans| == |ops| == |verdicts|
      requires forall k | 0 <= k < |plans| && plans[k].role == Normal :: ops[k] == []
      modifies scheduler`pool, mei
      ensures scheduler.Valid() && mei.Valid() && mei.log == old(mei.log) + Verdicts(Trials(ops, verdicts))
      ensures scheduler.PoolSet() == old(scheduler.PoolSet()) + Joining(scheduler.round, plans, verdicts)
    {
      for k := 0 to |plans|
        invariant scheduler.Valid() && mei.Valid()
          && mei.log == old(mei.log) + Verdicts(Trials(ops[..k], verdicts[..k]))
        invariant scheduler.PoolSet() == old(scheduler.PoolSet()) + Joining(scheduler.round, plans[..k], verdicts)
      {
        PassStep(scheduler.round, plans, ops, verdicts, k, old(mei.log));
        JudgeNode(plans[k], ops[k], verdicts[k]);
      }
      assert plans[..|plans|] == plans && ops[..|ops|] == ops && verdicts[..|verdicts|] == verdicts;
    }

    method JudgeNode(plan: NodePlan, ops: seq<Op>, verdict: bool)
      requires scheduler.Valid() && mei.Valid() && (plan.role == Normal ==> ops == [])
      modifies scheduler`pool, mei
      ensures scheduler.Valid() && mei.Valid() && mei.log == old(mei.log) + Verdicts(NodeTrials(ops, verdict))
      ensures scheduler.PoolSet() == old(scheduler.PoolSet()) + Joins(scheduler.round, plan, verdict)
    {
      if plan.role != Normal {
        RecordOps(ops, verdict);
        if verdict { scheduler.AdmitConfig(ConfigId(scheduler.round, plan.node)); }
      }
    }

    method RecordOps(ops: seq<Op>, admitted: bool)
      requires mei.Valid()
      modifies mei
      ensures mei.Valid() && mei.log == old(mei.log) + Verdicts(NodeTrials(ops, admitted))
    {
      for k := 0 to |ops|
        invariant mei.Valid() && mei.log == old(mei.log) + Verdicts(NodeTrials(ops[..k], admitted))
      {
        mei.RecordAdmission(ops[k].mutation.path, ops[k].mutation.rule, ops[k].reported, admitted);
      }
      assert ops[..|ops|] == ops;
    }
  }

  /**
   * Whatever a campaign has played, repeats were admitted first, and it tried something new in a
   * bounded number of rounds.
   */
  lemma CampaignIsSafe(campaign: Campaign)
    requires campaign.Valid() && FaithfulCatalog(campaign.scheduler.catalog)
    ensures RepeatsOnlyAdmitted(campaign.run)
    ensures FreshRounds(campaign.run) <= |AllCandidates(campaign.scheduler.catalog)|
  {
    var s := campaign.scheduler.Parameters();
    FaithfulRepeats(s, campaign.run);
    FreshRoundsBounded(s, campaign.run);
  }

  /** And with one controlled node, the index stays even over the catalog until its exploration phase ends. */
  lemma CampaignIsEven(campaign: Campaign)
    requires campaign.Valid() && |campaign.scheduler.controlled| == 1
    requires campaign.scheduler.round <= campaign.scheduler.explorationRounds
    ensures Balanced(campaign.scheduler.catalog, campaign.mei.log)
  {
    ExplorationIsEven(campaign.scheduler.Parameters(), campaign.run);
  }
}
