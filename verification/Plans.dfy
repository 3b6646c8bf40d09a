/** What one round of a campaign may plan and record (bcfuzzer/scheduler.py, bcfuzzer_campaign.py). */
module Plans {
  import opened Values
  import opened Text
  import opened Items
  import opened Mei

  datatype Role = Exploration | Fuzzing | Normal

  datatype Mutation = Mutation(path: string, rule: string, value: Value)

  datatype NodePlan = NodePlan(node: nat, role: Role, config: string, mutations: seq<Mutation>)

  /** An applied mutation, with the new value that was reported for it. */
  datatype Op = Op(mutation: Mutation, reported: Value)

  /** An applied mutation and the verdict on its node. */
  datatype Trial = Trial(mutation: Mutation, reported: Value, admitted: bool)

  /** The parameters of a scheduler. */
  datatype Setup = Setup(catalog: seq<Item>, nodes: nat, controlled: seq<nat>, explorationRounds: nat)

  /** A completed round: its plans, what was applied on each node, and the nodes' verdicts. */
  datatype Played = Played(round: nat, plans: seq<NodePlan>, ops: seq<seq<Op>>, verdicts: seq<bool>)

  type Round = p: Played | |p.plans| == |p.ops| == |p.verdicts| witness Played(0, [], [], [])

  function RoleOf(s: Setup, round: nat, node: nat): Role {
    if node !in s.controlled then Normal
    else if round <= s.explorationRounds && node == s.controlled[0] then Exploration else Fuzzing
  }

  function ConfigId(round: nat, node: nat): string { "round" + Show(round) + "-node" + Show(node) }

  /** No two nodes, and no node in two rounds, have one configuration id. */
  lemma ConfigIdInjective(round: nat, node: nat, otherRound: nat, otherNode: nat)
    requires ConfigId(round, node) == ConfigId(otherRound, otherNode)
    ensures round == otherRound && node == otherNode
  {
    var a, m, b, n := Show(round), Show(node), Show(otherRound), Show(otherNode);
    assert ConfigId(round, node) == ("round" + a) + ['-'] + ("node" + m);
    assert ConfigId(otherRound, otherNode) == ("round" + b) + ['-'] + ("node" + n);
    LastPart('-', "round" + a, "node" + m, "round" + b, "node" + n);
    assert ("round" + a)[5..] == a && ("round" + b)[5..] == b && ("node" + m)[4..] == m && ("node" + n)[4..] == n;
    ShowInjective(round, otherRound);
    ShowInjective(node, otherNode);
  }

  predicate DistinctPaths(catalog: seq<Item>) {
    forall i, j | 0 <= i < j < |catalog| :: catalog[i].path != catalog[j].path
  }

  // ----------------------------------------------------------------- picking an item

  predicate Before(m: nat, p: string, n: nat, q: string) { m < n || (m == n && Le(p, q)) }

  /** The exploration pick: fewest pairs explored, ties broken by path. */
  predicate LeastExplored(catalog: seq<Item>, log: seq<Verdict>, item: Item) {
    && item in catalog
    && forall j | j in catalog :: Before(|Explored(log, item.path)|, item.path, |Explored(log, j.path)|, j.path)
  }

  /** By (count, path), in the terms of the catalog: no item has fewer pairs, nor as many and an earlier path. */
  ghost predicate FirstInOrder(catalog: seq<Item>, log: seq<Verdict>, item: Item) {
    && item in catalog
    && forall j | j in catalog ::
         |Explored(log, item.path)| < |Explored(log, j.path)|
         || (|Explored(log, item.path)| == |Explored(log, j.path)| && Alphabetical(item.path, j.path))
  }

  lemma LeastIff(catalog: seq<Item>, log: seq<Verdict>, item: Item)
    ensures LeastExplored(catalog, log, item) <==> FirstInOrder(catalog, log, item)
  {
    forall j | j in catalog ensures Le(item.path, j.path) <==> Alphabetical(item.path, j.path) {
      LeIff(item.path, j.path);
    }
  }

  /** What a node may be given: the least explored item, or one known to be inconsistent. */
  predicate Pickable(catalog: seq<Item>, log: seq<Verdict>, item: Item) {
    item in catalog && (LeastExplored(catalog, log, item) || StatusOf(log, item.path) == Inconsistent)
  }

  lemma LeastCount(catalog: seq<Item>, log: seq<Verdict>, item: Item, j: Item)
    requires LeastExplored(catalog, log, item) && j in catalog
    ensures |Explored(log, item.path)| <= |Explored(log, j.path)|
  {
  }

  /** An item that comes before the best so far comes before everything the best does. */
  lemma BeforeSwitch(log: seq<Verdict>, items: seq<Item>, best: Item, other: Item)
    requires !Before(|Explored(log, best.path)|, best.path, |Explored(log, other.path)|, other.path)
    requires forall j | 0 <= j < |items| ::
               Before(|Explored(log, best.path)|, best.path, |Explored(log, items[j].path)|, items[j].path)
    ensures forall j | 0 <= j < |items| ::
              Before(|Explored(log, other.path)|, other.path, |Explored(log, items[j].path)|, items[j].path)
    ensures Before(|Explored(log, other.path)|, other.path, |Explored(log, other.path)|, other.path)
  {
    LeTotal(other.path, other.path);
    LeTotal(other.path, best.path);
    forall j | 0 <= j < |items|
      ensures Before(|Explored(log, other.path)|, other.path, |Explored(log, items[j].path)|, items[j].path)
    {
      if Le(other.path, best.path) && Le(best.path, items[j].path) {
        LeTransitive(other.path, best.path, items[j].path);
      }
    }
  }

  // ------------------------------------------------------------------ proposing a mutation

  function KeyOf(m: Mutation): Pair { PairOf(m.rule, m.value) }

  predicate Fresh(log: seq<Verdict>, m: Mutation) { KeyOf(m) !in Explored(log, m.path) }

  /** An untried candidate of an item whose candidates could be drawn. */
  predicate FreshChoice(item: Item, log: seq<Verdict>, m: Mutation) {
    CanGenerate(item) && item.path == m.path && Candidate(item, m.rule, m.value) && Fresh(log, m)
  }

  /** Of an item whose explored pairs are `tried`. */
  predicate SomeTried(item: Item, tried: set<Pair>, rule: string) {
    exists d | d in Outcomes(item, rule, item.default) :: d.Some? && PairOf(rule, d.value) in tried
  }

  predicate Untried(item: Item, tried: set<Pair>, p: Pair) { Candidate(item, p.0, p.1) && PairOf(p.0, p.1) !in tried }

  predicate AllUntried(item: Item, tried: set<Pair>, pairs: seq<Pair>) {
    forall p | p in pairs :: Untried(item, tried, p)
  }

  lemma AllUntriedBoth(item: Item, tried: set<Pair>, a: seq<Pair>, b: seq<Pair>)
    requires AllUntried(item, tried, a) && AllUntried(item, tried, b)
    ensures AllUntried(item, tried, a + b)
  {
  }

  /** Every rule can yield a pair already tried, and every dangerous value has been tried. */
  predicate Exhausted(item: Item, tried: set<Pair>) {
    && (forall rule | rule in Rules(item.kind) :: SomeTried(item, tried, rule))
    && (forall v | v in item.dangerous :: PairOf("dangerous", v) in tried)
  }

  /** The least explored item, with an untried candidate unless it is exhausted. */
  ghost predicate ExploringPlan(catalog: seq<Item>, log: seq<Verdict>, item: Item, mutations: seq<Mutation>) {
    && LeastExplored(catalog, log, item)
    && |mutations| <= 1 && (forall m | m in mutations :: FreshChoice(item, log, m))
    && (mutations == [] ==> Exhausted(item, Explored(log, item.path)))
  }

  /** An untried candidate, or an admitted pair exactly as it was admitted. */
  ghost predicate FuzzingPlan(catalog: seq<Item>, log: seq<Verdict>, item: Item, mutations: seq<Mutation>) {
    && Pickable(catalog, log, item)
    && |mutations| <= 1
    && (forall m | m in mutations ::
          FreshChoice(item, log, m) || (m.path == item.path && Verdict(item.path, m.rule, m.value, true) in log))
    && (mutations == [] ==> Admitted(log, item.path) == {})
    && (Explored(log, item.path) == {} ==> |mutations| == 1 && Fresh(log, mutations[0]))
  }

  ghost predicate SoundPlan(catalog: seq<Item>, log: seq<Verdict>, pool: set<string>, plan: NodePlan) {
    match plan.role
    case Normal => plan.config == "default" && plan.mutations == []
    case Exploration => plan.config == "default" && exists item :: ExploringPlan(catalog, log, item, plan.mutations)
    case Fuzzing => plan.config in pool && exists item :: FuzzingPlan(catalog, log, item, plan.mutations)
  }

  /** A candidate never tried, or a pair already admitted, of an item that could be picked. */
  predicate Proposable(catalog: seq<Item>, log: seq<Verdict>, m: Mutation) {
    exists item | item in catalog ::
      Pickable(catalog, log, item) && item.path == m.path
        && (FreshChoice(item, log, m) || KeyOf(m) in Admitted(log, m.path))
  }

  /** Every mutation of a plan is untried or admitted. */
  lemma PlanProposes(catalog: seq<Item>, log: seq<Verdict>, pool: set<string>, plan: NodePlan, m: Mutation)
    requires SoundPlan(catalog, log, pool, plan) && m in plan.mutations
    ensures Proposable(catalog, log, m)
  {
    if plan.role == Exploration {
      var item :| ExploringPlan(catalog, log, item, plan.mutations);
      assert FreshChoice(item, log, m) && Pickable(catalog, log, item);
    } else {
      var item :| FuzzingPlan(catalog, log, item, plan.mutations);
      if !FreshChoice(item, log, m) { assert KeyOf(m) in Admitted(log, m.path); }
    }
  }

  // ------------------------------------------------------------------------ recording a round

  /** A reported value that mutate_one can give for the mutation. */
  ghost predicate RecordedAs(catalog: seq<Item>, m: Mutation, reported: Value) {
    forall item | item in catalog && item.path == m.path :: Reports(item, m.rule, m.value, reported)
  }

  /** The plan's mutations, in order, with values that can be reported for them. */
  ghost predicate OpsFor(catalog: seq<Item>, mutations: seq<Mutation>, ops: seq<Op>) {
    && |ops| == |mutations|
    && forall i | 0 <= i < |ops| ::
      ops[i].mutation == mutations[i] && RecordedAs(catalog, ops[i].mutation, ops[i].reported)
  }

  function VerdictOf(t: Trial): Verdict { Verdict(t.mutation.path, t.mutation.rule, t.reported, t.admitted) }

  function Verdicts(trials: seq<Trial>): (log: seq<Verdict>)
    ensures |log| == |trials|
    ensures forall k | 0 <= k < |trials| :: log[k] == VerdictOf(trials[k])
  {
    seq(|trials|, k requires 0 <= k < |trials| => VerdictOf(trials[k]))
  }

  function NodeTrials(ops: seq<Op>, admitted: bool): (r: seq<Trial>)
    ensures |r| == |ops|
    ensures forall i | 0 <= i < |ops| :: r[i] == Trial(ops[i].mutation, ops[i].reported, admitted)
  {
    seq(|ops|, i requires 0 <= i < |ops| => Trial(ops[i].mutation, ops[i].reported, admitted))
  }

  /** What an admission pass records: every node's mutations with the node's verdict, in node order. */
  function Trials(ops: seq<seq<Op>>, verdicts: seq<bool>): seq<Trial>
    requires |ops| == |verdicts|
  {
    if ops == [] then []
    else
      var n := |ops| - 1;
      Trials(ops[..n], verdicts[..n]) + NodeTrials(ops[n], verdicts[n])
  }

  lemma {:induction false} TrialFrom(ops: seq<seq<Op>>, verdicts: seq<bool>, t: Trial) returns (k: nat, i: nat)
    requires |ops| == |verdicts| && t in Trials(ops, verdicts)
    ensures k < |ops| && i < |ops[k]| && t == Trial(ops[k][i].mutation, ops[k][i].reported, verdicts[k])
  {
    var n := |ops| - 1;
    if t in Trials(ops[..n], verdicts[..n]) {
      k, i := TrialFrom(ops[..n], verdicts[..n], t);
    } else {
      k := n;
      i :| 0 <= i < |ops[n]| && NodeTrials(ops[n], verdicts[n])[i] == t;
    }
  }

  /** Every applied mutation is tried, with the value reported for it and its node's verdict. */
  lemma {:induction false} TrialAt(ops: seq<seq<Op>>, verdicts: seq<bool>, k: nat, i: nat)
    requires |ops| == |verdicts| && k < |ops| && i < |ops[k]|
    ensures Trial(ops[k][i].mutation, ops[k][i].reported, verdicts[k]) in Trials(ops, verdicts)
  {
    var n := |ops| - 1;
    if k < n {
      TrialAt(ops[..n], verdicts[..n], k, i);
    } else {
      assert NodeTrials(ops[n], verdicts[n])[i] == Trial(ops[k][i].mutation, ops[k][i].reported, verdicts[k]);
    }
  }

  /** Only one node's mutations are tried when the others have none. */
  lemma {:induction false} OnlyTrials(ops: seq<seq<Op>>, verdicts: seq<bool>, node: nat)
    requires |ops| == |verdicts| && forall k | 0 <= k < |ops| && k != node :: ops[k] == []
    ensures Trials(ops, verdicts) == if node < |ops| then NodeTrials(ops[node], verdicts[node]) else []
  {
    if ops != [] {
      var n := |ops| - 1;
      OnlyTrials(ops[..n], verdicts[..n], node);
      assert n != node ==> NodeTrials(ops[n], verdicts[n]) == [];
    }
  }

  /** The configurations that an admission pass adds to the pool. */
  function Joining(round: nat, plans: seq<NodePlan>, verdicts: seq<bool>): set<string>
    requires |plans| <= |verdicts|
  {
    if plans == [] then {}
    else Joining(round, plans[..|plans| - 1], verdicts) + Joins(round, plans[|plans| - 1], verdicts[|plans| - 1])
  }

  function Joins(round: nat, plan: NodePlan, verdict: bool): set<string> {
    if plan.role != Normal && verdict then {ConfigId(round, plan.node)} else {}
  }

  /** A configuration joins exactly when it is that of a controlled node that was admitted. */
  lemma {:induction false} JoiningIff(round: nat, plans: seq<NodePlan>, verdicts: seq<bool>, config: string)
    requires |plans| <= |verdicts|
    ensures config in Joining(round, plans, verdicts)
            <==> exists k | 0 <= k < |plans| ::
                   plans[k].role != Normal && verdicts[k] && config == ConfigId(round, plans[k].node)
  {
    if plans != [] { JoiningIff(round, plans[..|plans| - 1], verdicts, config); }
  }

  /** What the pass over the first k + 1 nodes adds to the pass over the first k. */
  lemma PassStep(round: nat, plans: seq<NodePlan>, ops: seq<seq<Op>>, verdicts: seq<bool>, k: nat, log: seq<Verdict>)
    requires |plans| == |ops| == |verdicts| && k < |plans|
    ensures log + Verdicts(Trials(ops[..k + 1], verdicts[..k + 1]))
            == log + Verdicts(Trials(ops[..k], verdicts[..k])) + Verdicts(NodeTrials(ops[k], verdicts[k]))
    ensures Joining(round, plans[..k + 1], verdicts)
            == Joining(round, plans[..k], verdicts) + Joins(round, plans[k], verdicts[k])
  {
    assert plans[..k + 1][..k] == plans[..k] && ops[..k + 1][..k] == ops[..k]
      && verdicts[..k + 1][..k] == verdicts[..k];
  }

  /** A round the scheduler and the campaign can play from these verdicts and this pool. */
  ghost predicate CanPlay(s: Setup, log: seq<Verdict>, pool: set<string>, p: Round) {
    && |p.plans| == s.nodes
    && forall k | 0 <= k < s.nodes ::
         && p.plans[k].node == k && p.plans[k].role == RoleOf(s, p.round, k)
         && SoundPlan(s.catalog, log, pool, p.plans[k]) && OpsFor(s.catalog, p.plans[k].mutations, p.ops[k])
  }

  /** A mutation tried in a round was proposed and recorded as the code does. */
  lemma TrialProposed(s: Setup, log: seq<Verdict>, pool: set<string>, p: Round, t: Trial)
    requires CanPlay(s, log, pool, p) && t in Trials(p.ops, p.verdicts)
    ensures Proposable(s.catalog, log, t.mutation) && RecordedAs(s.catalog, t.mutation, t.reported)
  {
    var k, i := TrialFrom(p.ops, p.verdicts, t);
    assert OpsFor(s.catalog, p.plans[k].mutations, p.ops[k]);
    PlanProposes(s.catalog, log, pool, p.plans[k], p.plans[k].mutations[i]);
  }
}
