/**
 * Whole campaigns: completed rounds, each planned from what the rounds before it recorded.
 * What may be proposed again, for how long, and how evenly.
 */
module Runs {
  import opened Sets
  import opened Text
  import opened Items
  import opened Mei
  import opened Plans

  function TrialsOf(p: Round): seq<Trial> { Trials(p.ops, p.verdicts) }

  function Log(run: seq<Round>): seq<Verdict> {
    if run == [] then [] else Log(run[..|run| - 1]) + Verdicts(TrialsOf(run[|run| - 1]))
  }

  /** The configurations admitted so far. */
  function Pool(run: seq<Round>): (pool: set<string>)
    ensures "default" in pool
  {
    if run == [] then {"default"}
    else var p := run[|run| - 1]; Pool(run[..|run| - 1]) + Joining(p.round, p.plans, p.verdicts)
  }

  /** A configuration is in the pool exactly when it is the default or some round admitted it. */
  lemma {:induction false} PoolIff(run: seq<Round>, config: string)
    ensures config in Pool(run)
            <==> config == "default" || exists r | 0 <= r < |run| :: AdmittedIn(run[r], config)
  {
    if run != [] {
      var p := run[|run| - 1];
      PoolIff(run[..|run| - 1], config);
      JoiningIff(p.round, p.plans, p.verdicts, config);
    }
  }

  predicate AdmittedIn(p: Round, config: string) {
    exists k | 0 <= k < |p.plans| ::
      p.plans[k].role != Normal && p.verdicts[k] && config == ConfigId(p.round, p.plans[k].node)
  }

  function LastRound(run: seq<Round>): nat { if run == [] then 0 else run[|run| - 1].round }

  type Rule = (seq<Round>, Round) -> bool

  /** Every round may follow the rounds before it. */
  ghost predicate Chain(rule: Rule, run: seq<Round>) {
    run == [] || (Chain(rule, run[..|run| - 1]) && rule(run[..|run| - 1], run[|run| - 1]))
  }

  lemma ChainSnoc(rule: Rule, run: seq<Round>, p: Round)
    ensures Chain(rule, run + [p]) <==> Chain(rule, run) && rule(run, p)
  {
    assert (run + [p])[..|run|] == run;
  }

  lemma {:induction false} ChainAt(rule: Rule, run: seq<Round>, k: nat)
    requires Chain(rule, run) && k <= |run|
    ensures Chain(rule, run[..k])
    ensures k < |run| ==> rule(run[..k], run[k])
  {
    if k < |run| {
      ChainAt(rule, run[..|run| - 1], k);
      assert run[..|run| - 1][..k] == run[..k];
    } else {
      assert run[..k] == run;
    }
  }

  /** A round is played from the index and the pool that the rounds before it left. */
  ghost predicate Follows(s: Setup, run: seq<Round>, p: Round) {
    LastRound(run) < p.round && CanPlay(s, Log(run), Pool(run), p)
  }

  ghost function Allowed(s: Setup): Rule { (run: seq<Round>, p: Round) => Follows(s, run, p) }

  /** The runs the scheduler can produce. */
  ghost predicate Producible(s: Setup, run: seq<Round>) { Chain(Allowed(s), run) }

  lemma RunSnoc(s: Setup, run: seq<Round>, p: Round)
    requires Producible(s, run) && Follows(s, run, p)
    ensures var now := run + [p];
            && Producible(s, now) && LastRound(now) == p.round
            && Log(now) == Log(run) + Verdicts(TrialsOf(p))
              && Pool(now) == Pool(run) + Joining(p.round, p.plans, p.verdicts)
  {
    assert (run + [p])[..|run|] == run;
    ChainSnoc(Allowed(s), run, p);
  }

  lemma PlayedAt(s: Setup, run: seq<Round>, k: nat)
    requires Producible(s, run) && k < |run|
    ensures Producible(s, run[..k]) && Follows(s, run[..k], run[k])
  {
    ChainAt(Allowed(s), run, k);
  }

  lemma ProposedAs(s: Setup, run: seq<Round>, k: nat, t: Trial)
    requires Producible(s, run) && k < |run| && t in TrialsOf(run[k])
    ensures Proposable(s.catalog, Log(run[..k]), t.mutation) && RecordedAs(s.catalog, t.mutation, t.reported)
  {
    PlayedAt(s, run, k);
    TrialProposed(s, Log(run[..k]), Pool(run[..k]), run[k], t);
  }

  // --------------------------------------------------------------------- nothing is forgotten

  lemma {:induction false} LogGrows(run: seq<Round>, a: nat, b: nat)
    requires a <= b <= |run|
    ensures forall v | v in Log(run[..a]) :: v in Log(run[..b])
  {
    if a < b {
      LogGrows(run, a, b - 1);
      assert run[..b][..b - 1] == run[..b - 1];
    }
  }

  lemma TrialLogged(run: seq<Round>, a: nat, b: nat, t: Trial)
    requires a < b <= |run| && t in TrialsOf(run[a])
    ensures VerdictOf(t) in Log(run[..b])
  {
    assert run[..a + 1][..a] == run[..a];
    var k :| 0 <= k < |TrialsOf(run[a])| && TrialsOf(run[a])[k] == t;
    assert Verdicts(TrialsOf(run[a]))[k] == VerdictOf(t);
    LogGrows(run, a + 1, b);
  }

  // ---------------------------------------------------------------------- which items are reached

  /** An item can be reached unless it, or one that comes before it, always raises when its candidates are drawn. */
  predicate Reachable(catalog: seq<Item>, item: Item) {
    forall j | j in catalog && Le(j.path, item.path) :: CanGenerate(j)
  }

  predicate OnlyReachable(catalog: seq<Item>, log: seq<Verdict>) {
    forall j | j in catalog && Explored(log, j.path) != {} :: Reachable(catalog, j)
  }

  lemma AdmittedIsExplored(log: seq<Verdict>, path: string)
    ensures Admitted(log, path) <= Explored(log, path)
  {
  }

  lemma SameItem(catalog: seq<Item>, i: Item, j: Item)
    requires DistinctPaths(catalog) && i in catalog && j in catalog && i.path == j.path
    ensures i == j
  {
  }

  /** What is proposed belongs to a reachable item. */
  lemma ProposedReachable(catalog: seq<Item>, log: seq<Verdict>, m: Mutation) returns (item: Item)
    requires DistinctPaths(catalog) && OnlyReachable(catalog, log) && Proposable(catalog, log, m)
    ensures item in catalog && item.path == m.path && Reachable(catalog, item)
    ensures FreshChoice(item, log, m) || KeyOf(m) in Admitted(log, m.path)
  {
    item :| item in catalog && Pickable(catalog, log, item) && item.path == m.path
            && (FreshChoice(item, log, m) || KeyOf(m) in Admitted(log, m.path));
    AdmittedIsExplored(log, item.path);
    if Explored(log, item.path) == {} {
      forall j | j in catalog && Le(j.path, item.path) ensures CanGenerate(j) {
        NoneBehind(catalog, log, item, j);
      }
    }
  }

  /** With nothing explored, the least explored item comes before every item that always raises. */
  lemma NoneBehind(catalog: seq<Item>, log: seq<Verdict>, item: Item, j: Item)
    requires DistinctPaths(catalog) && OnlyReachable(catalog, log) && LeastExplored(catalog, log, item)
    requires Explored(log, item.path) == {} && CanGenerate(item) && j in catalog && Le(j.path, item.path)
    ensures CanGenerate(j)
  {
    LeTotal(j.path, item.path);
    if Explored(log, j.path) == {} {
      SameItem(catalog, item, j);
    } else {
      LeTotal(j.path, j.path);
    }
  }

  lemma ReachableStep(catalog: seq<Item>, log: seq<Verdict>, trials: seq<Trial>)
    requires DistinctPaths(catalog) && OnlyReachable(catalog, log)
    requires forall t | t in trials :: Proposable(catalog, log, t.mutation)
    ensures OnlyReachable(catalog, log + Verdicts(trials))
  {
    var now := log + Verdicts(trials);
    forall j | j in catalog && Explored(now, j.path) != {} ensures Reachable(catalog, j) {
      if Explored(log, j.path) == {} {
        var pair :| pair in Explored(now, j.path);
        var v :| v in now && v.item == j.path;
        assert v in log ==> PairOf(v.rule, v.value) in Explored(log, j.path);
        var k :| 0 <= k < |trials| && VerdictOf(trials[k]) == v;
        var item := ProposedReachable(catalog, log, trials[k].mutation);
        SameItem(catalog, item, j);
      }
    }
  }

  lemma {:induction false} RunReaches(s: Setup, run: seq<Round>)
    requires DistinctPaths(s.catalog) && Producible(s, run)
    ensures OnlyReachable(s.catalog, Log(run))
  {
    if run != [] {
      var n := |run| - 1;
      RunReaches(s, run[..n]);
      forall t | t in TrialsOf(run[n]) ensures Proposable(s.catalog, Log(run[..n]), t.mutation) {
        ProposedAs(s, run, n, t);
      }
      ReachableStep(s.catalog, Log(run[..n]), TrialsOf(run[n]));
    }
  }

  // ------------------------------------------------------------- what may be proposed again

  /** Every item that can be reached reports its candidates as they were proposed. */
  predicate FaithfulCatalog(catalog: seq<Item>) {
    forall item | item in catalog && Reachable(catalog, item) :: Faithful(item)
  }

  predicate SamePair(m: Mutation, n: Mutation) { m.path == n.path && KeyOf(m) == KeyOf(n) }

  ghost predicate Repeats(run: seq<Round>, a: nat, b: nat, t: Trial, u: Trial) {
    a < b < |run| && t in TrialsOf(run[a]) && u in TrialsOf(run[b]) && SamePair(t.mutation, u.mutation)
  }

  /** A pair proposed in an earlier round is proposed again only after it has been admitted. */
  ghost predicate RepeatsOnlyAdmitted(run: seq<Round>) {
    forall a: nat, b: nat, t, u | Repeats(run, a, b, t, u) ::
      KeyOf(u.mutation) in Admitted(Log(run[..b]), u.mutation.path)
  }

  lemma RecordsFresh(catalog: seq<Item>, item: Item, t: Trial)
    requires item in catalog && item.path == t.mutation.path && Faithful(item)
    requires RecordedAs(catalog, t.mutation, t.reported) && Candidate(item, t.mutation.rule, t.mutation.value)
    ensures PairOf(t.mutation.rule, t.reported) == KeyOf(t.mutation)
  {
    FaithfulIff(item);
  }

  lemma RepeatIsAdmitted(s: Setup, run: seq<Round>, a: nat, b: nat, t: Trial, u: Trial)
    requires DistinctPaths(s.catalog) && FaithfulCatalog(s.catalog) && Producible(s, run) && Repeats(run, a, b, t, u)
    ensures KeyOf(u.mutation) in Admitted(Log(run[..b]), u.mutation.path)
  {
    var path := t.mutation.path;
    ProposedAs(s, run, a, t);
    ProposedAs(s, run, b, u);
    PlayedAt(s, run, a);
    RunReaches(s, run[..a]);
    var item := ProposedReachable(s.catalog, Log(run[..a]), t.mutation);
    if KeyOf(t.mutation) in Admitted(Log(run[..a]), path) {
      StaysAdmitted(run, a, b, t.mutation);
    } else {
      RecordsFresh(s.catalog, item, t);
      TrialLogged(run, a, b, t);
      assert KeyOf(t.mutation) in Explored(Log(run[..b]), path);
    }
  }

  lemma StaysAdmitted(run: seq<Round>, a: nat, b: nat, m: Mutation)
    requires a <= b <= |run| && KeyOf(m) in Admitted(Log(run[..a]), m.path)
    ensures KeyOf(m) in Admitted(Log(run[..b]), m.path)
  {
    var v :| v in Log(run[..a]) && v.item == m.path && v.admitted && PairOf(v.rule, v.value) == KeyOf(m);
    LogGrows(run, a, b);
  }

  // ------------------------------------------------------------------ how long fresh rounds last

  /** Every (item, pair) the catalog can propose afresh. */
  function AllCandidates(catalog: seq<Item>): set<(string, Pair)> {
    set item, key | item in catalog && key in CandidateKeys(item) :: (item.path, key)
  }

  predicate HasFresh(log: seq<Verdict>, trials: seq<Trial>) { exists t | t in trials :: Fresh(log, t.mutation) }

  function FreshRounds(run: seq<Round>): nat {
    if run == [] then 0
    else
      var before, p := run[..|run| - 1], run[|run| - 1];
      FreshRounds(before) + if HasFresh(Log(before), TrialsOf(p)) then 1 else 0
  }

  function Seen(catalog: seq<Item>, log: seq<Verdict>): set<(string, Pair)> {
    set c | c in AllCandidates(catalog) && c.1 in Explored(log, c.0)
  }

  lemma {:induction false} FreshRoundsSeen(s: Setup, run: seq<Round>)
    requires DistinctPaths(s.catalog) && FaithfulCatalog(s.catalog) && Producible(s, run)
    ensures FreshRounds(run) <= |Seen(s.catalog, Log(run))|
  {
    if run != [] {
      var n := |run| - 1;
      FreshRoundsSeen(s, run[..n]);
      RunReaches(s, run[..n]);
      SeenStep(s, Log(run[..n]), Pool(run[..n]), run[n]);
    }
  }

  lemma SeenStep(s: Setup, log: seq<Verdict>, pool: set<string>, p: Round)
    requires DistinctPaths(s.catalog) && FaithfulCatalog(s.catalog) && OnlyReachable(s.catalog, log)
             && CanPlay(s, log, pool, p)
    ensures |Seen(s.catalog, log + Verdicts(TrialsOf(p)))|
            >= |Seen(s.catalog, log)| + if HasFresh(log, TrialsOf(p)) then 1 else 0
  {
    var after := log + Verdicts(TrialsOf(p));
    SeenGrows(s.catalog, log, Verdicts(TrialsOf(p)));
    SubsetSize(Seen(s.catalog, log), Seen(s.catalog, after));
    if HasFresh(log, TrialsOf(p)) {
      var t :| t in TrialsOf(p) && Fresh(log, t.mutation);
      TrialProposed(s, log, pool, p, t);
      var c := SeenFresh(s.catalog, log, TrialsOf(p), t);
      OneMoreElement(Seen(s.catalog, log), Seen(s.catalog, after), c);
    }
  }

  lemma SeenGrows(catalog: seq<Item>, log: seq<Verdict>, more: seq<Verdict>)
    ensures Seen(catalog, log) <= Seen(catalog, log + more)
  {
  }

  lemma OneMoreElement<T>(a: set<T>, b: set<T>, c: T)
    requires a <= b && c in b && c !in a
    ensures |b| >= |a| + 1
  {
    SubsetSize(a + {c}, b);
  }

  lemma SeenFresh(catalog: seq<Item>, log: seq<Verdict>, trials: seq<Trial>, t: Trial) returns (c: (string, Pair))
    requires DistinctPaths(catalog) && FaithfulCatalog(catalog) && OnlyReachable(catalog, log)
    requires t in trials && Fresh(log, t.mutation)
    requires Proposable(catalog, log, t.mutation) && RecordedAs(catalog, t.mutation, t.reported)
    ensures c !in Seen(catalog, log) && c in Seen(catalog, log + Verdicts(trials))
  {
    c := (t.mutation.path, KeyOf(t.mutation));
    AdmittedIsExplored(log, t.mutation.path);
    var item := ProposedReachable(catalog, log, t.mutation);
    assert KeyOf(t.mutation) in CandidateKeys(item);
    RecordsFresh(catalog, item, t);
    var k :| 0 <= k < |trials| && trials[k] == t;
    assert Verdicts(trials)[k] == VerdictOf(t) && VerdictOf(t) in log + Verdicts(trials);
  }

  // --------------------------------------------------------------- how even exploration is

  predicate Balanced(catalog: seq<Item>, log: seq<Verdict>) {
    forall i, j | i in catalog && j in catalog :: |Explored(log, i.path)| <= |Explored(log, j.path)| + 1
  }

  /** One trial adds at most one pair, and to its own item only. */
  lemma CountAfter(log: seq<Verdict>, v: Verdict, path: string)
    ensures |Explored(log, path)| <= |Explored(log + [v], path)| <= |Explored(log, path)| + 1
    ensures path != v.item ==> Explored(log + [v], path) == Explored(log, path)
  {
    ExploredSnoc(log, v, path);
    assert Explored(log, path) + {} == Explored(log, path);
    SubsetSize(Explored(log, path), Explored(log + [v], path));
    SubsetSize(Explored(log + [v], path), Explored(log, path) + {PairOf(v.rule, v.value)});
  }

  lemma BalancedStep(catalog: seq<Item>, log: seq<Verdict>, item: Item, v: Verdict)
    requires Balanced(catalog, log) && LeastExplored(catalog, log, item) && v.item == item.path
    ensures Balanced(catalog, log + [v])
  {
    forall i, j | i in catalog && j in catalog
      ensures |Explored(log + [v], i.path)| <= |Explored(log + [v], j.path)| + 1
    {
      CountAfter(log, v, i.path);
      CountAfter(log, v, j.path);
      LeastCount(catalog, log, item, j);
    }
  }

  /** Without trials, or with one for the least explored item. */
  predicate ExploresLeast(catalog: seq<Item>, log: seq<Verdict>, trials: seq<Trial>) {
    trials == [] || (|trials| == 1 && exists item | item in catalog ::
                                        LeastExplored(catalog, log, item) && trials[0].mutation.path == item.path)
  }

  lemma LeastOfPlan(catalog: seq<Item>, log: seq<Verdict>, pool: set<string>, plan: NodePlan, ops: seq<Op>,
                    admitted: bool)
    requires plan.role == Exploration && SoundPlan(catalog, log, pool, plan) && OpsFor(catalog, plan.mutations, ops)
    ensures ExploresLeast(catalog, log, NodeTrials(ops, admitted))
  {
    var item :| ExploringPlan(catalog, log, item, plan.mutations);
    if ops != [] { assert plan.mutations[0] in plan.mutations; }
  }

  /** What a round of an exploration phase with a single controlled node tries. */
  lemma ExploringRound(s: Setup, log: seq<Verdict>, pool: set<string>, p: Round)
    requires |s.controlled| == 1 && p.round <= s.explorationRounds && CanPlay(s, log, pool, p)
    ensures ExploresLeast(s.catalog, log, TrialsOf(p))
  {
    var node := s.controlled[0];
    forall k | 0 <= k < |p.ops| && k != node ensures p.ops[k] == [] {
      assert p.plans[k].role == Normal && OpsFor(s.catalog, p.plans[k].mutations, p.ops[k]);
    }
    OnlyTrials(p.ops, p.verdicts, node);
    if node < s.nodes { LeastOfPlan(s.catalog, log, pool, p.plans[node], p.ops[node], p.verdicts[node]); }
  }

  /**
   * All through an exploration phase with one controlled node, explored counts over the catalog differ
   * by at most one.
   */
  lemma {:induction false} ExplorationIsEven(s: Setup, run: seq<Round>)
    requires |s.controlled| == 1 && Producible(s, run) && LastRound(run) <= s.explorationRounds
    ensures Balanced(s.catalog, Log(run))
  {
    if run != [] {
      var before, p := run[..|run| - 1], run[|run| - 1];
      ExplorationIsEven(s, before);
      ExploringRound(s, Log(before), Pool(before), p);
      var trials := TrialsOf(p);
      if trials != [] {
        var item :| LeastExplored(s.catalog, Log(before), item) && trials[0].mutation.path == item.path;
        assert Verdicts(trials) == [VerdictOf(trials[0])];
        BalancedStep(s.catalog, Log(before), item, VerdictOf(trials[0]));
      } else {
        assert Log(run) == Log(before);
      }
    }
  }

  // ------------------------------------------------------------------------ faithful catalogs

  lemma FaithfulRepeats(s: Setup, run: seq<Round>)
    requires DistinctPaths(s.catalog) && FaithfulCatalog(s.catalog) && Producible(s, run)
    ensures RepeatsOnlyAdmitted(run)
  {
    forall a: nat, b: nat, t, u | Repeats(run, a, b, t, u)
      ensures KeyOf(u.mutation) in Admitted(Log(run[..b]), u.mutation.path)
    {
      RepeatIsAdmitted(s, run, a, b, t, u);
    }
  }

  /** On faithful catalogs the rounds that try something new are at most as many as the candidates. */
  lemma FreshRoundsBounded(s: Setup, run: seq<Round>)
    requires DistinctPaths(s.catalog) && FaithfulCatalog(s.catalog) && Producible(s, run)
    ensures FreshRounds(run) <= |AllCandidates(s.catalog)|
  {
    FreshRoundsSeen(s, run);
    SubsetSize(Seen(s.catalog, Log(run)), AllCandidates(s.catalog));
  }
}
