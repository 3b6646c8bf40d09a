/**
 * What an unfaithful item makes possible on any scheduler with a controlled node: the same
 * pair tried afresh in round after round. With it, the exact conditions on campaigns.
 */
module EndlessTrials {
  import opened Results
  import opened Values
  import opened Text
  import opened Items
  import opened Mei
  import opened Plans
  import opened Runs

  predicate HasControlled(s: Setup) { exists k | k in s.controlled :: k < s.nodes }

  // ------------------------------------------------------- a round after the exploration phase

  function PlanOf(s: Setup, node: nat, m: Mutation): NodePlan {
    if node in s.controlled then NodePlan(node, Fuzzing, "default", [m]) else NodePlan(node, Normal, "default", [])
  }

  /** Every controlled node is given the same mutation, with the same reported value and verdict. */
  function SameRound(s: Setup, round: nat, m: Mutation, reported: Value, admitted: bool): Round {
    Played(round, seq(s.nodes, (k: nat) => PlanOf(s, k, m)),
           seq(s.nodes, (k: nat) => if k in s.controlled then [Op(m, reported)] else []), seq(s.nodes, _ => admitted))
  }

  function NextRound(s: Setup, run: seq<Round>): nat { 1 + if run == [] then s.explorationRounds else LastRound(run) }

  function Extend(s: Setup, run: seq<Round>, t: Trial): seq<Round> {
    run + [SameRound(s, NextRound(s, run), t.mutation, t.reported, t.admitted)]
  }

  /** One round after the other, the first just after the exploration phase. */
  predicate InOrder(s: Setup, run: seq<Round>) {
    forall k | 0 <= k < |run| :: run[k].round == s.explorationRounds + 1 + k
  }

  lemma InOrderSnoc(s: Setup, run: seq<Round>, t: Trial)
    requires InOrder(s, run)
    ensures InOrder(s, Extend(s, run, t))
    ensures NextRound(s, run) > s.explorationRounds && NextRound(s, run) > LastRound(run)
  {
  }

  lemma {:induction false} AllTrials(ops: seq<seq<Op>>, verdicts: seq<bool>, t: Trial)
    requires |ops| == |verdicts|
    requires forall k | 0 <= k < |ops| :: ops[k] in {[], [Op(t.mutation, t.reported)]} && verdicts[k] == t.admitted
    ensures forall u | u in Trials(ops, verdicts) :: u == t
    ensures (exists k | 0 <= k < |ops| :: ops[k] != []) ==> t in Trials(ops, verdicts)
  {
    if ops != [] {
      var n := |ops| - 1;
      AllTrials(ops[..n], verdicts[..n], t);
      assert ops[n] != [] ==> NodeTrials(ops[n], verdicts[n])[0] == t;
      assert forall k | 0 <= k < n :: ops[..n][k] == ops[k];
    }
  }

  lemma SameTrials(s: Setup, round: nat, t: Trial)
    requires HasControlled(s)
    ensures forall u :: u in TrialsOf(SameRound(s, round, t.mutation, t.reported, t.admitted)) <==> u == t
  {
    var p := SameRound(s, round, t.mutation, t.reported, t.admitted);
    var k :| k in s.controlled && k < s.nodes;
    assert p.ops[k] != [];
    AllTrials(p.ops, p.verdicts, t);
  }

  /** Logs that hold the same verdicts say the same of every item. */
  ghost predicate SameVerdicts(a: seq<Verdict>, b: seq<Verdict>) { forall v :: v in a <==> v in b }

  lemma SameSets(a: seq<Verdict>, b: seq<Verdict>, path: string)
    requires SameVerdicts(a, b)
    ensures Explored(a, path) == Explored(b, path) && Admitted(a, path) == Admitted(b, path)
            && StatusOf(a, path) == StatusOf(b, path)
  {
    assert RejectedKeys(a, path) == RejectedKeys(b, path);
  }

  lemma LogOf(run: seq<Round>, p: Round, t: Trial)
    requires forall u :: u in TrialsOf(p) <==> u == t
    ensures SameVerdicts(Log(run + [p]), Log(run) + [VerdictOf(t)])
  {
    var trials, now := TrialsOf(p), run + [p];
    assert now[..|now| - 1] == run;
    assert t in trials;
    var k :| 0 <= k < |trials| && trials[k] == t;
    assert Verdicts(trials)[k] == VerdictOf(t);
    assert forall j | 0 <= j < |trials| :: trials[j] in trials && Verdicts(trials)[j] == VerdictOf(t);
  }

  lemma OpsOfOne(catalog: seq<Item>, item: Item, t: Trial)
    requires DistinctPaths(catalog) && item in catalog && item.path == t.mutation.path
    requires Reports(item, t.mutation.rule, t.mutation.value, t.reported)
    ensures OpsFor(catalog, [t.mutation], [Op(t.mutation, t.reported)])
  {
    forall i | i in catalog && i.path == t.mutation.path
      ensures Reports(i, t.mutation.rule, t.mutation.value, t.reported)
    {
      SameItem(catalog, i, item);
    }
  }

  lemma SameCanPlay(s: Setup, log: seq<Verdict>, pool: set<string>, round: nat, t: Trial)
    requires round > s.explorationRounds
    requires forall k :: SoundPlan(s.catalog, log, pool, PlanOf(s, k, t.mutation))
    requires OpsFor(s.catalog, [t.mutation], [Op(t.mutation, t.reported)])
    ensures CanPlay(s, log, pool, SameRound(s, round, t.mutation, t.reported, t.admitted))
  {
  }

  lemma PlansSound(s: Setup, log: seq<Verdict>, pool: set<string>, item: Item, m: Mutation)
    requires Pickable(s.catalog, log, item) && FreshChoice(item, log, m) && "default" in pool
    ensures forall k :: SoundPlan(s.catalog, log, pool, PlanOf(s, k, m))
  {
    assert FuzzingPlan(s.catalog, log, item, [m]);
  }

  /**
   * What can follow a run of such rounds: an untried candidate of an item that can be picked, reported
   * as it can be.
   */
  ghost predicate CanTry(s: Setup, run: seq<Round>, item: Item, t: Trial) {
    && DistinctPaths(s.catalog) && HasControlled(s) && Producible(s, run) && InOrder(s, run)
    && Pickable(s.catalog, Log(run), item) && FreshChoice(item, Log(run), t.mutation)
    && Reports(item, t.mutation.rule, t.mutation.value, t.reported)
  }

  lemma TryIt(s: Setup, run: seq<Round>, item: Item, t: Trial)
    ensures CanTry(s, run, item, t) ==>
              var now := Extend(s, run, t);
              && Producible(s, now) && InOrder(s, now) && SameVerdicts(Log(now), Log(run) + [VerdictOf(t)])
              && forall u :: u in TrialsOf(now[|run|]) <==> u == t
  {
    if CanTry(s, run, item, t) {
      var round := NextRound(s, run);
      var p := SameRound(s, round, t.mutation, t.reported, t.admitted);
      InOrderSnoc(s, run, t);
      PlansSound(s, Log(run), Pool(run), item, t.mutation);
      OpsOfOne(s.catalog, item, t);
      SameCanPlay(s, Log(run), Pool(run), round, t);
      RunSnoc(s, run, p);
      SameTrials(s, round, t);
      LogOf(run, p, t);
    }
  }

  // ------------------------------------------------------------ reaching an item not tried yet

  lemma {:induction false} LeastExists(catalog: seq<Item>, log: seq<Verdict>, n: nat) returns (item: Item)
    requires 0 < n <= |catalog|
    ensures LeastExplored(catalog[..n], log, item)
  {
    if n == 1 {
      item := catalog[0];
      LeTotal(item.path, item.path);
    } else {
      item := LeastExists(catalog, log, n - 1);
      var other := catalog[n - 1];
      assert catalog[..n] == catalog[..n - 1] + [other];
      if !Before(|Explored(log, item.path)|, item.path, |Explored(log, other.path)|, other.path) {
        BeforeSwitch(log, catalog[..n - 1], item, other);
        item := other;
      }
    }
  }

  function Untouched(catalog: seq<Item>, log: seq<Verdict>): set<string> {
    set j | j in catalog && Explored(log, j.path) == {} :: j.path
  }

  /** A reachable item that has not been tried becomes the least explored one after some rounds. */
  lemma {:induction false} Reach(s: Setup, run: seq<Round>, target: Item) returns (now: seq<Round>)
    requires DistinctPaths(s.catalog) && HasControlled(s) && Producible(s, run) && InOrder(s, run)
    requires target in s.catalog && Reachable(s.catalog, target) && Explored(Log(run), target.path) == {}
    ensures Producible(s, now) && InOrder(s, now)
    ensures Explored(Log(now), target.path) == {} && LeastExplored(s.catalog, Log(now), target)
    decreases |Untouched(s.catalog, Log(run))|
  {
    assert s.catalog[..|s.catalog|] == s.catalog;
    var item := LeastExists(s.catalog, Log(run), |s.catalog|);
    now := run;
    if item != target {
      LeastIsUntouched(s.catalog, Log(run), item, target);
      var next := TryLeast(s, run, item, target);
      now := Reach(s, next, target);
    }
  }

  /** One more round, trying some candidate of an item not tried yet. */
  lemma TryLeast(s: Setup, run: seq<Round>, item: Item, target: Item) returns (now: seq<Round>)
    requires DistinctPaths(s.catalog) && HasControlled(s) && Producible(s, run) && InOrder(s, run)
    requires LeastExplored(s.catalog, Log(run), item) && Explored(Log(run), item.path) == {} && CanGenerate(item)
    requires target.path != item.path
    ensures Producible(s, now) && InOrder(s, now) && Explored(Log(now), target.path) == Explored(Log(run), target.path)
    ensures |Untouched(s.catalog, Log(now))| < |Untouched(s.catalog, Log(run))|
  {
    var t := LeastCandidate(s, run, item);
    TryIt(s, run, item, t);
    now := Extend(s, run, t);
    AfterLeast(s.catalog, Log(run), Log(now), item, target, t);
  }

  lemma LeastCandidate(s: Setup, run: seq<Round>, item: Item) returns (t: Trial)
    requires DistinctPaths(s.catalog) && HasControlled(s) && Producible(s, run) && InOrder(s, run)
    requires LeastExplored(s.catalog, Log(run), item) && Explored(Log(run), item.path) == {} && CanGenerate(item)
    ensures CanTry(s, run, item, t) && t.mutation.path == item.path
  {
    var rule, value := RuleCandidateExists(item);
    t := Trial(Mutation(item.path, rule, value), if item.kind == Listing then StrV(rule) else value, false);
    CandidateReported(item, rule, value);
  }

  lemma AfterLeast(catalog: seq<Item>, log: seq<Verdict>, now: seq<Verdict>, item: Item, target: Item, t: Trial)
    requires SameVerdicts(now, log + [VerdictOf(t)]) && t.mutation.path == item.path != target.path
    requires item in catalog && Explored(log, item.path) == {}
    ensures Explored(now, target.path) == Explored(log, target.path)
    ensures |Untouched(catalog, now)| < |Untouched(catalog, log)|
  {
    ExploredSnoc(log, VerdictOf(t), target.path);
    SameSets(now, log + [VerdictOf(t)], target.path);
    TouchedStep(catalog, log, now, item, VerdictOf(t));
  }

  lemma LeastIsUntouched(catalog: seq<Item>, log: seq<Verdict>, item: Item, target: Item)
    requires DistinctPaths(catalog) && LeastExplored(catalog, log, item) && item != target
    requires target in catalog && Reachable(catalog, target) && Explored(log, target.path) == {}
    ensures Explored(log, item.path) == {} && CanGenerate(item) && item.path != target.path
  {
    LeastCount(catalog, log, item, target);
  }

  lemma CandidateReported(item: Item, rule: string, value: Value)
    requires rule in Rules(item.kind) && Some(value) in Outcomes(item, rule, item.default)
    ensures Reports(item, rule, value, if item.kind == Listing then StrV(rule) else value)
  {
    if item.kind != Listing { assert ReportsFor(item, rule, value, value, item.default); }
  }

  lemma TouchedStep(catalog: seq<Item>, log: seq<Verdict>, now: seq<Verdict>, item: Item, v: Verdict)
    requires item in catalog && Explored(log, item.path) == {} && v.item == item.path && SameVerdicts(now, log + [v])
    ensures |Untouched(catalog, now)| < |Untouched(catalog, log)|
  {
    forall path
      ensures Explored(now, path) == Explored(log, path) + if v.item == path then {PairOf(v.rule, v.value)} else {}
    {
      SameSets(now, log + [v], path);
      ExploredSnoc(log, v, path);
    }
    assert item.path in Untouched(catalog, log) && item.path !in Untouched(catalog, now);
    OneMoreElement(Untouched(catalog, now), Untouched(catalog, log), item.path);
  }

  // --------------------------------------------------------------- the same pair, over and over

  /** An item that can be picked, whose pair m is untried and was never admitted. */
  ghost predicate Ready(catalog: seq<Item>, log: seq<Verdict>, item: Item, m: Mutation) {
    Pickable(catalog, log, item) && FreshChoice(item, log, m) && KeyOf(m) !in Admitted(log, m.path)
  }

  /** Reported as another pair, which is admitted, the pair stays as it was. */
  lemma StaysReady(catalog: seq<Item>, log: seq<Verdict>, now: seq<Verdict>, item: Item, t: Trial)
    requires Ready(catalog, log, item, t.mutation) && t.admitted
             && PairOf(t.mutation.rule, t.reported) != KeyOf(t.mutation)
    requires SameVerdicts(now, log + [VerdictOf(t)])
    ensures Ready(catalog, now, item, t.mutation)
  {
    var v := VerdictOf(t);
    SameSets(now, log + [v], t.mutation.path);
    ExploredSnoc(log, v, t.mutation.path);
    AdmittedSnoc(log, v, t.mutation.path);
    assert PairOf(t.mutation.rule, t.reported) in Admitted(now, t.mutation.path);
  }

  /** n more rounds, each trying the same pair. */
  function Again(s: Setup, run: seq<Round>, t: Trial, n: nat): seq<Round> {
    if n == 0 then run else Extend(s, Again(s, run, t, n - 1), t)
  }

  ghost predicate Trying(s: Setup, run: seq<Round>, item: Item, t: Trial) {
    && CanTry(s, run, item, t) && Ready(s.catalog, Log(run), item, t.mutation)
    && t.admitted && PairOf(t.mutation.rule, t.reported) != KeyOf(t.mutation)
  }

  lemma OneMoreTime(s: Setup, run: seq<Round>, item: Item, t: Trial)
    ensures Trying(s, run, item, t) ==>
              Trying(s, Extend(s, run, t), item, t) && FreshRounds(Extend(s, run, t)) == FreshRounds(run) + 1
  {
    if Trying(s, run, item, t) {
      var now := Extend(s, run, t);
      TryIt(s, run, item, t);
      StaysReady(s.catalog, Log(run), Log(now), item, t);
      FreshOnceMore(s, run, t);
    }
  }

  lemma FreshOnceMore(s: Setup, run: seq<Round>, t: Trial)
    requires HasControlled(s) && Fresh(Log(run), t.mutation)
    ensures FreshRounds(Extend(s, run, t)) == FreshRounds(run) + 1
  {
    var now, p := Extend(s, run, t), SameRound(s, NextRound(s, run), t.mutation, t.reported, t.admitted);
    SameTrials(s, NextRound(s, run), t);
    assert now[..|now| - 1] == run && now[|now| - 1] == p;
    assert t in TrialsOf(p);
  }

  lemma {:induction false} AgainKeeps(P: seq<Round> -> bool, F: seq<Round> -> nat, s: Setup, run: seq<Round>,
                                      t: Trial, n: nat)
    requires P(run)
    requires forall r {:trigger Extend(s, r, t)} | P(r) :: P(Extend(s, r, t)) && F(Extend(s, r, t)) == F(r) + 1
    ensures P(Again(s, run, t, n)) && F(Again(s, run, t, n)) == F(run) + n
  {
    if n > 0 { AgainKeeps(P, F, s, run, t, n - 1); }
  }

  /** Each of them tries it afresh. */
  lemma TryAgain(s: Setup, run: seq<Round>, item: Item, t: Trial, n: nat)
    ensures Trying(s, run, item, t) ==>
              Trying(s, Again(s, run, t, n), item, t) && FreshRounds(Again(s, run, t, n)) == FreshRounds(run) + n
  {
    if Trying(s, run, item, t) {
      ghost var P := r => Trying(s, r, item, t);
      forall r | P(r) ensures P(Extend(s, r, t)) && FreshRounds(Extend(s, r, t)) == FreshRounds(r) + 1 {
        OneMoreTime(s, r, item, t);
      }
      AgainKeeps(P, FreshRounds, s, run, t, n);
    }
  }

  lemma NotYetAdmitted(run: seq<Round>, b: nat, m: Mutation)
    requires b <= |run| && KeyOf(m) !in Admitted(Log(run), m.path)
    ensures KeyOf(m) !in Admitted(Log(run[..b]), m.path)
  {
    assert run[..|run|] == run;
    if KeyOf(m) in Admitted(Log(run[..b]), m.path) { StaysAdmitted(run, b, |run|, m); }
  }

  /** A pair tried twice running, and not admitted by the end. */
  lemma TwiceRepeats(s: Setup, run: seq<Round>, t: Trial)
    requires HasControlled(s)
    requires KeyOf(t.mutation) !in Admitted(Log(Extend(s, Extend(s, run, t), t)), t.mutation.path)
    ensures !RepeatsOnlyAdmitted(Extend(s, Extend(s, run, t), t))
  {
    var now, k := Extend(s, Extend(s, run, t), t), |run|;
    SameTrials(s, now[k].round, t);
    SameTrials(s, now[k + 1].round, t);
    assert t in TrialsOf(now[k]) && t in TrialsOf(now[k + 1]);
    assert Repeats(now, k, k + 1, t, t);
    NotYetAdmitted(now, k + 1, t.mutation);
  }

  /**
   * A scheduler with a controlled node and an unfaithful catalog has a run that tries one pair
   * afresh in n rounds, though the pair is never admitted.
   */
  lemma TriedForever(s: Setup, n: nat) returns (run: seq<Round>)
    requires DistinctPaths(s.catalog) && !FaithfulCatalog(s.catalog) && HasControlled(s)
    ensures Producible(s, run) && InOrder(s, run) && FreshRounds(run) >= n
    ensures n > 1 ==> !RepeatsOnlyAdmitted(run)
  {
    var start, item, t := TryableFrom(s);
    run := Again(s, start, t, n);
    TryAgain(s, start, item, t, n);
    if n > 1 { TwiceRepeats(s, Again(s, start, t, n - 2), t); }
  }

  /** A run after which an unfaithful item is next, and a pair of it that is reported as another one. */
  lemma TryableFrom(s: Setup) returns (start: seq<Round>, item: Item, t: Trial)
    requires DistinctPaths(s.catalog) && !FaithfulCatalog(s.catalog) && HasControlled(s)
    ensures Trying(s, start, item, t)
  {
    item :| item in s.catalog && Reachable(s.catalog, item) && !Faithful(item);
    var rule, value, reported := Unfaithful(item);
    t := Trial(Mutation(item.path, rule, value), reported, true);
    LeTotal(item.path, item.path);
    start := Reach(s, [], item);
    AdmittedIsExplored(Log(start), item.path);
  }

  /** Plans can be made for a round, though the round need not come to record anything. */
  ghost predicate Plannable(s: Setup, log: seq<Verdict>, pool: set<string>, round: nat) {
    exists plans :: AllSound(s, log, pool, round, plans)
  }

  ghost predicate AllSound(s: Setup, log: seq<Verdict>, pool: set<string>, round: nat, plans: seq<NodePlan>) {
    && |plans| == s.nodes
    && forall k | 0 <= k < s.nodes ::
         plans[k].node == k && plans[k].role == RoleOf(s, round, k) && SoundPlan(s.catalog, log, pool, plans[k])
  }

  /** The rounds before such a run are ones that were planned: its first item can be drawn for in every role. */
  lemma ExplorationPlannable(s: Setup, round: nat)
    requires DistinctPaths(s.catalog) && !FaithfulCatalog(s.catalog)
    ensures Plannable(s, [], {"default"}, round)
  {
    var target :| target in s.catalog && Reachable(s.catalog, target) && !Faithful(target);
    LeTotal(target.path, target.path);
    assert s.catalog[..|s.catalog|] == s.catalog;
    var item := LeastExists(s.catalog, [], |s.catalog|);
    if item != target { LeastIsUntouched(s.catalog, [], item, target); }
    var rule, value := RuleCandidateExists(item);
    var m := Mutation(item.path, rule, value);
    AllFirst(s, item, m, round);
  }

  lemma AllFirst(s: Setup, item: Item, m: Mutation, round: nat)
    requires LeastExplored(s.catalog, [], item) && FreshChoice(item, [], m)
    ensures Plannable(s, [], {"default"}, round)
  {
    var plans := seq(s.nodes, (k: nat) => FirstPlan(k, RoleOf(s, round, k), m));
    FirstPlans(s, item, m);
    assert AllSound(s, [], {"default"}, round, plans);
  }

  function FirstPlan(node: nat, role: Role, m: Mutation): NodePlan {
    NodePlan(node, role, "default", if role == Normal then [] else [m])
  }

  lemma FirstPlans(s: Setup, item: Item, m: Mutation)
    requires LeastExplored(s.catalog, [], item) && FreshChoice(item, [], m)
    ensures forall node, role :: SoundPlan(s.catalog, [], {"default"}, FirstPlan(node, role, m))
  {
    assert ExploringPlan(s.catalog, [], item, [m]) && FuzzingPlan(s.catalog, [], item, [m]);
  }

  // ---------------------------------------------------------------------------- exact conditions

  ghost predicate NeverRepeats(s: Setup) { forall run | Producible(s, run) :: RepeatsOnlyAdmitted(run) }

  ghost predicate FreshAtMost(s: Setup, bound: nat) { forall run | Producible(s, run) :: FreshRounds(run) <= bound }

  lemma {:induction false} NothingTried(s: Setup, run: seq<Round>, k: nat)
    requires !HasControlled(s) && Producible(s, run) && k < |run|
    ensures TrialsOf(run[k]) == []
  {
    PlayedAt(s, run, k);
    var p := run[k];
    forall j | 0 <= j < |p.ops| ensures p.ops[j] == [] {
      assert p.plans[j].role == Normal && OpsFor(s.catalog, p.plans[j].mutations, p.ops[j]);
    }
    OnlyTrials(p.ops, p.verdicts, |p.ops|);
  }

  lemma NeverWithout(s: Setup)
    requires !HasControlled(s)
    ensures NeverRepeats(s)
  {
    forall run | Producible(s, run) ensures RepeatsOnlyAdmitted(run) {
      forall k | 0 <= k < |run| ensures TrialsOf(run[k]) == [] { NothingTried(s, run, k); }
    }
  }

  lemma {:induction false} NoneFresh(s: Setup, run: seq<Round>)
    requires !HasControlled(s) && Producible(s, run)
    ensures FreshRounds(run) == 0
  {
    if run != [] {
      PlayedAt(s, run, |run| - 1);
      NothingTried(s, run, |run| - 1);
      NoneFresh(s, run[..|run| - 1]);
    }
  }

  lemma UnfaithfulRepeats(s: Setup)
    requires DistinctPaths(s.catalog) && !FaithfulCatalog(s.catalog) && HasControlled(s)
    ensures !NeverRepeats(s)
  {
    var run := TriedForever(s, 2);
  }

  /**
   * On any scheduler with a controlled node, exactly the faithful catalogs rule out, over all
   * runs, that a pair never admitted is proposed in two rounds.
   */
  lemma NeverRepeatsIff(s: Setup)
    requires DistinctPaths(s.catalog)
    ensures NeverRepeats(s) <==> FaithfulCatalog(s.catalog) || !HasControlled(s)
  {
    if FaithfulCatalog(s.catalog) {
      forall run | Producible(s, run) ensures RepeatsOnlyAdmitted(run) { FaithfulRepeats(s, run); }
    } else if HasControlled(s) {
      UnfaithfulRepeats(s);
    } else {
      NeverWithout(s);
    }
  }

  lemma UnfaithfulUnbounded(s: Setup, bound: nat)
    requires DistinctPaths(s.catalog) && !FaithfulCatalog(s.catalog) && HasControlled(s)
    ensures !FreshAtMost(s, bound)
  {
    var run := TriedForever(s, bound + 1);
  }

  /** And exactly then is there any bound on the rounds that try something new. */
  lemma FreshRoundsBoundedIff(s: Setup)
    requires DistinctPaths(s.catalog)
    ensures (exists bound: nat :: FreshAtMost(s, bound)) <==> FaithfulCatalog(s.catalog) || !HasControlled(s)
  {
    if FaithfulCatalog(s.catalog) {
      forall run | Producible(s, run) ensures FreshRounds(run) <= |AllCandidates(s.catalog)| {
        FreshRoundsBounded(s, run);
      }
      assert FreshAtMost(s, |AllCandidates(s.catalog)|);
    } else if HasControlled(s) {
      forall bound: nat ensures !FreshAtMost(s, bound) { UnfaithfulUnbounded(s, bound); }
    } else {
      forall run | Producible(s, run) ensures FreshRounds(run) <= 0 { NoneFresh(s, run); }
      assert FreshAtMost(s, 0);
    }
  }
}
