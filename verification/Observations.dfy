/**
 * What one observation of the BCB oracle reports, said without its checks' own functions
 * (bcfuzzer/oracle.py): the findings that are due at each place, and no others.
 */
module Observations {
  import opened Results
  import opened Histories
  import opened Timeouts
  import opened Text
  import opened Findings
  import opened Steps
  import opened Detections
  import opened Listing
  import ControlledStall

  /** An observation, with everything observed before it. */
  datatype Observation = Observation(
    target: Target, limits: Limits, baseline: Option<Baseline>, round: int, now: real, armed: bool,
    probes: seq<Probe>, results: seq<SeedResult>, controlled: seq<ControlledRead>,
    heights: seq<Sample>, counts: seq<Count>, gas: seq<Gas>, rounds: seq<Round>, ledgers: seq<ControlledRead>)

  const PEERS := 0
  const STALLS := 1
  const FISCO := 2
  const SEEDS := 3
  const CAPACITY := 4
  const CONTROLLED := 5

  // --------------------------------------------------------------------- what is due where

  /** A dead node, and before its other findings; then each panic count above that of the idle window. */
  predicate PeerDue(o: Observation, k: nat, j: nat, f: Finding) {
    && k < |o.probes|
    && var p := o.probes[k];
    if j == 0 then !p.alive && f == Finding(ProcessDeath, p.node, [o.round])
    else j <= |p.panics| && PanicDue(o, p.node, p.panics[j - 1], f)
  }

  predicate PanicDue(o: Observation, node: int, e: (string, int), f: Finding) {
    var names := PanicNames(o.target);
    var idle := if o.baseline.Some? && e.0 in o.baseline.value.panics then o.baseline.value.panics[e.0] else 0;
    && e.1 != 0 && e.1 > idle
    && f == Finding(Panic(if e.0 in names then names[e.0] else "panic_" + e.0), node, [e.1, idle])
  }

  /** A read that is evidence and ends enough quiet ones in a row. */
  ghost predicate StallDue(o: Observation, k: nat, j: nat, f: Finding) {
    && k < |o.probes| && j == 0
    && var node, h := o.probes[k].node, o.heights + Samples(o.probes[..k], o.now);
    && var e := Sample(node, o.now, o.probes[k].height, true);
    && Evidence(h, e) && EndsIn(Quietness(h + [e], node, o.limits.window), o.limits.stallWindows)
    && f == Finding(DurableStall, node, [Stall(h + [e], node, o.limits.window), e.height])
  }

  /** On fisco: the timeouts that have grown, a storm of view changes, and a backlog while the gate is open. */
  ghost predicate FiscoDue(o: Observation, k: nat, j: nat, f: Finding) {
    && o.target == Fisco && k < |o.probes| && f.node == o.probes[k].node
    && var p, before := o.probes[k], o.counts + CountsOf(o.probes[..k], false);
    match j
    case 0 => f.signal == TimeoutGrowth && f.detail != [] && GrownTimeouts(o.baseline, p.timeouts, f.detail)
    case 1 => f.signal == ViewChangeStorm && Storms(o.baseline, o.limits.window, before, p)
              && f.detail == [Max(0, p.events - LastCount(before, p.node).GetOr(p.events))]
    case 2 => f.signal == PendingGrowth && Backlog(o.baseline, p) && GateOpen(o.rounds + [Round(o.round, o.armed)])
              && Stall(o.heights + Samples(o.probes, o.now), p.node, o.limits.window) < o.limits.stallWindows
              && f.detail == [p.pending, o.baseline.value.pending]
    case _ => false
  }

  /** Each timeout that has grown once, in the order of the texts, and no other. */
  ghost predicate GrownTimeouts(b: Option<Baseline>, timeouts: seq<int>, grown: seq<int>) {
    && InTextOrder(grown)
    && forall t :: Among(t, grown) <==> Among(t, timeouts) && Grown(b, t)
  }

  ghost predicate Among(t: int, values: seq<int>) { exists k | 0 <= k < |values| :: values[k] == t }

  predicate SeedDue(o: Observation, k: nat, j: nat, f: Finding) {
    && k < |o.results| && j == 0 && f.node == o.results[k].node
    && var r := o.results[k];
    && Shows(r, f.signal)
    && f.detail == match f.signal
                   case BadSignatureAccepted => [r.accepted]
                   case ExpiredAccepted => [r.submitted, r.hangs]
                   case _ => [r.accepted, r.secondError]
  }

  /** On geth: at least three reads of the node in a row, the last of them this one, are collapsed. */
  ghost predicate CapacityDue(o: Observation, k: nat, j: nat, f: Finding) {
    && o.target == Geth && k < |o.probes| && j == 0
    && var node, h := o.probes[k].node, (o.gas + GasOf(o.probes[..k])) + [Gas(o.probes[k].node, o.probes[k].gasLimit)];
    && EndsIn(GasFlags(h, node), 3)
    && f == Finding(GasLimitCollapse, node, [o.probes[k].gasLimit, CollapseRounds(h, node)])
  }

  /** On aptos, of a mutated node: dead with its safety rules mutated, or stalled while a normal node grows. */
  predicate ControlledDue(o: Observation, k: nat, j: nat, f: Finding) {
    && o.target == Aptos && k < |o.controlled|
    && var r, growth := o.controlled[k], Growth(o.heights, o.probes, o.now);
    && var stall := ControlledStall.Run(Ledgers(o.ledgers + o.controlled[..k + 1], r.node)).stall;
    match j
    case 0 => "safety_rules.service" in r.items && !r.alive && f == Finding(SafetyRulesFailure, r.node, [])
    case 1 => StalledDue(stall, r, growth, o.limits.stallWindows, f)
    case _ => false
  }

  predicate StalledDue(stall: nat, r: ControlledRead, growth: int, limit: nat, f: Finding) {
    && r.alive && growth > 0 && stall >= limit
    && ("consensus.sync_only" in r.items || "consensus.round_initial_timeout_ms" in r.items)
    && f == Finding(if "consensus.sync_only" in r.items then SyncOnlyStall else TimeoutZeroStall,
                    r.node, [stall, r.ledger, growth])
  }

  ghost predicate DueAt(o: Observation, p: Place, f: Finding) {
    match p.check
    case 0 => PeerDue(o, p.k, p.j, f)
    case 1 => StallDue(o, p.k, p.j, f)
    case 2 => FiscoDue(o, p.k, p.j, f)
    case 3 => SeedDue(o, p.k, p.j, f)
    case 4 => CapacityDue(o, p.k, p.j, f)
    case 5 => ControlledDue(o, p.k, p.j, f)
    case _ => false
  }

  ghost function DueOf(o: Observation): Due { (p, f) => DueAt(o, p, f) }

  /** Exactly the due findings, one for each place with one, and in the order of the places. */
  ghost predicate ReportsExactly(o: Observation, failures: seq<Finding>) {
    IsList(DueOf(o), failures, Place(0, 0, 0), END)
  }

  // ------------------------------------------------------------------------ check by check

  lemma PanicSlot(o: Observation, k: nat, m: nat)
    requires k < |o.probes| && m < |o.probes[k].panics|
    ensures Slot(DueOf(o), Place(PEERS, k, m + 1),
                 PanicFinding(o.baseline, PanicNames(o.target), o.probes[k].node, o.probes[k].panics[m]))
  {
  }

  lemma PanicsSnoc(b: Option<Baseline>, names: map<string, string>, node: int, panics: seq<(string, int)>, m: nat)
    requires m < |panics|
    ensures PanicFindings(b, names, node, panics[..m + 1])
            == PanicFindings(b, names, node, panics[..m]) + PanicFinding(b, names, node, panics[m])
  {
    assert panics[..m + 1][..m] == panics[..m];
  }

  lemma {:induction false} ListPanics(o: Observation, k: nat, m: nat)
    requires k < |o.probes| && m <= |o.probes[k].panics|
    ensures IsList(DueOf(o), PanicFindings(o.baseline, PanicNames(o.target), o.probes[k].node, o.probes[k].panics[..m]),
                   Place(PEERS, k, 1), Place(PEERS, k, m + 1))
  {
    var p, b, names := o.probes[k], o.baseline, PanicNames(o.target);
    if m == 0 {
      Empty(DueOf(o), Place(PEERS, k, 1), Place(PEERS, k, 1));
    } else {
      ListPanics(o, k, m - 1);
      PanicSlot(o, k, m - 1);
      SlotIsList(DueOf(o), PEERS, k, m, PanicFinding(b, names, p.node, p.panics[m - 1]));
      PanicsSnoc(b, names, p.node, p.panics, m - 1);
      Join(DueOf(o), PanicFindings(b, names, p.node, p.panics[..m - 1]),
           PanicFinding(b, names, p.node, p.panics[m - 1]),
           Place(PEERS, k, 1), Place(PEERS, k, m), Place(PEERS, k, m + 1));
    }
  }

  lemma DeathSlot(o: Observation, k: nat)
    requires k < |o.probes|
    ensures Slot(DueOf(o), Place(PEERS, k, 0), DeathFinding(o.round, o.probes[k]))
    ensures NoMore(DueOf(o), PEERS, k, |o.probes[k].panics| + 1)
  {
  }

  function PeerPiece(o: Observation, k: nat): seq<Finding> {
    if k >= |o.probes| then []
    else
      var p := o.probes[k];
      DeathFinding(o.round, p) + PanicFindings(o.baseline, PanicNames(o.target), p.node, p.panics)
  }

  /** Death and panics of one node. */
  lemma ListPeer(o: Observation, k: nat)
    requires k < |o.probes|
    ensures IsList(DueOf(o), PeerPiece(o, k), Place(PEERS, k, 0), Place(PEERS, k + 1, 0))
  {
    var p, D := o.probes[k], DueOf(o);
    var n := |p.panics|;
    DeathSlot(o, k);
    SlotIsList(D, PEERS, k, 0, DeathFinding(o.round, p));
    ListPanics(o, k, n);
    assert p.panics[..n] == p.panics;
    Join(D, DeathFinding(o.round, p), PanicFindings(o.baseline, PanicNames(o.target), p.node, p.panics),
         Place(PEERS, k, 0), Place(PEERS, k, 1), Place(PEERS, k, n + 1));
    NextNode(D, PeerPiece(o, k), PEERS, k, n + 1);
  }

  lemma PeersSnoc(o: Observation, k: nat)
    requires k < |o.probes|
    ensures PeerFindings(o.baseline, PanicNames(o.target), o.round, o.probes[..k + 1])
            == PeerFindings(o.baseline, PanicNames(o.target), o.round, o.probes[..k]) + PeerPiece(o, k)
  {
    assert o.probes[..k + 1][..k] == o.probes[..k];
  }

  lemma {:induction false} PeersUpTo(o: Observation, n: nat)
    requires n <= |o.probes|
    ensures IsList(DueOf(o), PeerFindings(o.baseline, PanicNames(o.target), o.round, o.probes[..n]),
                   Place(PEERS, 0, 0), Place(PEERS, n, 0))
  {
    if n == 0 {
      Empty(DueOf(o), Place(PEERS, 0, 0), Place(PEERS, 0, 0));
    } else {
      PeersUpTo(o, n - 1);
      PeersSnoc(o, n - 1);
      ListPeer(o, n - 1);
      OneMoreNode(DueOf(o), PEERS, n - 1,
                  PeerFindings(o.baseline, PanicNames(o.target), o.round, o.probes[..n - 1]),
                  PeerPiece(o, n - 1),
                  PeerFindings(o.baseline, PanicNames(o.target), o.round, o.probes[..n]));
    }
  }

  lemma PeersList(o: Observation)
    ensures IsList(DueOf(o), PeerFindings(o.baseline, PanicNames(o.target), o.round, o.probes),
                   Place(PEERS, 0, 0), Place(STALLS, 0, 0))
  {
    assert o.probes[..|o.probes|] == o.probes;
    PeersUpTo(o, |o.probes|);
    NextCheck(DueOf(o), PeerFindings(o.baseline, PanicNames(o.target), o.round, o.probes), PEERS, |o.probes|);
  }

  function StallPiece(o: Observation, k: nat): seq<Finding> {
    if k >= |o.probes| then []
    else StallFinding(o.heights + Samples(o.probes[..k], o.now), SampleOf(o.probes[k], o.now), o.limits)
  }

  lemma StallSlot(o: Observation, k: nat)
    requires k < |o.probes|
    ensures Slot(DueOf(o), Place(STALLS, k, 0), StallPiece(o, k)) && NoMore(DueOf(o), STALLS, k, 1)
  {
    var h, e := o.heights + Samples(o.probes[..k], o.now), SampleOf(o.probes[k], o.now);
    TrailingIff(Quietness(h + [e], e.node, o.limits.window), o.limits.stallWindows);
  }

  lemma ListStall(o: Observation, k: nat)
    requires k < |o.probes|
    ensures IsList(DueOf(o), StallPiece(o, k), Place(STALLS, k, 0), Place(STALLS, k + 1, 0))
  {
    StallSlot(o, k);
    OneSlot(DueOf(o), STALLS, k, StallPiece(o, k));
  }

  lemma StallsSnoc(o: Observation, k: nat)
    requires k < |o.probes|
    ensures StallFindings(o.heights, o.probes[..k + 1], o.now, o.limits)
            == StallFindings(o.heights, o.probes[..k], o.now, o.limits) + StallPiece(o, k)
  {
    SamplesStep(o.heights, o.probes, k, o.now, o.limits);
  }

  lemma {:induction false} StallsUpTo(o: Observation, n: nat)
    requires n <= |o.probes|
    ensures IsList(DueOf(o), StallFindings(o.heights, o.probes[..n], o.now, o.limits),
                   Place(STALLS, 0, 0), Place(STALLS, n, 0))
  {
    if n == 0 {
      Empty(DueOf(o), Place(STALLS, 0, 0), Place(STALLS, 0, 0));
    } else {
      StallsUpTo(o, n - 1);
      StallsSnoc(o, n - 1);
      ListStall(o, n - 1);
      OneMoreNode(DueOf(o), STALLS, n - 1,
                  StallFindings(o.heights, o.probes[..n - 1], o.now, o.limits),
                  StallPiece(o, n - 1),
                  StallFindings(o.heights, o.probes[..n], o.now, o.limits));
    }
  }

  lemma StallsList(o: Observation)
    ensures IsList(DueOf(o), StallFindings(o.heights, o.probes, o.now, o.limits),
                   Place(STALLS, 0, 0), Place(FISCO, 0, 0))
  {
    assert o.probes[..|o.probes|] == o.probes;
    StallsUpTo(o, |o.probes|);
    NextCheck(DueOf(o), StallFindings(o.heights, o.probes, o.now, o.limits), STALLS, |o.probes|);
  }

  lemma SeedSlot(o: Observation, k: nat)
    requires k < |o.results|
    ensures Slot(DueOf(o), Place(SEEDS, k, 0), Classified(o.results[k])) && NoMore(DueOf(o), SEEDS, k, 1)
  {
    if o.results[k].kind == "bad_signature" { assert o.results[k].kind[0] == 'b'; }
  }

  lemma SeedsSnoc(results: seq<SeedResult>, k: nat)
    requires k < |results|
    ensures SeedFindings(results[..k + 1]) == SeedFindings(results[..k]) + Classified(results[k])
  {
    assert results[..k + 1][..k] == results[..k];
  }

  lemma ListSeed(o: Observation, k: nat)
    requires k < |o.results|
    ensures IsList(DueOf(o), Classified(o.results[k]), Place(SEEDS, k, 0), Place(SEEDS, k + 1, 0))
  {
    SeedSlot(o, k);
    OneSlot(DueOf(o), SEEDS, k, Classified(o.results[k]));
  }

  lemma {:induction false} SeedsUpTo(o: Observation, n: nat)
    requires n <= |o.results|
    ensures IsList(DueOf(o), SeedFindings(o.results[..n]), Place(SEEDS, 0, 0), Place(SEEDS, n, 0))
  {
    if n == 0 {
      Empty(DueOf(o), Place(SEEDS, 0, 0), Place(SEEDS, 0, 0));
    } else {
      SeedsUpTo(o, n - 1);
      SeedsSnoc(o.results, n - 1);
      ListSeed(o, n - 1);
      OneMoreNode(DueOf(o), SEEDS, n - 1,
                  SeedFindings(o.results[..n - 1]), Classified(o.results[n - 1]), SeedFindings(o.results[..n]));
    }
  }

  lemma SeedsList(o: Observation)
    ensures IsList(DueOf(o), SeedFindings(o.results), Place(SEEDS, 0, 0), Place(CAPACITY, 0, 0))
  {
    assert o.results[..|o.results|] == o.results;
    SeedsUpTo(o, |o.results|);
    NextCheck(DueOf(o), SeedFindings(o.results), SEEDS, |o.results|);
  }

  /** A check of another platform has nothing. */
  lemma OtherPlatform(D: Due, check: nat)
    requires NoneFrom(D, check, 0)
    ensures IsList(D, [], Place(check, 0, 0), Place(check + 1, 0, 0))
  {
    var from, to := Place(check, 0, 0), Place(check + 1, 0, 0);
    forall p, f | Within(p, from, to) ensures !D(p, f) { assert p == Place(check, p.k, p.j); }
    Empty(D, from, to);
  }

  function CapacityPiece(o: Observation, k: nat): seq<Finding> {
    if k >= |o.probes| then []
    else CollapseFinding(o.gas + GasOf(o.probes[..k]), Gas(o.probes[k].node, o.probes[k].gasLimit))
  }

  lemma CapacitySlot(o: Observation, k: nat)
    requires k < |o.probes| && o.target == Geth
    ensures Slot(DueOf(o), Place(CAPACITY, k, 0), CapacityPiece(o, k)) && NoMore(DueOf(o), CAPACITY, k, 1)
  {
    var h, e := o.gas + GasOf(o.probes[..k]), Gas(o.probes[k].node, o.probes[k].gasLimit);
    TrailingIff(GasFlags(h + [e], e.node), 3);
  }

  lemma ListCapacity(o: Observation, k: nat)
    requires k < |o.probes| && o.target == Geth
    ensures IsList(DueOf(o), CapacityPiece(o, k), Place(CAPACITY, k, 0), Place(CAPACITY, k + 1, 0))
  {
    CapacitySlot(o, k);
    OneSlot(DueOf(o), CAPACITY, k, CapacityPiece(o, k));
  }

  lemma CapacitySnoc(o: Observation, k: nat)
    requires k < |o.probes|
    ensures CollapseFindings(o.gas, o.probes[..k + 1]) == CollapseFindings(o.gas, o.probes[..k]) + CapacityPiece(o, k)
  {
    GasSnoc(o.gas, o.probes, k);
  }

  lemma {:induction false} CapacityUpTo(o: Observation, n: nat)
    requires n <= |o.probes| && o.target == Geth
    ensures IsList(DueOf(o), CollapseFindings(o.gas, o.probes[..n]), Place(CAPACITY, 0, 0), Place(CAPACITY, n, 0))
  {
    if n == 0 {
      Empty(DueOf(o), Place(CAPACITY, 0, 0), Place(CAPACITY, 0, 0));
    } else {
      CapacityUpTo(o, n - 1);
      CapacitySnoc(o, n - 1);
      ListCapacity(o, n - 1);
      OneMoreNode(DueOf(o), CAPACITY, n - 1,
                  CollapseFindings(o.gas, o.probes[..n - 1]),
                  CapacityPiece(o, n - 1),
                  CollapseFindings(o.gas, o.probes[..n]));
    }
  }

  lemma CapacityList(o: Observation)
    ensures IsList(DueOf(o), CapacityPart(o.target, o.gas, o.probes), Place(CAPACITY, 0, 0), Place(CONTROLLED, 0, 0))
  {
    if o.target == Geth {
      assert o.probes[..|o.probes|] == o.probes;
      CapacityUpTo(o, |o.probes|);
      NextCheck(DueOf(o), CollapseFindings(o.gas, o.probes), CAPACITY, |o.probes|);
    } else {
      OtherPlatform(DueOf(o), CAPACITY);
    }
  }

  // ------------------------------------------------------------------------ fisco, aptos

  /** Two of the kept values stand in the list in the same order. */
  lemma {:induction false} AbovePair(values: seq<int>, bound: int, i: nat, j: nat) returns (m: nat, n: nat)
    requires i < j < |Above(values, bound)|
    ensures m < n < |values| && values[m] == Above(values, bound)[i] && values[n] == Above(values, bound)[j]
  {
    var before := values[..|values| - 1];
    if j < |Above(before, bound)| {
      m, n := AbovePair(before, bound, i, j);
    } else {
      m := AboveAt(before, bound, i);
      n := |values| - 1;
    }
  }

  lemma {:induction false} AboveAt(values: seq<int>, bound: int, i: nat) returns (m: nat)
    requires i < |Above(values, bound)|
    ensures m < |values| && values[m] == Above(values, bound)[i]
  {
    var before := values[..|values| - 1];
    if i < |Above(before, bound)| { m := AboveAt(before, bound, i); } else { m := |values| - 1; }
  }

  lemma AboveInOrder(values: seq<int>, bound: int)
    requires InTextOrder(values)
    ensures InTextOrder(Above(values, bound))
  {
    var kept := Above(values, bound);
    forall i, j | 0 <= i < j < |kept| ensures Alphabetical(Show(kept[i]), Show(kept[j])) && kept[i] != kept[j] {
      var m, n := AbovePair(values, bound, i, j);
    }
  }

  lemma {:induction false} AboveSomewhere(values: seq<int>, bound: int, p: int -> bool, q: int -> bool)
    requires forall x :: q(x) <==> p(x) && x >= bound
    ensures Somewhere(p, Above(values, bound)) <==> Somewhere(q, values)
  {
    if values != [] {
      var before, last := values[..|values| - 1], values[|values| - 1];
      assert values == before + [last];
      AboveSomewhere(before, bound, p, q);
      SomewhereSnoc(q, before, last);
      SomewhereSnoc(p, Above(before, bound), last);
      assert Above(values, bound) == if last >= bound then Above(before, bound) + [last] else Above(before, bound);
    }
  }

  /** The timeouts of a finding are those that have grown. */
  lemma AboveAreGrown(b: Option<Baseline>, timeouts: seq<int>)
    ensures GrownTimeouts(b, timeouts, Above(Distinct(timeouts), 3 * MaxOf(BaseTimeouts(b))))
  {
    var bound, distinct := 3 * MaxOf(BaseTimeouts(b)), Distinct(timeouts);
    DistinctIs(timeouts, x => true);
    AboveInOrder(distinct, bound);
    forall t
      ensures Among(t, Above(distinct, bound)) <==> Among(t, timeouts) && Grown(b, t)
    {
      var p, q := (x: int) => x == t, (x: int) => x == t && x >= bound;
      AboveSomewhere(distinct, bound, p, q);
      DistinctIs(timeouts, q);
      GrownIff(b, t);
      AmongIs(t, Above(distinct, bound), p);
      AmongIs(t, timeouts, x => x == t);
      assert Somewhere(q, timeouts) <==> Among(t, timeouts) && t >= bound;
    }
  }

  lemma AmongIs(t: int, values: seq<int>, p: int -> bool)
    requires forall x :: p(x) <==> x == t
    ensures Somewhere(p, values) <==> Among(t, values)
  {
  }

  function FiscoCounts(o: Observation, k: nat): seq<Count>
    requires k <= |o.probes|
  {
    o.counts + CountsOf(o.probes[..k], false)
  }

  /** What the fisco checks see. */
  ghost function ViewOf(o: Observation): FiscoView {
    FiscoView(o.baseline, StormBound(o.baseline, o.limits.window), GateOpen(o.rounds + [Round(o.round, o.armed)]),
              o.heights + Samples(o.probes, o.now), o.limits)
  }

  lemma TimeoutSlot(o: Observation, k: nat)
    requires k < |o.probes| && o.target == Fisco
    ensures Slot(DueOf(o), Place(FISCO, k, 0), TimeoutFinding(o.baseline, o.probes[k]))
  {
    var p := o.probes[k];
    var grown := Above(Distinct(p.timeouts), 3 * MaxOf(BaseTimeouts(o.baseline)));
    if grown == [] {
      ShowsGrowthIff(o.baseline, p);
      forall f ensures !FiscoDue(o, k, 0, f) {
        if FiscoDue(o, k, 0, f) { NoneGrown(o.baseline, p, f.detail); }
      }
    } else {
      AboveAreGrown(o.baseline, p.timeouts);
    }
  }

  lemma NoneGrown(b: Option<Baseline>, p: Probe, detail: seq<int>)
    requires !ShowsGrowth(b, p) && GrownTimeouts(b, p.timeouts, detail)
    ensures detail == []
  {
    if detail != [] {
      var t := detail[0];
      assert Among(t, detail);
    }
  }

  lemma StormSlot(o: Observation, k: nat)
    requires k < |o.probes| && o.target == Fisco
    ensures Slot(DueOf(o), Place(FISCO, k, 1),
                 StormFinding(StormBound(o.baseline, o.limits.window),
                              Delta(FiscoCounts(o, k), o.probes[k].node, o.probes[k].events), o.probes[k].node))
  {
    StormsIff(o.baseline, o.limits.window, FiscoCounts(o, k), o.probes[k]);
  }

  lemma PendingSlot(o: Observation, k: nat)
    requires k < |o.probes| && o.target == Fisco
    ensures var v, p := ViewOf(o), o.probes[k];
            Slot(DueOf(o), Place(FISCO, k, 2),
                 PendingFinding(v.baseline, v.open,
                                Stall(v.heights, p.node, v.limits.window) >= v.limits.stallWindows, p))
    ensures NoMore(DueOf(o), FISCO, k, 3)
  {
  }

  function FiscoPiece(v: FiscoView, counts: seq<Count>, probes: seq<Probe>, k: nat): seq<Finding> {
    if k >= |probes| then [] else FiscoNode(v, counts + CountsOf(probes[..k], false), probes[k])
  }

  lemma ListFiscoNode(o: Observation, k: nat)
    requires k < |o.probes| && o.target == Fisco
    ensures IsList(DueOf(o), FiscoPiece(ViewOf(o), o.counts, o.probes, k), Place(FISCO, k, 0), Place(FISCO, k + 1, 0))
  {
    var v, p, D := ViewOf(o), o.probes[k], DueOf(o);
    var timeouts := TimeoutFinding(v.baseline, p);
    var storm := StormFinding(v.stormBound, Delta(FiscoCounts(o, k), p.node, p.events), p.node);
    var stalled := Stall(v.heights, p.node, v.limits.window) >= v.limits.stallWindows;
    var pending := PendingFinding(v.baseline, v.open, stalled, p);
    TimeoutSlot(o, k);
    StormSlot(o, k);
    PendingSlot(o, k);
    ThreeSlots(D, FISCO, k, timeouts, storm, pending);
  }

  lemma ThreeSlots(D: Due, check: nat, k: nat, a: seq<Finding>, b: seq<Finding>, c: seq<Finding>)
    requires Slot(D, Place(check, k, 0), a) && Slot(D, Place(check, k, 1), b) && Slot(D, Place(check, k, 2), c)
    requires NoMore(D, check, k, 3)
    ensures IsList(D, a + b + c, Place(check, k, 0), Place(check, k + 1, 0))
  {
    SlotIsList(D, check, k, 0, a);
    SlotIsList(D, check, k, 1, b);
    SlotIsList(D, check, k, 2, c);
    Join(D, a, b, Place(check, k, 0), Place(check, k, 1), Place(check, k, 2));
    Join(D, a + b, c, Place(check, k, 0), Place(check, k, 2), Place(check, k, 3));
    NextNode(D, a + b + c, check, k, 3);
  }

  lemma FiscoPieceSnoc(v: FiscoView, counts: seq<Count>, probes: seq<Probe>, k: nat)
    requires k < |probes|
    ensures FiscoFindings(v, counts, probes[..k + 1])
            == FiscoFindings(v, counts, probes[..k]) + FiscoPiece(v, counts, probes, k)
  {
    FiscoSnoc(v, counts, probes, k);
  }

  lemma {:induction false} FiscoUpTo(o: Observation, n: nat)
    requires n <= |o.probes| && o.target == Fisco
    ensures IsList(DueOf(o), FiscoFindings(ViewOf(o), o.counts, o.probes[..n]), Place(FISCO, 0, 0), Place(FISCO, n, 0))
  {
    if n == 0 {
      Empty(DueOf(o), Place(FISCO, 0, 0), Place(FISCO, 0, 0));
    } else {
      FiscoUpTo(o, n - 1);
      FiscoPieceSnoc(ViewOf(o), o.counts, o.probes, n - 1);
      ListFiscoNode(o, n - 1);
      OneMoreNode(DueOf(o), FISCO, n - 1,
                  FiscoFindings(ViewOf(o), o.counts, o.probes[..n - 1]),
                  FiscoPiece(ViewOf(o), o.counts, o.probes, n - 1),
                  FiscoFindings(ViewOf(o), o.counts, o.probes[..n]));
    }
  }

  lemma FiscoList(o: Observation)
    ensures IsList(DueOf(o), FiscoPart(o.target, ViewOf(o), o.counts, o.probes), Place(FISCO, 0, 0), Place(SEEDS, 0, 0))
  {
    if o.target == Fisco {
      assert o.probes[..|o.probes|] == o.probes;
      FiscoUpTo(o, |o.probes|);
      NextCheck(DueOf(o), FiscoFindings(ViewOf(o), o.counts, o.probes), FISCO, |o.probes|);
    } else {
      OtherPlatform(DueOf(o), FISCO);
    }
  }

  function ControlledPiece(o: Observation, k: nat): seq<Finding> {
    if k >= |o.controlled| then []
    else
      ControlledFindings(o.ledgers + o.controlled[..k], o.controlled[k], Growth(o.heights, o.probes, o.now),
                         o.limits.stallWindows)
  }

  lemma SafetySlot(o: Observation, k: nat)
    requires k < |o.controlled| && o.target == Aptos
    ensures Slot(DueOf(o), Place(CONTROLLED, k, 0), SafetyFinding(o.controlled[k]))
    ensures NoMore(DueOf(o), CONTROLLED, k, 2)
  {
  }

  lemma StalledSlot(o: Observation, k: nat)
    requires k < |o.controlled| && o.target == Aptos
    ensures var r := o.controlled[k];
            Slot(DueOf(o), Place(CONTROLLED, k, 1),
                 StalledFinding(ControlledStall.Run(Ledgers(o.ledgers + o.controlled[..k + 1], r.node)).stall, r,
                                Growth(o.heights, o.probes, o.now), o.limits.stallWindows))
  {
    var r := o.controlled[k];
    StalledIs(ControlledStall.Run(Ledgers(o.ledgers + o.controlled[..k + 1], r.node)).stall, r,
              Growth(o.heights, o.probes, o.now), o.limits.stallWindows);
  }

  lemma StalledIs(stall: nat, r: ControlledRead, growth: int, limit: nat)
    ensures var s := StalledFinding(stall, r, growth, limit);
            if s == [] then forall f :: !StalledDue(stall, r, growth, limit, f)
            else |s| == 1 && StalledDue(stall, r, growth, limit, s[0])
  {
    TrackedIff(r);
  }

  lemma ListControlled(o: Observation, k: nat)
    requires k < |o.controlled| && o.target == Aptos
    ensures IsList(DueOf(o), ControlledPiece(o, k), Place(CONTROLLED, k, 0), Place(CONTROLLED, k + 1, 0))
  {
    var r, D := o.controlled[k], DueOf(o);
    var h := o.ledgers + o.controlled[..k + 1];
    assert (o.ledgers + o.controlled[..k]) + [r] == h;
    var safety := SafetyFinding(r);
    var stalled := StalledFinding(ControlledStall.Run(Ledgers(h, r.node)).stall, r,
                                  Growth(o.heights, o.probes, o.now), o.limits.stallWindows);
    SafetySlot(o, k);
    StalledSlot(o, k);
    SlotIsList(D, CONTROLLED, k, 0, safety);
    SlotIsList(D, CONTROLLED, k, 1, stalled);
    Join(D, safety, stalled, Place(CONTROLLED, k, 0), Place(CONTROLLED, k, 1), Place(CONTROLLED, k, 2));
    NextNode(D, safety + stalled, CONTROLLED, k, 2);
  }

  lemma {:induction false} ControlledUpTo(D: Due, h: seq<ControlledRead>, observed: seq<ControlledRead>,
                                          growth: int, limit: nat, n: nat)
    requires n <= |observed|
    requires forall k | 0 <= k < |observed| ::
               IsList(D, ControlledFindings(h + observed[..k], observed[k], growth, limit),
                      Place(CONTROLLED, k, 0), Place(CONTROLLED, k + 1, 0))
    ensures IsList(D, ControlledAll(h, observed[..n], growth, limit), Place(CONTROLLED, 0, 0), Place(CONTROLLED, n, 0))
  {
    if n == 0 {
      Empty(D, Place(CONTROLLED, 0, 0), Place(CONTROLLED, 0, 0));
    } else {
      var k := n - 1;
      ControlledUpTo(D, h, observed, growth, limit, k);
      ControlledSnoc(h, observed, growth, limit, k);
      OneMoreNode(D, CONTROLLED, k, ControlledAll(h, observed[..k], growth, limit),
                  ControlledFindings(h + observed[..k], observed[k], growth, limit),
                  ControlledAll(h, observed[..n], growth, limit));
    }
  }

  lemma ControlledList(o: Observation)
    ensures IsList(DueOf(o),
                   NodesPart(o.target, o.ledgers, o.controlled, Growth(o.heights, o.probes, o.now), o.limits),
                   Place(CONTROLLED, 0, 0), END)
  {
    if o.target == Aptos {
      assert o.controlled[..|o.controlled|] == o.controlled;
      var growth, n := Growth(o.heights, o.probes, o.now), |o.controlled|;
      forall k | 0 <= k < n
        ensures IsList(DueOf(o), ControlledFindings(o.ledgers + o.controlled[..k], o.controlled[k], growth,
                                                    o.limits.stallWindows),
                       Place(CONTROLLED, k, 0), Place(CONTROLLED, k + 1, 0))
      {
        ListControlled(o, k);
      }
      ControlledUpTo(DueOf(o), o.ledgers, o.controlled, growth, o.limits.stallWindows, n);
      NextCheck(DueOf(o), ControlledAll(o.ledgers, o.controlled, growth, o.limits.stallWindows), CONTROLLED, n);
    } else {
      OtherPlatform(DueOf(o), CONTROLLED);
    }
  }

  // ------------------------------------------------------------------------ the observation

  /** What the six checks find, one check after the other. */
  ghost function Found(o: Observation): (failures: seq<Finding>)
    ensures |failures| == |PeerFindings(o.baseline, PanicNames(o.target), o.round, o.probes)|
                          + |StallFindings(o.heights, o.probes, o.now, o.limits)|
                          + |FiscoPart(o.target, ViewOf(o), o.counts, o.probes)| + |SeedFindings(o.results)|
                          + |CapacityPart(o.target, o.gas, o.probes)|
                          + |NodesPart(o.target, o.ledgers, o.controlled,
                                       Growth(o.heights, o.probes, o.now), o.limits)|
  {
    Joined(PeerFindings(o.baseline, PanicNames(o.target), o.round, o.probes),
           StallFindings(o.heights, o.probes, o.now, o.limits),
           FiscoPart(o.target, ViewOf(o), o.counts, o.probes), SeedFindings(o.results),
           CapacityPart(o.target, o.gas, o.probes),
           NodesPart(o.target, o.ledgers, o.controlled, Growth(o.heights, o.probes, o.now), o.limits))
  }

  /** The six checks together report exactly what is due. */
  lemma JoinedExactly(o: Observation)
    ensures ReportsExactly(o, Found(o))
  {
    PeersList(o);
    StallsList(o);
    FiscoList(o);
    SeedsList(o);
    CapacityList(o);
    ControlledList(o);
    JoinSix(DueOf(o), PeerFindings(o.baseline, PanicNames(o.target), o.round, o.probes),
            StallFindings(o.heights, o.probes, o.now, o.limits),
            FiscoPart(o.target, ViewOf(o), o.counts, o.probes), SeedFindings(o.results),
            CapacityPart(o.target, o.gas, o.probes),
            NodesPart(o.target, o.ledgers, o.controlled, Growth(o.heights, o.probes, o.now), o.limits));
  }

  lemma JoinSix(D: Due, a: seq<Finding>, b: seq<Finding>, c: seq<Finding>, d: seq<Finding>, e: seq<Finding>,
                f: seq<Finding>)
    requires IsList(D, a, Place(0, 0, 0), Place(1, 0, 0)) && IsList(D, b, Place(1, 0, 0), Place(2, 0, 0))
    requires IsList(D, c, Place(2, 0, 0), Place(3, 0, 0)) && IsList(D, d, Place(3, 0, 0), Place(4, 0, 0))
    requires IsList(D, e, Place(4, 0, 0), Place(5, 0, 0)) && IsList(D, f, Place(5, 0, 0), END)
    ensures IsList(D, Joined(a, b, c, d, e, f), Place(0, 0, 0), END)
  {
    var from := Place(0, 0, 0);
    Join(D, a, b, from, Place(1, 0, 0), Place(2, 0, 0));
    Join(D, a + b, c, from, Place(2, 0, 0), Place(3, 0, 0));
    Join(D, a + b + c, d, from, Place(3, 0, 0), Place(4, 0, 0));
    Join(D, a + b + c + d, e, from, Place(4, 0, 0), Place(5, 0, 0));
    Join(D, a + b + c + d + e, f, from, Place(5, 0, 0), END);
  }
}
