/** When an observation of the BCB oracle reports a node with a signal, and when not (bcfuzzer/oracle.py). */
module Warrants {
  import opened Histories
  import opened Timeouts
  import opened Findings
  import opened Detections
  import opened Listing
  import opened Observations
  import ControlledStall

  /** The last of enough stalled reads of a mutated node, while a normal node grows. */
  predicate StalledAt(o: Observation, k: nat, signal: Signal, node: int) {
    && k < |o.controlled| && o.controlled[k].node == node
    && var r, growth := o.controlled[k], Growth(o.heights, o.probes, o.now);
    && r.alive && growth > 0
    && ControlledStall.Run(Ledgers(o.ledgers + o.controlled[..k + 1], node)).stall >= o.limits.stallWindows
    && if signal == SyncOnlyStall then "consensus.sync_only" in r.items
       else "consensus.sync_only" !in r.items && "consensus.round_initial_timeout_ms" in r.items
  }

  /** When a node is to be reported with a signal. */
  ghost predicate Warranted(o: Observation, signal: Signal, node: int) {
    match signal
    case ProcessDeath => exists p | p in o.probes :: p.node == node && !p.alive
    case Panic(name) =>
      exists p | p in o.probes :: p.node == node && Panicking(o.baseline, PanicNames(o.target), p.panics, name)
    case DurableStall => exists k :: StallsAt(o.heights, o.probes, o.now, o.limits, k, node)
    case TimeoutGrowth => o.target == Fisco && exists p | p in o.probes :: p.node == node && ShowsGrowth(o.baseline, p)
    case ViewChangeStorm => o.target == Fisco && exists k :: StormsAt(ViewOf(o), o.counts, o.probes, k, node)
    case PendingGrowth =>
      && o.target == Fisco && GateOpen(o.rounds + [Round(o.round, o.armed)])
      && Stall(o.heights + Samples(o.probes, o.now), node, o.limits.window) < o.limits.stallWindows
      && exists p | p in o.probes :: p.node == node && Backlog(o.baseline, p)
    case GasLimitCollapse => o.target == Geth && exists k :: CollapsesAt(o.gas, o.probes, k, node)
    case SafetyRulesFailure =>
      && o.target == Aptos
      && exists r | r in o.controlled :: r.node == node && "safety_rules.service" in r.items && !r.alive
    case SyncOnlyStall => o.target == Aptos && exists k :: StalledAt(o, k, signal, node)
    case TimeoutZeroStall => o.target == Aptos && exists k :: StalledAt(o, k, signal, node)
    case _ => exists r | r in o.results :: r.node == node && Shows(r, signal)
  }

  lemma PeerWarrants(o: Observation, k: nat, j: nat, f: Finding)
    requires PeerDue(o, k, j, f)
    ensures Warranted(o, f.signal, f.node)
  {
    assert o.probes[k] in o.probes;
    if j > 0 { assert Panics(o.baseline, PanicNames(o.target), o.probes[k].panics[j - 1], f.signal.name); }
  }

  lemma StallWarrants(o: Observation, k: nat, j: nat, f: Finding)
    requires StallDue(o, k, j, f)
    ensures Warranted(o, f.signal, f.node)
  {
    var h, e := o.heights + Samples(o.probes[..k], o.now), SampleOf(o.probes[k], o.now);
    TrailingIff(Quietness(h + [e], e.node, o.limits.window), o.limits.stallWindows);
    assert StallsAt(o.heights, o.probes, o.now, o.limits, k, f.node);
  }

  lemma FiscoWarrants(o: Observation, k: nat, j: nat, f: Finding)
    requires FiscoDue(o, k, j, f)
    ensures Warranted(o, f.signal, f.node)
  {
    var p := o.probes[k];
    assert p in o.probes;
    match j
    case 0 => if !ShowsGrowth(o.baseline, p) { NoneGrown(o.baseline, p, f.detail); }
    case 1 => assert StormsAt(ViewOf(o), o.counts, o.probes, k, f.node);
    case _ =>
  }

  lemma SeedWarrants(o: Observation, k: nat, j: nat, f: Finding)
    requires SeedDue(o, k, j, f)
    ensures Warranted(o, f.signal, f.node)
  {
    assert o.results[k] in o.results;
  }

  lemma CapacityWarrants(o: Observation, k: nat, j: nat, f: Finding)
    requires CapacityDue(o, k, j, f)
    ensures Warranted(o, f.signal, f.node)
  {
    assert CollapsesAt(o.gas, o.probes, k, f.node);
  }

  lemma ControlledWarrants(o: Observation, k: nat, j: nat, f: Finding)
    requires ControlledDue(o, k, j, f)
    ensures Warranted(o, f.signal, f.node)
  {
    assert o.controlled[k] in o.controlled;
    if j == 1 { assert StalledAt(o, k, f.signal, f.node); }
  }

  lemma DueWarrants(o: Observation, p: Place, f: Finding)
    requires DueAt(o, p, f)
    ensures Warranted(o, f.signal, f.node)
  {
    match p.check
    case 0 => PeerWarrants(o, p.k, p.j, f);
    case 1 => StallWarrants(o, p.k, p.j, f);
    case 2 => FiscoWarrants(o, p.k, p.j, f);
    case 3 => SeedWarrants(o, p.k, p.j, f);
    case 4 => CapacityWarrants(o, p.k, p.j, f);
    case 5 => ControlledWarrants(o, p.k, p.j, f);
  }

  /** Some finding with the signal is due for the node, in a check that there is. */
  ghost predicate DueFor(o: Observation, signal: Signal, node: int) {
    exists p, f :: DueAt(o, p, f) && f.signal == signal && f.node == node
  }

  lemma WarrantedPeers(o: Observation, signal: Signal, node: int)
    requires Warranted(o, signal, node) && (signal.ProcessDeath? || signal.Panic?)
    ensures DueFor(o, signal, node)
  {
    if signal.ProcessDeath? {
      var p :| p in o.probes && p.node == node && !p.alive;
      var k :| 0 <= k < |o.probes| && o.probes[k] == p;
      assert DueAt(o, Place(PEERS, k, 0), Finding(signal, node, [o.round]));
    } else {
      var names := PanicNames(o.target);
      var p :| p in o.probes && p.node == node && Panicking(o.baseline, names, p.panics, signal.name);
      var k :| 0 <= k < |o.probes| && o.probes[k] == p;
      var e :| e in p.panics && Panics(o.baseline, names, e, signal.name);
      var j :| 0 <= j < |p.panics| && p.panics[j] == e;
      assert DueAt(o, Place(PEERS, k, j + 1), Finding(signal, node, [e.1, BaseCount(o.baseline, e.0)]));
    }
  }

  lemma WarrantedStall(o: Observation, node: int)
    requires Warranted(o, DurableStall, node)
    ensures DueFor(o, DurableStall, node)
  {
    var k: nat :| StallsAt(o.heights, o.probes, o.now, o.limits, k, node);
    var h, e := o.heights + Samples(o.probes[..k], o.now), SampleOf(o.probes[k], o.now);
    TrailingIff(Quietness(h + [e], e.node, o.limits.window), o.limits.stallWindows);
    assert DueAt(o, Place(STALLS, k, 0),
                 Finding(DurableStall, node, [Stall(h + [e], node, o.limits.window), e.height]));
  }

  lemma WarrantedStorm(o: Observation, node: int)
    requires Warranted(o, ViewChangeStorm, node)
    ensures DueFor(o, ViewChangeStorm, node)
  {
    var k: nat :| StormsAt(ViewOf(o), o.counts, o.probes, k, node);
    var before, p := o.counts + CountsOf(o.probes[..k], false), o.probes[k];
    assert DueAt(o, Place(FISCO, k, 1),
                 Finding(ViewChangeStorm, node, [Max(0, p.events - LastCount(before, p.node).GetOr(p.events))]));
  }

  lemma WarrantedTimeouts(o: Observation, node: int)
    requires Warranted(o, TimeoutGrowth, node)
    ensures DueFor(o, TimeoutGrowth, node)
  {
    var p :| p in o.probes && p.node == node && ShowsGrowth(o.baseline, p);
    var k :| 0 <= k < |o.probes| && o.probes[k] == p;
    ShowsGrowthIff(o.baseline, p);
    AboveAreGrown(o.baseline, p.timeouts);
    assert DueAt(o, Place(FISCO, k, 0),
                 Finding(TimeoutGrowth, node, Above(Distinct(p.timeouts), 3 * MaxOf(BaseTimeouts(o.baseline)))));
  }

  lemma WarrantedPending(o: Observation, node: int)
    requires Warranted(o, PendingGrowth, node)
    ensures DueFor(o, PendingGrowth, node)
  {
    var p :| p in o.probes && p.node == node && Backlog(o.baseline, p);
    var k :| 0 <= k < |o.probes| && o.probes[k] == p;
    assert DueAt(o, Place(FISCO, k, 2), Finding(PendingGrowth, node, [p.pending, o.baseline.value.pending]));
  }

  lemma WarrantedSeed(o: Observation, signal: Signal, node: int)
    requires exists r | r in o.results :: r.node == node && Shows(r, signal)
    ensures DueFor(o, signal, node)
  {
    var r :| r in o.results && r.node == node && Shows(r, signal);
    var k :| 0 <= k < |o.results| && o.results[k] == r;
    var detail := match signal
                  case BadSignatureAccepted => [r.accepted]
                  case ExpiredAccepted => [r.submitted, r.hangs]
                  case _ => [r.accepted, r.secondError];
    assert DueAt(o, Place(SEEDS, k, 0), Finding(signal, node, detail));
  }

  lemma WarrantedCapacity(o: Observation, node: int)
    requires Warranted(o, GasLimitCollapse, node)
    ensures DueFor(o, GasLimitCollapse, node)
  {
    var k: nat :| CollapsesAt(o.gas, o.probes, k, node);
    var h := (o.gas + GasOf(o.probes[..k])) + [Gas(node, o.probes[k].gasLimit)];
    assert DueAt(o, Place(CAPACITY, k, 0),
                 Finding(GasLimitCollapse, node, [o.probes[k].gasLimit, CollapseRounds(h, node)]));
  }

  lemma WarrantedControlled(o: Observation, signal: Signal, node: int)
    requires Warranted(o, signal, node) && signal in {SafetyRulesFailure, SyncOnlyStall, TimeoutZeroStall}
    ensures DueFor(o, signal, node)
  {
    if signal == SafetyRulesFailure {
      var r :| r in o.controlled && r.node == node && "safety_rules.service" in r.items && !r.alive;
      var k :| 0 <= k < |o.controlled| && o.controlled[k] == r;
      assert DueAt(o, Place(CONTROLLED, k, 0), Finding(signal, node, []));
    } else {
      var k: nat :| StalledAt(o, k, signal, node);
      var stall := ControlledStall.Run(Ledgers(o.ledgers + o.controlled[..k + 1], node)).stall;
      assert DueAt(o, Place(CONTROLLED, k, 1),
                   Finding(signal, node, [stall, o.controlled[k].ledger, Growth(o.heights, o.probes, o.now)]));
    }
  }

  lemma WarrantedIsDue(o: Observation, signal: Signal, node: int)
    requires Warranted(o, signal, node)
    ensures DueFor(o, signal, node)
  {
    match signal
    case ProcessDeath => WarrantedPeers(o, signal, node);
    case Panic(_) => WarrantedPeers(o, signal, node);
    case DurableStall => WarrantedStall(o, node);
    case TimeoutGrowth => WarrantedTimeouts(o, node);
    case ViewChangeStorm => WarrantedStorm(o, node);
    case PendingGrowth => WarrantedPending(o, node);
    case GasLimitCollapse => WarrantedCapacity(o, node);
    case SafetyRulesFailure => WarrantedControlled(o, signal, node);
    case SyncOnlyStall => WarrantedControlled(o, signal, node);
    case TimeoutZeroStall => WarrantedControlled(o, signal, node);
    case _ => WarrantedSeed(o, signal, node);
  }

  /** What is due at one place has one signal and one node. */
  lemma OneSignal(o: Observation, p: Place, f: Finding, g: Finding)
    requires DueAt(o, p, f) && DueAt(o, p, g)
    ensures f.signal == g.signal && f.node == g.node
  {
    if p.check == SEEDS { ShowsOne(o.results[p.k], f.signal, g.signal); }
  }

  lemma ShowsOne(r: SeedResult, signal: Signal, other: Signal)
    requires Shows(r, signal) && Shows(r, other)
    ensures signal == other
  {
    if r.kind == "bad_signature" { assert r.kind[0] == 'b'; }
  }

  /** Every signal is reported for every node exactly when it is warranted. */
  lemma ReportedIff(o: Observation, failures: seq<Finding>, signal: Signal, node: int)
    requires ReportsExactly(o, failures)
    ensures Detections.Reported(failures, signal, node) <==> Warranted(o, signal, node)
  {
    if Detections.Reported(failures, signal, node) { ReportedIsWarranted(o, failures, signal, node); }
    if Warranted(o, signal, node) { WarrantedIsReported(o, failures, signal, node); }
  }

  lemma ReportedIsWarranted(o: Observation, failures: seq<Finding>, signal: Signal, node: int)
    requires ReportsExactly(o, failures) && Detections.Reported(failures, signal, node)
    ensures Warranted(o, signal, node)
  {
    var f :| f in failures && f.signal == signal && f.node == node;
    var p := StandsFor(DueOf(o), failures, f, Place(0, 0, 0), END);
    DueWarrants(o, p, f);
  }

  lemma WarrantedIsReported(o: Observation, failures: seq<Finding>, signal: Signal, node: int)
    requires ReportsExactly(o, failures) && Warranted(o, signal, node)
    ensures Detections.Reported(failures, signal, node)
  {
    WarrantedIsDue(o, signal, node);
    var p, f :| DueAt(o, p, f) && f.signal == signal && f.node == node;
    BeforeEnd(o, p, f);
    var g := StandsIn(DueOf(o), failures, p, f, Place(0, 0, 0), END);
    OneSignal(o, p, f, g);
  }

  lemma BeforeEnd(o: Observation, p: Place, f: Finding)
    requires DueAt(o, p, f)
    ensures Within(p, Place(0, 0, 0), END)
  {
  }

  // --------------------------------------------------------------------------- in what order

  /** The check that a signal comes from, in the order of the code. */
  function CheckOf(signal: Signal): nat {
    match signal
    case ProcessDeath => 0
    case Panic(_) => 0
    case DurableStall => 1
    case TimeoutGrowth => 2
    case ViewChangeStorm => 2
    case PendingGrowth => 2
    case GasLimitCollapse => 4
    case SafetyRulesFailure => 5
    case SyncOnlyStall => 5
    case TimeoutZeroStall => 5
    case _ => 3
  }

  ghost predicate InCheckOrder(failures: seq<Finding>) {
    forall i, j | 0 <= i < j < |failures| :: CheckOf(failures[i].signal) <= CheckOf(failures[j].signal)
  }

  lemma DueInCheck(o: Observation, p: Place, f: Finding)
    requires DueAt(o, p, f)
    ensures p.check == CheckOf(f.signal)
  {
  }

  /** Peers, stalls, fisco, seed results, capacity, controlled nodes. */
  lemma ChecksInOrder(o: Observation, failures: seq<Finding>)
    requires ReportsExactly(o, failures)
    ensures InCheckOrder(failures)
  {
    var places :| Lists(DueOf(o), failures, places, Place(0, 0, 0), END);
    forall i, j | 0 <= i < j < |failures| ensures CheckOf(failures[i].signal) <= CheckOf(failures[j].signal) {
      DueInCheck(o, places[i], failures[i]);
      DueInCheck(o, places[j], failures[j]);
      assert Before(places[i], places[j]);
    }
  }

  /** What one observation tells: each warranted signal of a node, and no other, in the order of the checks. */
  ghost predicate Tells(o: Observation, failures: seq<Finding>) {
    && ReportsExactly(o, failures) && InCheckOrder(failures)
    && forall signal, node :: Detections.Reported(failures, signal, node) <==> Warranted(o, signal, node)
  }

  lemma ExactlyTells(o: Observation, failures: seq<Finding>)
    requires ReportsExactly(o, failures)
    ensures Tells(o, failures)
  {
    ChecksInOrder(o, failures);
    forall signal, node ensures Detections.Reported(failures, signal, node) <==> Warranted(o, signal, node) {
      ReportedIff(o, failures, signal, node);
    }
  }
}
