/**
 * BcbOracle of bcfuzzer/oracle.py: the streaming detector, proved against the histories of
 * everything it has observed. Probe results, times and placements are inputs.
 */
module Oracle {
  import opened Results
  import opened Histories
  import opened Findings
  import opened Steps
  import Detections
  import opened Observations
  import opened Warrants
  import opened Timeouts
  import opened IdleWindow
  import ControlledStall

  // ------------------------------------------------------------------------- the detector

  class BcbOracle {
    const target: Target
    const limits: Limits
    var baseline: Option<Baseline>
    var last: map<int, (real, int)>
    var stall: map<int, nat>
    var everGrew: bool
    var viewChangeLast: map<int, int>
    var collapseRounds: map<int, nat>
    var armedRound: Option<int>
    var controlled: map<int, ControlledStall.Track>  // the ("c", node) keys of _last and _stall

    ghost var heights: seq<Sample>
    ghost var counts: seq<Count>
    ghost var gas: seq<Gas>
    ghost var rounds: seq<Round>
    ghost var ledgers: seq<ControlledRead>

    ghost predicate HeightsValid()
      reads this`heights, this`last, this`stall, this`everGrew
    {
      Tracks(heights, limits.window, last, stall, everGrew)
    }

    ghost predicate CountsValid()
      reads this`counts, this`viewChangeLast
    {
      forall i {:trigger i in viewChangeLast} ::
        LastCount(counts, i) == if i in viewChangeLast then Some(viewChangeLast[i]) else None
    }

    ghost predicate GasValid()
      reads this`gas, this`collapseRounds
    {
      forall i :: Get(collapseRounds, i) == CollapseRounds(gas, i)
    }

    ghost predicate RoundsValid()
      reads this`rounds, this`armedRound
    {
      armedRound == LastArmed(rounds)
    }

    ghost predicate LedgersValid()
      reads this`ledgers, this`controlled
    {
      TracksLedgers(ledgers, controlled)
    }

    /** Every field is the notion it stands for, over everything observed. */
    ghost predicate Valid()
      reads this
    {
      HeightsValid() && CountsValid() && GasValid() && RoundsValid() && LedgersValid()
    }

    constructor (target: Target, window: real)
      ensures Valid() && this.target == target && baseline == None
      ensures limits == Limits(window, if target == ChainMaker then 9 else PERSISTENCE_WINDOWS)
      ensures heights == [] && counts == [] && gas == [] && rounds == [] && ledgers == []
    {
      this.target := target;
      limits := Limits(window, if target == ChainMaker then 9 else PERSISTENCE_WINDOWS);
      baseline, armedRound, everGrew := None, None, false;
      last, stall, viewChangeLast, collapseRounds, controlled := map[], map[], map[], map[], map[];
      heights, counts, gas, rounds, ledgers := [], [], [], [], [];
    }

    /** Computes the idle-window baseline from two rounds of probes and re-bases every normal node's height. */
    method RegisterBaseline(first: seq<Probe>, second: seq<Probe>, times: seq<real>)
      requires Valid() && |first| == |second| == |times| && limits.window != 0.0
      modifies this`baseline, this`last, this`heights
      ensures Valid() && heights == old(heights) + BaseSamples(second, times)
      ensures baseline.Some? && BaselineOf(baseline.value, target, first, second, limits.window)
    {
      var b := ComputeBaseline(target, first, second, limits.window);
      baseline := Some(b);
      Rebase(BaseSamples(second, times));
    }

    method Rebase(observed: seq<Sample>)
      requires HeightsValid() && forall e | e in observed :: !e.probe
      modifies this`last, this`heights
      ensures HeightsValid() && heights == old(heights) + observed
      ensures old(CountsValid() && GasValid()) ==> CountsValid() && GasValid()
      ensures old(RoundsValid() && LedgersValid()) ==> RoundsValid() && LedgersValid()
    {
      for k := 0 to |observed|
        invariant HeightsValid() && heights == old(heights) + observed[..k]
      {
        var e := observed[k];
        assert e in observed;
        assert old(heights) + observed[..k + 1] == heights + [e];
        TracksBase(heights, e, limits.window, last, stall, everGrew);
        heights := heights + [e];
        last := last[e.node := (e.time, e.height)];
      }
      assert observed[..|observed|] == observed;
    }

    /** After the restarts of a fisco round: counters are read again and nothing is reported. */
    method SettleAfterRestarts(observed: seq<(int, int)>)
      requires Valid()
      modifies this`viewChangeLast, this`counts
      ensures Valid()
      ensures counts == old(counts) + if target == Fisco then SettleCounts(observed) else []
    {
      if target != Fisco { return; }
      for k := 0 to |observed|
        invariant CountsValid() && counts == old(counts) + SettleCounts(observed[..k])
      {
        assert observed[..k + 1][..k] == observed[..k];
        var (node, events) := observed[k];
        CountStep(counts, Count(node, events, true));
        counts := counts + [Count(node, events, true)];
        viewChangeLast := viewChangeLast[node := events];
      }
      assert observed[..|observed|] == observed;
    }

    /** The fisco checks of one probe. */
    method FiscoStep(p: Probe, open: bool, stalled: bool, bound: Option<real>) returns (found: seq<Finding>)
      requires CountsValid()
      modifies this`viewChangeLast, this`counts
      ensures CountsValid() && counts == old(counts) + [Count(p.node, p.events, false)]
      ensures found == TimeoutFinding(baseline, p) + StormFinding(bound, Delta(old(counts), p.node, p.events), p.node)
                       + PendingFinding(baseline, open, stalled, p)
    {
      var before := if p.node in viewChangeLast then viewChangeLast[p.node] else p.events;
      var delta: nat := Max(0, p.events - before);
      assert delta == Delta(counts, p.node, p.events) by { assert LastCount(counts, p.node).GetOr(p.events) == before; }
      CountStep(counts, Count(p.node, p.events, false));
      counts := counts + [Count(p.node, p.events, false)];
      viewChangeLast := viewChangeLast[p.node := p.events];
      found := ObserveTimeouts(p);
      if bound.Some? && delta as real >= bound.value {
        found := found + [Finding(ViewChangeStorm, p.node, [delta])];
      }
      if baseline.Some? && open && !stalled && p.pending >= Max(2 * baseline.value.pending + 10, 50) {
        found := found + [Finding(PendingGrowth, p.node, [p.pending, baseline.value.pending])];
      }
    }

    /** The capacity check of one probe. */
    method CollapseStep(p: Probe) returns (found: seq<Finding>)
      requires GasValid()
      modifies this`collapseRounds, this`gas
      ensures GasValid() && gas == old(gas) + [Gas(p.node, p.gasLimit)]
      ensures found == CollapseFinding(old(gas), Gas(p.node, p.gasLimit))
    {
      GasStep(gas, Gas(p.node, p.gasLimit));
      gas := gas + [Gas(p.node, p.gasLimit)];
      found := [];
      if p.gasLimit != 0 && p.gasLimit < COLLAPSE_THRESHOLD {
        collapseRounds := collapseRounds[p.node := Get(collapseRounds, p.node) + 1];
        if collapseRounds[p.node] >= PERSISTENCE_WINDOWS {
          found := [Finding(GasLimitCollapse, p.node, [p.gasLimit, collapseRounds[p.node]])];
        }
      } else {
        collapseRounds := collapseRounds[p.node := 0];
      }
    }

    /** The controlled-node check of one aptos node, as the code has it. */
    method ControlledStep(r: ControlledRead, growth: int) returns (found: seq<Finding>)
      requires LedgersValid()
      modifies this`controlled, this`ledgers
      ensures LedgersValid() && ledgers == old(ledgers) + [r]
      ensures found == ControlledFindings(old(ledgers), r, growth, limits.stallWindows)
    {
      var t := TrackStep(r);
      found := if "safety_rules.service" in r.items && !r.alive then [Finding(SafetyRulesFailure, r.node, [])] else [];
      if Tracked(r) {
        if t.stall >= limits.stallWindows && growth > 0 {
          found := found + [Finding(if "consensus.sync_only" in r.items then SyncOnlyStall else TimeoutZeroStall,
                                    r.node, [t.stall, r.ledger, growth])];
        }
      }
    }

    /** The track of a mutated node after a read that is tracked. */
    method TrackStep(r: ControlledRead) returns (t: ControlledStall.Track)
      requires LedgersValid()
      modifies this`controlled, this`ledgers
      ensures LedgersValid() && ledgers == old(ledgers) + [r]
      ensures t == ControlledStall.Run(Ledgers(ledgers, r.node))
    {
      TrackedStep(ledgers, controlled, r);
      t := TrackOf(controlled, r.node);
      ledgers := ledgers + [r];
      if Tracked(r) {
        t := Advance(t, r.ledger);
        controlled := controlled[r.node := t];
      }
    }

    static method Advance(before: ControlledStall.Track, ledger: int) returns (t: ControlledStall.Track)
      ensures t == ControlledStall.Step(before, ledger)
    {
      t := before;
      var best := t.best.GetOr(ledger);
      if ledger < 0 {
        t := t.(best := Some(best));
      } else if ledger <= best {
        t := t.(stall := t.stall + 1);
      } else {
        t := ControlledStall.Track(Some(ledger), 0);
      }
    }

    method ObservePeers(round: int, probes: seq<Probe>) returns (found: seq<Finding>)
      ensures found == PeerFindings(baseline, PanicNames(target), round, probes)
    {
      found := [];
      for k := 0 to |probes|
        invariant found == PeerFindings(baseline, PanicNames(target), round, probes[..k])
      {
        assert probes[..k + 1][..k] == probes[..k];
        var p := probes[k];
        if !p.alive { found := found + [Finding(ProcessDeath, p.node, [round])]; }
        var panics := ObservePanics(p.node, p.panics);
        found := found + panics;
      }
      assert probes[..|probes|] == probes;
    }

    method ObservePanics(node: int, panics: seq<(string, int)>) returns (found: seq<Finding>)
      ensures found == PanicFindings(baseline, PanicNames(target), node, panics)
    {
      found := [];
      for k := 0 to |panics|
        invariant found == PanicFindings(baseline, PanicNames(target), node, panics[..k])
      {
        assert panics[..k + 1][..k] == panics[..k];
        var (fragment, count) := panics[k];
        var base := 0;
        if baseline.Some? && fragment in baseline.value.panics { base := baseline.value.panics[fragment]; }
        if count != 0 && count > base {
          found := found + [Finding(Panic(PanicName(PanicNames(target), fragment)), node, [count, base])];
        }
      }
      assert panics[..|panics|] == panics;
    }

    /** The longest baseline timeout first, then the probe's timeouts against three times it. */
    method ObserveTimeouts(p: Probe) returns (found: seq<Finding>)
      ensures found == TimeoutFinding(baseline, p)
    {
      var longest := Longest(BaseTimeouts(baseline));
      var timeouts, grown := Distinct(p.timeouts), [];
      for k := 0 to |timeouts|
        invariant grown == Above(timeouts[..k], 3 * longest)
      {
        assert timeouts[..k + 1][..k] == timeouts[..k];
        if timeouts[k] >= 3 * longest { grown := grown + [timeouts[k]]; }
      }
      assert timeouts[..|timeouts|] == timeouts;
      found := if grown != [] then [Finding(TimeoutGrowth, p.node, grown)] else [];
    }

    method Longest(base: seq<int>) returns (longest: int)
      requires base != []
      ensures longest == MaxOf(base)
    {
      longest := base[0];
      assert base[..1] == [base[0]];
      for k := 1 to |base|
        invariant longest == MaxOf(base[..k])
      {
        assert base[..k + 1][..k] == base[..k];
        if base[k] > longest { longest := base[k]; }
      }
      assert base[..|base|] == base;
    }

    method ObserveStalls(now: real, probes: seq<Probe>) returns (found: seq<Finding>, growth: int)
      requires HeightsValid()
      modifies this`last, this`stall, this`everGrew, this`heights
      ensures HeightsValid() && heights == old(heights) + Samples(probes, now)
      ensures found == StallFindings(old(heights), probes, now, limits)
      ensures growth == Growth(old(heights), probes, now)
    {
      found, growth := [], 0;
      ghost var h := heights;
      for k := 0 to |probes|
        invariant HeightsValid() && heights == h + Samples(probes[..k], now)
        invariant found == StallFindings(h, probes[..k], now, limits)
        invariant growth == Growth(h, probes[..k], now)
      {
        SamplesStep(h, probes, k, now, limits);
        var more, rise := StallStep(probes[k], now);
        assert heights == h + Samples(probes[..k + 1], now);
        found, growth := found + more, Max(growth, rise);
      }
      assert probes[..|probes|] == probes;
    }

    method ObserveFisco(round: int, armed: bool, probes: seq<Probe>) returns (found: seq<Finding>)
      requires HeightsValid() && CountsValid() && RoundsValid()
      modifies this`armedRound, this`rounds, this`viewChangeLast, this`counts
      ensures HeightsValid() && CountsValid() && RoundsValid()
      ensures old(GasValid()) ==> GasValid()
      ensures old(LedgersValid()) ==> LedgersValid()
      ensures rounds == old(rounds) + [Round(round, armed)] && counts == old(counts) + CountsOf(probes, false)
      ensures found == FiscoFindings(View(), old(counts), probes)
    {
      if armed { armedRound := Some(round); }
      RoundStep(rounds, Round(round, armed));
      rounds := rounds + [Round(round, armed)];
      var open := armedRound.Some? && round - armedRound.value <= 1;
      found := FiscoLoop(open, StormBound(baseline, limits.window), probes);
    }

    method FiscoLoop(open: bool, bound: Option<real>, probes: seq<Probe>) returns (found: seq<Finding>)
      requires HeightsValid() && CountsValid()
      modifies this`viewChangeLast, this`counts
      ensures CountsValid() && counts == old(counts) + CountsOf(probes, false)
      ensures found == FiscoFindings(FiscoView(baseline, bound, open, heights, limits), old(counts), probes)
    {
      found := [];
      for k := 0 to |probes|
        invariant CountsValid() && counts == old(counts) + CountsOf(probes[..k], false)
        invariant found == FiscoFindings(FiscoView(baseline, bound, open, heights, limits), old(counts), probes[..k])
      {
        FiscoSnoc(FiscoView(baseline, bound, open, heights, limits), old(counts), probes, k);
        assert Get(stall, probes[k].node) == Stall(heights, probes[k].node, limits.window);
        var more := FiscoStep(probes[k], open, Get(stall, probes[k].node) >= limits.stallWindows, bound);
        found := found + more;
      }
      assert probes[..|probes|] == probes;
    }

    method ObserveCapacity(probes: seq<Probe>) returns (found: seq<Finding>)
      requires GasValid()
      modifies this`collapseRounds, this`gas
      ensures GasValid() && gas == old(gas) + GasOf(probes)
      ensures old(HeightsValid() && CountsValid()) ==> HeightsValid() && CountsValid()
      ensures old(RoundsValid() && LedgersValid()) ==> RoundsValid() && LedgersValid()
      ensures found == CollapseFindings(old(gas), probes)
    {
      found := [];
      for k := 0 to |probes|
        invariant GasValid() && gas == old(gas) + GasOf(probes[..k])
        invariant found == CollapseFindings(old(gas), probes[..k])
      {
        GasSnoc(old(gas), probes, k);
        var more := CollapseStep(probes[k]);
        found := found + more;
      }
      assert probes[..|probes|] == probes;
    }

    method ObserveControlled(observed: seq<ControlledRead>, growth: int) returns (found: seq<Finding>)
      requires LedgersValid()
      modifies this`controlled, this`ledgers
      ensures LedgersValid() && ledgers == old(ledgers) + observed
      ensures old(HeightsValid() && CountsValid()) ==> HeightsValid() && CountsValid()
      ensures old(RoundsValid() && GasValid()) ==> RoundsValid() && GasValid()
      ensures found == ControlledAll(old(ledgers), observed, growth, limits.stallWindows)
    {
      found := [];
      for k := 0 to |observed|
        invariant LedgersValid() && ledgers == old(ledgers) + observed[..k]
        invariant found == ControlledAll(old(ledgers), observed[..k], growth, limits.stallWindows)
      {
        ControlledSnoc(old(ledgers), observed, growth, limits.stallWindows, k);
        var more := ControlledStep(observed[k], growth);
        found := found + more;
      }
      assert observed[..|observed|] == observed;
    }

    /**
     * One observation. `mutations` are those of the round's placement, `results` what its
     * seeds gave, `controlledReads` the mutated nodes' probes.
     */
    method Observe(round: int, now: real, probes: seq<Probe>, mutations: seq<Mutation>, results: seq<SeedResult>,
                   controlledReads: seq<ControlledRead>) returns (failures: seq<Finding>)
      requires Valid()
      modifies this
      ensures Valid() && baseline == old(baseline)
      ensures heights == old(heights) + Samples(probes, now)
      ensures rounds == old(rounds) + if target == Fisco then [Round(round, Armed(mutations))] else []
      ensures counts == old(counts) + if target == Fisco then CountsOf(probes, false) else []
      ensures gas == old(gas) + if target == Geth then GasOf(probes) else []
      ensures ledgers == old(ledgers) + if target == Aptos then controlledReads else []
      ensures var o := old(Observed(round, now, Armed(mutations), probes, results, controlledReads));
              && failures == Found(o) && ReportsExactly(o, failures) && InCheckOrder(failures)
              && forall signal, node :: Detections.Reported(failures, signal, node) <==> Warranted(o, signal, node)
    {
      ghost var o := Observed(round, now, Armed(mutations), probes, results, controlledReads);
      failures := RunChecks(round, now, probes, Armed(mutations), results, controlledReads);
      JoinedExactly(o);
      ExactlyTells(o, failures);
    }

    /** The observation that begins now, after everything observed before. */
    ghost function Observed(round: int, now: real, armed: bool, probes: seq<Probe>, results: seq<SeedResult>,
                            controlledReads: seq<ControlledRead>): Observation
      reads this
    {
      Observation(target, limits, baseline, round, now, armed, probes, results, controlledReads,
                  heights, counts, gas, rounds, ledgers)
    }

    method RunChecks(round: int, now: real, probes: seq<Probe>, armed: bool, results: seq<SeedResult>,
                     controlledReads: seq<ControlledRead>) returns (failures: seq<Finding>)
      requires Valid()
      modifies this
      ensures Valid() && baseline == old(baseline)
      ensures heights == old(heights) + Samples(probes, now)
      ensures rounds == old(rounds) + if target == Fisco then [Round(round, armed)] else []
      ensures counts == old(counts) + if target == Fisco then CountsOf(probes, false) else []
      ensures gas == old(gas) + if target == Geth then GasOf(probes) else []
      ensures ledgers == old(ledgers) + if target == Aptos then controlledReads else []
      ensures failures == Found(old(Observed(round, now, armed, probes, results, controlledReads)))
    {
      ghost var o := Observed(round, now, armed, probes, results, controlledReads);
      var peers, stalls, growth := ObserveNormal(round, now, probes);
      var fisco, capacity, nodes := ObserveTarget(round, armed, probes, controlledReads, growth);
      assert target == Fisco ==> View() == ViewOf(o);
      var seeds := ClassifySeeds(results);
      failures := Joined(peers, stalls, fisco, seeds, capacity, nodes);
    }

    method ClassifySeeds(results: seq<SeedResult>) returns (found: seq<Finding>)
      ensures found == SeedFindings(results)
    {
      found := [];
      for k := 0 to |results|
        invariant found == SeedFindings(results[..k])
      {
        assert results[..k + 1][..k] == results[..k];
        found := found + Classified(results[k]);
      }
      assert results[..|results|] == results;
    }

    /** The checks of every platform. */
    method ObserveNormal(round: int, now: real, probes: seq<Probe>)
      returns (peers: seq<Finding>, stalls: seq<Finding>, growth: int)
      requires HeightsValid()
      modifies this`last, this`stall, this`everGrew, this`heights
      ensures HeightsValid() && heights == old(heights) + Samples(probes, now)
      ensures peers == PeerFindings(baseline, PanicNames(target), round, probes)
      ensures stalls == StallFindings(old(heights), probes, now, limits)
      ensures growth == Growth(old(heights), probes, now)
      ensures old(CountsValid()) ==> CountsValid()
      ensures old(GasValid()) ==> GasValid()
      ensures old(RoundsValid()) ==> RoundsValid()
      ensures old(LedgersValid()) ==> LedgersValid()
    {
      peers := ObservePeers(round, probes);
      stalls, growth := ObserveStalls(now, probes);
    }

    /** The checks of one platform only. */
    method ObserveTarget(round: int, armed: bool, probes: seq<Probe>, controlledReads: seq<ControlledRead>, growth: int)
      returns (fisco: seq<Finding>, capacity: seq<Finding>, nodes: seq<Finding>)
      requires Valid()
      modifies this`armedRound, this`rounds, this`viewChangeLast, this`counts, this`collapseRounds, this`gas
      modifies this`controlled, this`ledgers
      ensures Valid()
      ensures rounds == old(rounds) + if target == Fisco then [Round(round, armed)] else []
      ensures counts == old(counts) + if target == Fisco then CountsOf(probes, false) else []
      ensures gas == old(gas) + if target == Geth then GasOf(probes) else []
      ensures ledgers == old(ledgers) + if target == Aptos then controlledReads else []
      ensures fisco == FiscoPart(target, View(), old(counts), probes)
      ensures capacity == CapacityPart(target, old(gas), probes)
      ensures nodes == NodesPart(target, old(ledgers), controlledReads, growth, limits)
    {
      fisco, capacity, nodes := [], [], [];
      if target == Fisco { fisco := ObserveFisco(round, armed, probes); }
      if target == Geth { capacity := ObserveCapacity(probes); }
      if target == Aptos { nodes := ObserveControlled(controlledReads, growth); }
    }

    /** What the fisco checks of the latest observation saw. */
    ghost function View(): FiscoView
      reads this`baseline, this`rounds, this`heights
    {
      FiscoView(baseline, StormBound(baseline, limits.window), rounds != [] && GateOpen(rounds), heights, limits)
    }

    /** The stall check of one probe. */
    method StallStep(p: Probe, now: real) returns (found: seq<Finding>, growth: int)
      requires HeightsValid()
      modifies this`last, this`stall, this`everGrew, this`heights
      ensures HeightsValid() && heights == old(heights) + [SampleOf(p, now)]
      ensures found == StallFinding(old(heights), SampleOf(p, now), limits)
      ensures growth == p.height - Best(old(heights), p.node).GetOr(p.height)
    {
      found := [];
      var (lastTime, lastHeight) := if p.node in last then last[p.node] else (now, p.height);
      growth := p.height - lastHeight;
      if p.height < 0 || (p.height == 0 && lastHeight > 0) {
        TracksError(heights, SampleOf(p, now), limits.window, last, stall, everGrew, lastHeight);
        last := last[p.node := (now, lastHeight)];
        heights := heights + [SampleOf(p, now)];
        return;
      }
      var quiet := IsQuiet(everGrew || p.height > lastHeight, p.height, lastHeight, now, lastTime, limits.window);
      TracksEvidence(heights, SampleOf(p, now), limits.window, last, stall, everGrew, lastTime, lastHeight, quiet);
      heights := heights + [SampleOf(p, now)];
      if p.height > lastHeight { everGrew := true; }
      stall := stall[p.node := if quiet then Get(stall, p.node) + 1 else 0];
      if stall[p.node] >= limits.stallWindows {
        found := [Finding(DurableStall, p.node, [stall[p.node], p.height])];
      }
      last := last[p.node := (now, Max(p.height, lastHeight))];
    }
  }
}
