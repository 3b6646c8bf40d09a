/** When each finding of the BCB oracle is reported, and when not (bcfuzzer/oracle.py). */
module Detections {
  import opened Results
  import opened Histories
  import opened Timeouts
  import opened Values
  import opened Findings
  import opened Steps

  // ------------------------------------------------- what an observation can and cannot say

  lemma {:induction false} StallFindingFrom(h: seq<Sample>, probes: seq<Probe>, now: real, l: Limits, f: Finding)
    returns (k: nat)
    requires f in StallFindings(h, probes, now, l)
    ensures k < |probes| && f.node == probes[k].node
    ensures Stalls(h + Samples(probes[..k], now), SampleOf(probes[k], now), l.window, l.stallWindows)
  {
    var before := probes[..|probes| - 1];
    if f in StallFindings(h, before, now, l) {
      k := StallFindingFrom(h, before, now, l, f);
      assert before[..k] == probes[..k];
    } else {
      k := |probes| - 1;
      StallFindingIs(h + Samples(before, now), SampleOf(probes[k], now), l, f);
    }
  }

  lemma StallFindingIs(h: seq<Sample>, e: Sample, l: Limits, f: Finding)
    requires f in StallFinding(h, e, l)
    ensures f.node == e.node && Stalls(h, e, l.window, l.stallWindows)
  {
  }

  ghost predicate NodeIn(found: seq<Finding>, node: int) { exists f | f in found :: f.node == node }

  lemma NodeInBoth(a: seq<Finding>, b: seq<Finding>, node: int)
    ensures NodeIn(a + b, node) <==> NodeIn(a, node) || NodeIn(b, node)
  {
    assert forall f :: f in a + b <==> f in a || f in b;
  }

  ghost predicate StallsAt(h: seq<Sample>, probes: seq<Probe>, now: real, l: Limits, k: nat, node: int) {
    && k < |probes| && probes[k].node == node
    && Stalls(h + Samples(probes[..k], now), SampleOf(probes[k], now), l.window, l.stallWindows)
  }

  lemma {:induction false} StallFindingAt(h: seq<Sample>, probes: seq<Probe>, now: real, l: Limits, k: nat, node: int)
    requires StallsAt(h, probes, now, l, k, node)
    ensures NodeIn(StallFindings(h, probes, now, l), node)
  {
    var n := |probes| - 1;
    var before, last := probes[..n], StallFinding(h + Samples(probes[..n], now), SampleOf(probes[n], now), l);
    NodeInBoth(StallFindings(h, before, now, l), last, node);
    if k < n {
      assert before[..k] == probes[..k];
      StallFindingAt(h, before, now, l, k, node);
    } else {
      StallFindingOf(h + Samples(before, now), SampleOf(probes[n], now), l);
    }
  }

  lemma StallFindingOf(h: seq<Sample>, e: Sample, l: Limits)
    requires Stalls(h, e, l.window, l.stallWindows)
    ensures NodeIn(StallFinding(h, e, l), e.node)
  {
    assert StallFinding(h, e, l)[0] in StallFinding(h, e, l);
  }

  /** A node is reported as stalled exactly when the history stalls at one of its probes. */
  lemma StallReportedIff(h: seq<Sample>, probes: seq<Probe>, now: real, l: Limits, node: int)
    ensures NodeIn(StallFindings(h, probes, now, l), node) <==> exists k :: StallsAt(h, probes, now, l, k, node)
  {
    if NodeIn(StallFindings(h, probes, now, l), node) {
      var f :| f in StallFindings(h, probes, now, l) && f.node == node;
      var k := StallFindingFrom(h, probes, now, l, f);
      assert StallsAt(h, probes, now, l, k, node);
    }
    if k :| StallsAt(h, probes, now, l, k, node) { StallFindingAt(h, probes, now, l, k, node); }
  }

  ghost predicate CollapsesAt(h: seq<Gas>, probes: seq<Probe>, k: nat, node: int) {
    && k < |probes| && probes[k].node == node
    && EndsIn(GasFlags((h + GasOf(probes[..k])) + [Gas(node, probes[k].gasLimit)], node), PERSISTENCE_WINDOWS)
  }

  lemma CollapseOfNode(h: seq<Gas>, e: Gas, node: int)
    ensures NodeIn(CollapseFinding(h, e), node)
            <==> e.node == node && EndsIn(GasFlags(h + [e], node), PERSISTENCE_WINDOWS)
  {
    CollapseIff(h, e, PERSISTENCE_WINDOWS);
    var found := CollapseFinding(h, e);
    assert found != [] ==> found[0] in found;
  }

  lemma {:induction false} CollapseFindingAt(h: seq<Gas>, probes: seq<Probe>, k: nat, node: int)
    requires CollapsesAt(h, probes, k, node)
    ensures NodeIn(CollapseFindings(h, probes), node)
  {
    var n := |probes| - 1;
    var before, e := probes[..n], Gas(probes[n].node, probes[n].gasLimit);
    NodeInBoth(CollapseFindings(h, before), CollapseFinding(h + GasOf(before), e), node);
    if k < n {
      assert before[..k] == probes[..k];
      CollapseFindingAt(h, before, k, node);
    } else {
      CollapseOfNode(h + GasOf(before), e, node);
    }
  }

  lemma {:induction false} CollapseFindingFrom(h: seq<Gas>, probes: seq<Probe>, node: int) returns (k: nat)
    requires NodeIn(CollapseFindings(h, probes), node)
    ensures CollapsesAt(h, probes, k, node)
  {
    var n := |probes| - 1;
    var before, e := probes[..n], Gas(probes[n].node, probes[n].gasLimit);
    NodeInBoth(CollapseFindings(h, before), CollapseFinding(h + GasOf(before), e), node);
    if NodeIn(CollapseFindings(h, before), node) {
      k := CollapseFindingFrom(h, before, node);
      assert before[..k] == probes[..k];
    } else {
      k := n;
      CollapseOfNode(h + GasOf(before), e, node);
    }
  }

  /** A node is reported as collapsed exactly at a read that is its third collapsed one in a row, or a later one. */
  lemma CollapseReportedIff(h: seq<Gas>, probes: seq<Probe>, node: int)
    ensures NodeIn(CollapseFindings(h, probes), node) <==> exists k :: CollapsesAt(h, probes, k, node)
  {
    if NodeIn(CollapseFindings(h, probes), node) {
      var k := CollapseFindingFrom(h, probes, node);
    }
    if k :| CollapsesAt(h, probes, k, node) { CollapseFindingAt(h, probes, k, node); }
  }

  ghost predicate FiscoAt(v: FiscoView, counts: seq<Count>, probes: seq<Probe>, k: nat, f: Finding) {
    k < |probes| && f in FiscoNode(v, counts + CountsOf(probes[..k], false), probes[k])
  }

  function Gathered(F: nat -> seq<Finding>, n: nat): seq<Finding> {
    if n == 0 then [] else Gathered(F, n - 1) + F(n - 1)
  }

  lemma {:induction false} GatheredFrom(F: nat -> seq<Finding>, n: nat, f: Finding) returns (k: nat)
    requires f in Gathered(F, n)
    ensures k < n && f in F(k)
  {
    k := n - 1;
    if f !in F(k) { k := GatheredFrom(F, n - 1, f); }
  }

  lemma {:induction false} GatheredAt(F: nat -> seq<Finding>, n: nat, k: nat, f: Finding)
    requires k < n && f in F(k)
    ensures f in Gathered(F, n)
  {
    if k < n - 1 { GatheredAt(F, n - 1, k, f); }
  }

  ghost function NodeFindings(v: FiscoView, counts: seq<Count>, probes: seq<Probe>): nat -> seq<Finding> {
    (k: nat) => if k < |probes| then FiscoNode(v, counts + CountsOf(probes[..k], false), probes[k]) else []
  }

  lemma NodeFindingsSnoc(v: FiscoView, counts: seq<Count>, probes: seq<Probe>, k: nat)
    requires k < |probes|
    ensures FiscoFindings(v, counts, probes[..k + 1])
            == FiscoFindings(v, counts, probes[..k]) + NodeFindings(v, counts, probes)(k)
  {
    FiscoSnoc(v, counts, probes, k);
  }

  lemma {:induction false} GatheredIs(F: nat -> seq<Finding>, upTo: nat -> seq<Finding>, n: nat)
    requires upTo(0) == [] && forall k: nat | k < n :: upTo(k + 1) == upTo(k) + F(k)
    ensures upTo(n) == Gathered(F, n)
  {
    if n > 0 { GatheredIs(F, upTo, n - 1); }
  }

  lemma FiscoGathered(v: FiscoView, counts: seq<Count>, probes: seq<Probe>)
    ensures FiscoFindings(v, counts, probes) == Gathered(NodeFindings(v, counts, probes), |probes|)
  {
    var upTo := (k: nat) => if k <= |probes| then FiscoFindings(v, counts, probes[..k]) else [];
    forall k: nat | k < |probes| ensures upTo(k + 1) == upTo(k) + NodeFindings(v, counts, probes)(k) {
      NodeFindingsSnoc(v, counts, probes, k);
    }
    GatheredIs(NodeFindings(v, counts, probes), upTo, |probes|);
    assert probes[..|probes|] == probes;
  }

  lemma FiscoFindingFrom(v: FiscoView, counts: seq<Count>, probes: seq<Probe>, f: Finding) returns (k: nat)
    requires f in FiscoFindings(v, counts, probes)
    ensures FiscoAt(v, counts, probes, k, f)
  {
    FiscoGathered(v, counts, probes);
    k := GatheredFrom(NodeFindings(v, counts, probes), |probes|, f);
  }

  lemma FiscoFindingAt(v: FiscoView, counts: seq<Count>, probes: seq<Probe>, k: nat, f: Finding)
    requires FiscoAt(v, counts, probes, k, f)
    ensures f in FiscoFindings(v, counts, probes)
  {
    FiscoGathered(v, counts, probes);
    GatheredAt(NodeFindings(v, counts, probes), |probes|, k, f);
  }

  /** What a seed result has to show for each signal; a pair only counts when the other two do not apply. */
  predicate Shows(r: SeedResult, signal: Signal) {
    match signal
    case BadSignatureAccepted => BadSignature(r)
    case ExpiredAccepted => Expired(r)
    case ReplacementRejected => r.pair && (r.accepted < 2 || r.underpriced) && !BadSignature(r) && !Expired(r)
    case _ => false
  }

  predicate BadSignature(r: SeedResult) { r.kind == "bad_signature" && r.accepted > 0 }

  predicate Expired(r: SeedResult) { r.kind == "expired_tx" && (r.submitted > 0 || r.hangs > 0) }

  lemma ShowsOf(r: SeedResult, signal: Signal, node: int)
    ensures Reported(Classified(r), signal, node) <==> r.node == node && Shows(r, signal)
  {
    var found := Classified(r);
    assert found != [] ==> found[0] in found;
    if r.kind == "bad_signature" { assert r.kind[0] == 'b'; }
  }

  /** A seed failure is reported exactly for the nodes whose results show it. */
  lemma {:induction false} SeedReportedIff(results: seq<SeedResult>, signal: Signal, node: int)
    ensures Reported(SeedFindings(results), signal, node)
            <==> exists r | r in results :: r.node == node && Shows(r, signal)
  {
    if results != [] {
      var before, last := results[..|results| - 1], results[|results| - 1];
      SeedReportedIff(before, signal, node);
      assert forall r :: r in results <==> r in before || r == last;
      ReportedBoth(SeedFindings(before), Classified(last), signal, node);
      ShowsOf(last, signal, node);
    }
  }

  ghost predicate Reported(found: seq<Finding>, signal: Signal, node: int) {
    exists f | f in found :: f.signal == signal && f.node == node
  }

  /** A node is reported with a signal exactly when one of its probes gives it. */
  lemma ReportedAt(v: FiscoView, counts: seq<Count>, probes: seq<Probe>, signal: Signal, node: int)
    ensures Reported(FiscoFindings(v, counts, probes), signal, node)
            <==> exists k | 0 <= k < |probes| ::
                   Reported(FiscoNode(v, counts + CountsOf(probes[..k], false), probes[k]), signal, node)
  {
    if Reported(FiscoFindings(v, counts, probes), signal, node) {
      var f :| f in FiscoFindings(v, counts, probes) && f.signal == signal && f.node == node;
      var k := FiscoFindingFrom(v, counts, probes, f);
      assert Reported(FiscoNode(v, counts + CountsOf(probes[..k], false), probes[k]), signal, node);
    }
    if k :| 0 <= k < |probes|
            && Reported(FiscoNode(v, counts + CountsOf(probes[..k], false), probes[k]), signal, node) {
      var f :| f in FiscoNode(v, counts + CountsOf(probes[..k], false), probes[k])
               && f.signal == signal && f.node == node;
      FiscoFindingAt(v, counts, probes, k, f);
    }
  }

  lemma {:induction false} MaxIs(values: seq<int>)
    requires values != []
    ensures MaxOf(values) in values && forall x | x in values :: x <= MaxOf(values)
  {
    if |values| > 1 {
      MaxIs(values[..|values| - 1]);
      assert forall x :: x in values <==> x in values[..|values| - 1] || x == values[|values| - 1];
    }
  }

  lemma {:induction false} AboveSome(values: seq<int>, bound: int)
    ensures Above(values, bound) != [] <==> Somewhere(t => t >= bound, values)
  {
    if values != [] {
      var before, last := values[..|values| - 1], values[|values| - 1];
      assert values == before + [last];
      AboveSome(before, bound);
      SomewhereSnoc(t => t >= bound, before, last);
    }
  }

  /** At least three times every timeout of the baseline; 9000 without any. */
  predicate Grown(b: Option<Baseline>, t: int) {
    if b.Some? && b.value.timeouts != [] then forall x | x in b.value.timeouts :: t >= 3 * x else t >= 9000
  }

  lemma GrownIff(b: Option<Baseline>, t: int)
    ensures Grown(b, t) <==> t >= 3 * MaxOf(BaseTimeouts(b))
  {
    MaxIs(BaseTimeouts(b));
  }

  predicate ShowsGrowth(b: Option<Baseline>, p: Probe) { exists k | 0 <= k < |p.timeouts| :: Grown(b, p.timeouts[k]) }

  lemma ShowsGrowthIff(b: Option<Baseline>, p: Probe)
    ensures ShowsGrowth(b, p) <==> Above(Distinct(p.timeouts), 3 * MaxOf(BaseTimeouts(b))) != []
  {
    var bound := 3 * MaxOf(BaseTimeouts(b));
    AboveSome(Distinct(p.timeouts), bound);
    DistinctIs(p.timeouts, t => t >= bound);
    forall t ensures Grown(b, t) <==> t >= bound { GrownIff(b, t); }
  }

  lemma TimeoutOf(v: FiscoView, counts: seq<Count>, p: Probe, node: int)
    ensures Reported(FiscoNode(v, counts, p), TimeoutGrowth, node) <==> p.node == node && ShowsGrowth(v.baseline, p)
  {
    var grown := Above(Distinct(p.timeouts), 3 * MaxOf(BaseTimeouts(v.baseline)));
    ShowsGrowthIff(v.baseline, p);
    if grown != [] { assert Finding(TimeoutGrowth, p.node, grown) in FiscoNode(v, counts, p); }
  }

  /**
   * Timeout growth is reported exactly for the nodes that show a timeout at least three times every
   * baseline timeout.
   */
  lemma TimeoutReportedIff(v: FiscoView, counts: seq<Count>, probes: seq<Probe>, node: int)
    ensures Reported(FiscoFindings(v, counts, probes), TimeoutGrowth, node)
            <==> exists p | p in probes :: p.node == node && ShowsGrowth(v.baseline, p)
  {
    ReportedAt(v, counts, probes, TimeoutGrowth, node);
    forall k | 0 <= k < |probes|
      ensures Reported(FiscoNode(v, counts + CountsOf(probes[..k], false), probes[k]), TimeoutGrowth, node)
              <==> probes[k].node == node && ShowsGrowth(v.baseline, probes[k])
    {
      TimeoutOf(v, counts + CountsOf(probes[..k], false), probes[k], node);
    }
  }

  /**
   * A storm: with a baseline, the new events reach ten times its rate over the window, and a tenth of
   * an event a second.
   */
  predicate Storms(b: Option<Baseline>, window: real, counts: seq<Count>, p: Probe) {
    && b.Some?
    && var events := Max(0, p.events - LastCount(counts, p.node).GetOr(p.events)) as real;
    && events >= 10.0 * b.value.viewChangeRate * window && events >= 0.1 * window
  }

  lemma StormOf(v: FiscoView, counts: seq<Count>, p: Probe, node: int)
    requires v.stormBound == StormBound(v.baseline, v.limits.window)
    ensures Reported(FiscoNode(v, counts, p), ViewChangeStorm, node)
            <==> p.node == node && Storms(v.baseline, v.limits.window, counts, p)
  {
    StormsIff(v.baseline, v.limits.window, counts, p);
    var stalled := Stall(v.heights, p.node, v.limits.window) >= v.limits.stallWindows;
    StormAmong(
      TimeoutFinding(v.baseline, p), v.stormBound, Delta(counts, p.node, p.events), p.node,
      PendingFinding(v.baseline, v.open, stalled, p), node);
  }

  /** Between findings of other signals, the storm finding is the one reported. */
  lemma StormAmong(a: seq<Finding>, bound: Option<real>, delta: nat, n: int, b: seq<Finding>, node: int)
    requires forall f | f in a + b :: f.signal != ViewChangeStorm
    ensures Reported(a + StormFinding(bound, delta, n) + b, ViewChangeStorm, node)
            <==> n == node && StormFinding(bound, delta, n) != []
  {
    var found := StormFinding(bound, delta, n);
    if found != [] { assert (a + found + b)[|a|] == found[0]; }
  }

  lemma StormsIff(b: Option<Baseline>, window: real, counts: seq<Count>, p: Probe)
    ensures Storms(b, window, counts, p)
            <==> StormFinding(StormBound(b, window), Delta(counts, p.node, p.events), p.node) != []
  {
    if b.Some? {
      StormAbove(10.0 * b.value.viewChangeRate * window, 0.1 * window, Delta(counts, p.node, p.events), p.node);
    }
  }

  lemma StormAbove(relative: real, floor: real, delta: nat, node: int)
    ensures StormFinding(Some(StormThreshold(relative, floor)), delta, node) != []
            <==> delta as real >= relative && delta as real >= floor
  {
  }

  ghost predicate StormsAt(v: FiscoView, counts: seq<Count>, probes: seq<Probe>, k: nat, node: int) {
    && k < |probes| && probes[k].node == node
    && Storms(v.baseline, v.limits.window, counts + CountsOf(probes[..k], false), probes[k])
  }

  /** A storm is reported exactly where the events since the last read of a node's counter make one. */
  lemma StormReportedIff(v: FiscoView, counts: seq<Count>, probes: seq<Probe>, node: int)
    requires v.stormBound == StormBound(v.baseline, v.limits.window)
    ensures Reported(FiscoFindings(v, counts, probes), ViewChangeStorm, node)
            <==> exists k :: StormsAt(v, counts, probes, k, node)
  {
    ReportedAt(v, counts, probes, ViewChangeStorm, node);
    forall k: nat | k < |probes|
      ensures Reported(FiscoNode(v, counts + CountsOf(probes[..k], false), probes[k]), ViewChangeStorm, node)
              <==> StormsAt(v, counts, probes, k, node)
    {
      StormOf(v, counts + CountsOf(probes[..k], false), probes[k], node);
    }
  }

  /** A backlog of 50, and 10 more than twice that of the baseline. */
  predicate Backlog(b: Option<Baseline>, p: Probe) {
    b.Some? && p.pending >= 50 && p.pending >= 2 * b.value.pending + 10
  }

  lemma PendingOf(v: FiscoView, counts: seq<Count>, p: Probe, node: int)
    ensures Reported(FiscoNode(v, counts, p), PendingGrowth, node)
            <==> p.node == node && v.open && Stall(v.heights, node, v.limits.window) < v.limits.stallWindows
                 && Backlog(v.baseline, p)
  {
    var stalled := Stall(v.heights, p.node, v.limits.window) >= v.limits.stallWindows;
    var found := PendingFinding(v.baseline, v.open, stalled, p);
    assert forall f :: f in FiscoNode(v, counts, p) && f.signal == PendingGrowth <==> f in found;
    if found != [] { assert found[0] in found; }
  }

  /** Pending growth is reported exactly for the nodes with a backlog that are not stalled, while the gate is open. */
  lemma PendingReportedIff(v: FiscoView, counts: seq<Count>, probes: seq<Probe>, node: int)
    ensures Reported(FiscoFindings(v, counts, probes), PendingGrowth, node)
            <==> v.open && Stall(v.heights, node, v.limits.window) < v.limits.stallWindows
                 && exists p | p in probes :: p.node == node && Backlog(v.baseline, p)
  {
    ReportedAt(v, counts, probes, PendingGrowth, node);
    forall k | 0 <= k < |probes|
      ensures Reported(FiscoNode(v, counts + CountsOf(probes[..k], false), probes[k]), PendingGrowth, node)
              <==> probes[k].node == node && v.open && Stall(v.heights, node, v.limits.window) < v.limits.stallWindows
                   && Backlog(v.baseline, probes[k])
    {
      PendingOf(v, counts + CountsOf(probes[..k], false), probes[k], node);
    }
  }

  /** A count of this signal that is above what the idle window showed for its fragment. */
  predicate Panics(b: Option<Baseline>, names: map<string, string>, e: (string, int), name: string) {
    PanicName(names, e.0) == name && e.1 != 0 && e.1 > BaseCount(b, e.0)
  }

  predicate Panicking(b: Option<Baseline>, names: map<string, string>, panics: seq<(string, int)>, name: string) {
    exists e | e in panics :: Panics(b, names, e, name)
  }

  lemma PanickingSnoc(b: Option<Baseline>, names: map<string, string>, panics: seq<(string, int)>, e: (string, int),
                      name: string)
    ensures Panicking(b, names, panics + [e], name) <==> Panicking(b, names, panics, name) || Panics(b, names, e, name)
  {
    assert forall x :: x in panics + [e] <==> x in panics || x == e;
  }

  lemma {:induction false} PanicOf(b: Option<Baseline>, names: map<string, string>, probed: int,
                                   panics: seq<(string, int)>,
                                   name: string, node: int)
    ensures Reported(PanicFindings(b, names, probed, panics), Panic(name), node)
            <==> probed == node && Panicking(b, names, panics, name)
  {
    if panics != [] {
      var before, last := panics[..|panics| - 1], panics[|panics| - 1];
      assert panics == before + [last];
      PanicOf(b, names, probed, before, name, node);
      PanickingSnoc(b, names, before, last, name);
      var more := PanicFinding(b, names, probed, last);
      assert PanicFindings(b, names, probed, panics) == PanicFindings(b, names, probed, before) + more;
      ReportedBoth(PanicFindings(b, names, probed, before), more, Panic(name), node);
      assert more != [] ==> more[0] in more;
    }
  }

  lemma ReportedBoth(a: seq<Finding>, b: seq<Finding>, signal: Signal, node: int)
    ensures Reported(a + b, signal, node) <==> Reported(a, signal, node) || Reported(b, signal, node)
  {
    assert forall f :: f in a + b <==> f in a || f in b;
  }

  /**
   * A panic signal is reported exactly for the nodes that show a fragment of it more often than the
   * idle window did.
   */
  lemma {:induction false} PanicReportedIff(b: Option<Baseline>, names: map<string, string>, round: int,
                                            probes: seq<Probe>,
                                            name: string, node: int)
    ensures Reported(PeerFindings(b, names, round, probes), Panic(name), node)
            <==> exists p | p in probes :: p.node == node && Panicking(b, names, p.panics, name)
  {
    if probes != [] {
      var before, p := probes[..|probes| - 1], probes[|probes| - 1];
      PanicReportedIff(b, names, round, before, name, node);
      assert forall q :: q in probes <==> q in before || q == p;
      var death := DeathFinding(round, p);
      var peers := PeerFindings(b, names, round, before);
      ReportedBoth(peers + death, PanicFindings(b, names, p.node, p.panics), Panic(name), node);
      ReportedBoth(peers, death, Panic(name), node);
      PanicOf(b, names, p.node, p.panics, name, node);
    }
  }

  /** A death is reported exactly for the nodes that a probe finds dead. */
  lemma {:induction false} DeathReportedIff(b: Option<Baseline>, names: map<string, string>, round: int,
                                            probes: seq<Probe>, node: int)
    ensures Finding(ProcessDeath, node, [round]) in PeerFindings(b, names, round, probes)
            <==> exists p | p in probes :: p.node == node && !p.alive
  {
    if probes != [] {
      var before, p := probes[..|probes| - 1], probes[|probes| - 1];
      DeathReportedIff(b, names, round, before, node);
      assert forall q :: q in probes <==> q in before || q == p;
      PanicsOnly(b, names, p.node, p.panics);
    }
  }

  lemma {:induction false} PanicsOnly(b: Option<Baseline>, names: map<string, string>, node: int,
                                      panics: seq<(string, int)>)
    ensures forall f | f in PanicFindings(b, names, node, panics) :: f.signal.Panic?
  {
    if panics != [] { PanicsOnly(b, names, node, panics[..|panics| - 1]); }
  }

  lemma {:induction false} OthersKeepStall(h: seq<Sample>, probes: seq<Probe>, now: real, k: nat, node: int,
                                           window: real)
    requires k <= |probes| && forall j | k <= j < |probes| :: probes[j].node != node
    ensures Stall(h + Samples(probes, now), node, window) == Stall(h + Samples(probes[..k], now), node, window)
    decreases |probes|
  {
    if k < |probes| {
      var before, p := probes[..|probes| - 1], probes[|probes| - 1];
      OthersKeepStall(h, before, now, k, node, window);
      assert before[..k] == probes[..k];
      HeightsStep(h + Samples(before, now), SampleOf(p, now), window);
      assert h + Samples(probes, now) == (h + Samples(before, now)) + [SampleOf(p, now)];
    } else {
      assert probes[..k] == probes;
    }
  }

  lemma PendingOfNode(v: FiscoView, counts: seq<Count>, p: Probe, f: Finding)
    requires f in FiscoNode(v, counts, p) && f.signal == PendingGrowth
    ensures f in PendingFinding(v.baseline, v.open,
                                Stall(v.heights, p.node, v.limits.window) >= v.limits.stallWindows, p)
  {
  }

  lemma PendingFindingFrom(v: FiscoView, counts: seq<Count>, probes: seq<Probe>, f: Finding)
    requires f in FiscoFindings(v, counts, probes) && f.signal == PendingGrowth
    ensures v.open && v.baseline.Some? && Stall(v.heights, f.node, v.limits.window) < v.limits.stallWindows
    ensures exists p | p in probes :: p.node == f.node && p.pending >= PendingBound(v.baseline.value)
  {
    var k := FiscoFindingFrom(v, counts, probes, f);
    PendingOfNode(v, counts + CountsOf(probes[..k], false), probes[k], f);
    assert probes[k] in probes;
  }

  /** A node reported as durably stalled is not reported for pending growth in the same observation. */
  lemma NotBoth(h: seq<Sample>, probes: seq<Probe>, now: real, v: FiscoView, counts: seq<Count>, f: Finding, g: Finding)
    requires v.heights == h + Samples(probes, now)
    requires forall i, j | 0 <= i < j < |probes| :: probes[i].node != probes[j].node
    requires f in StallFindings(h, probes, now, v.limits)
    requires g in FiscoFindings(v, counts, probes) && g.signal == PendingGrowth
    ensures f.node != g.node
  {
    StalledAfter(h, probes, now, v.limits, f);
    PendingFindingFrom(v, counts, probes, g);
  }

  /** A node reported as stalled still counts as stalled when the observation is over. */
  lemma StalledAfter(h: seq<Sample>, probes: seq<Probe>, now: real, l: Limits, f: Finding)
    requires forall i, j | 0 <= i < j < |probes| :: probes[i].node != probes[j].node
    requires f in StallFindings(h, probes, now, l)
    ensures Stall(h + Samples(probes, now), f.node, l.window) >= l.stallWindows
  {
    var k := StallFindingFrom(h, probes, now, l, f);
    OthersKeepStall(h, probes, now, k + 1, f.node, l.window);
    SamplesStep(h, probes, k, now, l);
  }

  /**
   * Pending growth in round r is reported only if the placement of round r or of round r - 1
   * set chain.block_limit to 1, when round ids come in order.
   */
  lemma PendingNeedsArming(v: FiscoView, counts: seq<Count>, probes: seq<Probe>, rounds: seq<Round>, f: Finding)
    requires rounds != [] && Ordered(rounds) && v.open == GateOpen(rounds)
    requires f in FiscoFindings(v, counts, probes) && f.signal == PendingGrowth
    ensures var r := rounds[|rounds| - 1].id;
            exists k | 0 <= k < |rounds| :: rounds[k].armed && r - 1 <= rounds[k].id <= r
  {
    PendingFindingFrom(v, counts, probes, f);
    GateIff(rounds);
  }

  // ------------------------------------------------------------------ in the probes' terms

  /** The gate is armed by chain.block_limit set to 1, True or "1". */
  lemma ArmsIff(m: Mutation)
    ensures Arms(m)
            <==> m.item == "chain.block_limit"
                 && (m.value == IntV(1) || m.value == BoolV(true) || m.value == StrV("1"))
  {
  }

  /** What was read of a node's gas limit. */
  function GasReads(h: seq<Gas>, node: int): seq<int> {
    if h == [] then [] else GasReads(h[..|h| - 1], node) + if h[|h| - 1].node == node then [h[|h| - 1].limit] else []
  }

  /** Collapsed reads are those under 300000, other than the 0 of a failed one. */
  lemma {:induction false} CollapsedReads(h: seq<Gas>, node: int)
    ensures |GasFlags(h, node)| == |GasReads(h, node)|
    ensures forall i | 0 <= i < |GasReads(h, node)| ::
              GasFlags(h, node)[i] <==> GasReads(h, node)[i] < 300_000 && GasReads(h, node)[i] != 0
  {
    if h != [] { CollapsedReads(h[..|h| - 1], node); }
  }

  lemma TrackedIff(r: ControlledRead)
    ensures Tracked(r)
            <==> r.alive && ("consensus.sync_only" in r.items || "consensus.round_initial_timeout_ms" in r.items)
  {
    var both := r.items * {"consensus.round_initial_timeout_ms", "consensus.sync_only"};
    if "consensus.sync_only" in r.items { assert "consensus.sync_only" in both; }
    if "consensus.round_initial_timeout_ms" in r.items { assert "consensus.round_initial_timeout_ms" in both; }
  }

  /** A node's ledgers: every read of it while alive with one of the two items mutated, in order. */
  lemma LedgersSnoc(h: seq<ControlledRead>, r: ControlledRead, node: int)
    ensures Ledgers([], node) == []
    ensures Ledgers(h + [r], node)
            == Ledgers(h, node)
               + if r.node == node && r.alive
                    && ("consensus.sync_only" in r.items || "consensus.round_initial_timeout_ms" in r.items)
                 then [r.ledger] else []
  {
    assert (h + [r])[..|h|] == h;
    TrackedIff(r);
  }

  /** How far a probe is above the best height of its node so far. */
  function Gain(h: seq<Sample>, probes: seq<Probe>, now: real, k: nat): int
    requires k < |probes|
  {
    probes[k].height - Best(h + Samples(probes[..k], now), probes[k].node).GetOr(probes[k].height)
  }

  /** The growth of an observation is the largest gain of a probe, and never below 0. */
  lemma {:induction false} GrowthIs(h: seq<Sample>, probes: seq<Probe>, now: real)
    ensures Growth(h, probes, now) >= 0
    ensures forall k | 0 <= k < |probes| :: Gain(h, probes, now, k) <= Growth(h, probes, now)
    ensures Growth(h, probes, now) > 0
            ==> exists k | 0 <= k < |probes| :: Gain(h, probes, now, k) == Growth(h, probes, now)
  {
    if probes != [] {
      var n := |probes| - 1;
      var before := probes[..n];
      GrowthIs(h, before, now);
      forall k | 0 <= k < n ensures Gain(h, probes, now, k) == Gain(h, before, now, k) {
        assert before[..k] == probes[..k];
      }
      assert Growth(h, probes, now) == Max(Growth(h, before, now), Gain(h, probes, now, n));
    }
  }
}
