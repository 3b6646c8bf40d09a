/** What one more read does to each notion the BCB oracle keeps (bcfuzzer/oracle.py). */
module Steps {
  import opened Results
  import opened Histories
  import opened Findings
  import ControlledStall

  /** A network that has grown, no progress, and a probe at least 0.8 window after the last. */
  predicate IsQuiet(grew: bool, height: int, lastHeight: int, now: real, lastTime: real, window: real) {
    var elapsed := if now - lastTime < 0.000001 then 0.000001 else now - lastTime;
    grew && height <= lastHeight && elapsed >= window * 0.8
  }

  lemma SamplesStep(h: seq<Sample>, probes: seq<Probe>, k: nat, now: real, l: Limits)
    requires k < |probes|
    ensures var before, e := h + Samples(probes[..k], now), SampleOf(probes[k], now);
            && h + Samples(probes[..k + 1], now) == before + [e]
            && StallFindings(h, probes[..k + 1], now, l)
              == StallFindings(h, probes[..k], now, l) + StallFinding(before, e, l)
            && Growth(h, probes[..k + 1], now)
               == Max(Growth(h, probes[..k], now),
                 probes[k].height - Best(before, probes[k].node).GetOr(probes[k].height))
  {
    assert probes[..k + 1][..k] == probes[..k];
  }

  lemma FiscoSnoc(v: FiscoView, counts: seq<Count>, probes: seq<Probe>, k: nat)
    requires k < |probes|
    ensures var before := counts + CountsOf(probes[..k], false);
            && FiscoFindings(v, counts, probes[..k + 1])
              == FiscoFindings(v, counts, probes[..k]) + FiscoNode(v, before, probes[k])
            && counts + CountsOf(probes[..k + 1], false) == before + [Count(probes[k].node, probes[k].events, false)]
  {
    assert probes[..k + 1][..k] == probes[..k];
  }

  lemma ControlledSnoc(h: seq<ControlledRead>, observed: seq<ControlledRead>, growth: int, limit: nat, k: nat)
    requires k < |observed|
    ensures ControlledAll(h, observed[..k + 1], growth, limit)
            == ControlledAll(h, observed[..k], growth, limit)
               + ControlledFindings(h + observed[..k], observed[k], growth, limit)
    ensures h + observed[..k + 1] == h + observed[..k] + [observed[k]]
  {
    assert observed[..k + 1][..k] == observed[..k];
    assert h + observed[..k + 1] == h + observed[..k] + [observed[k]];
  }

  lemma GasSnoc(h: seq<Gas>, probes: seq<Probe>, k: nat)
    requires k < |probes|
    ensures var before, e := h + GasOf(probes[..k]), Gas(probes[k].node, probes[k].gasLimit);
            && CollapseFindings(h, probes[..k + 1]) == CollapseFindings(h, probes[..k]) + CollapseFinding(before, e)
            && h + GasOf(probes[..k + 1]) == before + [e]
  {
    assert probes[..k + 1][..k] == probes[..k];
  }

  function SettleCounts(observed: seq<(int, int)>): seq<Count> {
    if observed == [] then []
    else
      var r := observed[|observed| - 1];
      SettleCounts(observed[..|observed| - 1]) + [Count(r.0, r.1, true)]
  }

  lemma TracksBase(h: seq<Sample>, e: Sample, window: real, last: map<int, (real, int)>, stall: map<int, nat>,
                   grew: bool)
    requires Tracks(h, window, last, stall, grew) && !e.probe
    ensures Tracks(h + [e], window, last[e.node := (e.time, e.height)], stall, grew)
  {
    HeightsStep(h, e, window);
    assert (h + [e])[..|h|] == h;
  }

  lemma CountStep(h: seq<Count>, e: Count)
    ensures forall i :: LastCount(h + [e], i) == if i == e.node then Some(e.events) else LastCount(h, i)
  {
    assert (h + [e])[..|h|] == h;
  }

  lemma RoundStep(h: seq<Round>, r: Round)
    ensures LastArmed(h + [r]) == if r.armed then Some(r.id) else LastArmed(h)
  {
    assert (h + [r])[..|h|] == h;
  }

  lemma GasStep(h: seq<Gas>, e: Gas)
    ensures forall i | i != e.node :: CollapseRounds(h + [e], i) == CollapseRounds(h, i)
    ensures CollapseRounds(h + [e], e.node) == if Collapsed(e.limit) then CollapseRounds(h, e.node) + 1 else 0
  {
    assert (h + [e])[..|h|] == h;
    var flags := GasFlags(h, e.node);
    assert (flags + [Collapsed(e.limit)])[..|flags|] == flags;
    assert forall i | i != e.node :: GasFlags(h + [e], i) == GasFlags(h, i) + [] == GasFlags(h, i);
  }

  function TrackOf(controlled: map<int, ControlledStall.Track>, node: int): ControlledStall.Track {
    if node in controlled then controlled[node] else ControlledStall.Track(None, 0)
  }

  /** The tracks are those of the ledgers read from each node. */
  ghost predicate TracksLedgers(h: seq<ControlledRead>, controlled: map<int, ControlledStall.Track>) {
    forall i {:trigger TrackOf(controlled, i)} :: ControlledStall.Run(Ledgers(h, i)) == TrackOf(controlled, i)
  }

  lemma TrackedStep(h: seq<ControlledRead>, controlled: map<int, ControlledStall.Track>, r: ControlledRead)
    requires TracksLedgers(h, controlled)
    ensures var t := TrackOf(controlled, r.node);
            var now := if Tracked(r) then ControlledStall.Step(t, r.ledger) else t;
            && ControlledStall.Run(Ledgers(h + [r], r.node)) == now
            && TracksLedgers(h + [r], if Tracked(r) then controlled[r.node := now] else controlled)
  {
    LedgersStep(h, r);
    var t := TrackOf(controlled, r.node);
    var after := if Tracked(r) then controlled[r.node := ControlledStall.Step(t, r.ledger)] else controlled;
    forall i ensures ControlledStall.Run(Ledgers(h + [r], i)) == TrackOf(after, i) {
      assert ControlledStall.Run(Ledgers(h, i)) == TrackOf(controlled, i);
    }
  }

  lemma LedgersStep(h: seq<ControlledRead>, r: ControlledRead)
    ensures forall i | i != r.node || !Tracked(r) :: Ledgers(h + [r], i) == Ledgers(h, i)
    ensures Tracked(r) ==> ControlledStall.Run(Ledgers(h + [r], r.node))
                           == ControlledStall.Step(ControlledStall.Run(Ledgers(h, r.node)), r.ledger)
  {
    assert (h + [r])[..|h|] == h;
    var before := Ledgers(h, r.node);
    assert (before + [r.ledger])[..|before|] == before;
    assert forall i | i != r.node || !Tracked(r) :: Ledgers(h + [r], i) == Ledgers(h, i) + [] == Ledgers(h, i);
  }

  ghost predicate TracksLast(h: seq<Sample>, last: map<int, (real, int)>) {
    forall i {:trigger i in last} ::
      if i in last then LastTime(h, i) == Some(last[i].0) && Best(h, i) == Some(last[i].1)
                else LastTime(h, i) == None && Best(h, i) == None
  }

  ghost predicate TracksStall(h: seq<Sample>, window: real, stall: map<int, nat>) {
    forall i {:trigger Get(stall, i)} :: Get(stall, i) == Stall(h, i, window)
  }

  /** The stall fields are the notions they stand for. */
  ghost predicate Tracks(h: seq<Sample>, window: real, last: map<int, (real, int)>, stall: map<int, nat>, grew: bool) {
    grew == EverGrew(h) && TracksLast(h, last) && TracksStall(h, window, stall)
  }

  /** Any read moves the time; an error keeps the height. */
  lemma LastStep(h: seq<Sample>, e: Sample, last: map<int, (real, int)>, height: int)
    requires TracksLast(h, last) && e.probe
    requires height == if e.node in last then last[e.node].1 else e.height
    ensures height == Best(h, e.node).GetOr(e.height)
    ensures TracksLast(h + [e], last[e.node := (e.time, if e.height < 0 then height else Max(e.height, height))])
  {
    assert (h + [e])[..|h|] == h;
  }

  /** A read that is no evidence moves the time only. */
  lemma TracksError(h: seq<Sample>, e: Sample, window: real, last: map<int, (real, int)>, stall: map<int, nat>,
                    grew: bool,
                    height: int)
    requires Tracks(h, window, last, stall, grew) && e.probe
    requires height == if e.node in last then last[e.node].1 else e.height
    requires e.height < 0 || (e.height == 0 && height > 0)
    ensures !Evidence(h, e) && height == Best(h, e.node).GetOr(e.height)
    ensures Tracks(h + [e], window, last[e.node := (e.time, height)], stall, grew)
  {
    LastStep(h, e, last, height);
    HeightsStep(h, e, window);
  }

  /** The two readings of the stall condition agree: on the fields, and on the history. */
  lemma QuietAgrees(h: seq<Sample>, e: Sample, window: real, last: map<int, (real, int)>, grew: bool, time: real,
                    height: int)
    requires TracksLast(h, last) && grew == EverGrew(h) && e.probe
    requires (time, height) == if e.node in last then last[e.node] else (e.time, e.height)
    requires !(e.height < 0 || (e.height == 0 && height > 0))
    ensures Evidence(h, e) && Grows(h, e) == (e.height > height)
    ensures IsQuiet(grew || e.height > height, e.height, height, e.time, time, window) == Quiet(h, e, window)
  {
  }

  /** What the stall fields have to become at any other read. */
  lemma TracksEvidence(h: seq<Sample>, e: Sample, window: real, last: map<int, (real, int)>, stall: map<int, nat>,
                       grew: bool,
                       time: real, height: int, quiet: bool)
    requires Tracks(h, window, last, stall, grew) && e.probe
    requires (time, height) == if e.node in last then last[e.node] else (e.time, e.height)
    requires !(e.height < 0 || (e.height == 0 && height > 0))
    requires quiet == IsQuiet(grew || e.height > height, e.height, height, e.time, time, window)
    ensures Evidence(h, e) && height == Best(h, e.node).GetOr(e.height)
    ensures Stall(h + [e], e.node, window) == if quiet then Get(stall, e.node) + 1 else 0
    ensures Tracks(h + [e], window, last[e.node := (e.time, Max(e.height, height))],
                   stall[e.node := if quiet then Get(stall, e.node) + 1 else 0], grew || e.height > height)
  {
    LastStep(h, e, last, height);
    QuietAgrees(h, e, window, last, grew, time, height);
    HeightsStep(h, e, window);
    var stall' := stall[e.node := if quiet then Get(stall, e.node) + 1 else 0];
    forall i ensures Get(stall', i) == Stall(h + [e], i, window) { assert Get(stall, i) == Stall(h, i, window); }
  }

  function Get(m: map<int, nat>, i: int): nat { if i in m then m[i] else 0 }

  /** One more read, in every notion of the stall history. */
  lemma HeightsStep(h: seq<Sample>, e: Sample, window: real)
    ensures var now := h + [e];
            && (forall i :: LastTime(now, i) == if i == e.node then Some(e.time) else LastTime(h, i))
            && (forall i | i != e.node :: Best(now, i) == Best(h, i))
            && EverGrew(now) == (EverGrew(h) || Grows(h, e))
            && (forall i | i != e.node :: Stall(now, i, window) == Stall(h, i, window))
            && Stall(now, e.node, window)
               == (if !Evidence(h, e) then Stall(h, e.node, window)
                   else if Quiet(h, e, window) then Stall(h, e.node, window) + 1 else 0)
  {
    var now := h + [e];
    assert now[..|now| - 1] == h;
    var flags := Quietness(h, e.node, window);
    assert (flags + [Quiet(h, e, window)])[..|flags|] == flags;
    assert forall i | i != e.node ::
      Quietness(now, i, window) == Quietness(h, i, window) + [] == Quietness(h, i, window);
    assert !Evidence(h, e) ==> Quietness(now, e.node, window) == flags + [] == flags;
  }
}
