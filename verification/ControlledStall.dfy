/**
 * The stall track of a mutated aptos node, as the oracle keeps it (bcfuzzer/oracle.py,
 * _observe_controlled_aptos). The best ledger is stored only by an unreachable read or by
 * a ledger above a stored one, so until a read fails every reachable read counts as stalled.
 */
module ControlledStall {
  import opened Results

  datatype Track = Track(best: Option<int>, stall: nat)

  function Step(t: Track, ledger: int): Track {
    var best := t.best.GetOr(ledger);
    if ledger < 0 then t.(best := Some(best))
    else if ledger <= best then t.(stall := t.stall + 1)
    else Track(Some(ledger), 0)
  }

  /** The track after the ledgers read so far; a negative one is an unreachable read. */
  function Run(ledgers: seq<int>): Track {
    if ledgers == [] then Track(None, 0) else Step(Run(ledgers[..|ledgers| - 1]), ledgers[|ledgers| - 1])
  }

  /** Every reachable read is above the reachable ones before it. */
  predicate Growing(ledgers: seq<int>) {
    forall i, j | 0 <= i < j < |ledgers| && ledgers[i] >= 0 && ledgers[j] >= 0 :: ledgers[i] < ledgers[j]
  }

  function FirstUnreachable(ledgers: seq<int>): (z: nat)
    ensures z <= |ledgers|
    ensures z < |ledgers| ==> ledgers[z] < 0
    ensures forall i | 0 <= i < z :: ledgers[i] >= 0
  {
    if ledgers == [] || ledgers[0] < 0 then 0 else 1 + FirstUnreachable(ledgers[1..])
  }

  predicate ReachedSince(ledgers: seq<int>, z: nat) {
    exists i :: z <= i < |ledgers| && ledgers[i] >= 0
  }

  lemma FirstUnreachableIs(ledgers: seq<int>, z: nat)
    requires z <= |ledgers| && (z < |ledgers| ==> ledgers[z] < 0) && forall i | 0 <= i < z :: ledgers[i] >= 0
    ensures FirstUnreachable(ledgers) == z
  {
  }

  /** The state of a node that grows: counted as stalled at every read up to the first failed one. */
  ghost predicate GrowingState(ledgers: seq<int>) {
    var z, t := FirstUnreachable(ledgers), Run(ledgers);
    && t.stall == (if z == |ledgers| || !ReachedSince(ledgers, z) then z else 0)
    && (t.best.None? <==> z == |ledgers|)
    && (t.best.Some? && t.best.value >= 0 ==> t.best.value in ledgers)
  }

  lemma ReachedSnoc(before: seq<int>, ledger: int, z: nat)
    requires z <= |before|
    ensures ReachedSince(before + [ledger], z) <==> ReachedSince(before, z) || ledger >= 0
  {
    if ReachedSince(before, z) {
      var i :| z <= i < |before| && before[i] >= 0;
      assert (before + [ledger])[i] >= 0;
    }
    if ledger >= 0 { assert (before + [ledger])[|before|] >= 0; }
  }

  lemma GrowingStep(before: seq<int>, ledger: int)
    requires GrowingState(before) && (ledger >= 0 ==> forall x | x in before && x >= 0 :: x < ledger)
    ensures GrowingState(before + [ledger])
  {
    RunSnoc(before, ledger);
    NextUnreachable(before, ledger);
    ReachedSnoc(before, ledger, FirstUnreachable(before));
    assert (before + [ledger])[|before|] == ledger;
  }

  lemma RunSnoc(before: seq<int>, ledger: int)
    ensures Run(before + [ledger]) == Step(Run(before), ledger)
  {
    assert (before + [ledger])[..|before|] == before;
  }

  lemma NextUnreachable(before: seq<int>, ledger: int)
    ensures var z := FirstUnreachable(before);
            FirstUnreachable(before + [ledger]) == if z == |before| && ledger >= 0 then |before| + 1 else z
  {
    var z, now := FirstUnreachable(before), before + [ledger];
    assert forall i | 0 <= i < |before| :: now[i] == before[i];
    FirstUnreachableIs(now, if z == |before| && ledger >= 0 then |now| else z);
  }

  lemma {:induction false} StallOfGrowing(ledgers: seq<int>)
    requires Growing(ledgers)
    ensures GrowingState(ledgers)
  {
    if ledgers != [] {
      var before, ledger := ledgers[..|ledgers| - 1], ledgers[|ledgers| - 1];
      assert ledgers == before + [ledger];
      StallOfGrowing(before);
      GrowingStep(before, ledger);
    }
  }

  // ------------------------------------------------------------------ any ledgers at all

  function Reachable(ledgers: seq<int>): nat {
    if ledgers == [] then 0 else Reachable(ledgers[..|ledgers| - 1]) + if ledgers[|ledgers| - 1] >= 0 then 1 else 0
  }

  /** The first of the highest reachable reads after z. */
  ghost predicate TopAt(ledgers: seq<int>, z: nat, t: int) {
    && z < t < |ledgers| && ledgers[t] >= 0
    && forall i | z < i < |ledgers| && ledgers[i] >= 0 ::
         ledgers[i] <= ledgers[t] && (i < t ==> ledgers[i] < ledgers[t])
  }

  /** The stored best is the top one since the first failed read, and the stall counts the reads after it. */
  ghost predicate TopState(ledgers: seq<int>, z: nat, t: Track) {
    exists top :: TopAt(ledgers, z, top) && t == Track(Some(ledgers[top]), Reachable(ledgers[top + 1..]))
  }

  /**
   * The track of any node: up to the first failed read every read counts as stalled; from the
   * next reachable read on, those that came after the highest one so far.
   */
  lemma {:induction false} TrackIs(ledgers: seq<int>)
    ensures var z, t := FirstUnreachable(ledgers), Run(ledgers);
            if z == |ledgers| then t == Track(None, z)
            else if !ReachedSince(ledgers, z) then t == Track(Some(ledgers[z]), z)
            else TopState(ledgers, z, t)
  {
    if ledgers != [] {
      var before, ledger := ledgers[..|ledgers| - 1], ledgers[|ledgers| - 1];
      var z := FirstUnreachable(before);
      assert ledgers == before + [ledger];
      TrackIs(before);
      RunSnoc(before, ledger);
      NextUnreachable(before, ledger);
      ReachedSnoc(before, ledger, z);
      if z < |before| {
        if ReachedSince(before, z) {
          TopStep(before, ledger, z, Run(before));
        } else if ledger >= 0 {
          FirstTop(before, ledger, z);
        }
      }
    }
  }

  lemma FirstTop(before: seq<int>, ledger: int, z: nat)
    requires z < |before| && !ReachedSince(before, z) && ledger >= 0
    ensures TopState(before + [ledger], z, Track(Some(ledger), 0))
  {
    var now := before + [ledger];
    assert forall i | z < i < |before| :: now[i] == before[i];
    assert TopAt(now, z, |before|) && now[|before| + 1..] == [];
  }

  lemma TopStep(before: seq<int>, ledger: int, z: nat, t: Track)
    requires TopState(before, z, t)
    ensures TopState(before + [ledger], z, Step(t, ledger))
  {
    var top :| TopAt(before, z, top) && t == Track(Some(before[top]), Reachable(before[top + 1..]));
    if ledger > before[top] { HigherTop(before, ledger, z, top); } else { SameTop(before, ledger, z, top); }
  }

  lemma HigherTop(before: seq<int>, ledger: int, z: nat, top: int)
    requires TopAt(before, z, top) && ledger > before[top]
    ensures TopState(before + [ledger], z, Track(Some(ledger), 0))
  {
    var now := before + [ledger];
    forall i | z < i < |now| && now[i] >= 0 ensures now[i] <= ledger && (i < |before| ==> now[i] < ledger) {
      assert i < |before| ==> now[i] == before[i];
    }
    assert TopAt(now, z, |before|) && now[|before| + 1..] == [];
  }

  lemma SameTop(before: seq<int>, ledger: int, z: nat, top: int)
    requires TopAt(before, z, top) && ledger <= before[top]
    ensures TopState(before + [ledger], z,
                     Track(Some(before[top]), Reachable(before[top + 1..]) + if ledger >= 0 then 1 else 0))
  {
    var now := before + [ledger];
    forall i | z < i < |now| && now[i] >= 0 ensures now[i] <= now[top] && (i < top ==> now[i] < now[top]) {
      assert i < |before| ==> now[i] == before[i];
    }
    assert TopAt(now, z, top);
    assert now[top + 1..] == before[top + 1..] + [ledger];
    ReachableSnoc(before[top + 1..], ledger);
  }

  lemma ReachableSnoc(before: seq<int>, ledger: int)
    ensures Reachable(before + [ledger]) == Reachable(before) + if ledger >= 0 then 1 else 0
  {
    assert (before + [ledger])[..|before|] == before;
  }

  /** A node that grew at all three reads of a fresh campaign is counted as stalled three times. */
  lemma GrowingCountedAsStalled()
    ensures Growing([1, 2, 3]) && Run([1, 2, 3]).stall == 3
  {
    StallOfGrowing([1, 2, 3]);
    FirstUnreachableIs([1, 2, 3], 3);
  }

  /**
   * When a growing node stays clear of the stall limit: exactly when a read fails before
   * `limit` reads have succeeded, or there are fewer than `limit` reads in all.
   */
  lemma GrowingReportedIff(ledgers: seq<int>, limit: nat)
    requires Growing(ledgers) && limit > 0
    ensures (exists n | 0 <= n <= |ledgers| :: Run(ledgers[..n]).stall >= limit) <==> FirstUnreachable(ledgers) >= limit
  {
    var z := FirstUnreachable(ledgers);
    assert forall n, i | 0 <= i < n <= |ledgers| :: ledgers[..n][i] == ledgers[i];
    forall n | 0 <= n <= |ledgers|
      ensures FirstUnreachable(ledgers[..n]) == (if n < z then n else z)
              && Run(ledgers[..n]).stall <= FirstUnreachable(ledgers[..n])
    {
      FirstUnreachableIs(ledgers[..n], if n < z then n else z);
      StallOfGrowing(ledgers[..n]);
    }
    StallOfGrowing(ledgers[..z]);
    assert Run(ledgers[..z]).stall == z;
  }
}
