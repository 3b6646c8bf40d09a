/**
 * What the BCB oracle's counters mean, as functions of everything observed so far
 * (bcfuzzer/oracle.py). Nothing here is updated: each notion is defined over a history.
 */
module Histories {
  import opened Results
  import opened Sets

  // ------------------------------------------------------------------------ trailing runs

  /** Length of the longest suffix of true flags. */
  function Trailing(flags: seq<bool>): (n: nat)
    ensures n <= |flags|
  {
    if flags == [] || !flags[|flags| - 1] then 0 else 1 + Trailing(flags[..|flags| - 1])
  }

  /** A run of at least n: the last n flags exist and are all true. */
  ghost predicate EndsIn(flags: seq<bool>, n: nat) {
    n <= |flags| && forall j | |flags| - n <= j < |flags| :: flags[j]
  }

  lemma {:induction false} TrailingIff(flags: seq<bool>, n: nat)
    ensures Trailing(flags) >= n <==> EndsIn(flags, n)
    decreases |flags|
  {
    if n > 0 && flags != [] && flags[|flags| - 1] {
      TrailingIff(flags[..|flags| - 1], n - 1);
    }
  }

  // ------------------------------------------------------------------------------- stalls

  /** A height read from a node; `probe` is false for the reads of the baseline registration. */
  datatype Sample = Sample(node: int, time: real, height: int, probe: bool)

  function LastTime(h: seq<Sample>, node: int): Option<real> {
    if h == [] then None
    else if h[|h| - 1].node == node then Some(h[|h| - 1].time)
    else LastTime(h[..|h| - 1], node)
  }

  function Max(a: int, b: int): int { if a < b then b else a }

  /** The best height of a node: its baseline or first read, raised by every later read that is not negative. */
  function Best(h: seq<Sample>, node: int): Option<int> {
    if h == [] then None
    else
      var e, before := h[|h| - 1], Best(h[..|h| - 1], node);
      if e.node != node then before
      else if !e.probe || before.None? then Some(e.height)
      else Some(if e.height < 0 then before.value else Max(e.height, before.value))
  }

  /** A read that is evidence: not an error, and not a zero from a node that has been higher. */
  predicate Evidence(h: seq<Sample>, e: Sample) {
    e.probe && e.height >= 0 && !(e.height == 0 && Best(h, e.node).GetOr(0) > 0)
  }

  predicate Grows(h: seq<Sample>, e: Sample) {
    Evidence(h, e) && e.height > Best(h, e.node).GetOr(e.height)
  }

  function EverGrew(h: seq<Sample>): bool {
    h != [] && (EverGrew(h[..|h| - 1]) || Grows(h[..|h| - 1], h[|h| - 1]))
  }

  function Elapsed(h: seq<Sample>, e: Sample): real {
    var d := e.time - LastTime(h, e.node).GetOr(e.time);
    if d < 0.000001 then 0.000001 else d
  }

  /** Evidence of no progress: at or below the best, long enough after the last read, on a network that has grown. */
  predicate Quiet(h: seq<Sample>, e: Sample, window: real) {
    Evidence(h, e) && EverGrew(h) && e.height <= Best(h, e.node).GetOr(e.height) && Elapsed(h, e) >= window * 0.8
  }

  /** For each read of the node that is evidence, in order, whether it is quiet. */
  function Quietness(h: seq<Sample>, node: int, window: real): seq<bool> {
    if h == [] then []
    else
      var e, before := h[|h| - 1], h[..|h| - 1];
      Quietness(before, node, window) + if e.node == node && Evidence(before, e) then [Quiet(before, e, window)] else []
  }

  function Stall(h: seq<Sample>, node: int, window: real): nat { Trailing(Quietness(h, node, window)) }

  /** A durable stall is reported at a read that is evidence and the last of `limit` quiet ones in a row. */
  predicate Stalls(h: seq<Sample>, e: Sample, window: real, limit: nat) {
    Evidence(h, e) && Stall(h + [e], e.node, window) >= limit
  }

  /** The node's first or last baseline read, after which come only probes. */
  ghost predicate IsBase(h: seq<Sample>, node: int, b: nat) {
    && b < |h| && h[b].node == node
    && (forall j | b < j < |h| && h[j].node == node :: h[j].probe)
    && (h[b].probe ==> forall j | 0 <= j < b :: h[j].node != node)
  }

  ghost predicate Counts(h: seq<Sample>, node: int, b: nat, j: int) {
    b <= j < |h| && h[j].node == node && (j == b || h[j].height >= 0)
  }

  /** The best height is the maximum of the base read and the later reads that are not negative. */
  lemma {:induction false} BestIsMaximum(h: seq<Sample>, node: int) returns (b: nat, top: nat)
    requires Best(h, node).Some?
    ensures IsBase(h, node, b)
    ensures Counts(h, node, b, top) && h[top].height == Best(h, node).value
    ensures forall j | Counts(h, node, b, j) :: h[j].height <= Best(h, node).value
  {
    var e, before := h[|h| - 1], h[..|h| - 1];
    if e.node == node && (!e.probe || Best(before, node).None?) {
      b, top := |h| - 1, |h| - 1;
      if e.probe { NeverRead(before, node); }
    } else {
      b, top := BestIsMaximum(before, node);
      assert forall j | 0 <= j < |before| :: before[j] == h[j];
      if e.node == node && e.height >= 0 && e.height > before[top].height { top := |h| - 1; }
      assert Counts(before, node, b, b);
      forall j | Counts(h, node, b, j) ensures h[j].height <= Best(h, node).value {
        if j < |before| { assert Counts(before, node, b, j); }
      }
    }
  }

  lemma {:induction false} NeverRead(h: seq<Sample>, node: int)
    requires Best(h, node).None?
    ensures forall j | 0 <= j < |h| :: h[j].node != node
  {
    if h != [] {
      NeverRead(h[..|h| - 1], node);
      assert forall j | 0 <= j < |h| - 1 :: h[..|h| - 1][j] == h[j];
    }
  }

  /** Probes never lower it. */
  lemma BestNeverFalls(h: seq<Sample>, e: Sample, node: int)
    requires e.probe && Best(h, node).Some?
    ensures Best(h + [e], node).Some? && Best(h + [e], node).value >= Best(h, node).value
  {
    assert (h + [e])[..|h|] == h;
  }

  /** The network has grown once some read exceeded its node's best. */
  lemma {:induction false} EverGrewIff(h: seq<Sample>)
    ensures EverGrew(h) <==> exists k | 0 <= k < |h| :: Grows(h[..k], h[k])
  {
    if h != [] {
      var before := h[..|h| - 1];
      EverGrewIff(before);
      assert forall k | 0 <= k < |before| :: h[..k] == before[..k] && h[k] == before[k];
      if EverGrew(before) {
        var k :| 0 <= k < |before| && Grows(before[..k], before[k]);
        assert Grows(h[..k], h[k]);
      }
    }
  }

  /** A stall is reported exactly at evidence that ends `limit` consecutive quiet reads of the node. */
  lemma StallsIff(h: seq<Sample>, e: Sample, window: real, limit: nat)
    ensures Stalls(h, e, window, limit)
            <==> Evidence(h, e) && EndsIn(Quietness(h + [e], e.node, window), limit)
  {
    TrailingIff(Quietness(h + [e], e.node, window), limit);
  }

  /** A node that exceeds its best at every read after the first is never a quiet one. */
  lemma {:induction false} GrowingNeverStalls(h: seq<Sample>, node: int, window: real)
    requires window * 0.8 > 0.000001
    requires forall k | 0 <= k < |h| && h[k].node == node && h[k].probe && Best(h[..k], node).Some? ::
               h[k].height > Best(h[..k], node).value
    ensures Stall(h, node, window) == 0
  {
    if h != [] {
      var before, e := h[..|h| - 1], h[|h| - 1];
      assert forall k | 0 <= k < |before| :: h[..k] == before[..k] && h[k] == before[k];
      GrowingNeverStalls(before, node, window);
      assert h[..|h| - 1] == before;
      if e.node == node && Best(before, node).None? { NeverTimed(before, node); }
      var flags := Quietness(before, node, window);
      assert (flags + [false])[|flags|] == false;
    }
  }

  lemma {:induction false} NeverTimed(h: seq<Sample>, node: int)
    requires Best(h, node).None?
    ensures LastTime(h, node).None?
  {
    if h != [] { NeverTimed(h[..|h| - 1], node); }
  }

  // ---------------------------------------------------------------- view-change counters

  /** A read of a node's event counter; `settle` is true for the reads that only re-base it. */
  datatype Count = Count(node: int, events: int, settle: bool)

  function LastCount(h: seq<Count>, node: int): Option<int> {
    if h == [] then None
    else if h[|h| - 1].node == node then Some(h[|h| - 1].events)
    else LastCount(h[..|h| - 1], node)
  }

  /** What an observation makes of a counter: how far it is above the last read of any kind. */
  function Delta(h: seq<Count>, node: int, events: int): nat {
    Max(0, events - LastCount(h, node).GetOr(events))
  }

  /** The events a read of the node brings in, numbered by the counter. */
  function NewEvents(h: seq<Count>, e: Count): set<int> { Interval(LastCount(h, e.node).GetOr(e.events), e.events) }

  /** The events of the node that observations have reported, or that settling has taken out. */
  function Events(h: seq<Count>, node: int, settle: bool): set<int> {
    if h == [] then {}
    else
      var e, before := h[|h| - 1], h[..|h| - 1];
      Events(before, node, settle) + if e.node == node && e.settle == settle then NewEvents(before, e) else {}
  }

  /** Sum of the deltas of the node's observations. */
  function Reported(h: seq<Count>, node: int): nat {
    if h == [] then 0
    else
      var e, before := h[|h| - 1], h[..|h| - 1];
      Reported(before, node) + if e.node == node && !e.settle then Delta(before, node, e.events) else 0
  }

  /** Sum of what settling has taken out. */
  function Absorbed(h: seq<Count>, node: int): int {
    if h == [] then 0
    else
      var e, before := h[|h| - 1], h[..|h| - 1];
      Absorbed(before, node)
      + if e.node == node && e.settle then e.events - LastCount(before, node).GetOr(e.events) else 0
  }

  /** Sum of the amounts by which a counter was below its last read at an observation. */
  function Dropped(h: seq<Count>, node: int): nat {
    if h == [] then 0
    else
      var e, before := h[|h| - 1], h[..|h| - 1];
      Dropped(before, node)
      + if e.node == node && !e.settle then Max(0, LastCount(before, node).GetOr(e.events) - e.events) else 0
  }

  function FirstCount(h: seq<Count>, node: int): Option<int> {
    if h == [] then None
    else if FirstCount(h[..|h| - 1], node).Some? then FirstCount(h[..|h| - 1], node)
    else if h[|h| - 1].node == node then Some(h[|h| - 1].events) else None
  }

  lemma {:induction false} BothCounted(h: seq<Count>, node: int)
    ensures FirstCount(h, node).Some? <==> LastCount(h, node).Some?
  {
    if h != [] { BothCounted(h[..|h| - 1], node); }
  }

  /** The accounts telescope, for any counter: reported plus absorbed is the net change plus what was dropped. */
  lemma {:induction false} AccountsTelescope(h: seq<Count>, node: int)
    requires FirstCount(h, node).Some?
    ensures LastCount(h, node).Some?
    ensures Reported(h, node) + Absorbed(h, node)
            == LastCount(h, node).value - FirstCount(h, node).value + Dropped(h, node)
  {
    var before := h[..|h| - 1];
    BothCounted(before, node);
    BothCounted(h, node);
    if FirstCount(before, node).Some? {
      AccountsTelescope(before, node);
    } else {
      NothingCounted(before, node);
    }
  }

  lemma {:induction false} NothingCounted(h: seq<Count>, node: int)
    requires FirstCount(h, node).None?
    ensures Reported(h, node) == Absorbed(h, node) == Dropped(h, node) == 0 && LastCount(h, node).None?
    ensures Events(h, node, true) == {} == Events(h, node, false)
  {
    if h != [] { NothingCounted(h[..|h| - 1], node); }
  }

  ghost predicate NonDecreasing(h: seq<Count>, node: int) {
    forall k | 0 <= k < |h| && h[k].node == node :: LastCount(h[..k], node).GetOr(h[k].events) <= h[k].events
  }

  /** Two disjoint accounts of the numbers above `first` up to `last`, and their sizes. */
  ghost predicate Accounts(first: int, last: int, shown: set<int>, taken: set<int>, reported: int, absorbed: int) {
    && first <= last && shown !! taken && shown + taken == Interval(first, last)
    && |shown| == reported && |taken| == absorbed
  }

  /** Every event between the first and the last read is in exactly one account, and the sums are the sizes. */
  ghost predicate CountedOnce(h: seq<Count>, node: int) {
    && FirstCount(h, node).Some? && LastCount(h, node).Some?
    && Accounts(FirstCount(h, node).value, LastCount(h, node).value, Events(h, node, false), Events(h, node, true),
                Reported(h, node), Absorbed(h, node))
  }

  lemma FirstRead(h: seq<Count>, e: Count)
    requires FirstCount(h, e.node).None?
    ensures CountedOnce(h + [e], e.node)
  {
    assert (h + [e])[..|h|] == h;
    NothingCounted(h, e.node);
  }

  /** What one more read of a node adds to its accounts. */
  lemma AccountStep(h: seq<Count>, e: Count)
    requires LastCount(h, e.node).Some? && LastCount(h, e.node).value <= e.events && FirstCount(h, e.node).Some?
    ensures var node, now, added := e.node, h + [e], Interval(LastCount(h, e.node).value, e.events);
            && Events(now, node, false) == (if e.settle then Events(h, node, false) else Events(h, node, false) + added)
            && Events(now, node, true) == (if e.settle then Events(h, node, true) + added else Events(h, node, true))
            && Reported(now, node) == Reported(h, node) + (if e.settle then 0 else e.events - LastCount(h, node).value)
            && Absorbed(now, node) == Absorbed(h, node) + (if e.settle then e.events - LastCount(h, node).value else 0)
            && LastCount(now, node) == Some(e.events) && FirstCount(now, node) == FirstCount(h, node)
  {
    assert (h + [e])[..|h|] == h;
    assert Events(h, e.node, !e.settle) + {} == Events(h, e.node, !e.settle);
  }

  lemma NextRead(h: seq<Count>, e: Count)
    requires CountedOnce(h, e.node) && LastCount(h, e.node).value <= e.events
    ensures CountedOnce(h + [e], e.node)
  {
    AccountStep(h, e);
    var first, last := FirstCount(h, e.node).value, LastCount(h, e.node).value;
    var shown, taken := Events(h, e.node, false), Events(h, e.node, true);
    if e.settle {
      MoreTaken(first, last, e.events, shown, taken, Reported(h, e.node), Absorbed(h, e.node));
    } else {
      MoreShown(first, last, e.events, shown, taken, Reported(h, e.node), Absorbed(h, e.node));
    }
  }

  lemma MoreShown(first: int, last: int, now: int, shown: set<int>, taken: set<int>, reported: int, absorbed: int)
    requires Accounts(first, last, shown, taken, reported, absorbed) && last <= now
    ensures Accounts(first, now, shown + Interval(last, now), taken, reported + (now - last), absorbed)
  {
    JoinAccounts(shown, taken, first, last, now);
  }

  lemma MoreTaken(first: int, last: int, now: int, shown: set<int>, taken: set<int>, reported: int, absorbed: int)
    requires Accounts(first, last, shown, taken, reported, absorbed) && last <= now
    ensures Accounts(first, now, shown, taken + Interval(last, now), reported, absorbed + (now - last))
  {
    assert taken + shown == shown + taken;
    JoinAccounts(taken, shown, first, last, now);
  }

  lemma OtherRead(h: seq<Count>, e: Count, node: int)
    requires CountedOnce(h, node) && e.node != node
    ensures CountedOnce(h + [e], node)
  {
    OtherCounters(h, e, node);
  }

  lemma OtherCounters(h: seq<Count>, e: Count, node: int)
    requires e.node != node
    ensures Events(h + [e], node, false) == Events(h, node, false)
            && Events(h + [e], node, true) == Events(h, node, true)
    ensures Reported(h + [e], node) == Reported(h, node) && Absorbed(h + [e], node) == Absorbed(h, node)
    ensures LastCount(h + [e], node) == LastCount(h, node) && FirstCount(h + [e], node) == FirstCount(h, node)
  {
    assert (h + [e])[..|h|] == h;
    assert Events(h, node, false) + {} == Events(h, node, false) && Events(h, node, true) + {} == Events(h, node, true);
  }

  /**
   * On a counter that never goes back, every event between the first and the last read is
   * either reported once or absorbed by a settle, and never both.
   */
  lemma {:induction false} EachEventOnce(h: seq<Count>, node: int)
    requires FirstCount(h, node).Some? && NonDecreasing(h, node)
    ensures CountedOnce(h, node)
  {
    var before, e := h[..|h| - 1], h[|h| - 1];
    assert h == before + [e];
    assert forall k | 0 <= k < |before| :: h[..k] == before[..k] && h[k] == before[k];
    if FirstCount(before, node).None? {
      FirstRead(before, e);
    } else {
      EachEventOnce(before, node);
      if e.node == node { NextRead(before, e); } else { OtherRead(before, e, node); }
    }
  }

  /** Adding the numbers of a later interval to one of two accounts that share the earlier one. */
  lemma JoinAccounts(a: set<int>, b: set<int>, first: int, last: int, now: int)
    requires a !! b && a + b == Interval(first, last) && first <= last <= now
    ensures var added := Interval(last, now);
            (a + added) !! b && (a + added) + b == Interval(first, now) && b + (a + added) == Interval(first, now)
            && |a + added| == |a| + (now - last)
  {
    IntervalJoins(first, last, now);
    AddDisjoint(a, b, Interval(last, now));
  }

  lemma IntervalJoins(first: int, last: int, now: int)
    requires first <= last <= now
    ensures Interval(first, last) !! Interval(last, now)
    ensures Interval(first, last) + Interval(last, now) == Interval(first, now)
    ensures |Interval(last, now)| == now - last
  {
    IntervalSize(last, now);
  }

  lemma AddDisjoint(a: set<int>, b: set<int>, added: set<int>)
    requires a !! b && (a + b) !! added
    ensures (a + added) !! b && (a + added) + b == (a + b) + added && b + (a + added) == (a + b) + added
    ensures |a + added| == |a| + |added|
  {
    assert a !! added;
  }

  // ------------------------------------------------------------------------ gas collapse

  const COLLAPSE_THRESHOLD := 300_000

  datatype Gas = Gas(node: int, limit: int)

  /** A limit of 0 is a failed read. */
  predicate Collapsed(limit: int) { limit != 0 && limit < COLLAPSE_THRESHOLD }

  function GasFlags(h: seq<Gas>, node: int): seq<bool> {
    if h == [] then []
    else GasFlags(h[..|h| - 1], node) + if h[|h| - 1].node == node then [Collapsed(h[|h| - 1].limit)] else []
  }

  function CollapseRounds(h: seq<Gas>, node: int): nat { Trailing(GasFlags(h, node)) }

  /** The collapse is reported exactly at a read that ends `limit` consecutive collapsed reads of the node. */
  lemma CollapseIff(h: seq<Gas>, e: Gas, limit: nat)
    ensures CollapseRounds(h + [e], e.node) >= limit <==> EndsIn(GasFlags(h + [e], e.node), limit)
  {
    TrailingIff(GasFlags(h + [e], e.node), limit);
  }

  // ---------------------------------------------------------------- the block-limit gate

  /** A round observed, and whether its placement set chain.block_limit to 1. */
  datatype Round = Round(id: int, armed: bool)

  function LastArmed(h: seq<Round>): Option<int> {
    if h == [] then None else if h[|h| - 1].armed then Some(h[|h| - 1].id) else LastArmed(h[..|h| - 1])
  }

  predicate GateOpen(h: seq<Round>)
    requires h != []
  {
    LastArmed(h).Some? && h[|h| - 1].id - LastArmed(h).value <= 1
  }

  ghost predicate Ordered(h: seq<Round>) { forall i, j | 0 <= i <= j < |h| :: h[i].id <= h[j].id }

  lemma {:induction false} LastArmedIsLatest(h: seq<Round>)
    requires Ordered(h)
    ensures LastArmed(h).Some? <==> exists k | 0 <= k < |h| :: h[k].armed
    ensures LastArmed(h).Some? ==>
              && (exists k | 0 <= k < |h| :: h[k].armed && h[k].id == LastArmed(h).value)
              && (forall k | 0 <= k < |h| && h[k].armed :: h[k].id <= LastArmed(h).value)
  {
    if h != [] {
      var before := h[..|h| - 1];
      assert forall k | 0 <= k < |before| :: h[k] == before[k];
      LastArmedIsLatest(before);
      if h[|h| - 1].armed { assert h[|h| - 1].id == LastArmed(h).value; }
    }
  }

  /** With round ids in order, the gate is open in round r exactly when round r or r - 1 was armed. */
  lemma GateIff(h: seq<Round>)
    requires Ordered(h) && h != []
    ensures var r := h[|h| - 1].id;
            GateOpen(h) <==> exists k | 0 <= k < |h| :: h[k].armed && r - 1 <= h[k].id <= r
  {
    LastArmedIsLatest(h);
    var r := h[|h| - 1].id;
    if GateOpen(h) {
      var k :| 0 <= k < |h| && h[k].armed && h[k].id == LastArmed(h).value;
      assert h[k].id <= r;
    }
  }
}
