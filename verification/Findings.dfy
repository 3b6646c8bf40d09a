/**
 * What the BCB oracle finds in one observation, as functions of the observation and of the
 * histories before it (bcfuzzer/oracle.py). Probe results, times and placements are inputs.
 */
module Findings {
  import opened Results
  import opened Histories
  import opened Values
  import opened Timeouts
  import ControlledStall

  datatype Target = Geth | Fisco | ChainMaker | Aptos

  datatype Signal =
    | ProcessDeath
    | Panic(name: string)
    | DurableStall
    | TimeoutGrowth
    | ViewChangeStorm
    | PendingGrowth
    | GasLimitCollapse
    | SafetyRulesFailure
    | SyncOnlyStall
    | TimeoutZeroStall
    | BadSignatureAccepted
    | ExpiredAccepted
    | ReplacementRejected

  datatype Finding = Finding(signal: Signal, node: int, detail: seq<int>)

  /** What a probe of a normal node returns; absent counters read as 0. */
  datatype Probe = Probe(
    node: int, alive: bool, height: int, panics: seq<(string, int)>,
    timeouts: seq<int>, events: int, pending: int, gasLimit: int)

  datatype Baseline = Baseline(
    heightRate: real, viewChangeRate: real, timeouts: seq<int>, panics: map<string, int>, pending: int, gasLimit: int)

  datatype Mutation = Mutation(item: string, value: Value)

  /** What submitting a seed gave; `underpriced` when the second error of a pair says so. */
  datatype SeedResult = SeedResult(
    kind: string, node: int, accepted: int, submitted: int, hangs: int, pair: bool, underpriced: bool, secondError: int)

  const PERSISTENCE_WINDOWS := 3

  /** The mutation that arms the block-limit gate: chain.block_limit set to 1 or "1". */
  predicate Arms(m: Mutation) {
    m.item == "chain.block_limit" && Key(m.value) in {IntV(1), StrV("1")} && !m.value.CompositeV?
  }

  /** The check of the block limit's arming, over the mutations of a placement. */
  predicate Armed(mutations: seq<Mutation>) { exists m | m in mutations :: Arms(m) }

  // ------------------------------------------------------------- one observation, by history

  const CHAINMAKER_PANICS: map<string, string> := map[
    "index out of range [1" := "chainmaker_txcount_violation",
    "index out of range" := "chainmaker_verifier_panic",
    "TxCount" := "chainmaker_txcount_violation",
    "nil pointer" := "chainmaker_nilpayload_panic"]

  const FISCO_PANICS: map<string, string> := map["verify sender for tx failed" := "fisco_verify_sender_failed_storm"]

  const APTOS_PANICS: map<string, string> := map["safety" := "aptos_safety_rules_process_failure"]

  function PanicNames(target: Target): map<string, string> {
    match target
    case Geth => map[]
    case Fisco => FISCO_PANICS
    case ChainMaker => CHAINMAKER_PANICS
    case Aptos => APTOS_PANICS
  }

  /** The signal that a log fragment stands for. */
  function PanicName(names: map<string, string>, fragment: string): string {
    if fragment in names then names[fragment] else "panic_" + fragment
  }

  function PanicFindings(
    b: Option<Baseline>, names: map<string, string>, node: int, panics: seq<(string, int)>): seq<Finding>
  {
    if panics == [] then []
    else
      PanicFindings(b, names, node, panics[..|panics| - 1]) + PanicFinding(b, names, node, panics[|panics| - 1])
  }

  function PanicFinding(b: Option<Baseline>, names: map<string, string>, node: int, e: (string, int)): seq<Finding> {
    if e.1 != 0 && e.1 > BaseCount(b, e.0)
    then [Finding(Panic(PanicName(names, e.0)), node, [e.1, BaseCount(b, e.0)])] else []
  }

  /** How often a fragment was seen in the idle window. */
  function BaseCount(b: Option<Baseline>, fragment: string): int {
    if b.Some? then CountIn(b.value.panics, fragment) else 0
  }

  function CountIn(counts: map<string, int>, fragment: string): int {
    if fragment in counts then counts[fragment] else 0
  }

  function PeerFindings(b: Option<Baseline>, names: map<string, string>, round: int, probes: seq<Probe>): seq<Finding> {
    if probes == [] then []
    else
      var p := probes[|probes| - 1];
      PeerFindings(b, names, round, probes[..|probes| - 1]) + DeathFinding(round, p)
      + PanicFindings(b, names, p.node, p.panics)
  }

  function DeathFinding(round: int, p: Probe): seq<Finding> {
    if p.alive then [] else [Finding(ProcessDeath, p.node, [round])]
  }

  function SampleOf(p: Probe, now: real): Sample { Sample(p.node, now, p.height, true) }

  function Samples(probes: seq<Probe>, now: real): (r: seq<Sample>)
    ensures |r| == |probes|
  {
    if probes == [] then [] else Samples(probes[..|probes| - 1], now) + [SampleOf(probes[|probes| - 1], now)]
  }

  datatype Limits = Limits(window: real, stallWindows: nat)

  function StallFinding(h: seq<Sample>, e: Sample, l: Limits): seq<Finding> {
    if Stalls(h, e, l.window, l.stallWindows)
    then [Finding(DurableStall, e.node, [Stall(h + [e], e.node, l.window), e.height])] else []
  }

  function StallFindings(h: seq<Sample>, probes: seq<Probe>, now: real, l: Limits): seq<Finding> {
    if probes == [] then []
    else
      var before := probes[..|probes| - 1];
      StallFindings(h, before, now, l)
      + StallFinding(h + Samples(before, now), SampleOf(probes[|probes| - 1], now), l)
  }

  function MaxOf(values: seq<int>): int
    requires values != []
  {
    if |values| == 1 then values[0] else Max(MaxOf(values[..|values| - 1]), values[|values| - 1])
  }

  function Above(values: seq<int>, bound: int): seq<int> {
    if values == [] then []
    else
      Above(values[..|values| - 1], bound) + if values[|values| - 1] >= bound then [values[|values| - 1]] else []
  }

  function BaseTimeouts(b: Option<Baseline>): (base: seq<int>)
    ensures base != []
  {
    if b.Some? && b.value.timeouts != [] then b.value.timeouts else [3000]
  }

  /** Consensus timeouts at three times the baseline's longest, or 9000 without one. */
  function TimeoutFinding(b: Option<Baseline>, p: Probe): seq<Finding> {
    var grown := Above(Distinct(p.timeouts), 3 * MaxOf(BaseTimeouts(b)));
    if grown != [] then [Finding(TimeoutGrowth, p.node, grown)] else []
  }

  function StormThreshold(relative: real, floor: real): real { if relative < floor then floor else relative }

  /** What the storm check compares a delta with; there is no check without a baseline. */
  function StormBound(b: Option<Baseline>, window: real): Option<real> {
    if b.Some? then Some(StormThreshold(10.0 * b.value.viewChangeRate * window, 0.1 * window)) else None
  }

  function StormFinding(bound: Option<real>, delta: nat, node: int): seq<Finding> {
    if bound.Some? && delta as real >= bound.value then [Finding(ViewChangeStorm, node, [delta])] else []
  }

  function PendingBound(b: Baseline): int { Max(2 * b.pending + 10, 50) }

  function PendingFinding(b: Option<Baseline>, open: bool, stalled: bool, p: Probe): seq<Finding> {
    if b.Some? && open && !stalled && p.pending >= PendingBound(b.value)
    then [Finding(PendingGrowth, p.node, [p.pending, b.value.pending])] else []
  }

  function CountsOf(probes: seq<Probe>, settle: bool): (r: seq<Count>)
    ensures |r| == |probes|
  {
    if probes == [] then []
    else var p := probes[|probes| - 1]; CountsOf(probes[..|probes| - 1], settle) + [Count(p.node, p.events, settle)]
  }

  /** What the fisco checks see: baseline, the gate, and all heights up to and including this observation. */
  datatype FiscoView = FiscoView(
    baseline: Option<Baseline>, stormBound: Option<real>, open: bool, heights: seq<Sample>, limits: Limits)

  function FiscoFindings(v: FiscoView, counts: seq<Count>, probes: seq<Probe>): seq<Finding> {
    if probes == [] then []
    else
      var before, p := probes[..|probes| - 1], probes[|probes| - 1];
      FiscoFindings(v, counts, before) + FiscoNode(v, counts + CountsOf(before, false), p)
  }

  function FiscoNode(v: FiscoView, counts: seq<Count>, p: Probe): seq<Finding> {
    TimeoutFinding(v.baseline, p)
    + StormFinding(v.stormBound, Delta(counts, p.node, p.events), p.node)
    + PendingFinding(v.baseline, v.open, Stall(v.heights, p.node, v.limits.window) >= v.limits.stallWindows, p)
  }

  function GasOf(probes: seq<Probe>): (r: seq<Gas>)
    ensures |r| == |probes|
  {
    if probes == [] then []
    else var p := probes[|probes| - 1]; GasOf(probes[..|probes| - 1]) + [Gas(p.node, p.gasLimit)]
  }

  function CollapseFinding(h: seq<Gas>, e: Gas): seq<Finding> {
    var n := CollapseRounds(h + [e], e.node);
    if n >= PERSISTENCE_WINDOWS then [Finding(GasLimitCollapse, e.node, [e.limit, n])] else []
  }

  function CollapseFindings(h: seq<Gas>, probes: seq<Probe>): seq<Finding> {
    if probes == [] then []
    else
      var before, p := probes[..|probes| - 1], probes[|probes| - 1];
      CollapseFindings(h, before) + CollapseFinding(h + GasOf(before), Gas(p.node, p.gasLimit))
  }

  /** A read of a mutated aptos node: the items its mutations name, and its probe. */
  datatype ControlledRead = ControlledRead(node: int, items: set<string>, alive: bool, ledger: int)

  predicate Tracked(r: ControlledRead) {
    r.alive && r.items * {"consensus.round_initial_timeout_ms", "consensus.sync_only"} != {}
  }

  /** The ledgers tracked for a node. */
  function Ledgers(h: seq<ControlledRead>, node: int): seq<int> {
    if h == [] then []
    else
      var r := h[|h| - 1];
      Ledgers(h[..|h| - 1], node) + if r.node == node && Tracked(r) then [r.ledger] else []
  }

  function ControlledFindings(h: seq<ControlledRead>, r: ControlledRead, growth: int, limit: nat): seq<Finding> {
    SafetyFinding(r) + StalledFinding(ControlledStall.Run(Ledgers(h + [r], r.node)).stall, r, growth, limit)
  }

  function SafetyFinding(r: ControlledRead): seq<Finding> {
    if "safety_rules.service" in r.items && !r.alive then [Finding(SafetyRulesFailure, r.node, [])] else []
  }

  function StalledFinding(stall: nat, r: ControlledRead, growth: int, limit: nat): seq<Finding> {
    if Tracked(r) && stall >= limit && growth > 0
    then [Finding(if "consensus.sync_only" in r.items then SyncOnlyStall else TimeoutZeroStall,
                  r.node, [stall, r.ledger, growth])]
    else []
  }

  function ControlledAll(h: seq<ControlledRead>, observed: seq<ControlledRead>, growth: int, limit: nat): seq<Finding> {
    if observed == [] then []
    else
      var before := observed[..|observed| - 1];
      ControlledAll(h, before, growth, limit) + ControlledFindings(h + before, observed[|observed| - 1], growth, limit)
  }

  function FiscoPart(target: Target, v: FiscoView, counts: seq<Count>, probes: seq<Probe>): seq<Finding> {
    if target == Fisco then FiscoFindings(v, counts, probes) else []
  }

  function CapacityPart(target: Target, h: seq<Gas>, probes: seq<Probe>): seq<Finding> {
    if target == Geth then CollapseFindings(h, probes) else []
  }

  function NodesPart(
    target: Target, h: seq<ControlledRead>, observed: seq<ControlledRead>, growth: int, l: Limits): seq<Finding>
  {
    if target == Aptos then ControlledAll(h, observed, growth, l.stallWindows) else []
  }

  /** What one observation reports, in order. */
  function Joined(peers: seq<Finding>, stalls: seq<Finding>, fisco: seq<Finding>, seeds: seq<Finding>,
                  capacity: seq<Finding>, nodes: seq<Finding>): seq<Finding>
  {
    peers + stalls + fisco + seeds + capacity + nodes
  }

  /** _classify_seed_result: the first of the three failures that applies. */
  function Classified(r: SeedResult): seq<Finding> {
    if r.kind == "bad_signature" && r.accepted > 0 then [Finding(BadSignatureAccepted, r.node, [r.accepted])]
    else if r.kind == "expired_tx" && (r.submitted > 0 || r.hangs > 0)
    then [Finding(ExpiredAccepted, r.node, [r.submitted, r.hangs])]
    else if r.pair && (r.accepted < 2 || r.underpriced)
    then [Finding(ReplacementRejected, r.node, [r.accepted, r.secondError])]
    else []
  }

  function SeedFindings(results: seq<SeedResult>): seq<Finding> {
    if results == [] then [] else SeedFindings(results[..|results| - 1]) + Classified(results[|results| - 1])
  }

  /** The largest growth of a normal node over its best in this observation, at least 0. */
  function Growth(h: seq<Sample>, probes: seq<Probe>, now: real): int {
    if probes == [] then 0
    else
      var before, p := probes[..|probes| - 1], probes[|probes| - 1];
      Max(Growth(h, before, now), p.height - Best(h + Samples(before, now), p.node).GetOr(p.height))
  }
}
