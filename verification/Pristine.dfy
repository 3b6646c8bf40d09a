/**
 * The campaign's restore step (bcfuzzer_campaign.py) for the targets whose adapters edit
 * the live configuration files in place: every round starts a node from the files captured
 * at campaign start, so mutations never pile up over rounds.
 */
module Pristine {
  import opened Results
  import opened ConfigFiles
  import Plans

  /** The content of a set of files; None for a file that is not there. */
  type View = map<string, Option<string>>

  function ViewOf(files: map<string, string>, paths: set<string>): View {
    map p | p in paths :: Content(files, p)
  }

  /** The files of the listed nodes as they are now. */
  function Captures(files: map<string, string>, nodes: seq<int>, paths: map<int, set<string>>): map<int, View>
    requires forall i | i in nodes :: i in paths
  {
    map i | i in nodes :: ViewOf(files, paths[i])
  }

  lemma CapturesSnoc(files: map<string, string>, nodes: seq<int>, paths: map<int, set<string>>, k: nat)
    requires k < |nodes| && forall i | i in nodes :: i in paths
    ensures forall i | i in nodes[..k + 1] :: i in paths
    ensures forall i | i in nodes[..k] :: i in paths
    ensures Captures(files, nodes[..k + 1], paths)
            == Captures(files, nodes[..k], paths)[nodes[k] := ViewOf(files, paths[nodes[k]])]
  {
    assert forall i :: i in nodes[..k + 1] <==> i in nodes[..k] || i == nodes[k];
  }

  /** What an adapter call leaves in the node's files, and whether it raised on the way. */
  datatype Outcome = Outcome(view: View, raised: bool)

  /** One adapter call: the node, its mutations and the round they were applied in. */
  datatype Step = Step(node: int, mutations: seq<Plans.Mutation>, round: int)

  /** An adapter's apply_mutations: what it does to a node's files, given that node's files. */
  type Adapter = (Step, View) -> Outcome

  ghost predicate OwnFilesOnly(adapter: Adapter) {
    forall step, view :: adapter(step, view).view.Keys == view.Keys
  }

  /** The files a node should have: those of the campaign start, with its last step alone applied to them. */
  ghost function Expected(adapter: Adapter, start: View, steps: seq<Step>, node: int): View {
    if steps == [] then start
    else if steps[|steps| - 1].node == node then adapter(steps[|steps| - 1], start).view
    else Expected(adapter, start, steps[..|steps| - 1], node)
  }

  /** Rounds before a node's last step leave no trace in it, whatever they did. */
  lemma {:induction false} NoTrace(adapter: Adapter, start: View, before: seq<Step>, last: Step, others: seq<Step>)
    requires forall s | s in others :: s.node != last.node
    ensures Expected(adapter, start, before + [last] + others, last.node) == adapter(last, start).view
  {
    if others == [] {
      assert before + [last] + others == before + [last];
    } else {
      var steps := before + [last] + others;
      assert steps[..|steps| - 1] == before + [last] + others[..|others| - 1];
      assert steps[|steps| - 1] == others[|others| - 1] && others[|others| - 1] in others;
      NoTrace(adapter, start, before, last, others[..|others| - 1]);
    }
  }

  // ---------------------------------------------------------------- rounds, by their plans

  /** One round of a campaign: its id and a plan for every node. */
  datatype RoundPlan = RoundPlan(id: int, plans: seq<Plans.NodePlan>)

  /** A plan that mutates its node: not that of a normal node, and not without mutations. */
  predicate Mutates(p: Plans.NodePlan) { p.role != Plans.Normal && |p.mutations| > 0 }

  predicate Touches(plans: seq<Plans.NodePlan>, node: int) { exists p | p in plans :: p.node == node && Mutates(p) }

  predicate DistinctNodes(plans: seq<Plans.NodePlan>) {
    forall i, j | 0 <= i < j < |plans| :: plans[i].node != plans[j].node
  }

  /** The plan's own adapter call, on the files of the campaign start. */
  function Result(adapter: Adapter, start: View, p: Plans.NodePlan, round: int): View {
    adapter(Step(p.node, p.mutations, round), start).view
  }

  /** The plan is of a completed round, and no later round touches its node. */
  ghost predicate LatestOf(rounds: seq<RoundPlan>, done: seq<bool>, k: int, p: Plans.NodePlan) {
    && 0 <= k < |rounds| && k < |done| && done[k]
    && DistinctNodes(rounds[k].plans) && p in rounds[k].plans && Mutates(p)
    && forall j | k < j < |rounds| :: !Touches(rounds[j].plans, p.node)
  }

  /** The campaign's part that restores files. */
  class NodeFiles {
    const disk: Disk
    var pristine: map<int, View>
    ghost var steps: seq<Step>  // adapter calls since the snapshot

    /** No two nodes share a file, and every node's files are the ones expected of it. */
    ghost predicate Valid(adapter: Adapter)
      reads this, disk
    {
      && (forall i, j | i in pristine && j in pristine && i != j :: pristine[i].Keys !! pristine[j].Keys)
      && forall i | i in pristine ::
           ViewOf(disk.files, pristine[i].Keys) == Expected(adapter, pristine[i], steps, i)
    }

    constructor (disk: Disk)
      ensures this.disk == disk && pristine == map[] && steps == []
    {
      this.disk := disk;
      pristine := map[];
      steps := [];
    }

    /** Captures the controlled nodes' files, as the adapter lists them. */
    method SnapshotPristine(controlled: seq<int>, paths: map<int, set<string>>, ghost adapter: Adapter)
      requires forall i | i in controlled :: i in paths
      requires forall i, j | i in controlled && j in controlled && i != j :: paths[i] !! paths[j]
      modifies this
      ensures Valid(adapter) && steps == []
      ensures pristine == Captures(disk.files, controlled, paths)
    {
      pristine := map[];
      for k := 0 to |controlled|
        invariant forall i | i in controlled :: i in paths
        invariant pristine == Captures(disk.files, controlled[..k], paths)
      {
        assert controlled[k] in controlled;
        CapturesSnoc(disk.files, controlled, paths, k);
        pristine := pristine[controlled[k] := ViewOf(disk.files, paths[controlled[k]])];
      }
      assert controlled[..|controlled|] == controlled;
      steps := [];
    }

    method RestorePristine(index: int)
      modifies disk
      ensures index in pristine ==> ViewOf(disk.files, pristine[index].Keys) == pristine[index]
      ensures forall p | !(index in pristine && p in pristine[index]) ::
                Content(disk.files, p) == Content(old(disk.files), p)
    {
      if index !in pristine { return; }
      var view := pristine[index];
      var pending := view.Keys;
      while pending != {}
        invariant pending <= view.Keys
        invariant forall p | p in view.Keys - pending :: Content(disk.files, p) == view[p]
        invariant forall p | p !in view :: Content(disk.files, p) == Content(old(disk.files), p)
      {
        var path :| path in pending;
        disk.files := Restored(disk.files, path, view[path]);
        pending := pending - {path};
      }
    }

    /** The adapter call on a node's own files. */
    method Mutate(adapter: Adapter, step: Step) returns (raised: bool)
      requires step.node in pristine && OwnFilesOnly(adapter)
      modifies disk
      ensures ViewOf(disk.files, pristine[step.node].Keys)
              == adapter(step, ViewOf(old(disk.files), pristine[step.node].Keys)).view
      ensures raised == adapter(step, ViewOf(old(disk.files), pristine[step.node].Keys)).raised
      ensures forall p | p !in pristine[step.node] :: Content(disk.files, p) == Content(old(disk.files), p)
    {
      var outcome := adapter(step, ViewOf(disk.files, pristine[step.node].Keys));
      var view := outcome.view;
      var pending := view.Keys;
      while pending != {}
        invariant pending <= view.Keys
        invariant forall p | p in view.Keys - pending :: Content(disk.files, p) == view[p]
        invariant forall p | p !in view :: Content(disk.files, p) == Content(old(disk.files), p)
      {
        var path :| path in pending;
        disk.files := Restored(disk.files, path, view[path]);
        pending := pending - {path};
      }
      raised := outcome.raised;
    }

    /**
     * One round. It ends early when an adapter call raises; even then every node's files are
     * its start files with one step applied.
     */
    method ApplyPlacements(adapter: Adapter, round: int, plans: seq<Plans.NodePlan>) returns (completed: bool)
      requires Valid(adapter) && OwnFilesOnly(adapter)
      requires forall p | p in plans && !p.role.Normal? :: p.node in pristine
      modifies this`steps, disk
      ensures Valid(adapter)
      ensures completed ==> steps == old(steps) + StepsOf(plans, round)
      ensures !completed ==> exists n :: 0 <= n <= |plans| && steps == old(steps) + StepsOf(plans[..n], round)
      ensures completed && DistinctNodes(plans) ==>
                forall p | p in plans && !p.role.Normal? && p.mutations != [] ::
                  NodeView(p.node) == adapter(Step(p.node, p.mutations, round), pristine[p.node]).view
      ensures forall i | i in pristine
                         && (forall p | p in plans && p.node == i :: p.role.Normal? || p.mutations == []) ::
                NodeView(i) == old(NodeView(i))
      ensures forall path | !Captured(path) :: Content(disk.files, path) == Content(old(disk.files), path)
    {
      ghost var n: nat;
      completed, n := ApplyPlans(adapter, round, plans);
      assert plans[..|plans|] == plans;
      if completed && DistinctNodes(plans) {
        forall p | p in plans && Mutates(p)
          ensures NodeView(p.node) == Result(adapter, pristine[p.node], p, round)
        {
          LastOfNode(adapter, pristine[p.node], old(steps), plans, p, round);
        }
      }
      forall i | i in pristine && !Touches(plans, i) ensures NodeView(i) == old(NodeView(i)) {
        NotTouched(adapter, pristine[i], old(steps), plans[..n], i, round);
      }
    }

    /** The loop over the plans, and how far it came. */
    method ApplyPlans(adapter: Adapter, round: int, plans: seq<Plans.NodePlan>) returns (completed: bool, ghost n: nat)
      requires Valid(adapter) && OwnFilesOnly(adapter)
      requires forall p | p in plans && !p.role.Normal? :: p.node in pristine
      modifies this`steps, disk
      ensures Valid(adapter) && n <= |plans| && (completed ==> n == |plans|)
      ensures steps == old(steps) + StepsOf(plans[..n], round)
      ensures forall path | !Captured(path) :: Content(disk.files, path) == Content(old(disk.files), path)
    {
      n := 0;
      for k := 0 to |plans|
        invariant Valid(adapter) && n == k
        invariant steps == old(steps) + StepsOf(plans[..k], round)
        invariant forall path | !Captured(path) :: Content(disk.files, path) == Content(old(disk.files), path)
      {
        StepsOfSnoc(plans, k, round);
        assert plans[k] in plans;
        var raised := ApplyPlan(adapter, plans[k], round);
        n := k + 1;
        if raised { return false, n; }
      }
      completed := true;
    }

    /** One plan of a round: nothing for a normal node or without mutations. */
    method ApplyPlan(adapter: Adapter, plan: Plans.NodePlan, round: int) returns (raised: bool)
      requires Valid(adapter) && OwnFilesOnly(adapter) && (!plan.role.Normal? ==> plan.node in pristine)
      modifies this`steps, disk
      ensures Valid(adapter)
      ensures steps == old(steps) + if Mutates(plan) then [Step(plan.node, plan.mutations, round)] else []
      ensures forall path | !Captured(path) :: Content(disk.files, path) == Content(old(disk.files), path)
    {
      raised := false;
      if plan.role.Normal? || plan.mutations == [] { return; }
      raised := RunStep(adapter, Step(plan.node, plan.mutations, round));
    }

    /** A node's own files as they are now. */
    ghost function NodeView(i: int): View
      requires i in pristine
      reads this`pristine, disk
    {
      ViewOf(disk.files, pristine[i].Keys)
    }

    ghost predicate Captured(path: string)
      reads this`pristine
    {
      exists i | i in pristine :: path in pristine[i]
    }

    /**
     * Any number of rounds, a round that raises ending early. Each node then has its start files
     * with the mutations of the latest round that touches it applied, and a node that no round
     * touches has the files it had.
     */
    method ApplyRounds(adapter: Adapter, rounds: seq<RoundPlan>) returns (done: seq<bool>)
      requires Valid(adapter) && OwnFilesOnly(adapter)
      requires forall r, p | r in rounds && p in r.plans && !p.role.Normal? :: p.node in pristine
      modifies this`steps, disk
      ensures Valid(adapter) && |done| == |rounds|
      ensures forall k, p | LatestOf(rounds, done, k, p) ::
                NodeView(p.node) == Result(adapter, pristine[p.node], p, rounds[k].id)
      ensures forall i | i in pristine && (forall r | r in rounds :: !Touches(r.plans, i)) ::
                NodeView(i) == old(NodeView(i))
      ensures forall path | !Captured(path) :: Content(disk.files, path) == Content(old(disk.files), path)
    {
      done := [];
      for n := 0 to |rounds|
        invariant Valid(adapter) && |done| == n
        invariant forall k, p | LatestOf(rounds[..n], done, k, p) ::
                    NodeView(p.node) == Result(adapter, pristine[p.node], p, rounds[k].id)
        invariant forall i | i in pristine && (forall r | r in rounds :: !Touches(r.plans, i)) ::
                    NodeView(i) == old(NodeView(i))
        invariant forall path | !Captured(path) :: Content(disk.files, path) == Content(old(disk.files), path)
      {
        assert rounds[n] in rounds;
        ghost var before := done;
        label round:
        var completed := ApplyPlacements(adapter, rounds[n].id, rounds[n].plans);
        done := done + [completed];
        forall k, p | LatestOf(rounds[..n + 1], done, k, p)
          ensures NodeView(p.node) == Result(adapter, pristine[p.node], p, rounds[k].id)
        {
          LatestBefore(rounds, before, completed, n, k, p);
        }
      }
      assert rounds[..|rounds|] == rounds;
    }

    /** Restore, then mutate. */
    method RunStep(adapter: Adapter, step: Step) returns (raised: bool)
      requires Valid(adapter) && OwnFilesOnly(adapter) && step.node in pristine
      modifies this`steps, disk
      ensures Valid(adapter) && steps == old(steps) + [step]
      ensures forall path | !Captured(path) :: Content(disk.files, path) == Content(old(disk.files), path)
    {
      RestorePristine(step.node);
      raised := Mutate(adapter, step);
      steps := steps + [step];
      forall i | i in pristine
        ensures ViewOf(disk.files, pristine[i].Keys) == Expected(adapter, pristine[i], steps, i)
      {
        assert steps[..|steps| - 1] == old(steps);
        if i != step.node {
          SameView(old(disk.files), disk.files, pristine[i].Keys);
        }
      }
    }
  }

  /** A node that no plan touches is expected to have the files it had. */
  lemma {:induction false} NotTouched(adapter: Adapter, start: View, before: seq<Step>, plans: seq<Plans.NodePlan>,
                                      node: int, round: int)
    requires !Touches(plans, node)
    ensures Expected(adapter, start, before + StepsOf(plans, round), node) == Expected(adapter, start, before, node)
  {
    if plans == [] {
      assert before + [] == before;
    } else {
      var k := |plans| - 1;
      assert plans[..k + 1] == plans && plans[k] in plans && forall p | p in plans[..k] :: p in plans;
      NotTouched(adapter, start, before, plans[..k], node, round);
      StepsOfSnoc(plans, k, round);
      ExpectedSnoc(adapter, start, before, StepsOf(plans[..k], round), plans[k], node, round);
    }
  }

  /** One more plan gives its own node the result of its call, and leaves the others. */
  lemma ExpectedSnoc(adapter: Adapter, start: View, before: seq<Step>, steps: seq<Step>, p: Plans.NodePlan,
                     node: int, round: int)
    ensures var step := if Mutates(p) then [Step(p.node, p.mutations, round)] else [];
            Expected(adapter, start, before + (steps + step), node)
            == if Mutates(p) && p.node == node then Result(adapter, start, p, round)
               else Expected(adapter, start, before + steps, node)
  {
    if Mutates(p) {
      var now := before + (steps + [Step(p.node, p.mutations, round)]);
      assert now[..|now| - 1] == before + steps;
    } else {
      assert steps + [] == steps;
    }
  }

  /** Among plans of different nodes, each decides for its own node. */
  lemma {:induction false} LastOfNode(adapter: Adapter, start: View, before: seq<Step>, plans: seq<Plans.NodePlan>,
                                      p: Plans.NodePlan, round: int)
    requires DistinctNodes(plans) && p in plans && Mutates(p)
    ensures Expected(adapter, start, before + StepsOf(plans, round), p.node) == Result(adapter, start, p, round)
  {
    var k := |plans| - 1;
    assert plans[..k + 1] == plans;
    StepsOfSnoc(plans, k, round);
    ExpectedSnoc(adapter, start, before, StepsOf(plans[..k], round), plans[k], p.node, round);
    if plans[k] != p {
      assert p in plans[..k];
      var i :| 0 <= i < k && plans[i] == p;
      LastOfNode(adapter, start, before, plans[..k], p, round);
    }
  }

  /** After one more round, a latest plan is of that round, or was a latest plan before it. */
  lemma LatestBefore(rounds: seq<RoundPlan>, done: seq<bool>, completed: bool, n: nat, k: int, p: Plans.NodePlan)
    requires n < |rounds| && |done| == n && LatestOf(rounds[..n + 1], done + [completed], k, p)
    ensures k == n ==> completed && DistinctNodes(rounds[n].plans) && p in rounds[n].plans && Mutates(p)
    ensures k != n ==> LatestOf(rounds[..n], done, k, p) && !Touches(rounds[n].plans, p.node)
  {
    assert forall j | 0 <= j < n :: rounds[..n + 1][j] == rounds[..n][j] == rounds[j];
    assert rounds[..n + 1][n] == rounds[n];
  }

  lemma StepsOfSnoc(plans: seq<Plans.NodePlan>, k: nat, round: int)
    requires k < |plans|
    ensures StepsOf(plans[..k + 1], round)
            == StepsOf(plans[..k], round)
               + if Mutates(plans[k]) then [Step(plans[k].node, plans[k].mutations, round)] else []
  {
    assert plans[..k + 1][..k] == plans[..k];
  }

  lemma SameView(a: map<string, string>, b: map<string, string>, paths: set<string>)
    requires forall p | p in paths :: Content(a, p) == Content(b, p)
    ensures ViewOf(a, paths) == ViewOf(b, paths)
  {
  }

  /** The adapter calls a round makes: normal nodes and nodes without mutations are passed over. */
  function StepsOf(plans: seq<Plans.NodePlan>, round: int): seq<Step> {
    if plans == [] then []
    else
      var p := plans[|plans| - 1];
      StepsOf(plans[..|plans| - 1], round)
      + if p.role.Normal? || p.mutations == [] then [] else [Step(p.node, p.mutations, round)]
  }
}
