/**
 * Workload placement: pick_seed and record_seed_execution of bcfuzzer/scheduler.py, driven
 * by run_seeds of bcfuzzer_campaign.py. Seed ids are distinct; whether a seed's precondition
 * holds is an input.
 */
module Seeds {
  import opened Results
  import opened Sets
  import opened Text

  datatype SeedRole = AnyNode | ControlledNode | Proposer | Engine | OtherRole

  datatype Seed = Seed(id: string, role: SeedRole)

  type Counter = string -> nat

  type Guard = Seed -> bool

  const MAX_SCAN := 8

  predicate DistinctIds(seeds: seq<Seed>) { forall i, j | 0 <= i < j < |seeds| :: seeds[i].id != seeds[j].id }

  /** Seeds for normal nodes run anywhere; the other roles need a controlled node. */
  predicate RunsOn(role: SeedRole, controlled: bool) {
    role == AnyNode || (controlled && (role == ControlledNode || role == Proposer || role == Engine))
  }

  function Eligible(seeds: seq<Seed>, controlled: bool): (r: seq<Seed>)
    ensures forall s :: s in r <==> s in seeds && RunsOn(s.role, controlled)
    ensures DistinctIds(seeds) ==> DistinctIds(r)
  {
    if seeds == [] then []
    else (if RunsOn(seeds[0].role, controlled) then [seeds[0]] else []) + Eligible(seeds[1..], controlled)
  }

  // ------------------------------------------------------------------------------ the order

  /** Fewer executions first, ties broken by id. */
  predicate Ahead(c: Counter, s: Seed, t: Seed) { c(s.id) < c(t.id) || (c(s.id) == c(t.id) && Le(s.id, t.id)) }

  lemma AheadTotal(c: Counter, s: Seed, t: Seed)
    ensures Ahead(c, s, t) || Ahead(c, t, s)
    ensures Ahead(c, s, t) && Ahead(c, t, s) ==> s.id == t.id
  {
    LeTotal(s.id, t.id);
  }

  lemma AheadTransitive(c: Counter, s: Seed, t: Seed, u: Seed)
    requires Ahead(c, s, t) && Ahead(c, t, u)
    ensures Ahead(c, s, u)
  {
    if c(s.id) == c(t.id) == c(u.id) { LeTransitive(s.id, t.id, u.id); }
  }

  predicate Ordered(c: Counter, seeds: seq<Seed>) { forall i, j | 0 <= i < j < |seeds| :: Ahead(c, seeds[i], seeds[j]) }

  function Insert(c: Counter, s: Seed, sorted: seq<Seed>): (r: seq<Seed>)
    ensures multiset(r) == multiset(sorted) + multiset{s}
  {
    if sorted == [] then [s]
    else
      assert sorted == [sorted[0]] + sorted[1..];
      if Ahead(c, s, sorted[0]) then [s] + sorted else [sorted[0]] + Insert(c, s, sorted[1..])
  }

  /** The eligible seeds in order. */
  function Sorted(c: Counter, seeds: seq<Seed>): (r: seq<Seed>)
    ensures multiset(r) == multiset(seeds)
  {
    if seeds == [] then []
    else
      assert seeds == [seeds[0]] + seeds[1..];
      Insert(c, seeds[0], Sorted(c, seeds[1..]))
  }

  lemma {:induction false} InsertOrdered(c: Counter, s: Seed, sorted: seq<Seed>)
    requires Ordered(c, sorted)
    ensures Ordered(c, Insert(c, s, sorted))
  {
    if sorted != [] {
      var first, rest := sorted[0], sorted[1..];
      AheadTotal(c, s, first);
      if Ahead(c, s, first) {
        forall t | t in rest ensures Ahead(c, s, t) { AheadTransitive(c, s, first, t); }
      } else {
        InsertOrdered(c, s, rest);
        var now := Insert(c, s, rest);
        forall t | t in now ensures Ahead(c, first, t) {
          assert t in multiset(now);
          assert t == s || t in rest;
        }
      }
    }
  }

  lemma {:induction false} SortedOrdered(c: Counter, seeds: seq<Seed>)
    ensures Ordered(c, Sorted(c, seeds))
  {
    if seeds != [] {
      SortedOrdered(c, seeds[1..]);
      InsertOrdered(c, seeds[0], Sorted(c, seeds[1..]));
    }
  }

  // ------------------------------------------------------------------------------- the pick

  /** The seeds that come strictly before s. */
  ghost function AheadOf(seeds: seq<Seed>, c: Counter, s: Seed): set<Seed> {
    set t | t in seeds && t != s && Ahead(c, t, s)
  }

  /** The least-tested seed whose precondition holds. */
  ghost predicate Least(seeds: seq<Seed>, c: Counter, ok: Guard, s: Seed) {
    s in seeds && ok(s) && forall t | t in seeds && ok(t) :: Ahead(c, s, t)
  }

  /** The least allowed seed, if fewer than eight seeds come before it. */
  ghost predicate PickedAs(seeds: seq<Seed>, c: Counter, ok: Guard, pick: Option<Seed>) {
    match pick
    case Some(s) => Least(seeds, c, ok, s) && |AheadOf(seeds, c, s)| < MAX_SCAN
    case None => forall s :: Least(seeds, c, ok, s) ==> |AheadOf(seeds, c, s)| >= MAX_SCAN
  }

  // ------------------------------------------------------- the pick, in the terms of the seeds

  /** By (count, id): fewer executions, or as many and the id that a dictionary lists first. */
  ghost predicate Earlier(c: Counter, s: Seed, t: Seed) {
    c(s.id) < c(t.id) || (c(s.id) == c(t.id) && Alphabetical(s.id, t.id))
  }

  lemma AheadIff(c: Counter, s: Seed, t: Seed)
    ensures Ahead(c, s, t) <==> Earlier(c, s, t)
  {
    LeIff(s.id, t.id);
  }

  /** Seeds for normal nodes, and on a controlled node those for controlled, proposer and engine nodes too. */
  function Usable(seeds: seq<Seed>, controlled: bool): set<Seed> {
    set s | s in seeds && (s.role == AnyNode || (controlled && s.role in {ControlledNode, Proposer, Engine}))
  }

  ghost predicate FirstOf(usable: set<Seed>, c: Counter, ok: Guard, s: Seed) {
    s in usable && ok(s) && forall t | t in usable && ok(t) :: Earlier(c, s, t)
  }

  ghost function EarlierOnes(usable: set<Seed>, c: Counter, s: Seed): set<Seed> {
    set t | t in usable && t != s && Earlier(c, t, s)
  }

  /** The first allowed seed by (count, id), unless eight or more usable ones come before it. */
  ghost predicate PickedInOrder(usable: set<Seed>, c: Counter, ok: Guard, pick: Option<Seed>) {
    match pick
    case Some(s) => FirstOf(usable, c, ok, s) && |EarlierOnes(usable, c, s)| <= 7
    case None => forall s | FirstOf(usable, c, ok, s) :: |EarlierOnes(usable, c, s)| >= 8
  }

  lemma PickIsInOrder(seeds: seq<Seed>, controlled: bool, c: Counter, ok: Guard, pick: Option<Seed>)
    requires PickedAs(Eligible(seeds, controlled), c, ok, pick)
    ensures PickedInOrder(Usable(seeds, controlled), c, ok, pick)
  {
    var eligible, usable := Eligible(seeds, controlled), Usable(seeds, controlled);
    SameSeeds(seeds, controlled);
    forall s ensures AheadOf(eligible, c, s) == EarlierOnes(usable, c, s) {
      forall t ensures Ahead(c, t, s) <==> Earlier(c, t, s) { AheadIff(c, t, s); }
    }
    forall s ensures Least(eligible, c, ok, s) <==> FirstOf(usable, c, ok, s) {
      forall t ensures Ahead(c, s, t) <==> Earlier(c, s, t) { AheadIff(c, s, t); }
    }
  }

  lemma SameSeeds(seeds: seq<Seed>, controlled: bool)
    ensures forall s :: s in Eligible(seeds, controlled) <==> s in Usable(seeds, controlled)
  {
  }

  function Blocked(seeds: seq<Seed>, ok: Guard): set<Seed> { set s | s in seeds && !ok(s) }

  /** All that come before the least allowed seed are blocked. */
  lemma OnlyBlockedAhead(seeds: seq<Seed>, c: Counter, ok: Guard, s: Seed)
    requires Least(seeds, c, ok, s) && DistinctIds(seeds)
    ensures AheadOf(seeds, c, s) <= Blocked(seeds, ok)
  {
    forall t | t in AheadOf(seeds, c, s) ensures t in Blocked(seeds, ok) {
      AheadTotal(c, s, t);
      assert s.id != t.id;
    }
  }

  /** With at most seven blocked seeds the least allowed one is always picked, whatever the counts. */
  lemma FewBlocked(seeds: seq<Seed>, c: Counter, ok: Guard, pick: Option<Seed>, allowed: Seed)
    requires PickedAs(seeds, c, ok, pick) && DistinctIds(seeds)
    requires |Blocked(seeds, ok)| < MAX_SCAN && allowed in seeds && ok(allowed)
    ensures pick.Some? && Least(seeds, c, ok, pick.value)
  {
    var s := LeastExists(seeds, c, ok, allowed);
    OnlyBlockedAhead(seeds, c, ok, s);
    SubsetSize(AheadOf(seeds, c, s), Blocked(seeds, ok));
  }

  lemma {:induction false} LeastExists(seeds: seq<Seed>, c: Counter, ok: Guard, allowed: Seed) returns (s: Seed)
    requires allowed in seeds && ok(allowed)
    ensures Least(seeds, c, ok, s)
  {
    s := seeds[0];
    if exists t | t in seeds[1..] :: ok(t) {
      var t :| t in seeds[1..] && ok(t);
      s := LeastExists(seeds[1..], c, ok, t);
      AheadTotal(c, s, seeds[0]);
      if ok(seeds[0]) && !Ahead(c, s, seeds[0]) {
        forall u | u in seeds[1..] && ok(u) ensures Ahead(c, seeds[0], u) { AheadTransitive(c, seeds[0], s, u); }
        AheadTotal(c, seeds[0], seeds[0]);
        s := seeds[0];
      }
    } else {
      AheadTotal(c, s, s);
    }
  }

  /** In sorted order, exactly the seeds at smaller positions come before the one at k. */
  lemma PositionIs(seeds: seq<Seed>, c: Counter, k: nat)
    requires DistinctIds(seeds) && k < |seeds|
    ensures var order := Sorted(c, seeds); |order| == |seeds| && |AheadOf(seeds, c, order[k])| == k
  {
    var order := Sorted(c, seeds);
    assert |multiset(order)| == |multiset(seeds)|;
    SortedOrdered(c, seeds);
    SortedDistinct(c, seeds);
    forall t ensures t in order[..k] <==> t in AheadOf(seeds, c, order[k]) {
      assert t in order <==> t in multiset(order);
      assert t in seeds <==> t in multiset(seeds);
      PrefixIsAhead(order, c, k, t);
    }
    SetOfDistinct(order[..k]);
    assert (set t | t in order[..k]) == AheadOf(seeds, c, order[k]);
  }

  lemma PrefixIsAhead(order: seq<Seed>, c: Counter, k: nat, t: Seed)
    requires DistinctIds(order) && Ordered(c, order) && k < |order|
    ensures t in order[..k] <==> t in order && t != order[k] && Ahead(c, t, order[k])
  {
    if t in order && t != order[k] && Ahead(c, t, order[k]) {
      var j :| 0 <= j < |order| && order[j] == t;
      if j > k { AheadTotal(c, order[k], t); }
      assert order[..k][j] == t;
    }
    if t in order[..k] {
      var j :| 0 <= j < k && order[j] == t;
    }
  }

  lemma SortedDistinct(c: Counter, seeds: seq<Seed>)
    requires DistinctIds(seeds)
    ensures DistinctIds(Sorted(c, seeds))
  {
    var order := Sorted(c, seeds);
    forall i, j | 0 <= i < j < |order| ensures order[i].id != order[j].id {
      if order[i].id == order[j].id {
        assert order[i] in multiset(seeds) && order[j] in multiset(seeds);
        assert order[i] == order[j];
        TwiceIn(order, i, j);
        OnceIn(seeds, order[i]);
      }
    }
  }

  lemma TwiceIn(s: seq<Seed>, i: nat, j: nat)
    requires i < j < |s| && s[i] == s[j]
    ensures multiset(s)[s[i]] >= 2
  {
    assert s == s[..j] + [s[j]] + s[j + 1..];
    assert s[..j][i] == s[i];
  }

  lemma {:induction false} OnceIn(seeds: seq<Seed>, s: Seed)
    requires DistinctIds(seeds)
    ensures multiset(seeds)[s] <= 1
  {
    if seeds != [] {
      assert seeds == [seeds[0]] + seeds[1..];
      OnceIn(seeds[1..], s);
      if seeds[0] == s { assert forall t | t in seeds[1..] :: t.id != s.id; }
    }
  }

  lemma {:induction false} SetOfDistinct(s: seq<Seed>)
    requires DistinctIds(s)
    ensures |set t | t in s| == |s|
  {
    if s != [] {
      var before, last := s[..|s| - 1], s[|s| - 1];
      SetOfDistinct(before);
      assert (set t | t in s) == (set t | t in before) + {last};
      assert last !in before;
    }
  }

  // ------------------------------------------------------------------------- runs of picks

  /** The counts after one pick, when a pick adds `step`. */
  function Bump(c: Counter, pick: Option<Seed>, step: nat): Counter {
    id => c(id) + if pick.Some? && pick.value.id == id then step else 0
  }

  function After(c: Counter, step: nat, picks: seq<Option<Seed>>): Counter {
    if picks == [] then c else Bump(After(c, step, picks[..|picks| - 1]), picks[|picks| - 1], step)
  }

  function Executions(picks: seq<Option<Seed>>, id: string): nat {
    if picks == [] then 0
    else
      var pick := picks[|picks| - 1];
      Executions(picks[..|picks| - 1], id) + if pick.Some? && pick.value.id == id then 1 else 0
  }

  /** Every counter grows by `step` for each execution. */
  lemma {:induction false} CountsExecutions(c: Counter, step: nat, picks: seq<Option<Seed>>, id: string)
    ensures After(c, step, picks)(id) == c(id) + step * Executions(picks, id)
  {
    if picks != [] {
      CountsExecutions(c, step, picks[..|picks| - 1], id);
      assert step * (Executions(picks[..|picks| - 1], id) + 1) == step * Executions(picks[..|picks| - 1], id) + step;
    }
  }

  /** Each pick is made from the counts that the picks before it left. */
  ghost predicate RunFrom(seeds: seq<Seed>, c: Counter, step: nat, guards: seq<Guard>, picks: seq<Option<Seed>>) {
    |picks| == |guards| && forall k | 0 <= k < |picks| ::
      PickedAs(seeds, After(c, step, picks[..k]), guards[k], picks[k])
  }

  lemma RunSnoc(seeds: seq<Seed>, c: Counter, step: nat, guards: seq<Guard>, picks: seq<Option<Seed>>, ok: Guard,
                pick: Option<Seed>)
    requires RunFrom(seeds, c, step, guards, picks) && PickedAs(seeds, After(c, step, picks), ok, pick)
    ensures RunFrom(seeds, c, step, guards + [ok], picks + [pick])
    ensures After(c, step, picks + [pick]) == Bump(After(c, step, picks), pick, step)
  {
    var now := picks + [pick];
    assert forall k | 0 <= k < |now| :: now[..k] == picks[..k];
  }

  lemma {:induction false} AfterBoth(c: Counter, d: Counter, step: nat, first: seq<Option<Seed>>,
                                     second: seq<Option<Seed>>, id: string)
    requires d(id) == After(c, step, first)(id)
    ensures After(c, step, first + second)(id) == After(d, step, second)(id)
    decreases |second|
  {
    if second == [] {
      assert first + second == first;
    } else {
      AfterBoth(c, d, step, first, second[..|second| - 1], id);
      assert (first + second)[..|first + second| - 1] == first + second[..|second| - 1];
    }
  }

  /** Two runs on the same counts, the second from where the first left them, are one: placements met again go on. */
  lemma RunsJoin(seeds: seq<Seed>, c: Counter, d: Counter, step: nat, guards: seq<Guard>, first: seq<Option<Seed>>,
                 more: seq<Guard>, second: seq<Option<Seed>>)
    requires RunFrom(seeds, c, step, guards, first) && RunFrom(seeds, d, step, more, second)
    requires forall id :: d(id) == After(c, step, first)(id)
    ensures RunFrom(seeds, c, step, guards + more, first + second)
    ensures forall id :: After(c, step, first + second)(id) == After(d, step, second)(id)
  {
    forall id ensures After(c, step, first + second)(id) == After(d, step, second)(id) {
      AfterBoth(c, d, step, first, second, id);
    }
    forall k | 0 <= k < |first + second|
      ensures PickedAs(seeds, After(c, step, (first + second)[..k]), (guards + more)[k], (first + second)[k])
    {
      if k < |first| {
        assert (first + second)[..k] == first[..k];
      } else {
        var n := k - |first|;
        assert (first + second)[..k] == first + second[..n];
        forall id ensures After(c, step, first + second[..n])(id) == After(d, step, second[..n])(id) {
          AfterBoth(c, d, step, first, second[..n], id);
        }
        SamePick(seeds, After(d, step, second[..n]), After(c, step, first + second[..n]), more[n], second[n]);
      }
    }
  }

  /** The allowed seeds in the order of their ids. */
  ghost predicate Rota(seeds: seq<Seed>, ok: Guard, ids: seq<Seed>) {
    && (forall s :: s in ids <==> s in seeds && ok(s))
    && (forall i, j | 0 <= i < j < |ids| :: Alphabetical(ids[i].id, ids[j].id) && ids[i].id != ids[j].id)
  }

  /** The seeds before position r are one execution ahead of the others. */
  ghost predicate Lap(c: Counter, step: nat, ids: seq<Seed>, base: nat, r: nat) {
    r < |ids| && forall j | 0 <= j < |ids| :: c(ids[j].id) == base + if j < r then step else 0
  }

  lemma NextOnRota(seeds: seq<Seed>, c: Counter, step: nat, ok: Guard, ids: seq<Seed>, base: nat, r: nat,
                   pick: Option<Seed>)
    requires step > 0 && DistinctIds(seeds) && Rota(seeds, ok, ids) && Lap(c, step, ids, base, r)
    requires |Blocked(seeds, ok)| < MAX_SCAN && PickedAs(seeds, c, ok, pick)
    ensures pick == Some(ids[r])
  {
    FewBlocked(seeds, c, ok, pick, ids[r]);
    var s := pick.value;
    var j :| 0 <= j < |ids| && ids[j] == s;
    assert Ahead(c, s, ids[r]);
    if j > r {
      LeIff(ids[r].id, ids[j].id);
      LeTotal(ids[j].id, ids[r].id);
    }
  }

  lemma NextLap(c: Counter, step: nat, ids: seq<Seed>, base: nat, r: nat)
    requires Lap(c, step, ids, base, r) && forall i, j | 0 <= i < j < |ids| :: ids[i].id != ids[j].id
    ensures var now := Bump(c, Some(ids[r]), step);
            if r + 1 < |ids| then Lap(now, step, ids, base, r + 1) else Lap(now, step, ids, base + step, 0)
  {
    var now := Bump(c, Some(ids[r]), step);
    assert forall j | 0 <= j < |ids| :: now(ids[j].id) == c(ids[j].id) + if j == r then step else 0;
  }

  lemma Divides(k: nat, n: nat, q: nat, r: nat)
    requires r < n && k == q * n + r
    ensures k / n == q && k % n == r
  {
    Multiple(k / n - q, n);
    assert (k / n - q) * n == r - k % n;
  }

  lemma Multiple(d: int, n: nat)
    ensures d >= 1 ==> d * n >= n
    ensures d <= -1 ==> d * n + n <= 0
  {
    if d >= 1 { assert (d - 1) * n >= 0; }
    if d <= -1 { assert (d + 1) * n <= 0; }
  }

  /** Seeds of which the same ones, in id order, are allowed throughout, and at most seven blocked. */
  ghost predicate Steady(seeds: seq<Seed>, step: nat, ok: Guard, ids: seq<Seed>) {
    step > 0 && DistinctIds(seeds) && Rota(seeds, ok, ids) && ids != [] && |Blocked(seeds, ok)| < MAX_SCAN
  }

  /** The counts after k picks of the rota: whole laps, and one more for the seeds already met in this one. */
  ghost predicate OnRota(c: Counter, step: nat, ids: seq<Seed>, k: nat)
    requires ids != []
  {
    Lap(c, step, ids, step * (k / |ids|), k % |ids|)
  }

  /** Every pick is the next of the rota. */
  ghost predicate InTurn(picks: seq<Option<Seed>>, ids: seq<Seed>)
    requires ids != []
  {
    forall k | 0 <= k < |picks| :: picks[k] == Some(ids[k % |ids|])
  }

  lemma InTurnStep(picks: seq<Option<Seed>>, ids: seq<Seed>)
    requires ids != [] && picks != [] && InTurn(picks[..|picks| - 1], ids)
    requires picks[|picks| - 1] == Some(ids[(|picks| - 1) % |ids|])
    ensures InTurn(picks, ids)
  {
    assert forall k | 0 <= k < |picks| - 1 :: picks[k] == picks[..|picks| - 1][k];
  }

  lemma RotaStep(seeds: seq<Seed>, c: Counter, step: nat, ok: Guard, ids: seq<Seed>, k: nat, pick: Option<Seed>)
    requires Steady(seeds, step, ok, ids) && OnRota(c, step, ids, k) && PickedAs(seeds, c, ok, pick)
    ensures pick == Some(ids[k % |ids|]) && OnRota(Bump(c, pick, step), step, ids, k + 1)
  {
    RotaMove(seeds, c, step, ok, ids, step * (k / |ids|), k % |ids|, pick);
    OnRotaNext(Bump(c, pick, step), step, ids, k);
  }

  lemma OnRotaNext(c: Counter, step: nat, ids: seq<Seed>, k: nat)
    requires ids != []
    requires var base, r := step * (k / |ids|), k % |ids|;
             if r + 1 < |ids| then Lap(c, step, ids, base, r + 1) else Lap(c, step, ids, base + step, 0)
    ensures OnRota(c, step, ids, k + 1)
  {
    NextPosition(k, |ids|, step);
  }

  lemma RotaMove(seeds: seq<Seed>, c: Counter, step: nat, ok: Guard, ids: seq<Seed>, base: nat, r: nat,
                 pick: Option<Seed>)
    requires Steady(seeds, step, ok, ids) && Lap(c, step, ids, base, r) && PickedAs(seeds, c, ok, pick)
    ensures pick == Some(ids[r])
    ensures var now := Bump(c, pick, step);
            if r + 1 < |ids| then Lap(now, step, ids, base, r + 1) else Lap(now, step, ids, base + step, 0)
  {
    NextOnRota(seeds, c, step, ok, ids, base, r, pick);
    NextLap(c, step, ids, base, r);
  }

  /**
   * Round robin. From fresh counters, pick k is number k modulo n of the allowed seeds in id
   * order, and the counts are those of so many laps.
   */
  lemma {:induction false} RoundRobin(seeds: seq<Seed>, c: Counter, step: nat, ok: Guard, ids: seq<Seed>,
                                      guards: seq<Guard>, picks: seq<Option<Seed>>)
    requires Steady(seeds, step, ok, ids) && forall s | s in ids :: c(s.id) == 0
    requires RunFrom(seeds, c, step, guards, picks) && forall k | 0 <= k < |guards| :: guards[k] == ok
    ensures OnRota(After(c, step, picks), step, ids, |picks|) && InTurn(picks, ids)
    decreases |picks|
  {
    if picks != [] {
      var k := |picks| - 1;
      RunPrefix(seeds, c, step, guards, picks);
      RoundRobin(seeds, c, step, ok, ids, guards[..k], picks[..k]);
      RotaStep(seeds, After(c, step, picks[..k]), step, ok, ids, k, picks[k]);
      InTurnStep(picks, ids);
    } else {
      Divides(0, |ids|, 0, 0);
    }
  }

  lemma RunPrefix(seeds: seq<Seed>, c: Counter, step: nat, guards: seq<Guard>, picks: seq<Option<Seed>>)
    requires RunFrom(seeds, c, step, guards, picks) && picks != []
    ensures var k := |picks| - 1;
            RunFrom(seeds, c, step, guards[..k], picks[..k])
              && PickedAs(seeds, After(c, step, picks[..k]), guards[k], picks[k])
  {
    assert forall j | 0 <= j < |picks| - 1 :: picks[..|picks| - 1][..j] == picks[..j];
  }

  lemma NextPosition(k: nat, n: nat, step: nat)
    requires n > 0
    ensures if k % n + 1 < n then (k + 1) / n == k / n && (k + 1) % n == k % n + 1
            else (k + 1) / n == k / n + 1 && (k + 1) % n == 0 && step * ((k + 1) / n) == step * (k / n) + step
  {
    var q, r := k / n, k % n;
    assert k == q * n + r;
    if r + 1 < n {
      Divides(k + 1, n, q, r + 1);
    } else {
      assert (q + 1) * n == q * n + n;
      Divides(k + 1, n, q + 1, 0);
      assert step * (q + 1) == step * q + step;
    }
  }

  /** So no allowed seed is ever more than one execution behind another. */
  lemma NoneStarves(seeds: seq<Seed>, c: Counter, step: nat, ok: Guard, ids: seq<Seed>,
                    guards: seq<Guard>, picks: seq<Option<Seed>>, s: Seed, t: Seed)
    requires Steady(seeds, step, ok, ids) && forall s | s in ids :: c(s.id) == 0
    requires RunFrom(seeds, c, step, guards, picks) && forall k | 0 <= k < |guards| :: guards[k] == ok
    requires s in ids && t in ids
    ensures After(c, step, picks)(s.id) <= After(c, step, picks)(t.id) + step
  {
    RoundRobin(seeds, c, step, ok, ids, guards, picks);
  }

  // -------------------------------------------------------------------- when seeds starve

  /** The same precondition at every pick. */
  function Same(ok: Guard, n: nat): (guards: seq<Guard>)
    ensures |guards| == n && forall k | 0 <= k < n :: guards[k] == ok
  {
    seq(n, _ => ok)
  }

  /** A seed that is picked has fewer than eight blocked seeds before it, of those that have never run. */
  lemma BlockedAhead(seeds: seq<Seed>, c: Counter, ok: Guard, s: Seed, blocked: set<Seed>)
    requires PickedAs(seeds, c, ok, Some(s)) && blocked <= Blocked(seeds, ok)
    requires forall b | b in blocked :: c(b.id) == 0 && (c(s.id) > 0 || Le(b.id, s.id))
    ensures |blocked| < MAX_SCAN
  {
    assert blocked <= AheadOf(seeds, c, s);
    SubsetSize(blocked, AheadOf(seeds, c, s));
  }

  /** The blocked seeds that come before a seed while neither has run. */
  function BlockedBefore(seeds: seq<Seed>, ok: Guard, s: Seed): set<Seed> {
    set b | b in Blocked(seeds, ok) && Le(b.id, s.id)
  }

  lemma {:induction false} BlockedNeverRun(seeds: seq<Seed>, c: Counter, step: nat, ok: Guard,
                                           picks: seq<Option<Seed>>, b: Seed)
    requires DistinctIds(seeds) && RunFrom(seeds, c, step, Same(ok, |picks|), picks) && b in Blocked(seeds, ok)
    ensures Executions(picks, b.id) == 0
    decreases |picks|
  {
    if picks != [] {
      var n := |picks| - 1;
      RunPrefix(seeds, c, step, Same(ok, |picks|), picks);
      assert Same(ok, |picks|)[..n] == Same(ok, n);
      BlockedNeverRun(seeds, c, step, ok, picks[..n], b);
    }
  }

  /**
   * From fresh counters with eight or more blocked, no seed ever runs twice, nor one that eight
   * blocked come before even once.
   */
  lemma {:induction false} RunsAtMostOnce(seeds: seq<Seed>, c: Counter, step: nat, ok: Guard,
                                          picks: seq<Option<Seed>>, s: Seed)
    requires step > 0 && DistinctIds(seeds) && (forall t | t in seeds :: c(t.id) == 0) && s in seeds
    requires RunFrom(seeds, c, step, Same(ok, |picks|), picks) && |Blocked(seeds, ok)| >= MAX_SCAN
    ensures Executions(picks, s.id) <= 1
    ensures |BlockedBefore(seeds, ok, s)| >= MAX_SCAN ==> Executions(picks, s.id) == 0
    decreases |picks|
  {
    if picks != [] {
      var n := |picks| - 1;
      var before := picks[..n];
      RunPrefix(seeds, c, step, Same(ok, |picks|), picks);
      assert Same(ok, |picks|)[..n] == Same(ok, n);
      RunsAtMostOnce(seeds, c, step, ok, before, s);
      if picks[n].Some? && picks[n].value.id == s.id {
        assert picks[n].value == s;
        BlockedAtZero(seeds, c, step, ok, before);
        CountsExecutions(c, step, before, s.id);
        PickedOnce(seeds, After(c, step, before), step, ok, s, Executions(before, s.id));
      }
    }
  }

  lemma BlockedAtZero(seeds: seq<Seed>, c: Counter, step: nat, ok: Guard, picks: seq<Option<Seed>>)
    requires DistinctIds(seeds) && forall t | t in seeds :: c(t.id) == 0
    requires RunFrom(seeds, c, step, Same(ok, |picks|), picks)
    ensures forall b | b in Blocked(seeds, ok) :: After(c, step, picks)(b.id) == 0
  {
    forall b | b in Blocked(seeds, ok) ensures After(c, step, picks)(b.id) == 0 {
      BlockedNeverRun(seeds, c, step, ok, picks, b);
      CountsExecutions(c, step, picks, b.id);
    }
  }

  lemma PickedOnce(seeds: seq<Seed>, d: Counter, step: nat, ok: Guard, s: Seed, runs: nat)
    requires step > 0 && PickedAs(seeds, d, ok, Some(s)) && d(s.id) == step * runs
    requires |Blocked(seeds, ok)| >= MAX_SCAN && forall b | b in Blocked(seeds, ok) :: d(b.id) == 0
    ensures runs == 0 && |BlockedBefore(seeds, ok, s)| < MAX_SCAN
  {
    BlockedAhead(seeds, d, ok, s, BlockedBefore(seeds, ok, s));
    Multiple(runs, step);
    if d(s.id) > 0 { BlockedAhead(seeds, d, ok, s, Blocked(seeds, ok)); }
  }

  lemma PickExists(seeds: seq<Seed>, c: Counter, ok: Guard) returns (pick: Option<Seed>)
    requires DistinctIds(seeds)
    ensures PickedAs(seeds, c, ok, pick)
  {
    if s :| Least(seeds, c, ok, s) && |AheadOf(seeds, c, s)| < MAX_SCAN { pick := Some(s); } else { pick := None; }
  }

  lemma {:induction false} RunExists(seeds: seq<Seed>, c: Counter, step: nat, ok: Guard, n: nat)
    returns (picks: seq<Option<Seed>>)
    requires DistinctIds(seeds)
    ensures |picks| == n && RunFrom(seeds, c, step, Same(ok, n), picks)
  {
    if n == 0 {
      picks := [];
    } else {
      var before := RunExists(seeds, c, step, ok, n - 1);
      var pick := PickExists(seeds, After(c, step, before), ok);
      RunSnoc(seeds, c, step, Same(ok, n - 1), before, ok, pick);
      assert Same(ok, n) == Same(ok, n - 1) + [ok];
      picks := before + [pick];
    }
  }

  /** After so many picks the seed has run at least n times, whatever was picked. */
  ghost predicate RanBy(seeds: seq<Seed>, c: Counter, step: nat, ok: Guard, s: Seed, n: nat, length: nat) {
    forall picks | |picks| == length && RunFrom(seeds, c, step, Same(ok, length), picks) :: Executions(picks, s.id) >= n
  }

  function AllowedOf(seeds: seq<Seed>, ok: Guard): (r: seq<Seed>)
    ensures forall s :: s in r <==> s in seeds && ok(s)
  {
    if seeds == [] then [] else (if ok(seeds[0]) then [seeds[0]] else []) + AllowedOf(seeds[1..], ok)
  }

  lemma {:induction false} AllowedDistinct(seeds: seq<Seed>, ok: Guard)
    requires DistinctIds(seeds)
    ensures DistinctIds(AllowedOf(seeds, ok))
  {
    if seeds != [] {
      var rest := AllowedOf(seeds[1..], ok);
      AllowedDistinct(seeds[1..], ok);
      assert forall t | t in seeds[1..] :: t.id != seeds[0].id;
      assert forall k | 0 <= k < |rest| :: rest[k] in seeds[1..];
    }
  }

  lemma RotaExists(seeds: seq<Seed>, ok: Guard) returns (ids: seq<Seed>)
    requires DistinctIds(seeds)
    ensures Rota(seeds, ok, ids)
  {
    var zero: Counter := _ => 0;
    var allowed := AllowedOf(seeds, ok);
    AllowedDistinct(seeds, ok);
    ids := Sorted(zero, allowed);
    SortedOrdered(zero, allowed);
    SortedDistinct(zero, allowed);
    SameMembers(ids, allowed);
    OrderedByIds(zero, ids);
  }

  lemma SameMembers<T>(a: seq<T>, b: seq<T>)
    requires multiset(a) == multiset(b)
    ensures forall x :: x in a <==> x in b
  {
    forall x ensures x in a <==> x in b { assert x in multiset(a) <==> x in multiset(b); }
  }

  /** Between equal counts the order is that of the ids. */
  lemma OrderedByIds(c: Counter, ids: seq<Seed>)
    requires Ordered(c, ids) && DistinctIds(ids) && forall s, t :: c(s) == c(t)
    ensures forall i, j | 0 <= i < j < |ids| :: Alphabetical(ids[i].id, ids[j].id) && ids[i].id != ids[j].id
  {
    forall i, j | 0 <= i < j < |ids| ensures Alphabetical(ids[i].id, ids[j].id) {
      assert Ahead(c, ids[i], ids[j]);
      LeIff(ids[i].id, ids[j].id);
    }
  }

  lemma WholeLaps(seeds: seq<Seed>, c: Counter, step: nat, ok: Guard, ids: seq<Seed>, s: Seed, n: nat)
    requires Steady(seeds, step, ok, ids) && (forall t | t in ids :: c(t.id) == 0) && s in ids
    ensures RanBy(seeds, c, step, ok, s, n, n * |ids|)
  {
    var length := n * |ids|;
    forall picks | |picks| == length && RunFrom(seeds, c, step, Same(ok, length), picks)
      ensures Executions(picks, s.id) >= n
    {
      RoundRobin(seeds, c, step, ok, ids, Same(ok, length), picks);
      Divides(length, |ids|, n, 0);
      CountsExecutions(c, step, picks, s.id);
      AtLeast(step, Executions(picks, s.id), n);
    }
  }

  lemma AtLeast(step: nat, a: nat, b: nat)
    requires step > 0 && step * a >= step * b
    ensures a >= b
  {
    Multiple(b - a, step);
    assert (b - a) * step == step * b - step * a;
  }

  ghost predicate Reaches(seeds: seq<Seed>, c: Counter, step: nat, ok: Guard, s: Seed, n: nat) {
    exists length: nat :: RanBy(seeds, c, step, ok, s, n, length)
  }

  /** The seed runs again and again: any number of times, after enough picks. */
  ghost predicate NeverStarves(seeds: seq<Seed>, c: Counter, step: nat, ok: Guard, s: Seed) {
    forall n: nat :: Reaches(seeds, c, step, ok, s, n)
  }

  /** From fresh counters, an allowed seed runs again and again exactly when at most seven seeds are blocked. */
  lemma StarvesIff(seeds: seq<Seed>, c: Counter, step: nat, ok: Guard, s: Seed)
    requires step > 0 && DistinctIds(seeds) && (forall t | t in seeds :: c(t.id) == 0) && s in seeds && ok(s)
    ensures NeverStarves(seeds, c, step, ok, s) <==> |Blocked(seeds, ok)| < MAX_SCAN
  {
    if |Blocked(seeds, ok)| < MAX_SCAN {
      var ids := RotaExists(seeds, ok);
      forall n: nat ensures Reaches(seeds, c, step, ok, s, n) { WholeLaps(seeds, c, step, ok, ids, s, n); }
    } else {
      NotTwice(seeds, c, step, ok, s);
    }
  }

  lemma NotTwice(seeds: seq<Seed>, c: Counter, step: nat, ok: Guard, s: Seed)
    requires step > 0 && DistinctIds(seeds) && (forall t | t in seeds :: c(t.id) == 0) && s in seeds
    requires |Blocked(seeds, ok)| >= MAX_SCAN
    ensures !Reaches(seeds, c, step, ok, s, 2)
  {
    forall length: nat ensures !RanBy(seeds, c, step, ok, s, 2, length) {
      var picks := RunExists(seeds, c, step, ok, length);
      RunsAtMostOnce(seeds, c, step, ok, picks, s);
    }
  }

  lemma SamePick(seeds: seq<Seed>, c: Counter, d: Counter, ok: Guard, pick: Option<Seed>)
    requires PickedAs(seeds, c, ok, pick) && forall id :: c(id) == d(id)
    ensures PickedAs(seeds, d, ok, pick)
  {
    assert forall s, t :: Ahead(c, s, t) == Ahead(d, s, t);
    forall s ensures AheadOf(seeds, c, s) == AheadOf(seeds, d, s) && Least(seeds, c, ok, s) == Least(seeds, d, ok, s) {}
  }

  // -------------------------------------------------------------------------- the scheduler

  type Counts = map<string, map<string, nat>>

  function Count(counts: Counts, hash: string, id: string): nat {
    if hash in counts && id in counts[hash] then counts[hash][id] else 0
  }

  function CountsFor(counts: Counts, hash: string): Counter { id => Count(counts, hash, id) }

  /** One seed of one placement has `step` more executions, and nothing else has changed. */
  ghost predicate Bumped(before: Counts, now: Counts, hash: string, pick: Option<Seed>, step: nat) {
    forall h, id :: Count(now, h, id)
                    == Count(before, h, id) + if pick.Some? && h == hash && id == pick.value.id then step else 0
  }

  /** One placement's counts are those of c, and nothing else has changed. */
  ghost predicate Became(before: Counts, now: Counts, hash: string, c: Counter) {
    forall h, id :: Count(now, h, id) == if h == hash then c(id) else Count(before, h, id)
  }

  lemma BecameStep(before: Counts, now: Counts, next: Counts, hash: string, c: Counter, pick: Option<Seed>, step: nat)
    requires Became(before, now, hash, c) && Bumped(now, next, hash, pick, step)
    ensures Became(before, next, hash, Bump(c, pick, step))
  {
    var now' := Bump(c, pick, step);
    forall h, id ensures Count(next, h, id) == if h == hash then now'(id) else Count(before, h, id) {
      assert Count(now, h, id) == if h == hash then c(id) else Count(before, h, id);
      assert Count(next, h, id)
             == Count(now, h, id) + if pick.Some? && h == hash && id == pick.value.id then step else 0;
    }
  }

  class SeedScheduler {
    const seeds: seq<Seed>
    var counts: Counts

    constructor (seeds: seq<Seed>)
      ensures this.seeds == seeds && counts == map[]
      ensures forall hash, id :: Count(counts, hash, id) == 0
    {
      this.seeds := seeds;
      counts := map[];
    }

    method PickSeed(hash: string, controlled: bool, ok: Guard) returns (pick: Option<Seed>)
      requires DistinctIds(seeds)
      modifies this`counts
      ensures PickedAs(Eligible(seeds, controlled), CountsFor(old(counts), hash), ok, pick)
      ensures PickedInOrder(Usable(seeds, controlled), CountsFor(old(counts), hash), ok, pick)
      ensures Bumped(old(counts), counts, hash, pick, 1)
    {
      var eligible := Eligible(seeds, controlled);
      var order := Sorted(CountsFor(counts, hash), eligible);
      var k, found := Scan(order, ok);
      ScanPicks(eligible, CountsFor(counts, hash), ok, k, found);
      pick := if found then Some(order[k]) else None;
      PickIsInOrder(seeds, controlled, CountsFor(counts, hash), ok, pick);
      if found { RecordSeedExecution(hash, order[k]); }
    }

    /**
     * The seeds of a round: one pick for every controlled node, under its own guard, and the
     * execution recorded once more, so that a pick adds two.
     */
    method RunSeeds(hash: string, guards: seq<Guard>) returns (picks: seq<Option<Seed>>)
      requires DistinctIds(seeds)
      modifies this`counts
      ensures RunFrom(Eligible(seeds, true), CountsFor(old(counts), hash), 2, guards, picks)
      ensures Became(old(counts), counts, hash, After(CountsFor(old(counts), hash), 2, picks))
    {
      ghost var c, eligible := CountsFor(counts, hash), Eligible(seeds, true);
      picks := [];
      for k := 0 to |guards|
        invariant RunFrom(eligible, c, 2, guards[..k], picks)
        invariant Became(old(counts), counts, hash, After(c, 2, picks))
      {
        ghost var before := counts;
        var pick := RunSeed(hash, guards[k]);
        SamePick(eligible, CountsFor(before, hash), After(c, 2, picks), guards[k], pick);
        BecameStep(old(counts), before, counts, hash, After(c, 2, picks), pick, 2);
        RunSnoc(eligible, c, 2, guards[..k], picks, guards[k], pick);
        assert guards[..k + 1] == guards[..k] + [guards[k]];
        picks := picks + [pick];
      }
    }

    method RunSeed(hash: string, ok: Guard) returns (pick: Option<Seed>)
      requires DistinctIds(seeds)
      modifies this`counts
      ensures PickedAs(Eligible(seeds, true), CountsFor(old(counts), hash), ok, pick)
      ensures Bumped(old(counts), counts, hash, pick, 2)
    {
      pick := PickSeed(hash, true, ok);
      if pick.Some? { RecordSeedExecution(hash, pick.value); }
    }

    /** The first allowed seed within the scan bound. */
    method Scan(order: seq<Seed>, ok: Guard) returns (k: nat, found: bool)
      ensures k <= |order| && forall j | 0 <= j < k :: !ok(order[j])
      ensures found ==> k < MAX_SCAN && k < |order| && ok(order[k])
      ensures !found ==> k == |order| || k == MAX_SCAN
    {
      k := 0;
      while k < |order| && k < MAX_SCAN
        invariant k <= |order| && k <= MAX_SCAN && forall j | 0 <= j < k :: !ok(order[j])
      {
        if ok(order[k]) { return k, true; }
        k := k + 1;
      }
      found := false;
    }

    method RecordSeedExecution(hash: string, seed: Seed)
      modifies this`counts
      ensures Bumped(old(counts), counts, hash, Some(seed), 1)
    {
      var c := if hash in counts then counts[hash] else map[];
      counts := counts[hash := c[seed.id := Count(counts, hash, seed.id) + 1]];
    }
  }

  /** The first allowed seed in sorted order is the least, and its position counts those before it. */
  lemma FirstAllowed(seeds: seq<Seed>, c: Counter, ok: Guard, k: nat)
    requires DistinctIds(seeds) && k < |Sorted(c, seeds)| && ok(Sorted(c, seeds)[k])
    requires forall j | 0 <= j < k :: !ok(Sorted(c, seeds)[j])
    ensures Least(seeds, c, ok, Sorted(c, seeds)[k])
    ensures |AheadOf(seeds, c, Sorted(c, seeds)[k])| == k
  {
    var order := Sorted(c, seeds);
    assert |multiset(order)| == |multiset(seeds)|;
    PositionIs(seeds, c, k);
    SortedOrdered(c, seeds);
    assert order[k] in multiset(order);
    forall t | t in seeds && ok(t) ensures Ahead(c, order[k], t) {
      assert t in multiset(seeds);
      var j :| 0 <= j < |order| && order[j] == t;
      if j == k { AheadTotal(c, t, t); }
    }
  }

  lemma ScanPicks(seeds: seq<Seed>, c: Counter, ok: Guard, k: nat, found: bool)
    requires DistinctIds(seeds) && k <= |Sorted(c, seeds)| && forall j | 0 <= j < k :: !ok(Sorted(c, seeds)[j])
    requires if found then k < MAX_SCAN && k < |Sorted(c, seeds)| && ok(Sorted(c, seeds)[k])
             else k == |Sorted(c, seeds)| || k == MAX_SCAN
    ensures PickedAs(seeds, c, ok, if found then Some(Sorted(c, seeds)[k]) else None)
  {
    if found { FirstAllowed(seeds, c, ok, k); } else { NoneAllowed(seeds, c, ok, k); }
  }

  /** When the first n in sorted order are blocked, every allowed seed has at least n before it. */
  lemma NoneAllowed(seeds: seq<Seed>, c: Counter, ok: Guard, n: nat)
    requires DistinctIds(seeds) && n <= |Sorted(c, seeds)| && forall j | 0 <= j < n :: !ok(Sorted(c, seeds)[j])
    ensures forall s | s in seeds && ok(s) :: |AheadOf(seeds, c, s)| >= n && n < |Sorted(c, seeds)|
  {
    var order := Sorted(c, seeds);
    assert |multiset(order)| == |multiset(seeds)|;
    forall s | s in seeds && ok(s) ensures |AheadOf(seeds, c, s)| >= n && n < |order| {
      assert s in multiset(seeds);
      var j :| 0 <= j < |order| && order[j] == s;
      PositionIs(seeds, c, j);
    }
  }
}
