/**
 * The mutation-effective index of bcfuzzer/mei.py, as a function of the verdicts recorded
 * in it: which pairs of rule and value were tried for an item, admitted, or rejected.
 */
module Mei {
  import opened Values
  import opened Sets
  import Text

  datatype Verdict = Verdict(item: string, rule: string, value: Value, admitted: bool)

  type Pair = (string, Value)

  function PairOf(rule: string, value: Value): Pair { (rule, Key(value)) }

  function RejectKey(rule: string, value: Value): string { rule + "=" + Str(value) }

  /** A text tells the rule and the text of the value apart, as no rule has a '=' in it. */
  lemma RejectKeyIff(rule: string, value: Value, rule': string, value': Value)
    requires '=' !in rule && '=' !in rule'
    ensures RejectKey(rule, value) == RejectKey(rule', value') <==> rule == rule' && Str(value) == Str(value')
  {
    if RejectKey(rule, value) == RejectKey(rule', value') { Text.FirstPart('=', rule, Str(value), rule', Str(value')); }
  }

  // -------------------------------------------------------------- what a log of verdicts says

  function Explored(log: seq<Verdict>, item: string): set<Pair> {
    set v | v in log && v.item == item :: PairOf(v.rule, v.value)
  }

  function Admitted(log: seq<Verdict>, item: string): set<Pair> {
    set v | v in log && v.item == item && v.admitted :: PairOf(v.rule, v.value)
  }

  predicate Rejects(v: Verdict, item: string) { v.item == item && !v.admitted }

  function RejectedKeys(log: seq<Verdict>, item: string): set<string> {
    set v | v in log && Rejects(v, item) :: RejectKey(v.rule, v.value)
  }

  function Rejections(log: seq<Verdict>, item: string, key: string): nat {
    if log == [] then 0
    else
      var v := log[|log| - 1];
      Rejections(log[..|log| - 1], item, key) + if Rejects(v, item) && RejectKey(v.rule, v.value) == key then 1 else 0
  }

  lemma ExploredSnoc(log: seq<Verdict>, v: Verdict, item: string)
    ensures Explored(log + [v], item) == Explored(log, item) + if v.item == item then {PairOf(v.rule, v.value)} else {}
  {
    assert forall w :: w in log + [v] <==> w in log || w == v;
  }

  lemma AdmittedSnoc(log: seq<Verdict>, v: Verdict, item: string)
    ensures Admitted(log + [v], item)
            == Admitted(log, item) + if v.item == item && v.admitted then {PairOf(v.rule, v.value)} else {}
  {
    assert forall w :: w in log + [v] <==> w in log || w == v;
  }

  lemma RejectedSnoc(log: seq<Verdict>, v: Verdict, item: string)
    ensures RejectedKeys(log + [v], item)
            == RejectedKeys(log, item) + if Rejects(v, item) then {RejectKey(v.rule, v.value)} else {}
    ensures forall key :: Rejections(log + [v], item, key)
                          == Rejections(log, item, key)
                             + if Rejects(v, item) && RejectKey(v.rule, v.value) == key then 1 else 0
  {
    assert forall w :: w in log + [v] <==> w in log || w == v;
    assert (log + [v])[..|log|] == log;
  }

  /** A key has been rejected exactly when it has a rejection to count. */
  lemma {:induction false} RejectedIff(log: seq<Verdict>, item: string, key: string)
    ensures key in RejectedKeys(log, item) <==> Rejections(log, item, key) > 0
  {
    if log != [] {
      var before, v := log[..|log| - 1], log[|log| - 1];
      assert log == before + [v];
      RejectedIff(before, item, key);
      RejectedSnoc(before, v, item);
    }
  }

  function RejectedPairs(log: seq<Verdict>, item: string): set<Pair> {
    set v | v in log && Rejects(v, item) :: PairOf(v.rule, v.value)
  }

  /** Two rejected values are written alike exactly when Python holds them equal. */
  ghost predicate TextsTellApart(log: seq<Verdict>, item: string) {
    forall u, v | u in log && v in log && Rejects(u, item) && Rejects(v, item) ::
      RejectKey(u.rule, u.value) == RejectKey(v.rule, v.value) <==> PairOf(u.rule, u.value) == PairOf(v.rule, v.value)
  }

  /** Then the texts that the status counts are as many as the pairs. */
  lemma {:induction false} TextsCountPairs(log: seq<Verdict>, item: string)
    requires TextsTellApart(log, item)
    ensures |RejectedKeys(log, item)| == |RejectedPairs(log, item)|
  {
    if log != [] {
      var before, v := log[..|log| - 1], log[|log| - 1];
      assert log == before + [v];
      TellApartPrefix(before, v, item);
      TextsCountPairs(before, item);
      TextsStep(before, v, item);
    }
  }

  lemma TextsStep(log: seq<Verdict>, v: Verdict, item: string)
    requires |RejectedKeys(log, item)| == |RejectedPairs(log, item)|
    requires Rejects(v, item) ==> forall u | u in log && Rejects(u, item) ::
               RejectKey(u.rule, u.value) == RejectKey(v.rule, v.value)
               <==> PairOf(u.rule, u.value) == PairOf(v.rule, v.value)
    ensures |RejectedKeys(log + [v], item)| == |RejectedPairs(log + [v], item)|
  {
    RejectedSnoc(log, v, item);
    PairsSnoc(log, v, item);
    if Rejects(v, item) {
      NewTextIff(log, v, item);
      GrowAlike(RejectedKeys(log, item), RejectKey(v.rule, v.value), RejectedPairs(log, item), PairOf(v.rule, v.value));
    } else {
      assert RejectedKeys(log, item) + {} == RejectedKeys(log, item)
        && RejectedPairs(log, item) + {} == RejectedPairs(log, item);
    }
  }

  lemma GrowAlike<S, T>(a: set<S>, x: S, b: set<T>, y: T)
    requires |a| == |b| && (x in a <==> y in b)
    ensures |a + {x}| == |b + {y}|
  {
    if x in a { assert a + {x} == a && b + {y} == b; }
  }

  lemma PairsSnoc(log: seq<Verdict>, v: Verdict, item: string)
    ensures RejectedPairs(log + [v], item)
            == RejectedPairs(log, item) + if Rejects(v, item) then {PairOf(v.rule, v.value)} else {}
  {
    assert forall w :: w in log + [v] <==> w in log || w == v;
  }

  lemma TellApartPrefix(log: seq<Verdict>, v: Verdict, item: string)
    requires TextsTellApart(log + [v], item)
    ensures TextsTellApart(log, item)
    ensures Rejects(v, item) ==> forall u | u in log && Rejects(u, item) ::
              RejectKey(u.rule, u.value) == RejectKey(v.rule, v.value)
              <==> PairOf(u.rule, u.value) == PairOf(v.rule, v.value)
  {
    assert forall w | w in log :: w in log + [v];
    assert v in log + [v];
  }

  lemma NewTextIff(log: seq<Verdict>, v: Verdict, item: string)
    requires Rejects(v, item) && forall u | u in log && Rejects(u, item) ::
               RejectKey(u.rule, u.value) == RejectKey(v.rule, v.value)
               <==> PairOf(u.rule, u.value) == PairOf(v.rule, v.value)
    ensures RejectKey(v.rule, v.value) in RejectedKeys(log, item)
            <==> PairOf(v.rule, v.value) in RejectedPairs(log, item)
  {
  }

  /** They need not be: 1 and "1" are two values with one text, 1 and True are one value with two. */
  lemma TextsAndPairsDiffer(rule: string)
    ensures RejectKey(rule, IntV(1)) == RejectKey(rule, StrV("1")) && PairOf(rule, IntV(1)) != PairOf(rule, StrV("1"))
    ensures RejectKey(rule, IntV(1)) != RejectKey(rule, BoolV(true))
            && PairOf(rule, IntV(1)) == PairOf(rule, BoolV(true))
  {
    assert Str(IntV(1)) == "1";
    assert |RejectKey(rule, IntV(1))| != |RejectKey(rule, BoolV(true))|;
  }

  // ----------------------------------------------------------------------------- status

  datatype Status = Unexplored | Consistent | Inconsistent

  const CONSISTENT_THRESHOLD := 10

  /** Inconsistent once something was admitted; before that, consistent after ten different rejections. */
  function StatusOf(log: seq<Verdict>, item: string): Status {
    if Admitted(log, item) != {} then Inconsistent
    else if |RejectedKeys(log, item)| >= CONSISTENT_THRESHOLD then Consistent else Unexplored
  }

  /** Consistent: nothing was admitted, and ten texts or more were rejected. */
  lemma ConsistentIff(log: seq<Verdict>, item: string)
    ensures StatusOf(log, item) == Consistent
            <==> (forall v | v in log && v.item == item :: !v.admitted)
                 && exists texts: set<string> :: |texts| == 10 && forall t | t in texts :: RejectedAs(log, item, t)
    ensures StatusOf(log, item) == Inconsistent <==> exists v | v in log :: v.item == item && v.admitted
  {
    var keys := RejectedKeys(log, item);
    forall v | v in log && v.item == item && v.admitted ensures Admitted(log, item) != {} {
      assert PairOf(v.rule, v.value) in Admitted(log, item);
    }
    if |keys| >= 10 {
      var texts := SomeOf(keys, 10);
      assert forall t | t in texts :: RejectedAs(log, item, t);
    }
    if texts: set<string> :| |texts| == 10 && forall t | t in texts :: RejectedAs(log, item, t) {
      SubsetSize(texts, keys);
    }
  }

  predicate RejectedAs(log: seq<Verdict>, item: string, text: string) {
    exists v | v in log :: Rejects(v, item) && RejectKey(v.rule, v.value) == text
  }

  /** More verdicts move the status forward only. */
  lemma {:induction false} StatusForward(log: seq<Verdict>, more: seq<Verdict>, item: string)
    ensures StatusOf(log, item) == Inconsistent ==> StatusOf(log + more, item) == Inconsistent
    ensures StatusOf(log, item) == Consistent ==> StatusOf(log + more, item) != Unexplored
    decreases |more|
  {
    if more == [] {
      assert log + more == log;
    } else {
      var before, v := log + more[..|more| - 1], more[|more| - 1];
      StatusForward(log, more[..|more| - 1], item);
      assert log + more == before + [v];
      AdmittedSnoc(before, v, item);
      RejectedSnoc(before, v, item);
      SubsetSize(RejectedKeys(before, item), RejectedKeys(before + [v], item));
    }
  }

  /** Repeating a rejection never makes an item consistent: only its different keys count. */
  lemma RepeatedRejection(log: seq<Verdict>, v: Verdict)
    requires v in log && !v.admitted
    ensures StatusOf(log + [v], v.item) == StatusOf(log, v.item)
  {
    AdmittedSnoc(log, v, v.item);
    RejectedSnoc(log, v, v.item);
    assert RejectKey(v.rule, v.value) in RejectedKeys(log, v.item);
    assert RejectedKeys(log + [v], v.item) == RejectedKeys(log, v.item);
  }

  // ------------------------------------------------------------------ order independence

  /** Everything the index answers depends on which verdicts were recorded, not on their order. */
  lemma OrderIndependent(a: seq<Verdict>, b: seq<Verdict>, item: string, key: string)
    requires multiset(a) == multiset(b)
    ensures Explored(a, item) == Explored(b, item) && Admitted(a, item) == Admitted(b, item)
    ensures Rejections(a, item, key) == Rejections(b, item, key)
    ensures StatusOf(a, item) == StatusOf(b, item)
  {
    assert forall v :: v in a <==> v in multiset(a);
    assert forall v :: v in b <==> v in multiset(b);
    assert RejectedKeys(a, item) == RejectedKeys(b, item);
    RejectionsReordered(a, b, item, key);
  }

  lemma {:induction false} RejectionsConcat(a: seq<Verdict>, b: seq<Verdict>, item: string, key: string)
    ensures Rejections(a + b, item, key) == Rejections(a, item, key) + Rejections(b, item, key)
    decreases |b|
  {
    if b == [] {
      assert a + b == a;
    } else {
      assert (a + b)[..|a + b| - 1] == a + b[..|b| - 1];
      RejectionsConcat(a, b[..|b| - 1], item, key);
    }
  }

  lemma WithoutLast(a: seq<Verdict>, b: seq<Verdict>) returns (k: nat)
    requires a != [] && multiset(a) == multiset(b)
    ensures k < |b| && b[k] == a[|a| - 1] && multiset(a[..|a| - 1]) == multiset(b[..k] + b[k + 1..])
  {
    var v := a[|a| - 1];
    LessOne(a, |a| - 1);
    assert a[..|a| - 1] + a[|a|..] == a[..|a| - 1];
    assert v in multiset(a);
    k :| 0 <= k < |b| && b[k] == v;
    LessOne(b, k);
  }

  lemma LessOne(s: seq<Verdict>, k: nat)
    requires k < |s|
    ensures multiset(s[..k] + s[k + 1..]) == multiset(s) - multiset{s[k]}
  {
    assert s == s[..k] + [s[k]] + s[k + 1..];
  }

  lemma {:induction false} RejectionsReordered(a: seq<Verdict>, b: seq<Verdict>, item: string, key: string)
    requires multiset(a) == multiset(b)
    ensures Rejections(a, item, key) == Rejections(b, item, key)
    decreases |a|
  {
    if a == [] {
      assert |multiset(b)| == 0;
    } else {
      var before, v := a[..|a| - 1], a[|a| - 1];
      var k := WithoutLast(a, b);
      assert b == b[..k] + [v] + b[k + 1..] && a == before + [v];
      RejectionsReordered(before, b[..k] + b[k + 1..], item, key);
      RejectionsConcat(b[..k], b[k + 1..], item, key);
      RejectionsConcat(b[..k] + [v], b[k + 1..], item, key);
      RejectionsConcat(b[..k], [v], item, key);
      RejectionsConcat(before, [v], item, key);
    }
  }

  // -------------------------------------------------------------------------- the index

  function Pairs(m: map<string, seq<Pair>>, item: string): seq<Pair> { if item in m then m[item] else [] }

  function Tried(m: map<string, set<Pair>>, item: string): set<Pair> { if item in m then m[item] else {} }

  function CountsFor(m: map<string, map<string, nat>>, item: string): map<string, nat> {
    if item in m then m[item] else map[]
  }

  predicate HasKey(pairs: seq<Pair>, key: Pair) { exists p | p in pairs :: PairOf(p.0, p.1) == key }

  /** The list holds one pair, as it was admitted, for every pair that Python tells apart. */
  ghost predicate Lists(pairs: seq<Pair>, log: seq<Verdict>, item: string) {
    && (forall p | p in pairs :: Verdict(item, p.0, p.1, true) in log)
    && (forall i, j | 0 <= i < j < |pairs| :: PairOf(pairs[i].0, pairs[i].1) != PairOf(pairs[j].0, pairs[j].1))
    && (forall key | key in Admitted(log, item) :: HasKey(pairs, key))
  }

  ghost predicate CountsRejections(counts: map<string, nat>, log: seq<Verdict>, item: string) {
    && counts.Keys == RejectedKeys(log, item)
    && forall key | key in counts :: counts[key] == Rejections(log, item, key)
  }

  lemma ListsEmptyIff(pairs: seq<Pair>, log: seq<Verdict>, item: string)
    requires Lists(pairs, log, item)
    ensures pairs == [] <==> Admitted(log, item) == {}
    ensures forall key :: HasKey(pairs, key) <==> key in Admitted(log, item)
  {
    forall key | HasKey(pairs, key) ensures key in Admitted(log, item) {
      var p :| p in pairs && PairOf(p.0, p.1) == key;
      assert Verdict(item, p.0, p.1, true) in log;
    }
    if pairs != [] {
      assert pairs[0] in pairs;
      assert HasKey(pairs, PairOf(pairs[0].0, pairs[0].1));
    }
    if Admitted(log, item) != {} {
      var key :| key in Admitted(log, item);
      assert HasKey(pairs, key);
    }
  }

  /** The pairs of an item after one more is admitted. */
  function Added(pairs: seq<Pair>, rule: string, value: Value): seq<Pair> {
    if HasKey(pairs, PairOf(rule, value)) then pairs else pairs + [(rule, value)]
  }

  lemma ListsSnoc(pairs: seq<Pair>, log: seq<Verdict>, item: string, v: Verdict)
    requires Lists(pairs, log, item)
    ensures Lists(if v.item == item && v.admitted then Added(pairs, v.rule, v.value) else pairs, log + [v], item)
  {
    AdmittedSnoc(log, v, item);
    var grows := v.item == item && v.admitted && !HasKey(pairs, PairOf(v.rule, v.value));
    var now := if grows then pairs + [(v.rule, v.value)] else pairs;
    forall key | key in Admitted(log + [v], item) ensures HasKey(now, key) {
      if HasKey(pairs, key) {
        var p :| p in pairs && PairOf(p.0, p.1) == key;
        assert p in now;
      } else {
        assert (v.rule, v.value) in now;
      }
    }
    assert grows ==> forall p | p in pairs :: PairOf(p.0, p.1) != PairOf(v.rule, v.value);
    assert forall p | p in now :: p in pairs || (grows && p == (v.rule, v.value));
  }

  lemma CountsSnoc(counts: map<string, nat>, log: seq<Verdict>, item: string, v: Verdict)
    requires CountsRejections(counts, log, item)
    ensures CountsRejections(if Rejects(v, item) then Counted(counts, RejectKey(v.rule, v.value)) else counts,
                             log + [v], item)
  {
    RejectedSnoc(log, v, item);
    RejectedIff(log, item, RejectKey(v.rule, v.value));
  }

  function Counted(counts: map<string, nat>, key: string): map<string, nat> {
    counts[key := (if key in counts then counts[key] else 0) + 1]
  }

  ghost predicate ExploredIs(log: seq<Verdict>, explored: map<string, set<Pair>>) {
    forall i :: Tried(explored, i) == Explored(log, i)
  }

  ghost predicate ValidIs(log: seq<Verdict>, valid: map<string, seq<Pair>>) {
    forall i :: Lists(Pairs(valid, i), log, i)
  }

  ghost predicate InvalidIs(log: seq<Verdict>, invalid: map<string, map<string, nat>>) {
    forall i :: CountsRejections(CountsFor(invalid, i), log, i)
  }

  lemma ExploredStep(log: seq<Verdict>, explored: map<string, set<Pair>>, v: Verdict)
    requires ExploredIs(log, explored)
    ensures ExploredIs(log + [v], explored[v.item := Tried(explored, v.item) + {PairOf(v.rule, v.value)}])
  {
    var now := explored[v.item := Tried(explored, v.item) + {PairOf(v.rule, v.value)}];
    forall i ensures Tried(now, i) == Explored(log + [v], i) {
      ExploredSnoc(log, v, i);
      assert Tried(explored, i) == Explored(log, i);
    }
  }

  lemma ValidStep(log: seq<Verdict>, valid: map<string, seq<Pair>>, v: Verdict)
    requires ValidIs(log, valid)
    ensures ValidIs(log + [v],
                    if v.admitted then valid[v.item := Added(Pairs(valid, v.item), v.rule, v.value)] else valid)
  {
    var now := if v.admitted then valid[v.item := Added(Pairs(valid, v.item), v.rule, v.value)] else valid;
    forall i ensures Lists(Pairs(now, i), log + [v], i) {
      ListsSnoc(Pairs(valid, i), log, i, v);
    }
  }

  lemma InvalidStep(log: seq<Verdict>, invalid: map<string, map<string, nat>>, v: Verdict)
    requires InvalidIs(log, invalid)
    ensures InvalidIs(log + [v], if v.admitted then invalid
                                 else invalid[v.item :=
                                   Counted(CountsFor(invalid, v.item), RejectKey(v.rule, v.value))])
  {
    var now :=
      if v.admitted then invalid
      else invalid[v.item := Counted(CountsFor(invalid, v.item), RejectKey(v.rule, v.value))];
    forall i ensures CountsRejections(CountsFor(now, i), log + [v], i) {
      CountsSnoc(CountsFor(invalid, i), log, i, v);
    }
  }

  class MeiState {
    var valid: map<string, seq<Pair>>
    var invalid: map<string, map<string, nat>>
    var explored: map<string, set<Pair>>  // values by Key: membership is Python's equality
    ghost var log: seq<Verdict>

    /** Every field is what the recorded verdicts say. */
    ghost predicate Valid()
      reads this
    {
      ExploredIs(log, explored) && ValidIs(log, valid) && InvalidIs(log, invalid)
    }

    constructor ()
      ensures Valid() && log == []
    {
      valid, invalid, explored, log := map[], map[], map[], [];
    }

    /** The only write path. */
    method RecordAdmission(item: string, rule: string, value: Value, admitted: bool)
      requires Valid()
      modifies this
      ensures Valid() && log == old(log) + [Verdict(item, rule, value, admitted)]
    {
      ghost var v := Verdict(item, rule, value, admitted);
      ExploredStep(log, explored, v);
      ValidStep(log, valid, v);
      InvalidStep(log, invalid, v);
      if admitted {
        valid := valid[item := Added(Pairs(valid, item), rule, value)];
      } else {
        invalid := invalid[item := Counted(CountsFor(invalid, item), RejectKey(rule, value))];
      }
      explored := explored[item := Tried(explored, item) + {PairOf(rule, value)}];
      log := log + [v];
    }

    method StatusFor(item: string) returns (s: Status)
      requires Valid()
      ensures s == StatusOf(log, item)
    {
      ListsEmptyIff(Pairs(valid, item), log, item);
      if Pairs(valid, item) != [] {
        s := Inconsistent;
      } else if |CountsFor(invalid, item).Keys| >= CONSISTENT_THRESHOLD {
        s := Consistent;
      } else {
        s := Unexplored;
      }
      assert CountsRejections(CountsFor(invalid, item), log, item);
    }

    method IsExplored(item: string, rule: string, value: Value) returns (tried: bool)
      requires Valid()
      ensures tried <==> exists v | v in log :: v.item == item && v.rule == rule && Key(v.value) == Key(value)
    {
      tried := PairOf(rule, value) in Tried(explored, item);
    }

    /** The pairs to replay: as admitted, one for each that Python tells apart. */
    method ValidPairs(item: string) returns (pairs: seq<Pair>)
      requires Valid()
      ensures Lists(pairs, log, item)
    {
      pairs := Pairs(valid, item);
    }

    method RejectedCount(item: string) returns (n: nat)
      requires Valid()
      ensures n == |RejectedKeys(log, item)|
    {
      assert CountsRejections(CountsFor(invalid, item), log, item);
      n := |CountsFor(invalid, item).Keys|;
    }

    /** How many items of a catalog have each status. */
    method StatusCounts(catalog: seq<string>) returns (counts: map<Status, nat>)
      requires Valid()
      ensures counts.Keys == {Unexplored, Consistent, Inconsistent}
      ensures forall s | s in counts :: counts[s] == WithStatus(log, catalog, s)
      ensures counts[Unexplored] + counts[Consistent] + counts[Inconsistent] == |catalog|
    {
      counts := map[Consistent := 0, Inconsistent := 0, Unexplored := 0];
      assert catalog[..0] == [];
      for k := 0 to |catalog|
        invariant counts.Keys == {Unexplored, Consistent, Inconsistent}
        invariant forall s | s in counts :: counts[s] == WithStatus(log, catalog[..k], s)
      {
        assert catalog[..k + 1][..k] == catalog[..k];
        var s := StatusFor(catalog[k]);
        assert s.Unexplored? || s.Consistent? || s.Inconsistent?;
        counts := counts[s := counts[s] + 1];
      }
      assert catalog[..|catalog|] == catalog;
      StatusesAddUp(log, catalog);
    }
  }

  function WithStatus(log: seq<Verdict>, catalog: seq<string>, s: Status): nat {
    if catalog == [] then 0
    else
      WithStatus(log, catalog[..|catalog| - 1], s) + if StatusOf(log, catalog[|catalog| - 1]) == s then 1 else 0
  }

  /** Every item is counted under exactly one status. */
  lemma {:induction false} StatusesAddUp(log: seq<Verdict>, catalog: seq<string>)
    ensures WithStatus(log, catalog, Unexplored) + WithStatus(log, catalog, Consistent)
            + WithStatus(log, catalog, Inconsistent)
            == |catalog|
  {
    if catalog != [] { StatusesAddUp(log, catalog[..|catalog| - 1]); }
  }
}
