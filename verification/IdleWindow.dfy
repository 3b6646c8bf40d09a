/** The baseline that the oracle computes from two rounds of probes of an idle network (bcfuzzer/oracle.py). */
module IdleWindow {
  import opened Histories
  import opened Timeouts
  import opened Findings

  type Field = Probe -> int

  function EventsOf(p: Probe): int { p.events }
  function HeightOf(p: Probe): int { p.height }
  function PendingOf(p: Probe): int { p.pending }
  function GasLimitOf(p: Probe): int { p.gasLimit }

  /** What the nodes gained in a field between two rounds of probes; a loss counts as nothing. */
  function Gained(f: Field, first: seq<Probe>, second: seq<Probe>): nat
    requires |first| == |second|
  {
    if first == [] then 0
    else
      var n := |first| - 1;
      Gained(f, first[..n], second[..n]) + Max(0, f(second[n]) - f(first[n]))
  }

  /** The largest of a field; 0 without nodes. */
  function Largest(f: Field, probes: seq<Probe>): int {
    if probes == [] then 0
    else if |probes| == 1 then f(probes[0])
    else Max(Largest(f, probes[..|probes| - 1]), f(probes[|probes| - 1]))
  }

  /** How often a fragment shows in a node's list of counts; a count of 0 is not listed. */
  function ShownBy(panics: seq<(string, int)>, fragment: string): int {
    if panics == [] then 0
    else
      var (f, count) := panics[|panics| - 1];
      ShownBy(panics[..|panics| - 1], fragment) + if f == fragment then count else 0
  }

  function Shown(probes: seq<Probe>, fragment: string): int {
    if probes == [] then 0
    else Shown(probes[..|probes| - 1], fragment) + ShownBy(probes[|probes| - 1].panics, fragment)
  }

  /** Every timeout that a node shows, node by node. */
  function AllTimeouts(probes: seq<Probe>): seq<int> {
    if probes == [] then [] else AllTimeouts(probes[..|probes| - 1]) + probes[|probes| - 1].timeouts
  }

  /** The rate times the count or time it is taken over is the amount. */
  predicate IsRate(rate: real, amount: int, per: real) { rate * per == amount as real }

  /** The baseline of an idle window: sums, maxima and distinct values over the nodes, and rates. */
  ghost predicate BaselineOf(b: Baseline, target: Target, first: seq<Probe>, second: seq<Probe>, window: real)
    requires |first| == |second|
  {
    && IsRate(b.viewChangeRate, Gained(EventsOf, first, second), window)
    && IsRate(b.heightRate, Gained(HeightOf, first, second), |second| as real)
    && b.timeouts == Distinct(AllTimeouts(second)) && b.pending == Largest(PendingOf, second)
    && b.gasLimit == (if target == Geth then Largest(GasLimitOf, second) else 0)
    && forall fragment :: CountIn(b.panics, fragment) == Shown(second, fragment)
  }

  /** The heights that a registration stores, each at the time it is stored. */
  function BaseSamples(probes: seq<Probe>, times: seq<real>): (r: seq<Sample>)
    requires |probes| == |times|
    ensures |r| == |probes| && forall e | e in r :: !e.probe
  {
    if probes == [] then []
    else
      var n := |probes| - 1;
      BaseSamples(probes[..n], times[..n]) + [Sample(probes[n].node, times[n], probes[n].height, false)]
  }

  method ComputeBaseline(target: Target, first: seq<Probe>, second: seq<Probe>, window: real) returns (b: Baseline)
    requires |first| == |second| && window != 0.0
    ensures BaselineOf(b, target, first, second, window)
  {
    var heightRate := GainedRate(HeightOf, first, second, |second| as real);
    var eventRate := GainedRate(EventsOf, first, second, window);
    var timeouts := CollectTimeouts(second);
    var pending := FindLargest(PendingOf, second);
    var panics := CollectPanics(second);
    var gas := 0;
    if target == Geth { gas := FindLargest(GasLimitOf, second); }
    b := Baseline(heightRate, eventRate, Distinct(timeouts), panics, pending, gas);
  }

  /** What the nodes gained in a field, divided by a count or a time; 0 without nodes. */
  method GainedRate(f: Field, first: seq<Probe>, second: seq<Probe>, per: real) returns (rate: real)
    requires |first| == |second| && (second != [] ==> per != 0.0)
    ensures IsRate(rate, Gained(f, first, second), per)
  {
    rate := 0.0;
    if second != [] {
      var gained := CountGained(f, first, second);
      rate := gained as real / per;
    }
  }

  method CountGained(f: Field, first: seq<Probe>, second: seq<Probe>) returns (gained: nat)
    requires |first| == |second|
    ensures gained == Gained(f, first, second)
  {
    gained := 0;
    for k := 0 to |first|
      invariant gained == Gained(f, first[..k], second[..k])
    {
      assert first[..k + 1][..k] == first[..k] && second[..k + 1][..k] == second[..k];
      if f(second[k]) > f(first[k]) { gained := gained + (f(second[k]) - f(first[k])); }
    }
    assert first[..|first|] == first && second[..|second|] == second;
  }

  method FindLargest(f: Field, probes: seq<Probe>) returns (largest: int)
    ensures largest == Largest(f, probes)
  {
    largest := 0;
    for k := 0 to |probes|
      invariant largest == Largest(f, probes[..k])
    {
      assert probes[..k + 1][..k] == probes[..k];
      if k == 0 || f(probes[k]) > largest { largest := f(probes[k]); }
    }
    assert probes[..|probes|] == probes;
  }

  method CollectTimeouts(probes: seq<Probe>) returns (timeouts: seq<int>)
    ensures timeouts == AllTimeouts(probes)
  {
    timeouts := [];
    for k := 0 to |probes|
      invariant timeouts == AllTimeouts(probes[..k])
    {
      assert probes[..k + 1][..k] == probes[..k];
      timeouts := timeouts + probes[k].timeouts;
    }
    assert probes[..|probes|] == probes;
  }

  method CollectPanics(probes: seq<Probe>) returns (panics: map<string, int>)
    ensures forall fragment :: CountIn(panics, fragment) == Shown(probes, fragment)
  {
    panics := map[];
    for k := 0 to |probes|
      invariant forall fragment :: CountIn(panics, fragment) == Shown(probes[..k], fragment)
    {
      assert probes[..k + 1][..k] == probes[..k];
      panics := AddPanics(panics, probes[k].panics);
    }
    assert probes[..|probes|] == probes;
  }

  method AddPanics(before: map<string, int>, shown: seq<(string, int)>) returns (panics: map<string, int>)
    ensures forall fragment :: CountIn(panics, fragment) == CountIn(before, fragment) + ShownBy(shown, fragment)
  {
    panics := before;
    for k := 0 to |shown|
      invariant forall fragment ::
        CountIn(panics, fragment) == CountIn(before, fragment) + ShownBy(shown[..k], fragment)
    {
      assert shown[..k + 1][..k] == shown[..k];
      var (fragment, count) := shown[k];
      if count != 0 { panics := panics[fragment := CountIn(panics, fragment) + count]; }
    }
    assert shown[..|shown|] == shown;
  }

  // --------------------------------------------------------------------- what the notions are

  /** The largest is attained, and nothing is above it; there is none without nodes. */
  lemma {:induction false} LargestIs(f: Field, probes: seq<Probe>)
    ensures probes == [] ==> Largest(f, probes) == 0
    ensures probes != [] ==> exists k | 0 <= k < |probes| :: f(probes[k]) == Largest(f, probes)
    ensures forall k | 0 <= k < |probes| :: f(probes[k]) <= Largest(f, probes)
  {
    if |probes| == 1 {
      assert f(probes[0]) == Largest(f, probes);
    } else if probes != [] {
      var n := |probes| - 1;
      LargestIs(f, probes[..n]);
      var k :| 0 <= k < n && f(probes[..n][k]) == Largest(f, probes[..n]);
      assert f(probes[k]) == Largest(f, probes) || f(probes[n]) == Largest(f, probes);
    }
  }

  function Total(f: Field, probes: seq<Probe>): int {
    if probes == [] then 0 else f(probes[0]) + Total(f, probes[1..])
  }

  lemma {:induction false} TotalSnoc(f: Field, probes: seq<Probe>, p: Probe)
    ensures Total(f, probes + [p]) == Total(f, probes) + f(p)
  {
    if probes == [] {
      assert [p][1..] == [] && probes + [p] == [p];
    } else {
      assert (probes + [p])[1..] == probes[1..] + [p];
      TotalSnoc(f, probes[1..], p);
    }
  }

  /** What is gained one way less what is gained the other way is the change of the total. */
  lemma {:induction false} GainedBalance(f: Field, first: seq<Probe>, second: seq<Probe>)
    requires |first| == |second|
    ensures Gained(f, first, second) - Gained(f, second, first) == Total(f, second) - Total(f, first)
  {
    if first != [] {
      var n := |first| - 1;
      GainedBalance(f, first[..n], second[..n]);
      assert first == first[..n] + [first[n]] && second == second[..n] + [second[n]];
      TotalSnoc(f, first[..n], first[n]);
      TotalSnoc(f, second[..n], second[n]);
    }
  }

  /** Nothing is gained exactly when no node has gained anything. */
  lemma {:induction false} GainedNothing(f: Field, first: seq<Probe>, second: seq<Probe>)
    requires |first| == |second|
    ensures Gained(f, first, second) == 0 <==> forall k | 0 <= k < |first| :: f(second[k]) <= f(first[k])
  {
    if first != [] { GainedNothing(f, first[..|first| - 1], second[..|second| - 1]); }
  }

  /** The counts of a fragment add up over the nodes. */
  lemma {:induction false} ShownJoins(a: seq<Probe>, b: seq<Probe>, fragment: string)
    ensures Shown(a + b, fragment) == Shown(a, fragment) + Shown(b, fragment)
    decreases |b|
  {
    if b == [] {
      assert a + b == a;
    } else {
      assert (a + b)[..|a + b| - 1] == a + b[..|b| - 1];
      ShownJoins(a, b[..|b| - 1], fragment);
    }
  }

  /** And of one node it is the count listed for it, if one is. */
  lemma ShownOnce(p: Probe, fragment: string)
    requires forall i, j | 0 <= i < j < |p.panics| :: p.panics[i].0 != p.panics[j].0
    ensures forall k | 0 <= k < |p.panics| && p.panics[k].0 == fragment :: Shown([p], fragment) == p.panics[k].1
    ensures (forall k | 0 <= k < |p.panics| :: p.panics[k].0 != fragment) ==> Shown([p], fragment) == 0
  {
    ShownByOnce(p.panics, fragment);
    assert [p][..0] == [];
  }

  lemma {:induction false} ShownByOnce(panics: seq<(string, int)>, fragment: string)
    requires forall i, j | 0 <= i < j < |panics| :: panics[i].0 != panics[j].0
    ensures forall k | 0 <= k < |panics| && panics[k].0 == fragment :: ShownBy(panics, fragment) == panics[k].1
    ensures (forall k | 0 <= k < |panics| :: panics[k].0 != fragment) ==> ShownBy(panics, fragment) == 0
  {
    if panics != [] { ShownByOnce(panics[..|panics| - 1], fragment); }
  }

  /** The timeouts of the nodes, one node after the other. */
  lemma {:induction false} TimeoutsJoin(a: seq<Probe>, b: seq<Probe>)
    ensures AllTimeouts(a + b) == AllTimeouts(a) + AllTimeouts(b)
    ensures forall p :: AllTimeouts([p]) == p.timeouts
    decreases |b|
  {
    forall p ensures AllTimeouts([p]) == p.timeouts { assert [p][..0] == []; }
    if b == [] {
      assert a + b == a;
    } else {
      assert (a + b)[..|a + b| - 1] == a + b[..|b| - 1];
      TimeoutsJoin(a, b[..|b| - 1]);
    }
  }
}
