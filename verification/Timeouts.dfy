/** sorted({str(t) for t in ...}): the distinct values of a list in the order of their texts. */
module Timeouts {
  import opened Text

  type Order = (int, int) -> bool

  function TextOrder(a: int, b: int): bool { Le(Show(a), Show(b)) }

  ghost predicate Sound(le: Order) {
    && (forall a, b :: le(a, b) || le(b, a))
    && (forall a, b :: le(a, b) && le(b, a) ==> a == b)
    && (forall a, b, c :: le(a, b) && le(b, c) ==> le(a, c))
  }

  lemma TextOrderSound()
    ensures Sound(TextOrder)
  {
    forall a, b ensures (TextOrder(a, b) || TextOrder(b, a)) && (TextOrder(a, b) && TextOrder(b, a) ==> a == b) {
      LeTotal(Show(a), Show(b));
      if Show(a) == Show(b) { ShowInjective(a, b); }
    }
    forall a, b, c | TextOrder(a, b) && TextOrder(b, c) ensures TextOrder(a, c) {
      LeTransitive(Show(a), Show(b), Show(c));
    }
  }

  function Placed(le: Order, x: int, sorted: seq<int>): seq<int> {
    if sorted == [] then [x]
    else if x == sorted[0] then sorted
    else if le(x, sorted[0]) then [x] + sorted
    else [sorted[0]] + Placed(le, x, sorted[1..])
  }

  function SortedBy(le: Order, values: seq<int>): seq<int> {
    if values == [] then [] else Placed(le, values[|values| - 1], SortedBy(le, values[..|values| - 1]))
  }

  function Distinct(values: seq<int>): seq<int> { SortedBy(TextOrder, values) }

  predicate Rising(le: Order, values: seq<int>) {
    forall i, j | 0 <= i < j < |values| :: le(values[i], values[j]) && values[i] != values[j]
  }

  /** Different values, their texts as a dictionary lists them. */
  ghost predicate InTextOrder(values: seq<int>) {
    forall i, j | 0 <= i < j < |values| :: Alphabetical(Show(values[i]), Show(values[j])) && values[i] != values[j]
  }

  ghost predicate Somewhere(p: int -> bool, values: seq<int>) { exists k | 0 <= k < |values| :: p(values[k]) }

  lemma SomewhereCons(p: int -> bool, x: int, values: seq<int>)
    ensures Somewhere(p, [x] + values) <==> p(x) || Somewhere(p, values)
  {
    var now := [x] + values;
    assert now[0] == x && forall k | 0 <= k < |values| :: now[k + 1] == values[k];
  }

  lemma SomewhereSnoc(p: int -> bool, values: seq<int>, x: int)
    ensures Somewhere(p, values + [x]) <==> Somewhere(p, values) || p(x)
  {
    var now := values + [x];
    assert now[|values|] == x && forall k | 0 <= k < |values| :: now[k] == values[k];
  }

  lemma {:induction false} PlacedSomewhere(p: int -> bool, le: Order, x: int, sorted: seq<int>)
    ensures Somewhere(p, Placed(le, x, sorted)) <==> p(x) || Somewhere(p, sorted)
  {
    if sorted == [] {
      assert [x] + [] == [x];
      SomewhereCons(p, x, []);
    } else {
      assert sorted == [sorted[0]] + sorted[1..];
      SomewhereCons(p, sorted[0], sorted[1..]);
      if x != sorted[0] {
        SomewhereCons(p, x, sorted);
        SomewhereCons(p, sorted[0], Placed(le, x, sorted[1..]));
        PlacedSomewhere(p, le, x, sorted[1..]);
      }
    }
  }

  /** The values stay the same. */
  lemma {:induction false} SortedSomewhere(p: int -> bool, le: Order, values: seq<int>)
    ensures Somewhere(p, SortedBy(le, values)) <==> Somewhere(p, values)
  {
    if values != [] {
      var before, x := values[..|values| - 1], values[|values| - 1];
      assert values == before + [x];
      SortedSomewhere(p, le, before);
      SomewhereSnoc(p, before, x);
      PlacedSomewhere(p, le, x, SortedBy(le, before));
    }
  }

  lemma {:induction false} PlacedRises(le: Order, x: int, sorted: seq<int>)
    requires Sound(le) && Rising(le, sorted)
    ensures Rising(le, Placed(le, x, sorted))
  {
    if sorted != [] && x != sorted[0] && !le(x, sorted[0]) {
      var first, rest := sorted[0], sorted[1..];
      var now := Placed(le, x, rest);
      PlacedRises(le, x, rest);
      forall k | 0 <= k < |now| ensures le(first, now[k]) && first != now[k] {
        PlacedSomewhere(y => y == now[k], le, x, rest);
        assert Somewhere(y => y == now[k], now);
      }
    }
  }

  /** No value twice, and in order. */
  lemma {:induction false} SortedRises(le: Order, values: seq<int>)
    requires Sound(le)
    ensures Rising(le, SortedBy(le, values))
  {
    if values != [] {
      SortedRises(le, values[..|values| - 1]);
      PlacedRises(le, values[|values| - 1], SortedBy(le, values[..|values| - 1]));
    }
  }

  /** Each value once, in the order of the texts. */
  lemma DistinctIs(values: seq<int>, p: int -> bool)
    ensures InTextOrder(Distinct(values)) && (Somewhere(p, Distinct(values)) <==> Somewhere(p, values))
  {
    TextOrderSound();
    SortedRises(TextOrder, values);
    SortedSomewhere(p, TextOrder, values);
    var d := Distinct(values);
    forall i, j | 0 <= i < j < |d| ensures Alphabetical(Show(d[i]), Show(d[j])) { LeIff(Show(d[i]), Show(d[j])); }
  }
}
