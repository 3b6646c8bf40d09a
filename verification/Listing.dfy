/** Lists of findings by their places: check, node and test, in the order in which the oracle makes them. */
module Listing {
  import opened Findings

  /**
   * Every finding has a place: its check, the number of the node or seed result within the
   * check, and the number of the test made of it.
   */
  datatype Place = Place(check: nat, k: nat, j: nat)

  const END := Place(6, 0, 0)

  /** Check by check, within a check node by node, and within a node test by test. */
  predicate Before(p: Place, q: Place) {
    p.check < q.check || (p.check == q.check && (p.k < q.k || (p.k == q.k && p.j < q.j)))
  }

  predicate Within(p: Place, from: Place, to: Place) { !Before(p, from) && Before(p, to) }

  // ------------------------------------------------------------------- lists of findings

  type Due = (Place, Finding) -> bool

  ghost predicate Listed(places: seq<Place>, p: Place) { exists i | 0 <= i < |places| :: places[i] == p }

  /** The findings are those due between two places, one for each place with a due one, in order. */
  ghost predicate Lists(D: Due, found: seq<Finding>, places: seq<Place>, from: Place, to: Place) {
    && |found| == |places|
    && (forall i, j | 0 <= i < j < |places| :: Before(places[i], places[j]))
    && (forall i | 0 <= i < |places| :: Within(places[i], from, to) && D(places[i], found[i]))
    && (forall p, f | Within(p, from, to) && D(p, f) :: Listed(places, p))
  }

  lemma JoinLists(D: Due, a: seq<Finding>, pa: seq<Place>, b: seq<Finding>, pb: seq<Place>,
                  from: Place, middle: Place, to: Place)
    requires Lists(D, a, pa, from, middle) && Lists(D, b, pb, middle, to)
    requires !Before(middle, from) && !Before(to, middle)
    ensures Lists(D, a + b, pa + pb, from, to)
  {
    forall p, f | Within(p, from, to) && D(p, f) ensures Listed(pa + pb, p) {
      if Before(p, middle) { ListedLeft(pa, pb, p); } else { ListedRight(pa, pb, p); }
    }
    forall i, j | 0 <= i < |pa| && 0 <= j < |pb| ensures Before(pa[i], pb[j]) {
      BeforeAcross(pa[i], middle, pb[j]);
    }
    JoinedItems(D, a, pa, b, pb);
    forall i | 0 <= i < |pa| ensures Within(pa[i], from, to) { BeforeWhole(pa[i], middle, to); }
    forall i | 0 <= i < |pb| ensures Within(pb[i], from, to) { NotBefore(from, middle, pb[i]); }
  }

  lemma BeforeAcross(p: Place, middle: Place, q: Place)
    requires Before(p, middle) && !Before(q, middle)
    ensures Before(p, q)
  {
  }

  lemma BeforeWhole(p: Place, middle: Place, to: Place)
    requires Before(p, middle) && !Before(to, middle)
    ensures Before(p, to)
  {
  }

  lemma NotBefore(from: Place, middle: Place, p: Place)
    requires !Before(middle, from) && !Before(p, middle)
    ensures !Before(p, from)
  {
  }

  lemma ListedLeft(pa: seq<Place>, pb: seq<Place>, p: Place)
    requires Listed(pa, p)
    ensures Listed(pa + pb, p)
  {
    var i :| 0 <= i < |pa| && pa[i] == p;
    assert (pa + pb)[i] == p;
  }

  lemma ListedRight(pa: seq<Place>, pb: seq<Place>, p: Place)
    requires Listed(pb, p)
    ensures Listed(pa + pb, p)
  {
    var i :| 0 <= i < |pb| && pb[i] == p;
    assert (pa + pb)[|pa| + i] == p;
  }

  lemma JoinedItems(D: Due, a: seq<Finding>, pa: seq<Place>, b: seq<Finding>, pb: seq<Place>)
    requires |a| == |pa| && |b| == |pb|
    requires forall i | 0 <= i < |pa| :: D(pa[i], a[i])
    requires forall i | 0 <= i < |pb| :: D(pb[i], b[i])
    ensures forall i | 0 <= i < |pa + pb| :: D((pa + pb)[i], (a + b)[i])
  {
  }

  /** Some places list the findings. */
  ghost predicate IsList(D: Due, found: seq<Finding>, from: Place, to: Place) {
    exists places :: Lists(D, found, places, from, to)
  }

  lemma Join(D: Due, a: seq<Finding>, b: seq<Finding>, from: Place, middle: Place, to: Place)
    requires IsList(D, a, from, middle) && IsList(D, b, middle, to)
    requires !Before(middle, from) && !Before(to, middle)
    ensures IsList(D, a + b, from, to)
  {
    var pa :| Lists(D, a, pa, from, middle);
    var pb :| Lists(D, b, pb, middle, to);
    JoinLists(D, a, pa, b, pb, from, middle, to);
  }

  lemma Empty(D: Due, from: Place, to: Place)
    requires forall p, f | Within(p, from, to) :: !D(p, f)
    ensures IsList(D, [], from, to)
  {
    assert Lists(D, [], [], from, to);
  }

  /** At most one finding is due at a place, and this is it. */
  ghost predicate Slot(D: Due, p: Place, s: seq<Finding>) {
    if s == [] then forall f :: !D(p, f) else |s| == 1 && D(p, s[0])
  }

  lemma SlotIsList(D: Due, check: nat, k: nat, j: nat, s: seq<Finding>)
    requires Slot(D, Place(check, k, j), s)
    ensures IsList(D, s, Place(check, k, j), Place(check, k, j + 1))
  {
    var p, to := Place(check, k, j), Place(check, k, j + 1);
    var places := if s == [] then [] else [p];
    forall q, f | Within(q, p, to) && D(q, f) ensures Listed(places, q) {
      assert q == p;
      assert places[0] == p;
    }
    assert Lists(D, s, places, p, to);
  }

  /** Nothing is due from test j of a node on, or from node n of a check on. */
  ghost predicate NoMore(D: Due, check: nat, k: nat, j: nat) { forall i: nat, f | i >= j :: !D(Place(check, k, i), f) }

  ghost predicate NoneFrom(D: Due, check: nat, n: nat) {
    forall k: nat, j: nat, f | k >= n :: !D(Place(check, k, j), f)
  }

  /** A list up to a node's last test reaches up to the next node. */
  lemma NextNode(D: Due, a: seq<Finding>, check: nat, k: nat, j: nat)
    requires IsList(D, a, Place(check, k, 0), Place(check, k, j)) && NoMore(D, check, k, j)
    ensures IsList(D, a, Place(check, k, 0), Place(check, k + 1, 0))
  {
    var middle, to := Place(check, k, j), Place(check, k + 1, 0);
    forall p, f | Within(p, middle, to) ensures !D(p, f) { assert p == Place(check, k, p.j); }
    Empty(D, middle, to);
    Join(D, a, [], Place(check, k, 0), middle, to);
    assert a + [] == a;
  }

  /** A node with one slot. */
  lemma OneSlot(D: Due, check: nat, k: nat, s: seq<Finding>)
    requires Slot(D, Place(check, k, 0), s) && NoMore(D, check, k, 1)
    ensures IsList(D, s, Place(check, k, 0), Place(check, k + 1, 0))
  {
    SlotIsList(D, check, k, 0, s);
    NextNode(D, s, check, k, 1);
  }

  /** A list up to a check's last node reaches up to the next check. */
  lemma NextCheck(D: Due, a: seq<Finding>, check: nat, n: nat)
    requires IsList(D, a, Place(check, 0, 0), Place(check, n, 0)) && NoneFrom(D, check, n)
    ensures IsList(D, a, Place(check, 0, 0), Place(check + 1, 0, 0))
  {
    var middle, to := Place(check, n, 0), Place(check + 1, 0, 0);
    forall p, f | Within(p, middle, to) ensures !D(p, f) { assert p == Place(check, p.k, p.j); }
    Empty(D, middle, to);
    Join(D, a, [], Place(check, 0, 0), middle, to);
    assert a + [] == a;
  }

  /** One more node of a check. */
  lemma OneMoreNode(D: Due, check: nat, k: nat, a: seq<Finding>, b: seq<Finding>, c: seq<Finding>)
    requires IsList(D, a, Place(check, 0, 0), Place(check, k, 0)) && c == a + b
    requires IsList(D, b, Place(check, k, 0), Place(check, k + 1, 0))
    ensures IsList(D, c, Place(check, 0, 0), Place(check, k + 1, 0))
  {
    Join(D, a, b, Place(check, 0, 0), Place(check, k, 0), Place(check, k + 1, 0));
  }

  /** What stands in a list is due somewhere, and where something is due, something due there stands in it. */
  lemma StandsFor(D: Due, found: seq<Finding>, f: Finding, from: Place, to: Place) returns (p: Place)
    requires IsList(D, found, from, to) && f in found
    ensures D(p, f)
  {
    var places :| Lists(D, found, places, from, to);
    var i :| 0 <= i < |found| && found[i] == f;
    p := places[i];
  }

  lemma StandsIn(D: Due, found: seq<Finding>, p: Place, f: Finding, from: Place, to: Place) returns (g: Finding)
    requires IsList(D, found, from, to) && Within(p, from, to) && D(p, f)
    ensures g in found && D(p, g)
  {
    var places :| Lists(D, found, places, from, to);
    assert Listed(places, p);
    var i :| 0 <= i < |places| && places[i] == p;
    g := found[i];
  }
}
