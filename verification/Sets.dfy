/** Facts about finite sets that several modules need. */
module Sets {

  /** The numbers above `low` up to `high`. */
  function Interval(low: int, high: int): (s: set<int>)
    ensures forall x :: x in s <==> low < x <= high
    decreases high - low
  {
    if low >= high then {} else Interval(low, high - 1) + {high}
  }

  lemma {:induction false} IntervalSize(low: int, high: int)
    ensures |Interval(low, high)| == if low <= high then high - low else 0
    decreases high - low
  {
    if low < high { IntervalSize(low, high - 1); }
  }

  lemma SubsetSize<T>(a: set<T>, b: set<T>)
    requires a <= b
    ensures |a| <= |b|
  {
    assert b == a + (b - a);
  }

  /** n of a set's members. */
  lemma SomeOf<T>(all: set<T>, n: nat) returns (part: set<T>)
    requires n <= |all|
    ensures part <= all && |part| == n
    decreases |all|
  {
    if |all| == n {
      part := all;
    } else {
      var x :| x in all;
      part := SomeOf(all - {x}, n);
    }
  }
}
