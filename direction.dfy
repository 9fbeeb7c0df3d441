/** The four compass directions a square can have a neighbour in. */
module Directions {
  datatype Direction = North | South | East | West

  /** Every direction there is. */
  const All: set<Direction> := {North, South, East, West}

  /** No set of directions, and so no edge map keyed by them, has more than four members. */
  lemma AtMostFour(ds: set<Direction>)
    ensures |ds| <= 4
  {
    assert ds <= All by {
      forall d | d in ds ensures d in All {
        match d
        case North =>
        case South =>
        case East =>
        case West =>
      }
    }
    SubsetSize(ds, All);
    assert |All| == 4;
  }

  lemma {:induction false} SubsetSize<T>(a: set<T>, b: set<T>)
    requires a <= b
    ensures |a| <= |b|
  {
    if a != {} {
      var x :| x in a;
      SubsetSize(a - {x}, b - {x});
    }
  }
}
