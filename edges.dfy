/**
 * The edge map of a square, seen as a value: `HashMap.put` on a direction
 * overwrites, `HashMap.get` gives the value or nothing.
 */
module Edges {
  import opened Wrappers
  import opened Directions

  /** The neighbour stored under `d`, or nothing. */
  function Lookup<V>(edges: map<Direction, V>, d: Direction): Option<V>
  {
    if d in edges then Some(edges[d]) else None
  }

  /**
   * The edge map of a square that started with no neighbours and was then
   * given `links[0]`, `links[1]`, ... as (neighbour, direction) pairs, in order.
   */
  function Linked<V>(links: seq<(V, Direction)>): map<Direction, V>
  {
    if links == [] then map[]
    else
      var last := links[|links| - 1];
      Linked(links[..|links| - 1])[last.1 := last.0]
  }

  /**
   * After a series of links, a direction has no neighbour exactly when no
   * link was ever made in it; otherwise its neighbour is the one from the
   * latest link in that direction.
   */
  lemma {:induction false} LinkedLookup<V>(links: seq<(V, Direction)>, d: Direction)
    ensures Lookup(Linked(links), d).None? <==> forall i :: 0 <= i < |links| ==> links[i].1 != d
    ensures Lookup(Linked(links), d).Some? ==>
              exists i :: 0 <= i < |links| && links[i].1 == d && links[i].0 == Lookup(Linked(links), d).value
                          && forall j :: i < j < |links| ==> links[j].1 != d
  {
    if links != [] {
      var n := |links| - 1;
      var init := links[..n];
      LinkedLookup(init, d);
      assert forall i :: 0 <= i < n ==> links[i] == init[i];
      if links[n].1 != d {
        if Lookup(Linked(links), d).Some? {
          var i :| 0 <= i < |init| && init[i].1 == d && init[i].0 == Lookup(Linked(init), d).value
                   && forall j :: i < j < |init| ==> init[j].1 != d;
          assert links[i].1 == d && forall j :: i < j < |links| ==> links[j].1 != d;
        }
      }
    }
  }

  /** A square has at most four distinct neighbours, one per direction. */
  lemma NeighbourCount<V>(edges: map<Direction, V>)
    ensures |edges.Values| <= 4
  {
    AtMostFour(edges.Keys);
  }
}
