/**
 * A square of the board: a node of the board graph that holds a queue of
 * occupying characters, a neighbour per direction and at most one pellet.
 */
module Model {
  import opened Wrappers
  import opened Directions
  import Occupants
  import Edges

  /** A collectible item; squares compare pellets by reference. */
  class Pellet {
  }

  /** A character, which knows the square it stands on (none when off the board). */
  class Character {
    var square: Square?
  }

  class Square {
    /** The queue of occupants, oldest arrival first. */
    var occupants: seq<Character>
    /** The adjacent squares, as seen from this square. */
    var edges: map<Direction, Square>
    /** The pellet on this square, if any. */
    var pellet: Option<Pellet>
    /** The kind of square decides who may step on it. */
    const accessible: Character -> bool

    /** A new, empty square of the kind that admits exactly the characters `accessible` admits. */
    constructor (accessible: Character -> bool)
      ensures occupants == [] && edges == map[] && pellet == None
      ensures this.accessible == accessible
    {
      occupants := [];
      edges := map[];
      pellet := None;
      this.accessible := accessible;
    }

    /** Every occupant has this square as its base. */
    ghost predicate Consistent()
      reads this, occupants
    {
      forall c :: c in occupants ==> c.square == this
    }

    /** Checks the occupants one by one, oldest first, stopping at the first that stands elsewhere. */
    method Invariant() returns (holds: bool)
      ensures holds <==> Consistent()
    {
      var i := 0;
      while i < |occupants|
        invariant 0 <= i <= |occupants|
        invariant forall j :: 0 <= j < i ==> occupants[j].square == this
      {
        if occupants[i].square != this {
          return false;
        }
        i := i + 1;
      }
      return true;
    }

    /** Records `square` as the neighbour in `direction`, replacing any earlier one. */
    method AddNeighbour(square: Square, direction: Direction)
      modifies this`edges
      ensures edges == old(edges)[direction := square]
      ensures SquareAt(direction) == Some(square)
      ensures forall d :: d != direction ==> SquareAt(d) == old(SquareAt(d))
      ensures occupants == old(occupants) && pellet == old(pellet)
    {
      edges := edges[direction := square];
    }

    /** Puts `p` on this square, replacing any pellet already there. */
    method SetPellet(p: Pellet)
      modifies this`pellet
      ensures GetPellet() == Some(p)
      ensures occupants == old(occupants) && edges == old(edges)
    {
      pellet := Some(p);
    }

    /** Takes the pellet off this square; a square without one stays without one. */
    method RemovePellet()
      modifies this`pellet
      ensures GetPellet() == None
      ensures occupants == old(occupants) && edges == old(edges)
    {
      pellet := None;
    }

    function GetPellet(): Option<Pellet>
      reads this
    {
      pellet
    }

    /** The occupants, oldest arrival first, as a value the caller cannot change. */
    function GetOccupants(): seq<Character>
      reads this
    {
      occupants
    }

    /**
     * Puts `occupant` on top of the queue. It does not touch the character's
     * own base, so the square stays consistent exactly when it was and the
     * newcomer already stands here.
     */
    method AddOccupant(occupant: Character)
      modifies this`occupants
      ensures GetOccupants() == old(GetOccupants()) + [occupant]
      ensures edges == old(edges) && pellet == old(pellet)
      ensures Consistent() <==> old(Consistent()) && occupant.square == this
    {
      occupants := occupants + [occupant];
    }

    /**
     * Deletes the first occurrence of `occupant`, if any; removal never
     * breaks consistency.
     */
    method RemoveOccupant(occupant: Character)
      modifies this`occupants
      ensures GetOccupants() == Occupants.RemoveFirst(old(GetOccupants()), occupant)
      ensures |occupants| == if occupant in old(occupants) then |old(occupants)| - 1 else |old(occupants)|
      ensures edges == old(edges) && pellet == old(pellet)
      ensures old(Consistent()) ==> Consistent()
    {
      occupants := Occupants.RemoveFirst(occupants, occupant);
    }

    /** The neighbour in `direction`, or none. */
    function SquareAt(direction: Direction): Option<Square>
      reads this
    {
      Edges.Lookup(edges, direction)
    }

    /** The distinct neighbours: at most four, fewer at the border or where directions share a square. */
    function GetNeighbours(): (r: set<Square>)
      reads this
      ensures forall n :: n in r ==> exists d :: SquareAt(d) == Some(n)
      ensures forall d :: SquareAt(d).Some? ==> SquareAt(d).value in r
      ensures |r| <= 4
    {
      Edges.NeighbourCount(edges);
      NeighboursFound();
      edges.Values
    }

    lemma NeighboursFound()
      ensures forall n :: n in edges.Values ==> exists d :: SquareAt(d) == Some(n)
    {
      forall n | n in edges.Values ensures exists d :: SquareAt(d) == Some(n) {
        var d :| d in edges && edges[d] == n;
        assert SquareAt(d) == Some(n);
      }
    }

    /**
     * Some direction in which `neighbour` lies, or none when it is not a
     * neighbour. Which direction, when several lead to it, is up to the
     * order the map's entries come in, so the choice is left open.
     */
    method DirectionOf(neighbour: Square?) returns (r: Option<Direction>)
      ensures r.Some? ==> r.value in edges && edges[r.value] == neighbour
      ensures r.None? <==> forall d :: d in edges ==> edges[d] != neighbour
    {
      var unseen := edges.Keys;
      while unseen != {}
        invariant unseen <= edges.Keys
        invariant forall d :: d in edges && d !in unseen ==> edges[d] != neighbour
        decreases unseen
      {
        var d :| d in unseen;
        if edges[d] == neighbour {
          return Some(d);
        }
        unseen := unseen - {d};
      }
      return None;
    }

    /** Whether `character` may step on this square, as this kind of square decides. */
    predicate IsAccessibleTo(character: Character)
    {
      accessible(character)
    }
  }
}
