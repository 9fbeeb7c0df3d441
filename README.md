# JPacman board square, in Dafny

This project models the square of a JPacman board (`nl.tudelft.jpacman.model.Square`).
A square is one node of the board graph. It holds three things:

- a queue of occupying characters, oldest arrival first;
- a map from compass direction to the neighbouring square;
- at most one pellet.

The square is a class whose methods change those fields in place:

- `AddNeighbour` writes into the edge map and overwrites;
- `SetPellet` and `RemovePellet` assign the pellet;
- `AddOccupant` appends, and `RemoveOccupant` deletes the first occurrence.

The queries `SquareAt`, `GetNeighbours`, `GetPellet` and `GetOccupants` are functions on the square's state.
`Invariant` and `DirectionOf` keep the source's loops.
`Invariant` checks the back-reference property: every occupant's own square is this square.
`DirectionOf` searches the edge map's entries for a given neighbour.

Files:

- `square.dfy` (module `Model`) holds the classes `Square`, `Character` and `Pellet`.
- `occupants.dfy` gives the occupant list's `add` and `remove(Object)` as functions on sequences, with their lemmas.
- `edges.dfy` gives the edge map's `put` and `get` as functions on maps, with their lemmas. `Linked` is the edge map a new square has after a series of `addNeighbour` calls.
- `direction.dfy` holds the four directions.
- `wrappers.dfy` holds `Option`, which stands in for a Java reference that may be `null`.

The doc comment of `getNeighbours` speaks of "the set of 4 squares". The code returns the set of distinct edge values. That set can be smaller: a square at the border has fewer edges, and two directions may lead to the same square. The model follows the code and proves the bound of at most four.

## Model

| member | source | states |
|---|---|---|
| `Model.Square.constructor` | src/main/java/nl/tudelft/jpacman/model/Square.java:37-40 | a new square has no occupants, no neighbours and no pellet |
| `Model.Square.Invariant` | src/main/java/nl/tudelft/jpacman/model/Square.java:48-55 | returns true exactly when every occupant's square is this square |
| `Model.Square.AddNeighbour` | src/main/java/nl/tudelft/jpacman/model/Square.java:67-69 | afterwards `SquareAt(direction)` is the new neighbour, overwriting any earlier one; every other direction, the occupants and the pellet are unchanged |
| `Model.Square.SetPellet` | src/main/java/nl/tudelft/jpacman/model/Square.java:78-81 | afterwards `GetPellet()` is the given pellet, whatever was there before; occupants and edges are unchanged |
| `Model.Square.RemovePellet` | src/main/java/nl/tudelft/jpacman/model/Square.java:87-89 | afterwards `GetPellet()` is none, whether or not there was a pellet, so a second call changes nothing; occupants and edges are unchanged |
| `Model.Square.AddOccupant` | src/main/java/nl/tudelft/jpacman/model/Square.java:115-118 | the occupant list gains the character at its end (the top), and edges and pellet are unchanged; the square is consistent afterwards exactly when it was before and the newcomer already stands here, so adding alone does not restore the back-reference invariant |
| `Model.Square.RemoveOccupant` | src/main/java/nl/tudelft/jpacman/model/Square.java:126-129 | the occupant list loses the first occurrence of the character; its length drops by one exactly when the character was present; edges and pellet are unchanged; a consistent square stays consistent |
| `Model.Square.GetNeighbours` | src/main/java/nl/tudelft/jpacman/model/Square.java:146-150 | the result holds exactly the squares that `SquareAt` gives for some direction, and it has at most four members |
| `Model.Square.DirectionOf` | src/main/java/nl/tudelft/jpacman/model/Square.java:161-168 | a direction it returns leads to the given square; it returns none exactly when no direction leads there |
| `Occupants.FirstIndex` | src/main/java/nl/tudelft/jpacman/model/Square.java:128 | gives the position of the first occurrence of the character: it is there, and nowhere before |
| `Occupants.RemoveFirst` | src/main/java/nl/tudelft/jpacman/model/Square.java:128 | one element is deleted when the character is present and none otherwise; no new element appears |
| `Occupants.RemoveFirstAbsent` | src/main/java/nl/tudelft/jpacman/model/Square.java:120-129 | removing a character that is not on the square changes nothing |
| `Occupants.RemoveFirstSplice` | src/main/java/nl/tudelft/jpacman/model/Square.java:126-129 | removing a present character cuts out exactly its first occurrence; the elements before and after it keep their order |
| `Occupants.RemoveFirstMultiset` | src/main/java/nl/tudelft/jpacman/model/Square.java:126-129 | as a bag, removal takes away one copy of the character and nothing else |
| `Occupants.RemoveFirstAfterAppend` | src/main/java/nl/tudelft/jpacman/model/Square.java:115-129 | adding a character and then removing it gives back the old list when the character was not there; otherwise the earlier occurrence goes and the new one stays on top |
| `Edges.LinkedLookup` | src/main/java/nl/tudelft/jpacman/model/Square.java:140-143 | after a series of `addNeighbour` calls on a new square, `squareAt(d)` is none exactly when no call used `d`; otherwise it is the square from the latest call that used `d` |
| `Edges.NeighbourCount` | src/main/java/nl/tudelft/jpacman/model/Square.java:146-150 | an edge map keyed by direction has at most four distinct neighbours |

`GetPellet`, `GetOccupants` and `SquareAt` (src/main/java/nl/tudelft/jpacman/model/Square.java:95-106 and 140-143) only read a field. What they mean is stated by the contracts above. `GetOccupants` returns a sequence, which is a value, so a caller cannot change the square through it. This is the copy that `getOccupants` makes.

## Left out

- `isAccessibleTo` is abstract in the source: each kind of square decides it. Traits are not used here, so a square is given its admission policy as a function when it is created. `IsAccessibleTo` applies that function and says nothing more.
- `AddNeighbour` takes a non-null square. The source has no null check there, so a Java `HashMap` would store a `null` neighbour, and `squareAt` could not tell it from a missing one. Board construction is not part of this model, and the model assumes it never links `null`.
- `AddOccupant`, `RemoveOccupant` and `SetPellet` take non-null arguments. The source asserts this at its lines 79, 116 and 127. `SquareAt` takes a `Direction`, and a `Direction` value cannot be null, so the check at line 141 has no counterpart.
- `DirectionOf` does not fix which direction it returns when several directions lead to the same square. That choice depends on the iteration order of `HashMap`, so the model picks any remaining entry.
- Moving a character is left out: taking it off one square, putting it on another, updating its base and eating a pellet. This is `Game.move` together with `Character`, and neither is part of this model.
- `SinglePlayerGame` is left out: `up`, `down`, `left` and `right` only forward to `Game.move`. The constructor's check of the number of Pac-Men relies on `Level`, which is not part of this model.
- `Character` is reduced to the field that holds its base square. `Pellet` is reduced to its identity. Their other members are not part of this model.
