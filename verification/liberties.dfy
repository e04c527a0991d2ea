/** Algebra of `LibertiesOf`, the reference meaning of the liberty index:
    how the liberties of a set of stones respond to placing a stone, to
    emptying cells, and to taking unions. */
module Liberties {
  import opened GoTypes
  import opened Geometry
  import opened GameStates

  /** The liberties of a union are the union of the liberties. */
  lemma LibertiesUnion(n: nat, b: Board, g: set<Pos>, h: set<Pos>)
    ensures LibertiesOf(n, b, g + h) == LibertiesOf(n, b, g) + LibertiesOf(n, b, h)
  {
  }

  /** Liberties are monotone in the set of stones. */
  lemma LibertiesSubset(n: nat, b: Board, g: set<Pos>, h: set<Pos>)
    requires g <= h
    ensures LibertiesOf(n, b, g) <= LibertiesOf(n, b, h)
  {
  }

  /** Putting a stone on `p` takes `p` out of every liberty set and changes
      nothing else. */
  lemma LibertiesPlaced(n: nat, b: Board, p: Pos, c: Player, g: set<Pos>)
    ensures LibertiesOf(n, b[p := c], g) == LibertiesOf(n, b, g) - {p}
  {
  }

  /** On a board with at least the empty cells of `b`, every set keeps its
      liberties. */
  lemma LibertiesGrow(n: nat, b: Board, b': Board, g: set<Pos>)
    requires forall q :: q in b && b[q] == Empty ==> q in b' && b'[q] == Empty
    ensures LibertiesOf(n, b, g) <= LibertiesOf(n, b', g)
  {
  }

  /** A cell is a liberty of a set exactly when it is on the board, empty and
      next to one of its members. */
  lemma LibertyWitness(n: nat, b: Board, g: set<Pos>, q: Pos)
    ensures q in LibertiesOf(n, b, g) <==>
              OnBoard(n, q) && q in b && b[q] == Empty && exists m :: m in g && Adjacent(m, q)
  {
  }
}
