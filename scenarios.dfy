/** Worked examples of the rules on a 10 by 10 grid. */
module Scenarios {
  import opened Grid
  import opened Rules

  /** A one-cell snake at (5, 5) moving right onto an empty cell glides:
      it stays one cell long and the game goes on. */
  lemma GlideRight(food: Cell)
    requires food != Cell(6, 5)
    ensures Moved([Cell(5, 5)], 1, 0, food) == [Cell(6, 5)]
    ensures !Collides([Cell(6, 5)], 10, 10)
  {
  }

  /** The same snake moving onto food at (6, 5) grows to two cells, keeping
      its old cell behind the new head. */
  lemma EatRight()
    ensures Moved([Cell(5, 5)], 1, 0, Cell(6, 5)) == [Cell(6, 5), Cell(5, 5)]
    ensures !Collides([Cell(6, 5), Cell(5, 5)], 10, 10)
  {
  }

  /** A head at x = 0 moving left leaves the grid. */
  lemma LeaveLeftEdge(food: Cell)
    requires food != Cell(-1, 5)
    ensures Moved([Cell(0, 5), Cell(1, 5)], -1, 0, food) == [Cell(-1, 5), Cell(0, 5)]
    ensures Collides([Cell(-1, 5), Cell(0, 5)], 10, 10)
  {
  }

  /** A five-cell snake curled around (4, 5) runs into its own body. */
  lemma BiteBody(food: Cell)
    requires food != Cell(4, 5)
    ensures var r := Moved([Cell(5, 5), Cell(5, 6), Cell(4, 6), Cell(4, 5), Cell(4, 4)], -1, 0, food);
      r == [Cell(4, 5), Cell(5, 5), Cell(5, 6), Cell(4, 6), Cell(4, 5)] && HitsSelf(r)
  {
    var r := Moved([Cell(5, 5), Cell(5, 6), Cell(4, 6), Cell(4, 5), Cell(4, 4)], -1, 0, food);
    assert r[4] == r[0];
  }

  /** Moving onto the cell the tail leaves in the same tick is no collision. */
  lemma ChaseTail(food: Cell)
    requires food != Cell(4, 5)
    ensures var r := Moved([Cell(5, 5), Cell(5, 6), Cell(4, 6), Cell(4, 5)], -1, 0, food);
      r == [Cell(4, 5), Cell(5, 5), Cell(5, 6), Cell(4, 6)] && !Collides(r, 10, 10)
  {
  }
}
