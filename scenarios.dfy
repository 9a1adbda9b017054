/** Boards on which the move finder's answer is known. */
module Scenarios {
  import opened Board
  import opened Match
  import opened Moves

  /** No two cells of the grid hold the same label. */
  ghost predicate AllDistinct(cells: map<Cell, Label>)
  {
    forall x, y :: x in cells && y in cells && x != y ==> cells[x] != cells[y]
  }

  /** A match needs two neighbouring cells with one label, so a grid without
      repeated labels has no match anywhere. */
  lemma NoMatchWhenDistinct(cells: map<Cell, Label>, c: Cell)
    requires AllDistinct(cells)
    ensures !IsMatch(cells, c)
  {
    IsMatchIff(cells, c);
    if c in cells {
      var tile := cells[c];
      forall axis: Axis, s: int | -2 <= s <= 0
        ensures !TripleAt(cells, c, axis, s, tile)
      {
        var x, y := Shift(c, axis, s), Shift(c, axis, s + 1);
        assert x != y;
        if x in cells && y in cells {
          assert cells[x] != cells[y];
        }
      }
    }
  }

  /** Swapping two labels keeps them pairwise distinct. */
  lemma SwapKeepsDistinct(cells: map<Cell, Label>, a: Cell, b: Cell)
    requires a in cells && b in cells
    requires AllDistinct(cells)
    ensures AllDistinct(Swapped(cells, a, b))
  {
    var s := Swapped(cells, a, b);
    forall x, y | x in s && y in s && x != y
      ensures s[x] != s[y]
    {
      var x' := if x == a then b else if x == b then a else x;
      var y' := if y == a then b else if y == b then a else y;
      assert s[x] == cells[x'] && s[y] == cells[y'] && x' != y';
    }
  }

  /** On any board where every tile differs from every other,
      no swap forms a line, and the move list is empty. */
  lemma DistinctLabelsNoMoves(g: Grid)
    requires g.Valid()
    requires AllDistinct(g.cells)
    ensures MovesOf(g) == []
  {
    var ms := MovesOf(g);
    if ms != [] {
      var m := ms[0];
      MovesIff(g, m);
      SwapKeepsDistinct(g.cells, m.a, m.b);
      NoMatchWhenDistinct(Swapped(g.cells, m.a, m.b), m.a);
      NoMatchWhenDistinct(Swapped(g.cells, m.a, m.b), m.b);
    }
  }

  /** A single tile has no neighbour to swap with. */
  lemma IsolatedTileNoMoves(g: Grid, c: Cell, tile: Label)
    requires g.Valid()
    requires g.cells == map[c := tile]
    ensures MovesOf(g) == []
  {
    DistinctLabelsNoMoves(g);
  }

  /** The row A A B A A with an A below the B: swapping the B
      down completes the row, so that swap is among the moves. */
  lemma RowCompletedFromBelow(g: Grid)
    requires g.Valid()
    requires g.cells == map[Cell(0, 0) := "A", Cell(1, 0) := "A", Cell(2, 0) := "B",
                            Cell(3, 0) := "A", Cell(4, 0) := "A", Cell(2, 1) := "A"]
    ensures Move(Cell(2, 0), Cell(2, 1)) in MovesOf(g)
  {
    var a, b := Cell(2, 0), Cell(2, 1);
    var s := Swapped(g.cells, a, b);
    assert s[Cell(0, 0)] == "A" && s[Cell(1, 0)] == "A" && s[a] == "A";
    assert TripleAt(s, a, Horizontal, -2, "A") by {
      assert Shift(a, Horizontal, -2) == Cell(0, 0);
      assert Shift(a, Horizontal, -1) == Cell(1, 0);
      assert Shift(a, Horizontal, 0) == a;
    }
    IsMatchIff(s, a);
    MovesIff(g, Move(a, b));
  }
}
