/** `is_match(grid, i, j)`: after a swap, does the cell `(i, j)` lie on three
    equal labels in a row or a column? */
module Match {
  import opened Board
  import opened Runs

  /** `grid.get(c)`. */
  function Get(cells: map<Cell, Label>, c: Cell): Option<Label>
  {
    if c in cells then Some(cells[c]) else None
  }

  datatype Axis = Horizontal | Vertical

  /** The cell `t` steps from `c` along `axis`. */
  function Shift(c: Cell, axis: Axis, t: int): Cell
  {
    match axis
    case Horizontal => Cell(c.i + t, c.j)
    case Vertical => Cell(c.i, c.j + t)
  }

  /** The five flags "the cell at offset -2 .. 2 holds `tile`" (the list
      comprehensions at Autoplay.py:92 and Autoplay.py:97; a missing cell gives false). */
  function Window(cells: map<Cell, Label>, c: Cell, axis: Axis, tile: Label): seq<bool>
  {
    seq(5, k requires 0 <= k < 5 => Get(cells, Shift(c, axis, k - 2)) == Some(tile))
  }

  /** The model of `is_match`: false when the cell is empty (a missing key,
      or the falsy empty label), otherwise a run of 3 in either window. */
  function IsMatch(cells: map<Cell, Label>, c: Cell): bool
  {
    match Get(cells, c)
    case None => false
    case Some(tile) =>
      tile != "" && (HasRun(Window(cells, c, Horizontal, tile), 3) || HasRun(Window(cells, c, Vertical, tile), 3))
  }

  /** The three cells at offsets `s`, `s + 1`, `s + 2` along `axis` hold `tile`. */
  predicate TripleAt(cells: map<Cell, Label>, c: Cell, axis: Axis, s: int, tile: Label)
  {
    forall t :: s <= t < s + 3 ==> Get(cells, Shift(c, axis, t)) == Some(tile)
  }

  /** Three cells holding `tile` in a row along `axis`, one of them `c`. */
  predicate LineThrough(cells: map<Cell, Label>, c: Cell, axis: Axis, tile: Label)
  {
    exists s :: -2 <= s <= 0 && TripleAt(cells, c, axis, s, tile)
  }

  /** A run of three in the five-cell window is exactly a line of three
      through the centre: every such run covers offset 0. */
  lemma WindowRun(cells: map<Cell, Label>, c: Cell, axis: Axis, tile: Label)
    ensures HasRun(Window(cells, c, axis, tile), 3) <==> LineThrough(cells, c, axis, tile)
  {
    var w := Window(cells, c, axis, tile);
    forall k | 0 <= k <= 2
      ensures RunAt(w, k, 3) <==> TripleAt(cells, c, axis, k - 2, tile)
    {
      if RunAt(w, k, 3) {
        forall t | k - 2 <= t < k + 1
          ensures Get(cells, Shift(c, axis, t)) == Some(tile)
        {
          assert w[t + 2];
        }
      }
      if TripleAt(cells, c, axis, k - 2, tile) {
        forall m | k <= m < k + 3
          ensures w[m]
        {
          assert Get(cells, Shift(c, axis, m - 2)) == Some(tile);
        }
      }
    }
    if HasRun(w, 3) {
      var k :| 0 <= k && k + 3 <= |w| && RunAt(w, k, 3);
      assert TripleAt(cells, c, axis, k - 2, tile);
    }
    if LineThrough(cells, c, axis, tile) {
      var s :| -2 <= s <= 0 && TripleAt(cells, c, axis, s, tile);
      assert RunAt(w, s + 2, 3);
    }
  }

  /** `is_match` holds iff the cell is occupied by a non-empty label and lies
      on three equal labels in its row or in its column. */
  lemma IsMatchIff(cells: map<Cell, Label>, c: Cell)
    ensures IsMatch(cells, c) <==>
      c in cells && cells[c] != "" &&
      (LineThrough(cells, c, Horizontal, cells[c]) || LineThrough(cells, c, Vertical, cells[c]))
  {
    if c in cells {
      WindowRun(cells, c, Horizontal, cells[c]);
      WindowRun(cells, c, Vertical, cells[c]);
    }
  }

  /** `is_match` reads nothing beyond the two five-cell windows: grids that
      agree on them give the same answer. */
  lemma IsMatchLocal(cells: map<Cell, Label>, other: map<Cell, Label>, c: Cell)
    requires forall t :: -2 <= t <= 2 ==> Get(cells, Shift(c, Horizontal, t)) == Get(other, Shift(c, Horizontal, t))
    requires forall t :: -2 <= t <= 2 ==> Get(cells, Shift(c, Vertical, t)) == Get(other, Shift(c, Vertical, t))
    ensures IsMatch(cells, c) == IsMatch(other, c)
  {
    assert Shift(c, Horizontal, 0) == c;
    if c in cells {
      var tile := cells[c];
      assert Window(cells, c, Horizontal, tile) == Window(other, c, Horizontal, tile);
      assert Window(cells, c, Vertical, tile) == Window(other, c, Vertical, tile);
    }
  }
}
