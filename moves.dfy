/** Move enumeration in `check_possible_moves`: for every occupied cell, in the
    dictionary's key order, try the neighbour below and then the neighbour to
    the right; swap the two labels in place, test `is_match` at both cells,
    record the pair if either matches, and swap back. */
module Moves {
  import opened Board
  import opened Match

  /** A recorded move `((i, j), (ni, nj))`: drag the tile at `a` onto `b`. */
  datatype Move = Move(a: Cell, b: Cell)

  /** `directions` of Autoplay.py:64: below `(0, 1)` first, then right `(1, 0)`. */
  const Directions: seq<Cell> := [Cell(0, 1), Cell(1, 0)]

  function Step(c: Cell, d: Cell): Cell
  {
    Cell(c.i + d.i, c.j + d.j)
  }

  /** `b` is the cell below `a` or the cell to its right. */
  predicate Forward(a: Cell, b: Cell)
  {
    b == Cell(a.i, a.j + 1) || b == Cell(a.i + 1, a.j)
  }

  /** The grid with the labels of `a` and `b` exchanged. */
  function Swapped(cells: map<Cell, Label>, a: Cell, b: Cell): map<Cell, Label>
    requires a in cells && b in cells
  {
    cells[a := cells[b]][b := cells[a]]
  }

  /** Swapping the labels of `a` and `b` makes `is_match` true at `a` or at `b`. */
  predicate SwapMatches(cells: map<Cell, Label>, a: Cell, b: Cell)
    requires a in cells && b in cells
  {
    var s := Swapped(cells, a, b);
    IsMatch(s, a) || IsMatch(s, b)
  }

  /** Reference definition of a recorded move: two occupied cells, the second
      below or right of the first, whose swap makes a match. */
  predicate IsCandidate(cells: map<Cell, Label>, m: Move)
  {
    m.a in cells && m.b in cells && Forward(m.a, m.b) && SwapMatches(cells, m.a, m.b)
  }

  /** The moves recorded from cell `c` for the directions `dirs`, in order. */
  function CandidatesAt(cells: map<Cell, Label>, c: Cell, dirs: seq<Cell>): seq<Move>
    requires c in cells
  {
    if dirs == [] then []
    else
      var n := Step(c, dirs[|dirs| - 1]);
      CandidatesAt(cells, c, dirs[..|dirs| - 1])
        + (if n in cells && SwapMatches(cells, c, n) then [Move(c, n)] else [])
  }

  /** The moves recorded while visiting the cells of `order`, in order. */
  function MovesAlong(cells: map<Cell, Label>, order: seq<Cell>): seq<Move>
    requires forall c :: c in order ==> c in cells
  {
    if order == [] then []
    else MovesAlong(cells, order[..|order| - 1]) + CandidatesAt(cells, order[|order| - 1], Directions)
  }

  /** The list `moves` that `check_possible_moves` returns for the grid. */
  function MovesOf(g: Grid): seq<Move>
    requires g.Valid()
  {
    MovesAlong(g.cells, g.order)
  }

  /** Autoplay.py:73-80 for one candidate pair: swap in place, test both cells,
      swap back. The grid handed back is the grid received, and the verdict
      is the one for the swap applied to that grid. */
  method TestCandidate(cells: map<Cell, Label>, a: Cell, b: Cell) returns (found: bool, restored: map<Cell, Label>)
    requires a in cells && b in cells
    ensures found == SwapMatches(cells, a, b)
    ensures restored == cells
  {
    var grid := cells;
    grid := grid[a := grid[b]][b := grid[a]];
    found := IsMatch(grid, a) || IsMatch(grid, b);
    grid := grid[a := grid[b]][b := grid[a]];
    restored := grid;
  }

  /** The inner loop of Autoplay.py:66-80 at one cell: try each direction,
      appending the pairs whose swap makes a match to `moves`. The grid is
      handed back unchanged. */
  method VisitCell(cells: map<Cell, Label>, c: Cell, moves: seq<Move>)
    returns (moves': seq<Move>, restored: map<Cell, Label>)
    requires c in cells
    ensures moves' == moves + CandidatesAt(cells, c, Directions)
    ensures restored == cells
  {
    moves' := moves;
    restored := cells;
    for d := 0 to |Directions|
      invariant restored == cells
      invariant moves' == moves + CandidatesAt(cells, c, Directions[..d])
    {
      assert Directions[..d + 1][..d] == Directions[..d];
      var n := Step(c, Directions[d]);
      if n !in restored {
        continue;
      }
      var found;
      found, restored := TestCandidate(restored, c, n);
      if found {
        moves' := moves' + [Move(c, n)];
      }
    }
    assert Directions[..|Directions|] == Directions;
  }

  /** The nested loop of Autoplay.py:65-80 over a built grid. */
  method FindMoves(grid: Grid) returns (moves: seq<Move>)
    requires grid.Valid()
    ensures moves == MovesOf(grid)
  {
    moves := [];
    var cells := grid.cells;
    for p := 0 to |grid.order|
      invariant cells == grid.cells
      invariant moves == MovesAlong(grid.cells, grid.order[..p])
    {
      var c := grid.order[p];
      assert c in grid.order;
      moves, cells := VisitCell(cells, c, moves);
      assert grid.order[..p + 1][..p] == grid.order[..p];
    }
    assert grid.order[..|grid.order|] == grid.order;
  }

  /** `check_possible_moves(blocks)`: build the grid, then enumerate. */
  method CheckPossibleMoves(blocks: seq<Block>) returns (moves: seq<Move>)
    ensures GridOf(blocks).Valid() && moves == MovesOf(GridOf(blocks))
    ensures forall m :: m in moves <==> IsCandidate(GridOf(blocks).cells, m)
    ensures blocks == [] ==> moves == []
  {
    var grid := BuildGrid(blocks);
    GridValid(blocks);
    moves := FindMoves(grid);
    forall m
      ensures m in moves <==> IsCandidate(grid.cells, m)
    {
      MovesIff(grid, m);
    }
  }

  /** The moves recorded at one cell are exactly its candidates. */
  lemma CandidatesAtIff(cells: map<Cell, Label>, c: Cell, m: Move)
    requires c in cells
    ensures m in CandidatesAt(cells, c, Directions) <==> m.a == c && IsCandidate(cells, m)
  {
    CandidatesAtShape(cells, c);
  }

  /** At most two moves are recorded at a cell: the one below, then the one right. */
  lemma CandidatesAtShape(cells: map<Cell, Label>, c: Cell)
    requires c in cells
    ensures var below, right := Cell(c.i, c.j + 1), Cell(c.i + 1, c.j);
      CandidatesAt(cells, c, Directions)
        == (if below in cells && SwapMatches(cells, c, below) then [Move(c, below)] else [])
         + (if right in cells && SwapMatches(cells, c, right) then [Move(c, right)] else [])
  {
    var below, right := Cell(c.i, c.j + 1), Cell(c.i + 1, c.j);
    var first := if below in cells && SwapMatches(cells, c, below) then [Move(c, below)] else [];
    var second := if right in cells && SwapMatches(cells, c, right) then [Move(c, right)] else [];
    assert Directions[..|Directions| - 1] == [Cell(0, 1)];
    assert [Cell(0, 1)][..0] == [];
    assert CandidatesAt(cells, c, [Cell(0, 1)]) == CandidatesAt(cells, c, []) + first;
    assert CandidatesAt(cells, c, Directions) == CandidatesAt(cells, c, [Cell(0, 1)]) + second;
  }

  /** Soundness and completeness along any key order drawn from the grid:
      a move is recorded iff its first cell is visited and it is a candidate. */
  lemma {:induction false} MovesAlongIff(cells: map<Cell, Label>, order: seq<Cell>, m: Move)
    requires forall c :: c in order ==> c in cells
    ensures m in MovesAlong(cells, order) <==> m.a in order && IsCandidate(cells, m)
  {
    if order != [] {
      var init, last := order[..|order| - 1], order[|order| - 1];
      MovesAlongIff(cells, init, m);
      CandidatesAtIff(cells, last, m);
      assert m.a in order <==> m.a in init || m.a == last;
    }
  }

  /** An adjacent occupied pair is in `moves` iff swapping it makes a match. */
  lemma MovesIff(g: Grid, m: Move)
    requires g.Valid()
    ensures m in MovesOf(g) <==> IsCandidate(g.cells, m)
  {
    MovesAlongIff(g.cells, g.order, m);
  }

  /** Every recorded move starts at a visited cell. */
  lemma {:induction false} MovesAlongFrom(cells: map<Cell, Label>, order: seq<Cell>, k: int)
    requires forall c :: c in order ==> c in cells
    requires 0 <= k < |MovesAlong(cells, order)|
    ensures MovesAlong(cells, order)[k].a in order
  {
    MovesAlongIff(cells, order, MovesAlong(cells, order)[k]);
  }

  /** No move occurs twice in `ms`. */
  predicate NoRepeats(ms: seq<Move>)
  {
    forall p, q :: 0 <= p < q < |ms| ==> ms[p] != ms[q]
  }

  /** With no key visited twice, no move is recorded twice. */
  lemma {:induction false} MovesAlongDistinct(cells: map<Cell, Label>, order: seq<Cell>)
    requires forall c :: c in order ==> c in cells
    requires forall p, q :: 0 <= p < q < |order| ==> order[p] != order[q]
    ensures NoRepeats(MovesAlong(cells, order))
  {
    if order != [] {
      var init, last := order[..|order| - 1], order[|order| - 1];
      MovesAlongDistinct(cells, init);
      var front, back := MovesAlong(cells, init), CandidatesAt(cells, last, Directions);
      var ms := MovesAlong(cells, order);
      assert ms == front + back;
      CandidatesAtShape(cells, last);
      assert last !in init by {
        forall k | 0 <= k < |init|
          ensures init[k] != last
        {
          assert init[k] == order[k];
        }
      }
      forall p, q | 0 <= p < q < |ms|
        ensures ms[p] != ms[q]
      {
        if q < |front| {
          assert ms[p] == front[p] && ms[q] == front[q];
          assert front[p] != front[q];
        } else if p < |front| {
          assert ms[p] == front[p] && ms[q] == back[q - |front|];
          MovesAlongFrom(cells, init, p);
          assert back[q - |front|] in back;
          CandidatesAtIff(cells, last, back[q - |front|]);
          assert ms[q].a == last && ms[p].a in init;
          assert ms[p].a != ms[q].a;
        } else {
          var below, right := Cell(last.i, last.j + 1), Cell(last.i + 1, last.j);
          assert |back| == 2 && p - |front| == 0 && q - |front| == 1;
          assert back == [Move(last, below), Move(last, right)];
          assert ms[p] == back[0] && ms[q] == back[1];
        }
      }
    }
  }

  /** Each unordered adjacent pair appears at most once in `moves`: no move is
      repeated, and no move appears in both orientations. */
  lemma MovesUnique(g: Grid)
    requires g.Valid()
    ensures var ms := MovesOf(g);
      NoRepeats(ms) &&
      (forall p, q :: 0 <= p < |ms| && 0 <= q < |ms| ==> ms[p] != Move(ms[q].b, ms[q].a))
  {
    var ms := MovesOf(g);
    assert ms == MovesAlong(g.cells, g.order);
    MovesAlongDistinct(g.cells, g.order);
    forall p, q | 0 <= p < |ms| && 0 <= q < |ms|
      ensures ms[p] != Move(ms[q].b, ms[q].a)
    {
      MovesIff(g, ms[p]);
      MovesIff(g, ms[q]);
    }
  }

  /** Moves found from earlier keys come first: visiting a prefix of the key
      order yields a prefix of the move list. */
  lemma {:induction false} MovesAlongPrefix(cells: map<Cell, Label>, order: seq<Cell>, k: int)
    requires forall c :: c in order ==> c in cells
    requires 0 <= k <= |order|
    ensures MovesAlong(cells, order[..k]) <= MovesAlong(cells, order)
  {
    if k < |order| {
      var init := order[..|order| - 1];
      assert init[..k] == order[..k];
      MovesAlongPrefix(cells, init, k);
    } else {
      assert order[..k] == order;
    }
  }

  /** Nothing is recorded along keys none of which starts a candidate. */
  lemma {:induction false} NoCandidateNoMoves(cells: map<Cell, Label>, order: seq<Cell>)
    requires forall c :: c in order ==> c in cells
    requires forall m: Move :: m.a in order ==> !IsCandidate(cells, m)
    ensures MovesAlong(cells, order) == []
  {
    if order != [] {
      var init, last := order[..|order| - 1], order[|order| - 1];
      NoCandidateNoMoves(cells, init);
      CandidatesAtShape(cells, last);
      assert !IsCandidate(cells, Move(last, Cell(last.i, last.j + 1)));
      assert !IsCandidate(cells, Move(last, Cell(last.i + 1, last.j)));
    }
  }

  /** The move taken first: when key `k` is the earliest key in the order that
      starts a candidate, the first recorded move starts at key `k`, and it is
      the move below that key whenever that one is a candidate. */
  lemma {:induction false} FirstMoveAlong(cells: map<Cell, Label>, order: seq<Cell>, k: int, m0: Move)
    requires forall c :: c in order ==> c in cells
    requires 0 <= k < |order|
    requires m0.a == order[k] && IsCandidate(cells, m0)
    requires forall p: int, m: Move :: 0 <= p < k && m.a == order[p] ==> !IsCandidate(cells, m)
    ensures MovesAlong(cells, order) != []
    ensures MovesAlong(cells, order)[0].a == order[k]
    ensures IsCandidate(cells, Move(order[k], Cell(order[k].i, order[k].j + 1))) ==>
      MovesAlong(cells, order)[0].b == Cell(order[k].i, order[k].j + 1)
  {
    EarlierKeysNoMoves(cells, order, k);
    FirstAtCell(cells, order[k], m0);
    FirstRecordedAt(cells, order, k);
  }

  /** When nothing is recorded before key `k` and something is recorded at
      it, the move list starts with the first record at key `k`. */
  lemma FirstRecordedAt(cells: map<Cell, Label>, order: seq<Cell>, k: int)
    requires forall c :: c in order ==> c in cells
    requires 0 <= k < |order|
    requires MovesAlong(cells, order[..k]) == []
    requires CandidatesAt(cells, order[k], Directions) != []
    ensures MovesAlong(cells, order) != []
    ensures MovesAlong(cells, order)[0] == CandidatesAt(cells, order[k], Directions)[0]
  {
    var upto := order[..k + 1];
    assert upto[..k] == order[..k] && upto[k] == order[k];
    assert MovesAlong(cells, upto) == CandidatesAt(cells, order[k], Directions);
    MovesAlongPrefix(cells, order, k + 1);
    PrefixHead(MovesAlong(cells, upto), MovesAlong(cells, order));
  }

  /** A non-empty prefix of a list starts the list. */
  lemma PrefixHead(front: seq<Move>, all: seq<Move>)
    requires front <= all && front != []
    ensures all != [] && all[0] == front[0]
  {
  }

  /** Keys before position `k` that start no candidate record nothing. */
  lemma EarlierKeysNoMoves(cells: map<Cell, Label>, order: seq<Cell>, k: int)
    requires forall c :: c in order ==> c in cells
    requires 0 <= k <= |order|
    requires forall p: int, m: Move :: 0 <= p < k && m.a == order[p] ==> !IsCandidate(cells, m)
    ensures MovesAlong(cells, order[..k]) == []
  {
    var before := order[..k];
    forall m: Move | m.a in before
      ensures !IsCandidate(cells, m)
    {
      var p :| 0 <= p < k && before[p] == m.a;
      assert order[p] == m.a;
    }
    NoCandidateNoMoves(cells, before);
  }

  /** At a cell that starts a candidate, something is recorded; the first
      record starts there, and is the move below when that one is a candidate. */
  lemma FirstAtCell(cells: map<Cell, Label>, c: Cell, m0: Move)
    requires c in cells
    requires m0.a == c && IsCandidate(cells, m0)
    ensures CandidatesAt(cells, c, Directions) != []
    ensures CandidatesAt(cells, c, Directions)[0].a == c
    ensures IsCandidate(cells, Move(c, Cell(c.i, c.j + 1))) ==>
      CandidatesAt(cells, c, Directions)[0].b == Cell(c.i, c.j + 1)
  {
    var back := CandidatesAt(cells, c, Directions);
    CandidatesAtIff(cells, c, m0);
    assert back[0] in back;
    CandidatesAtIff(cells, c, back[0]);
    CandidatesAtShape(cells, c);
  }

  /** `moves[0]`, the move the main loop drags, starts at the earliest key (in
      first-insertion order) that has a candidate, and is the move below that
      key whenever that one is a candidate. */
  lemma FirstMove(g: Grid, k: int, m0: Move)
    requires g.Valid()
    requires 0 <= k < |g.order|
    requires m0.a == g.order[k] && IsCandidate(g.cells, m0)
    requires forall p: int, m: Move :: 0 <= p < k && m.a == g.order[p] ==> !IsCandidate(g.cells, m)
    ensures MovesOf(g) != []
    ensures MovesOf(g)[0].a == g.order[k]
    ensures IsCandidate(g.cells, Move(g.order[k], Cell(g.order[k].i, g.order[k].j + 1))) ==>
      MovesOf(g)[0].b == Cell(g.order[k].i, g.order[k].j + 1)
  {
    FirstMoveAlong(g.cells, g.order, k, m0);
  }

  /** Swapping back restores the grid, so every candidate is judged against
      the original labels. */
  lemma SwapRestores(cells: map<Cell, Label>, a: Cell, b: Cell)
    requires a in cells && b in cells
    ensures Swapped(Swapped(cells, a, b), a, b) == cells
  {
  }
}
