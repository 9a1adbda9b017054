/** Grid building in `check_possible_moves`: each detection `(label, x, y)` is
    quantised to the cell `(round(x / 94), round(y / 94))` and written into the
    dictionary `grid`; a later detection on the same cell overwrites the label. */
module Board {

  datatype Option<T> = None | Some(value: T)

  /** A tile label, one of the detector's template names ('Y', 'B', 'P', 'R', 'L_B', 'D_R'). */
  type Label = string

  /** A grid coordinate: column `i`, row `j`. */
  datatype Cell = Cell(i: int, j: int)

  /** One detection: its label and the pixel offset of the matched template
      inside the captured game region. */
  datatype Block = Block(tile: Label, x: int, y: int)

  /** Side of one tile in pixels (`BLOCK_SIZE`). */
  const BlockSize: int := 94

  function Dist(a: int, b: int): nat
  {
    if a < b then b - a else a - b
  }

  /** `round(x / BLOCK_SIZE)` with Python's round-half-to-even, computed on
      integers: the nearest cell index, and on a tie the even one. */
  function Quantise(x: int): (k: int)
    ensures 2 * Dist(x, BlockSize * k) <= BlockSize
    ensures 2 * Dist(x, BlockSize * k) == BlockSize ==> k % 2 == 0
  {
    var q, r := x / BlockSize, x % BlockSize;
    if 2 * r < BlockSize then q
    else if 2 * r > BlockSize then q + 1
    else if q % 2 == 0 then q else q + 1
  }

  /** The two conditions on `Quantise` pin the cell down: any index that is
      strictly nearest, or nearest and even on a tie, is the one it returns. */
  lemma QuantiseUnique(x: int, k: int)
    requires 2 * Dist(x, BlockSize * k) < BlockSize
          || (2 * Dist(x, BlockSize * k) == BlockSize && k % 2 == 0)
    ensures Quantise(x) == k
  {
  }

  /** A detection less than half a tile from a cell's corner lands in that cell. */
  lemma QuantiseNear(k: int, e: int)
    requires 2 * Dist(e, 0) < BlockSize
    ensures Quantise(BlockSize * k + e) == k
  {
    QuantiseUnique(BlockSize * k + e, k);
  }

  /** The cell of one detection (Autoplay.py:60-61). */
  function CellOf(b: Block): Cell
  {
    Cell(Quantise(b.x), Quantise(b.y))
  }

  /** The dictionary `grid`: its entries, and its keys in the order in which
      each key was first inserted (the order `grid.items()` yields them). */
  datatype Grid = Grid(cells: map<Cell, Label>, order: seq<Cell>)
  {
    /** The key order lists every key of `cells` exactly once. */
    ghost predicate Valid()
    {
      && (forall c :: c in cells <==> c in order)
      && (forall p, q :: 0 <= p < q < |order| ==> order[p] != order[q])
    }
  }

  /** `grid[c] = label`: a new key goes to the end of the order, an existing
      key keeps its place and only its label changes. */
  function Put(g: Grid, c: Cell, tile: Label): (r: Grid)
    ensures c in r.cells && r.cells[c] == tile
    ensures forall d :: d != c ==> (d in r.cells <==> d in g.cells)
    ensures forall d :: d != c && d in g.cells ==> r.cells[d] == g.cells[d]
    ensures g.order <= r.order
  {
    Grid(g.cells[c := tile], if c in g.cells then g.order else g.order + [c])
  }

  /** Writing a key keeps the key order consistent with the entries. */
  lemma PutValid(g: Grid, c: Cell, tile: Label)
    requires g.Valid()
    ensures Put(g, c, tile).Valid()
  {
  }

  /** The grid after the building loop of Autoplay.py:59-62 has run over `blocks`. */
  function GridOf(blocks: seq<Block>): (g: Grid)
  {
    if blocks == [] then Grid(map[], [])
    else
      var last := blocks[|blocks| - 1];
      Put(GridOf(blocks[..|blocks| - 1]), CellOf(last), last.tile)
  }

  /** The grid keeps its key order consistent with its entries. */
  lemma {:induction false} GridValid(blocks: seq<Block>)
    ensures GridOf(blocks).Valid()
  {
    if blocks != [] {
      var init, last := blocks[..|blocks| - 1], blocks[|blocks| - 1];
      GridValid(init);
      PutValid(GridOf(init), CellOf(last), last.tile);
    }
  }

  /** The building loop, one `grid[...] = label` per detection. */
  method BuildGrid(blocks: seq<Block>) returns (grid: Grid)
    ensures grid == GridOf(blocks)
  {
    grid := Grid(map[], []);
    for p := 0 to |blocks|
      invariant grid == GridOf(blocks[..p])
    {
      var b := blocks[p];
      var gridX := Quantise(b.x);
      var gridY := Quantise(b.y);
      assert blocks[..p + 1][..p] == blocks[..p];
      grid := Put(grid, Cell(gridX, gridY), b.tile);
    }
    assert blocks[..|blocks|] == blocks;
  }

  /** Some detection quantises to `c`. */
  predicate Detected(blocks: seq<Block>, c: Cell)
  {
    exists k :: 0 <= k < |blocks| && CellOf(blocks[k]) == c
  }

  /** The keys of the grid are exactly the cells of the detections. */
  lemma {:induction false} GridKeys(blocks: seq<Block>, c: Cell)
    ensures c in GridOf(blocks).cells <==> Detected(blocks, c)
  {
    if blocks != [] {
      var init, last := blocks[..|blocks| - 1], blocks[|blocks| - 1];
      GridKeys(init, c);
      assert c in GridOf(blocks).cells <==> c in GridOf(init).cells || c == CellOf(last);
      assert Detected(blocks, c) <==> Detected(init, c) || c == CellOf(last) by {
        DetectedSnoc(blocks, c);
      }
    }
  }

  /** A cell is detected in `blocks` iff it is detected before the last
      detection or is the last detection's cell. */
  lemma DetectedSnoc(blocks: seq<Block>, c: Cell)
    requires blocks != []
    ensures Detected(blocks, c) <==>
      Detected(blocks[..|blocks| - 1], c) || c == CellOf(blocks[|blocks| - 1])
  {
    var init := blocks[..|blocks| - 1];
    if Detected(init, c) {
      var k :| 0 <= k < |init| && CellOf(init[k]) == c;
      assert blocks[k] == init[k];
    }
    if Detected(blocks, c) && c != CellOf(blocks[|blocks| - 1]) {
      var k :| 0 <= k < |blocks| && CellOf(blocks[k]) == c;
      assert init[k] == blocks[k];
    }
  }

  /** Last write wins: a cell holds the label of the last detection on it. */
  lemma {:induction false} GridLastWins(blocks: seq<Block>, k: int)
    requires 0 <= k < |blocks|
    requires forall q :: k < q < |blocks| ==> CellOf(blocks[q]) != CellOf(blocks[k])
    ensures CellOf(blocks[k]) in GridOf(blocks).cells
    ensures GridOf(blocks).cells[CellOf(blocks[k])] == blocks[k].tile
  {
    if k < |blocks| - 1 {
      var init := blocks[..|blocks| - 1];
      assert init[k] == blocks[k];
      forall q | k < q < |init|
        ensures CellOf(init[q]) != CellOf(init[k])
      {
        assert init[q] == blocks[q];
      }
      GridLastWins(init, k);
    }
  }

  /** Keys never move: the key order after a prefix of the detections is a
      prefix of the final key order, so keys appear in order of first insertion. */
  lemma {:induction false} GridOrderStable(blocks: seq<Block>, k: int)
    requires 0 <= k <= |blocks|
    ensures GridOf(blocks[..k]).order <= GridOf(blocks).order
  {
    if k < |blocks| {
      var init := blocks[..|blocks| - 1];
      assert init[..k] == blocks[..k];
      GridOrderStable(init, k);
    } else {
      assert blocks[..k] == blocks;
    }
  }

  /** No detections give an empty grid. */
  lemma GridEmpty()
    ensures GridOf([]).cells == map[] && GridOf([]).order == []
  {
  }

  /** Two detections on one cell leave one entry, holding the later label. */
  lemma GridCollision()
    ensures GridOf([Block("Y", 0, 0), Block("B", 40, 40)]).cells == map[Cell(0, 0) := "B"]
    ensures GridOf([Block("Y", 0, 0), Block("B", 40, 40)]).order == [Cell(0, 0)]
  {
    var blocks := [Block("Y", 0, 0), Block("B", 40, 40)];
    assert blocks[..1] == [Block("Y", 0, 0)];
    assert [Block("Y", 0, 0)][..0] == [];
    assert CellOf(Block("B", 40, 40)) == Cell(0, 0);
  }
}
