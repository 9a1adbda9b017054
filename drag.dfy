/** What one pass of the main loop does with the moves found: take the first
    one, translate both of its cells to pixel centres on screen, and hand the
    offset to `move_and_drag`. */
module Drag {
  import opened Board
  import opened Moves

  /** Left and top edge of `GAME_REGION` on screen. */
  const RegionX: int := 208
  const RegionY: int := 117

  /** `origin + k * BLOCK_SIZE + BLOCK_SIZE // 2` (Autoplay.py:147-150). */
  function CellCentre(origin: int, k: int): (p: int)
    ensures origin + BlockSize * k <= p < origin + BlockSize * (k + 1)
    ensures Quantise(p - origin - BlockSize / 2) == k
  {
    QuantiseNear(k, 0);
    origin + k * BlockSize + BlockSize / 2
  }

  /** A press at the start point, a move, and a release at the end point. */
  datatype Gesture = Gesture(startX: int, startY: int, endX: int, endY: int)

  /** The guard of `move_and_drag`: a zero offset gives no gesture ("no need
      to move the block"); otherwise the mouse goes from the start point to
      the start point plus the offset. */
  function MoveAndDrag(startX: int, startY: int, dx: int, dy: int): (g: Option<Gesture>)
    ensures g.None? <==> dx == 0 && dy == 0
    ensures g.Some? ==> g.value.startX == startX && g.value.startY == startY
    ensures g.Some? ==> g.value.endX - g.value.startX == dx && g.value.endY - g.value.startY == dy
  {
    if dx == 0 && dy == 0 then None
    else Some(Gesture(startX, startY, startX + dx, startY + dy))
  }

  /** Autoplay.py:146-153 for the chosen move. */
  function DragFor(m: Move): Option<Gesture>
  {
    var startX, startY := CellCentre(RegionX, m.a.i), CellCentre(RegionY, m.a.j);
    var endX, endY := CellCentre(RegionX, m.b.i), CellCentre(RegionY, m.b.j);
    MoveAndDrag(startX, startY, endX - startX, endY - startY)
  }

  /** For a move below or right, the offset is exactly one tile down or one
      tile right, so `move_and_drag` always drags; the drag starts on the
      centre of the first cell and ends on the centre of the second, and both
      points map back to their cells. */
  lemma DragForForward(m: Move)
    requires Forward(m.a, m.b)
    ensures DragFor(m).Some?
    ensures var g := DragFor(m).value;
      && (g.endX - g.startX, g.endY - g.startY) in {(0, BlockSize), (BlockSize, 0)}
      && Quantise(g.startX - RegionX - BlockSize / 2) == m.a.i
      && Quantise(g.startY - RegionY - BlockSize / 2) == m.a.j
      && Quantise(g.endX - RegionX - BlockSize / 2) == m.b.i
      && Quantise(g.endY - RegionY - BlockSize / 2) == m.b.j
  {
  }

  /** What one pass of the loop reports or does. */
  datatype Outcome =
    | NoTiles           // "blocks not found": nothing detected
    | NoMoves           // "no moves found"
    | NoNeedToMove      // `move_and_drag` called with a zero offset
    | Dragged(g: Gesture)

  /** Autoplay.py:139-155 for one captured list of detections. */
  method Decide(blocks: seq<Block>) returns (out: Outcome)
    ensures out.NoTiles? <==> blocks == []
    ensures out.NoMoves? <==> blocks != [] && forall m :: !IsCandidate(GridOf(blocks).cells, m)
    ensures !out.NoNeedToMove?
    ensures out.Dragged? ==>
      GridOf(blocks).Valid() && |MovesOf(GridOf(blocks))| > 0 &&
      DragFor(MovesOf(GridOf(blocks))[0]) == Some(out.g) &&
      IsCandidate(GridOf(blocks).cells, MovesOf(GridOf(blocks))[0])
  {
    if blocks == [] {
      return NoTiles;
    }
    var moves := CheckPossibleMoves(blocks);
    if moves != [] {
      assert moves[0] in moves;
      DragForForward(moves[0]);
      var gesture := DragFor(moves[0]);
      if gesture.None? {
        out := NoNeedToMove;
      } else {
        out := Dragged(gesture.value);
      }
    } else {
      out := NoMoves;
      forall m
        ensures !IsCandidate(GridOf(blocks).cells, m)
      {
        assert m !in moves;
      }
    }
  }
}
