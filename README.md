# Match-3 move finder of the Dota "Dragon Chess" autoplay bot

`Autoplay.py` watches a match-3 board on screen, turns the detected tiles into
a grid, looks for an adjacent swap that lines up three equal tiles, and drags
the first one it finds. This project models the logical part of that cycle in
Dafny and proves what it computes:

- **Runs** — `check_consecutive_n`: the counter scan for `n` trues in a row,
  proved equal to a reference definition (`HasRun`).
- **Board** — the grid building of `check_possible_moves`: each detection
  `(label, x, y)` goes to cell `(round(x / 94), round(y / 94))`. `round` is
  Python's round-half-to-even, done on integers (`Quantise`). The dictionary
  `grid` is a map plus its keys in first-insertion order, because that is the
  order `grid.items()` yields. A later detection on the same cell overwrites
  the label and keeps the key's place.
- **Match** — `is_match`: the two five-cell windows centred on a cell and the
  run test with `n = 3`. This is proved to mean three equal labels in a row or
  column through the cell.
- **Moves** — the swap/test/revert enumeration. For each key in order, the
  code tries the cell below, then the cell to the right. It swaps the two
  labels, tests `is_match` at both cells, records the pair on a match, and
  swaps back. The main result: a pair is recorded iff it is an occupied
  forward-adjacent pair whose swap makes a match. No pair is recorded twice,
  and the grid is restored after every candidate.
- **Drag** — lines 139-155 of one pass of the main loop: take the first move,
  turn its cells into pixel centres, and apply `move_and_drag`'s zero-offset
  guard.
- **Scenarios** — concrete and general boards with known answers.

Three details of the code that the model keeps:

- The code tries the neighbour below (`(0, 1)`) before the one to the right
  (`(1, 0)`), although its comment at Autoplay.py:64 says "right and down".
- Cells are visited in the dictionary's insertion order.
- `is_match` treats an empty-string label like a missing cell (`if not label`).

## Model

| member | source | states |
|---|---|---|
| `Runs.CheckConsecutiveN` | Autoplay.py:104-114 | for `n >= 1` the scan returns true iff the line holds `n` consecutive trues; for `n < 1` iff the line holds any true |
| `Runs.HasRunOne` | Autoplay.py:104-114 | a run of length one is the same as a true value being present (the `n < 1` behaviour) |
| `Runs.NoTrueNoRun` | Autoplay.py:104-114 | an empty or all-false line never holds a run (every false resets the count) |
| `Runs.RunExamples` | Autoplay.py:104-114 | `[T,T,T]` holds a 3-run; `[T,T,F,T,T]` and `[F,F,F,F,F]` do not |
| `Board.Quantise` | Autoplay.py:60-61 | the cell index is within half a tile (47 px) of `x`; on an exact tie it is even (round half to even) |
| `Board.QuantiseUnique` | Autoplay.py:60-61 | those two conditions determine the cell index uniquely |
| `Board.QuantiseNear` | Autoplay.py:60-61 | a detection less than half a tile from a cell corner `94*k` lands in cell `k` |
| `Board.Put` | Autoplay.py:62 | `grid[c] = label` sets `c`, keeps every other entry, and only ever extends the key order |
| `Board.PutValid` | Autoplay.py:62 | writing a key keeps the key order listing each key exactly once |
| `Board.GridValid` | Autoplay.py:58-62 | after the building loop the key order lists each grid key exactly once |
| `Board.BuildGrid` | Autoplay.py:58-62 | the building loop yields the grid of all detections, in order |
| `Board.GridKeys` | Autoplay.py:58-62 | the grid's keys are exactly the quantised cells of the detections |
| `Board.GridLastWins` | Autoplay.py:59-62 | each key maps to the label of the last detection on that cell |
| `Board.GridOrderStable` | Autoplay.py:58-62 | the key order after any prefix of the detections is a prefix of the final key order, so keys keep their first-insertion place |
| `Board.GridEmpty` | Autoplay.py:58 | no detections give an empty grid |
| `Board.GridCollision` | Autoplay.py:59-62 | two detections on one cell leave a single entry with the later label |
| `Match.WindowRun` | Autoplay.py:92-99 | a 3-run in a five-cell window is exactly a line of three through the centre |
| `Match.IsMatchIff` | Autoplay.py:85-101 | `is_match` is false on an empty cell and otherwise true iff the cell lies on three equal labels in its row or column |
| `Match.IsMatchLocal` | Autoplay.py:85-101 | `is_match` depends only on the cells within two steps in its row and column |
| `Moves.TestCandidate` | Autoplay.py:72-80 | swap, test and swap back: the verdict is "the swap makes a match at one of the cells", and the grid comes back unchanged |
| `Moves.VisitCell` | Autoplay.py:66-80 | at one cell, the loop over `directions` appends exactly that cell's candidates, below before right, and hands the grid back unchanged |
| `Moves.FindMoves` | Autoplay.py:64-82 | the nested loop records exactly the move list of the grid in key order, below before right; the grid is unchanged at every step |
| `Moves.CheckPossibleMoves` | Autoplay.py:55-82 | the returned moves are exactly the occupied forward-adjacent pairs whose swap makes a match; no detections give no moves |
| `Moves.CandidatesAtShape` | Autoplay.py:64-77 | at one cell, the move below (if any) is recorded before the move to the right (if any) |
| `Moves.CandidatesAtIff` | Autoplay.py:64-77 | a move is recorded at a cell iff it starts there and is a candidate |
| `Moves.MovesAlongIff` | Autoplay.py:65-77 | along any visiting order, a move is recorded iff its first cell is visited and it is a candidate |
| `Moves.MovesIff` | Autoplay.py:65-77 | soundness and completeness: a move is in the list iff both cells are occupied, the second is below or right of the first, and swapping them makes a match |
| `Moves.MovesAlongFrom` | Autoplay.py:65-77 | every recorded move starts at a visited cell |
| `Moves.MovesAlongDistinct` | Autoplay.py:65-77 | when no key is visited twice, no move is recorded twice |
| `Moves.MovesUnique` | Autoplay.py:64-77 | each unordered adjacent pair appears at most once: no repeats and never both orientations |
| `Moves.MovesAlongPrefix` | Autoplay.py:65-77 | the moves recorded for a prefix of the key order are a prefix of the move list: moves from earlier keys come first |
| `Moves.NoCandidateNoMoves` | Autoplay.py:65-77 | visiting only keys that start no candidate records no move |
| `Moves.EarlierKeysNoMoves` | Autoplay.py:65-77 | when no key before position `k` starts a candidate, visiting those keys records nothing |
| `Moves.FirstAtCell` | Autoplay.py:66-77 | at a key that starts a candidate something is recorded; the first record starts there, and is the move below when that one is a candidate |
| `Moves.FirstRecordedAt` | Autoplay.py:65-77 | when nothing is recorded before key `k` and something is recorded at it, the move list starts with key `k`'s first record |
| `Moves.FirstMoveAlong` | Autoplay.py:65-77 | along any visiting order, the first recorded move starts at the earliest visited key that starts a candidate, and is the move below that key when that one is a candidate |
| `Moves.FirstMove` | Autoplay.py:64-82 | `moves[0]`, the move dragged at Autoplay.py:146, starts at the earliest key in first-insertion order that has a candidate, and is the move below that key when that one is a candidate |
| `Moves.SwapRestores` | Autoplay.py:73-80 | swapping the same two cells twice restores the grid |
| `Drag.CellCentre` | Autoplay.py:147-150 | the pixel centre of cell `k` lies inside that cell's span, and quantising it back (minus half a tile) gives `k` |
| `Drag.MoveAndDrag` | Autoplay.py:117-125 | no gesture iff the offset is zero; otherwise the gesture starts at the start point and moves by the offset |
| `Drag.DragForForward` | Autoplay.py:146-153 | for a move below or right, the drag offset is `(0, 94)` or `(94, 0)`, so `move_and_drag` always drags; both end points map back to the move's cells |
| `Drag.Decide` | Autoplay.py:139-155 | one pass reports "no tiles" iff nothing was detected, "no moves" iff tiles exist but no candidate does, never takes the "no need to move" branch, and otherwise drags the first move found |
| `Scenarios.NoMatchWhenDistinct` | Autoplay.py:85-101 | on a grid with pairwise distinct labels `is_match` is false everywhere |
| `Scenarios.SwapKeepsDistinct` | Autoplay.py:73 | a swap keeps the labels pairwise distinct |
| `Scenarios.DistinctLabelsNoMoves` | Autoplay.py:64-82 | a board whose tiles all differ yields no moves |
| `Scenarios.IsolatedTileNoMoves` | Autoplay.py:64-82 | a single tile with no neighbour yields no moves |
| `Scenarios.RowCompletedFromBelow` | Autoplay.py:64-82 | on the row A A B A A with an A below the B, swapping the B down is among the moves |

## Left out

- `find_blocks` and `TEMPLATES` are not modelled. OpenCV template matching with a 0.7 similarity threshold becomes the detection list, taken as an input.
- `capture_screen` is not modelled: taking screenshots is I/O.
- The mouse calls (`pyautogui`) and `print`s inside `move_and_drag` are not modelled. Only its zero-offset guard and the resulting gesture are (`Drag.MoveAndDrag`).
- The keyboard listener and the global `running` flag are not modelled. They only exist for asynchronous cancellation.
- The top-level `while running` loop, `time.sleep` and the status messages are not modelled. `Drag.Decide` models one pass of the loop body.
- Float division is not modelled. `round(x / 94)` is computed exactly on integers. This agrees with the floating-point result unless pixel coordinates are far larger than any screen.
- In-place update of the dictionary is modelled on values. The swap and the swap back act on a `map` value, and `Moves.TestCandidate` hands back the restored map. Aliasing of the dictionary is not a concern, because `grid` is a local of `check_possible_moves`.
- The `label` that `grid.items()` yields at line 65 is unused by the code, so the model does not carry it.
