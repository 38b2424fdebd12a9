# A verified model of the 2048 move engine in grid.py

`grid.py` is the state-transition core of a best-first (A*-style) solver for
the 2048 sliding-tile puzzle. A board is a rectangle of integers, and 0 is an
empty cell. The file has these parts:

- Four moves. Up, Down, Left and Right are each built from "slide every row
  to the left" plus the `transpose` and `invert` transforms.
- A legality check, `move_is_possible`.
- A deterministic spawn rule. The next value of a replay list goes into the
  first empty corner.
- A search-node class `grid`:
  - its `move` method replaces the board;
  - `CHILDREN` expands a node into its legal successors, in the order Up,
    Down, Left, Right;
  - it has five integer board metrics (`getMaxTile`, `getAvailableCells`,
    `mergeFactor`, `eval_smoothness`, `eval_monotonicity`) and the priority-queue order `__lt__`
    on (F, H).

The model is split into six modules:

- `Geometry` (geometry.dfy): boards, `Transpose`, `Invert`, and their
  involution and injectivity lemmas.
- `Rows` (rows.dfy): the row slide. It has three parts:
  - `Tighten`.
  - The merge pass, both as the loop with its `pair` flag (method `Merge`)
    and as the function `MergePass`.
  - `MoveRowLeft`, with an independent reference definition `Slide` and a
    proof that the two agree.
- `Moves` (moves.dfy): the direction table as the recursive `ApplyMove`
  (Right, Up and Down defined through Left, as in the source's lambdas), the
  legality check `IsMovable` built the same way, and `MoveIsPossible` on
  direction names. It proves:
  - legality coincides with "the move changes the board";
  - every move keeps the board's shape and its sum.
- `Spawning` (spawning.dfy): the four-corner spawn rule on board values.
- `Metrics` (metrics.dfy): the metrics as specification functions, and the
  source's counting loops as methods proved equal to them. The metrics are
  empty cells, the merge count, smoothness and monotonicity.
- `Search` (search.dfy): class `Node`, the model of class `grid`, and
  `NodeView`, a value snapshot of a node's fields. `Node` has fields
  `state`, `path`, `spawnCount`, `spawnList`, `size`, `goal`, `h` and `f`.
  `Node.Move` reassigns `state`; `Node.Children` builds fresh child nodes in
  a loop. Their contracts relate them to the specification functions
  `Successor`, `ChildView` and `Expansion`, whose properties are proved as
  lemmas.

Grids are `seq<seq<int>>` and must be rectangular, with at least one row and
one column (`Geometry.IsGrid`). `size` is `(width, height)`, as in the
source: `size.0` counts columns and `size.1` counts rows. It must name at
least one column and one row and fit inside the board (`Spawning.SizeFits`).

Two consequences of the code deserve mention:

- On a 4 by 4 board holding only a 2 at the top-left corner, `move('Left')`
  is illegal: `move_is_possible` (grid.py:21-50) finds no row that can
  change, so `move` answers False and spawns nothing (grid.py:219-226).
  `Moves.CornerTileLeftIsIllegal` proves this; `Spawning.SpawnExample` shows
  where a spawn on that board would go.
- The constructor accepts an empty `spawnList`; the code fails only at the
  first legal move, in the modulo by `len(spawnList)` (grid.py:221-222). The
  model therefore lets an empty spawn list through whenever no move is legal.

## Model

| member | source | states |
|---|---|---|
| Geometry.Transpose | grid.py:11-12 | The result has the swapped dimensions, and cell (j, i) of the result is cell (i, j) of the board. |
| Geometry.Invert | grid.py:16-17 | Every row is reversed; the board keeps its shape. |
| Geometry.Reverse | grid.py:17 | `row[::-1]`: same length, and entry k is the entry k places from the end. |
| Geometry.ReverseInvolution | grid.py:17 | Reversing a row twice gives the row back. |
| Geometry.InvertInvolution | grid.py:16-17 | `invert` is an involution. |
| Geometry.TransposeInvolution | grid.py:11-12 | `transpose` is an involution on rectangular non-empty boards. |
| Geometry.TransposeInjective | grid.py:11-12 | Two boards have equal transposes iff they are equal. |
| Geometry.InvertInjective | grid.py:16-17 | Two boards have equal inverts iff they are equal. |
| Rows.NonZeros | grid.py:184 | The tiles of a row, in order: the result holds no zero and is no longer than the row. |
| Rows.Tighten | grid.py:183-186 | `tighten` keeps the row length and the sequence of tiles. |
| Rows.TightenIsPacked | grid.py:183-186 | After `tighten`, every tile comes before every empty cell. |
| Rows.TightenPacked | grid.py:183-186 | `tighten` leaves an already packed row unchanged. |
| Rows.MergePass | grid.py:188-203 | The merge pass keeps the row length, as the assert at grid.py:202 demands. |
| Rows.Merge | grid.py:188-203 | The loop with the `pair` flag returns exactly the single left-to-right merge pass. |
| Rows.SumMergePass | grid.py:188-203 | The merge pass preserves the row's sum. |
| Rows.MoveRowLeft | grid.py:182-205 | `move_row_left` keeps the row length. |
| Rows.MoveRowLeftPacked | grid.py:182-205 | After a slide, every tile comes before every empty cell. |
| Rows.Combine | grid.py:188-205 | Reference combining of a row's tiles; it never lengthens the list of tiles. |
| Rows.CombineTiles | grid.py:188-205 | Combining tiles yields only tiles (no empty cell). |
| Rows.SumCombine | grid.py:188-205 | Combining preserves the sum of the tiles. |
| Rows.CombineShrinks | grid.py:188-205 | When two neighbouring tiles are equal, combining strictly shortens the list of tiles. |
| Rows.MergePassEmpty | grid.py:188-203 | The merge pass leaves an empty row empty. |
| Rows.MergePassPadded | grid.py:188-203 | On a tightened row, the merge pass acts on the tiles and leaves the empty tail alone. |
| Rows.NonZerosMergePass | grid.py:188-203 | The tiles left by the merge pass over packed tiles are the reference combination of those tiles. |
| Rows.MoveRowLeftIsSlide | grid.py:182-205 | `move_row_left` equals the reference slide: the combined tiles padded with empty cells. |
| Rows.MoveRowLeftSum | grid.py:182-205 | A slide preserves the row's sum. |
| Rows.Change | grid.py:23-28 | `change(i)`: an empty cell before a tile, or a tile before an equal tile. |
| Rows.RowLeftMovable | grid.py:22-30 | `row_is_left_movable`: some neighbouring pair would change. |
| Rows.EmptyPropagates | grid.py:22-30 | In a row that cannot move left, every cell after an empty cell is empty. |
| Rows.MergePassStill | grid.py:22-30 | The merge pass does not change a row that cannot move left. |
| Rows.RowLeftMovableIff | grid.py:22-30 | `row_is_left_movable` holds iff `move_row_left` changes the row (both directions). |
| Rows.MergeNoCascade | grid.py:188-205 | `[2,2,2,2]` slides to `[4,4,0,0]`: merged tiles do not merge again. |
| Rows.MergeLeftBiased | grid.py:188-205 | `[2,2,2]` slides to `[4,2,0]`: the leftmost pair merges first. |
| Rows.MergeAcrossGaps | grid.py:188-205 | `[0,2,0,2]` slides to `[4,0,0,0]`: tiles merge across empty cells. |
| Rows.MergedTileStays | grid.py:188-205 | `[2,2,4]` slides to `[4,4,0]`: a doubled tile does not merge with an equal neighbour. |
| Moves.Code | grid.py:236 | `direction[0]`: the letter appended to the path is one of U, D, L, R. |
| Moves.CodeInjective | grid.py:236 | Two directions append the same letter iff they are the same direction. |
| Moves.ParseDirection | grid.py:46-50 | A recognised name is the name of the direction returned; an unrecognised name is no direction's name. |
| Moves.ParseName | grid.py:207-217 | Every direction's name is recognised as that direction. |
| Moves.MoveLeft | grid.py:208-209 | The Left move keeps the board's shape. |
| Moves.ApplyMove | grid.py:207-215 | Every move keeps the board's dimensions. |
| Moves.LeftSlidesRows | grid.py:208-209 | Left slides each row to the left. |
| Moves.RightSlidesRows | grid.py:210-211 | Right slides each row to the right: the reversed row slid left, reversed back. |
| Moves.UpSlidesColumns | grid.py:212-213 | Up slides each column to the top. |
| Moves.DownSlidesColumns | grid.py:214-215 | Down slides each column to the bottom. |
| Moves.LeftMovable | grid.py:34-35 | `check['Left']`: some row of the board can move left. |
| Moves.IsMovable | grid.py:33-45 | The `check` table: Right, Up and Down reduce to Left through `invert` and `transpose`, as the moves do. |
| Moves.MoveIsPossible | grid.py:21-50 | `move_is_possible`: false for an unknown name, otherwise the `check` entry of the named direction. |
| Moves.LeftMovableIff | grid.py:34-35 | Some row can move left iff the Left move changes the board. |
| Moves.IsMovableIff | grid.py:21-50 | For every direction, the legality check holds iff the move in that direction changes the board. |
| Moves.MoveIsPossibleIff | grid.py:46-50 | `move_is_possible` holds iff the name is a direction and its move changes the board. It is false for any other name. |
| Moves.CornerTileLeftIsIllegal | grid.py:21-50 | A lone 2 in the top-left corner cannot move left, and the Left move leaves that board unchanged. |
| Moves.GridSumTranspose | grid.py:11-12 | Transposing preserves the board's sum. |
| Moves.GridSumInvert | grid.py:16-17 | Inverting preserves the board's sum. |
| Moves.GridSumMoveLeft | grid.py:208-209 | The Left move preserves the board's sum. |
| Moves.MovePreservesSum | grid.py:207-215 | Every move preserves the board's sum. |
| Moves.LegalAmong | grid.py:231-238 | The legal directions among a list are exactly those in the list that can move. |
| Moves.NoLegalDirection | grid.py:231-238 | When no direction of the expansion order is legal, no direction is legal. |
| Moves.LegalDirectionsSpec | grid.py:21-50 | At most four legal directions. A direction is legal iff its move changes the board. None is legal iff no move changes the board. |
| Spawning.SetCell | grid.py:57 | Writing one cell sets that cell and keeps every other cell and the board's shape. |
| Spawning.Spawn | grid.py:54-65 | The next value goes into the first empty corner (top-left, top-right, bottom-right, bottom-left), and no other cell changes. When all four corners are taken the board is unchanged. |
| Spawning.SpawnExample | grid.py:54-65 | On a board whose top-left corner is taken, the value goes to the top-right corner. |
| Metrics.ZeroCount | grid.py:113-115 | A row has at most as many empty cells as cells. |
| Metrics.GridZeros | grid.py:109-116 | The number of empty cells over all rows. |
| Metrics.ZeroCountNone | grid.py:113-115 | A row has no empty cell iff every cell is a tile. |
| Metrics.GridZerosBounds | grid.py:109-116 | The empty-cell count lies in [0, w·h], and it is 0 iff the board is full. |
| Metrics.PairsBefore | grid.py:125-127 | The equal neighbouring pairs counted up to a position are at most that position, and fewer than the row length. |
| Metrics.MergeFactorOf | grid.py:119-136 | `mergeFactor`: minus the pairs of the tightened rows and of the tightened columns, so never positive. |
| Metrics.TightPairsBound | grid.py:122-127 | Over rows of width w, the counted pairs are at most w - 1 per row. |
| Metrics.MergeFactorBounds | grid.py:119-136 | `mergeFactor` lies in [-(h·(w-1) + w·(h-1)), 0]. |
| Metrics.PairsBeforeEmpty | grid.py:123-127 | In an empty row, every neighbouring pair counts as a pair. |
| Metrics.EmptyRowPairs | grid.py:123-127 | An empty row of width w stays empty when tightened and counts w - 1 pairs. |
| Metrics.TightPairsEmpty | grid.py:122-127 | h empty rows of width w count h·(w-1) pairs. |
| Metrics.EmptyBoardMergeFactor | grid.py:119-136 | On an empty h by w board, `mergeFactor` reaches its lower bound -(h·(w-1) + w·(h-1)), because zero-zero pairs of the padded rows count. |
| Metrics.TightPairCount | grid.py:122-127 | The nested counting loop over the rows returns the tightened pair count. |
| Metrics.LineSmoothness | grid.py:145 | The sum of the absolute differences of neighbouring cells of one line. |
| Metrics.RowSmoothness | grid.py:144-145 | `row_smoothness`: that sum over all lines. |
| Metrics.SmoothnessOf | grid.py:144-147 | `eval_smoothness` is at least 1. |
| Metrics.LineSmoothnessZero | grid.py:145 | A line's sum of neighbour differences is 0 iff all its cells are equal. |
| Metrics.RowSmoothnessZero | grid.py:144-145 | The sum over several lines is 0 iff every line is level. |
| Metrics.LevelConstant | grid.py:145 | Every cell of a level line equals its first cell. |
| Metrics.SmoothnessOne | grid.py:138-147 | `eval_smoothness` is exactly 1 iff every cell holds the same value. |
| Metrics.Dirs | grid.py:161-169 | A line has no more recorded step directions than cells. |
| Metrics.LineSwitches | grid.py:160-169 | The switches of one line: neighbouring recorded strict directions that differ. |
| Metrics.Switches | grid.py:157-170 | `row_monotonicity`: the switches summed over all lines. |
| Metrics.MonotonicityOf | grid.py:157-172 | `eval_monotonicity` is at most -1. |
| Metrics.DirsSnoc | grid.py:161-169 | One more cell adds exactly the direction of the new step; an equal step adds none. |
| Metrics.ChangesSnoc | grid.py:162-169 | A new direction counts a switch only when a previous direction exists and differs. The first direction never counts, because `None == False` is false. |
| Metrics.LineSwitchCount | grid.py:159-169 | The inner loop with its `increasing` variable returns the line's switch count. |
| Metrics.RowMonotonicity | grid.py:157-170 | `row_monotonicity` returns the total switch count of the lines. |
| Metrics.DirsContents | grid.py:161-169 | The line has an increasing direction recorded iff it has an increasing step, and likewise for decreasing. |
| Metrics.ChangesZero | grid.py:161-169 | No switch happens iff the directions seen are not both up and down. |
| Metrics.LineSwitchesZero | grid.py:159-169 | A line has no switch iff it is monotone (never both rising and falling). |
| Metrics.SwitchExampleReversal | grid.py:159-169 | `[2,4,2]` has one switch. |
| Metrics.SwitchExampleEqualStep | grid.py:159-169 | `[4,2,2,8]` has one switch: the equal step keeps the previous direction. |
| Search.Successor | grid.py:219-223 | Moving and spawning keeps the board's shape. |
| Search.KeyLess | grid.py:81-86 | `__lt__` on the (F, H) pairs of two nodes: smaller F, or equal F and smaller H. |
| Search.Node.Less | grid.py:81-86 | `__lt__` on two nodes, through their `f` and `h` fields. |
| Search.KeyLessIsStrictOrder | grid.py:81-86 | `__lt__` is irreflexive, asymmetric and transitive. |
| Search.ChildView | grid.py:232-237 | A child's board is a moved and spawned board of the parent's shape that fits the size. |
| Search.ExpandAmongLegal | grid.py:228-240 | Expansion over a direction list gives one child per legal direction of that list, in its order. |
| Search.ExpansionIsLegalMoves | grid.py:228-240 | At most four children, one per direction whose move changes the board, in the order Up, Down, Left, Right. Each child has the moved and spawned board, the path extended by the direction's letter, and the spawn count plus one. No child means no move changes the board. |
| Search.Node.constructor | grid.py:71-79 | The node stores its arguments; H is the heuristic of the board and goal; F = H + the path length. |
| Search.Node.GetMaxTile | grid.py:100-106 | The result is at least 0 and at least every cell. It is 0 or some cell's value. |
| Search.Node.GetAvailableCells | grid.py:109-116 | The result is the number of empty cells. It is at most w·h, and it is 0 iff the board is full. |
| Search.Node.MergeFactor | grid.py:119-136 | The result is minus the pair count over the tightened rows and columns. It lies in [-(h·(w-1) + w·(h-1)), 0]. The board is not modified. |
| Search.Node.EvalSmoothness | grid.py:138-147 | The result is at least 1, and exactly 1 iff every cell holds the same value. |
| Search.Node.EvalMonotonicity | grid.py:149-172 | The result is minus (row switches + column switches + 1), so it is at most -1. |
| Search.Node.Move | grid.py:181-226 | An unknown name answers None and leaves the board. For a known name the answer is `move_is_possible` on the old board. On success the board becomes the moved board with `spawnList[spawnVal mod len]` spawned. Otherwise the board is unchanged. |
| Search.Node.TryDirection | grid.py:231-238 | A child exists iff the direction is legal. It is fresh, holds the successor board, the path extended by the direction's letter, the spawn count plus one, and H and F of its own board. |
| Search.Node.Children | grid.py:228-240 | Fresh nodes, one per element of `Expansion`, each holding exactly that element's fields. The parent is not modified. |

## Left out

- `heuristic` (grid.py:177-178) uses a floating-point `math.log2` of a quotient. It divides by zero on an empty board, raises for a goal of 0 or less, and becomes zero or negative once the largest tile reaches the goal. The node takes the heuristic as a parameter `(Grid, int) -> real`, evaluated once at construction, so H and F are values of that parameter.
- `__eq__` and `__hash__` (grid.py:88-97) call Python's string hash, which is foreign code. Their serialisation joins the cells without separators, so different boards can share a key (`[1,23]` and `[12,3]`). No equality of nodes is modelled.
- `copy.deepcopy` and `copy.copy` (grid.py:121, 142, 155) are value copies here, because boards are immutable sequences.
- The unused `numpy` import is not part of this model.
- The search loop that owns the priority queue and the generation of the spawn list are not part of this model.
- Spawning.Spawn: the source writes one cell of the caller's list in place; the model returns the new board as a value and `Node.Move` assigns it to `state`. Row aliasing is not modelled. In `CHILDREN` the temporary node shares the parent's rows, but `move` replaces them with freshly built rows before spawning, so the parent's board is never written; `Node.Children` has no `modifies` clause.
- Ragged boards and boards without rows or columns are excluded by `IsGrid`. On those, `zip` would truncate.
- Node.Move: a `size` outside the board, or with a zero component, is excluded by `SizeFits`. Python's negative indexing for those cases is not modelled.
- Node.Move: an empty `spawnList` raises a division by zero in the source when the move is legal. The model requires a non-empty list in that case only.
- Node.Move: `spawnVal` is a natural number. For a negative counter the source skips the wrap at grid.py:221 and indexes the spawn list from its end; the source itself only passes counters that start at 0 and grow.
- Node.Move: the source's `None`/`True`/`False` results are `Option<bool>` (`None`, `Some(true)`, `Some(false)`).
- Node.Move: the ensures states the answer through `MoveIsPossible`. That the answer means "the move changes the board" is the separate lemma `Moves.MoveIsPossibleIff`.
- Cells are not required to be 0 or powers of two. Every stated property holds for any integers.
