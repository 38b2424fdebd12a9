/**
 * The deterministic spawn rule: the next value of the spawn sequence goes into
 * the first empty corner, tried top-left, top-right, bottom-right,
 * bottom-left; when all four are taken nothing happens.
 */
module Spawning {
  import opened Geometry

  /**
   * `size` is (width, height) as the source passes it: it may describe the
   * board or a smaller top-left part of it, and it must name at least one
   * column and one row.
   */
  predicate SizeFits(g: Grid, size: (int, int))
  {
    IsGrid(g) && 1 <= size.0 <= |g[0]| && 1 <= size.1 <= |g|
  }

  /** The corners as (row, column), in the order they are tried. */
  function Corners(size: (int, int)): seq<(int, int)>
  {
    [(0, 0), (0, size.0 - 1), (size.1 - 1, size.0 - 1), (size.1 - 1, 0)]
  }

  /** Cell `c` of `g`, where `c` is a corner of a fitting size. */
  function CellAt(g: Grid, size: (int, int), k: nat): int
    requires SizeFits(g, size) && k < 4
  {
    var c := Corners(size)[k];
    g[c.0][c.1]
  }

  /** `g` with cell (i, j) set to `v`. */
  function SetCell(g: Grid, i: nat, j: nat, v: int): (r: Grid)
    requires IsGrid(g) && i < |g| && j < |g[0]|
    ensures SameShape(g, r) && r[i][j] == v
    ensures forall a, b :: 0 <= a < |g| && 0 <= b < |g[0]| && (a, b) != (i, j) ==> r[a][b] == g[a][b]
  {
    g[i := g[i][j := v]]
  }

  /** `spawn(field, spawnNums, spawnCount, size)` on the board's value. */
  function Spawn(field: Grid, spawnNums: seq<int>, spawnCount: nat, size: (int, int)): (r: Grid)
    requires SizeFits(field, size) && spawnCount < |spawnNums|
    ensures SameShape(field, r)
    ensures (forall k :: 0 <= k < 4 ==> CellAt(field, size, k) != 0) ==> r == field
    ensures forall k :: 0 <= k < 4 && CellAt(field, size, k) == 0 &&
                        (forall m :: 0 <= m < k ==> CellAt(field, size, m) != 0) ==>
              CellAt(r, size, k) == spawnNums[spawnCount] &&
              forall a, b :: 0 <= a < |field| && 0 <= b < |field[0]| && (a, b) != Corners(size)[k] ==>
                r[a][b] == field[a][b]
  {
    var newElement := spawnNums[spawnCount];
    var w, h := size.0, size.1;
    assert CellAt(field, size, 0) == field[0][0] && CellAt(field, size, 1) == field[0][w - 1];
    assert CellAt(field, size, 2) == field[h - 1][w - 1] && CellAt(field, size, 3) == field[h - 1][0];
    if field[0][0] == 0 then SetCell(field, 0, 0, newElement)
    else if field[0][w - 1] == 0 then SetCell(field, 0, w - 1, newElement)
    else if field[h - 1][w - 1] == 0 then SetCell(field, h - 1, w - 1, newElement)
    else if field[h - 1][0] == 0 then SetCell(field, h - 1, 0, newElement)
    else field
  }

  /** The example of a 4 by 4 board holding one tile at the top-left corner. */
  lemma SpawnExample()
    ensures Spawn([[2, 0, 0, 0], [0, 0, 0, 0], [0, 0, 0, 0], [0, 0, 0, 0]], [2], 0, (4, 4))
            == [[2, 0, 0, 2], [0, 0, 0, 0], [0, 0, 0, 0], [0, 0, 0, 0]]
  {
    var g := [[2, 0, 0, 0], [0, 0, 0, 0], [0, 0, 0, 0], [0, 0, 0, 0]];
    assert Spawn(g, [2], 0, (4, 4)) == SetCell(g, 0, 3, 2);
    assert g[0][3 := 2] == [2, 0, 0, 2];
  }
}
