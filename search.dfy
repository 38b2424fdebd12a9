/**
 * The search node (class `grid` of grid.py): a board with the path that led
 * to it and the spawn counter, its cached heuristic and cost, the move that
 * updates its board, the expansion into children, the board metrics and the
 * priority-queue order.
 */
module Search {
  import opened Wrappers
  import opened Geometry
  import opened Moves
  import opened Spawning
  import opened Metrics

  /**
   * The board after moving `g` in `d` and spawning the value at position
   * `spawnVal` of the spawn list, taken modulo the list's length.
   */
  function Successor(g: Grid, d: Direction, spawnList: seq<int>, spawnVal: nat, size: (int, int)): (r: Grid)
    requires SizeFits(g, size) && spawnList != []
    ensures SameShape(g, r)
  {
    Spawn(ApplyMove(d, g), spawnList, spawnVal % |spawnList|, size)
  }

  /** An index already inside the list is its own remainder. */
  lemma SmallIndexWraps(i: nat, n: nat)
    requires i < n
    ensures i % n == i
  {
  }

  /** `__lt__`: by cost F first, then by heuristic H. */
  predicate KeyLess(f1: real, h1: real, f2: real, h2: real)
  {
    if f1 < f2 then true
    else if f1 == f2 && h1 < h2 then true
    else false
  }

  /** The order on (F, H) is irreflexive, asymmetric and transitive. */
  lemma KeyLessIsStrictOrder(f1: real, h1: real, f2: real, h2: real, f3: real, h3: real)
    ensures !KeyLess(f1, h1, f1, h1)
    ensures KeyLess(f1, h1, f2, h2) ==> !KeyLess(f2, h2, f1, h1)
    ensures KeyLess(f1, h1, f2, h2) && KeyLess(f2, h2, f3, h3) ==> KeyLess(f1, h1, f3, h3)
  {
  }

  /** The fields of a node, as a value. */
  datatype NodeView = NodeView(state: Grid, path: string, spawnCount: nat, spawnList: seq<int>,
                               size: (int, int), goal: int, h: real, f: real)

  /**
   * What the child made by moving the node `parent` in `d` holds: the moved
   * and spawned board, the path one code longer, the spawn counter one
   * higher, and the heuristic computed once on the new board.
   */
  function ChildView(parent: NodeView, d: Direction, sl: seq<int>, gridSize: (int, int), goal: int,
                     heuristic: (Grid, int) -> real): (c: NodeView)
    requires SizeFits(parent.state, gridSize) && sl != []
    ensures SizeFits(c.state, c.size) && SameShape(parent.state, c.state)
  {
    var g := Successor(parent.state, d, sl, parent.spawnCount, gridSize);
    var hc := heuristic(g, goal);
    NodeView(g, parent.path + [Code(d)], parent.spawnCount + 1, sl, gridSize, goal, hc, hc + (|parent.path| + 1) as real)
  }

  /** A node whose fields are those of the child of `parent` in `d` is that child. */
  lemma ChildViewOfFields(parent: NodeView, d: Direction, sl: seq<int>, gridSize: (int, int), goal: int,
                          heuristic: (Grid, int) -> real, c: NodeView)
    requires SizeFits(parent.state, gridSize) && sl != []
    requires c.state == Successor(parent.state, d, sl, parent.spawnCount, gridSize)
    requires c.path == parent.path + [Code(d)] && c.spawnCount == parent.spawnCount + 1
    requires c.spawnList == sl && c.size == gridSize && c.goal == goal
    requires c.h == heuristic(c.state, goal) && c.f == c.h + |c.path| as real
    ensures c == ChildView(parent, d, sl, gridSize, goal, heuristic)
  {
  }

  /**
   * The children of `parent` for the directions `ds`, in the order of `ds`:
   * one for each direction that is legal on the parent's board.
   */
  function ExpandAmong(parent: NodeView, ds: seq<Direction>, sl: seq<int>, gridSize: (int, int), goal: int,
                       heuristic: (Grid, int) -> real): (r: seq<NodeView>)
    requires SizeFits(parent.state, gridSize)
    requires sl != [] || forall d: Direction :: !IsMovable(d, parent.state)
  {
    if ds == [] then []
    else
      var last := ds[|ds| - 1];
      ExpandAmong(parent, ds[..|ds| - 1], sl, gridSize, goal, heuristic) +
      (if IsMovable(last, parent.state) then [ChildView(parent, last, sl, gridSize, goal, heuristic)] else [])
  }

  /** The children of `parent`, trying Up, Down, Left and Right in turn. */
  function Expansion(parent: NodeView, sl: seq<int>, gridSize: (int, int), goal: int,
                     heuristic: (Grid, int) -> real): seq<NodeView>
    requires SizeFits(parent.state, gridSize)
    requires sl != [] || forall d: Direction :: !IsMovable(d, parent.state)
  {
    ExpandAmong(parent, ExpansionOrder, sl, gridSize, goal, heuristic)
  }

  /** Trying the next direction of the expansion order adds at most its own child. */
  lemma ExpandAmongNext(parent: NodeView, i: nat, sl: seq<int>, gridSize: (int, int), goal: int,
                        heuristic: (Grid, int) -> real)
    requires i < |ExpansionOrder|
    requires SizeFits(parent.state, gridSize)
    requires sl != [] || forall d: Direction :: !IsMovable(d, parent.state)
    ensures ExpandAmong(parent, ExpansionOrder[..i + 1], sl, gridSize, goal, heuristic) ==
            ExpandAmong(parent, ExpansionOrder[..i], sl, gridSize, goal, heuristic) +
            (if IsMovable(ExpansionOrder[i], parent.state)
             then [ChildView(parent, ExpansionOrder[i], sl, gridSize, goal, heuristic)] else [])
  {
    assert ExpansionOrder[..i + 1][..i] == ExpansionOrder[..i];
  }

  lemma {:induction false} ExpandAmongLegal(parent: NodeView, ds: seq<Direction>, sl: seq<int>, gridSize: (int, int),
                                            goal: int, heuristic: (Grid, int) -> real)
    requires SizeFits(parent.state, gridSize)
    requires sl != [] || forall d: Direction :: !IsMovable(d, parent.state)
    ensures |ExpandAmong(parent, ds, sl, gridSize, goal, heuristic)| == |LegalAmong(ds, parent.state)|
    ensures LegalAmong(ds, parent.state) != [] ==> sl != []
    ensures forall k :: 0 <= k < |LegalAmong(ds, parent.state)| ==>
              ExpandAmong(parent, ds, sl, gridSize, goal, heuristic)[k] ==
              ChildView(parent, LegalAmong(ds, parent.state)[k], sl, gridSize, goal, heuristic)
  {
    if ds != [] {
      var init, last := ds[..|ds| - 1], ds[|ds| - 1];
      ExpandAmongLegal(parent, init, sl, gridSize, goal, heuristic);
      var e := ExpandAmong(parent, init, sl, gridSize, goal, heuristic);
      var l := LegalAmong(init, parent.state);
      if IsMovable(last, parent.state) {
        var c := ChildView(parent, last, sl, gridSize, goal, heuristic);
        assert ExpandAmong(parent, ds, sl, gridSize, goal, heuristic) == e + [c];
        assert LegalAmong(ds, parent.state) == l + [last];
      } else {
        assert ExpandAmong(parent, ds, sl, gridSize, goal, heuristic) == e;
        assert LegalAmong(ds, parent.state) == l;
      }
    }
  }

  /**
   * Expanding a node gives one child per legal direction, in the order Up,
   * Down, Left, Right: at most four, none when no move changes the board,
   * and the k-th made by moving in the k-th legal direction.
   */
  lemma ExpansionIsLegalMoves(parent: NodeView, sl: seq<int>, gridSize: (int, int), goal: int,
                              heuristic: (Grid, int) -> real)
    requires SizeFits(parent.state, gridSize)
    requires sl != [] || forall d: Direction :: !IsMovable(d, parent.state)
    ensures |Expansion(parent, sl, gridSize, goal, heuristic)| == |LegalDirections(parent.state)| <= 4
    ensures LegalDirections(parent.state) != [] ==> sl != []
    ensures Expansion(parent, sl, gridSize, goal, heuristic) == [] <==>
              forall d :: ApplyMove(d, parent.state) == parent.state
    ensures forall k :: 0 <= k < |LegalDirections(parent.state)| ==>
              var c := Expansion(parent, sl, gridSize, goal, heuristic)[k];
              var d := LegalDirections(parent.state)[k];
              ApplyMove(d, parent.state) != parent.state &&
              c.state == Successor(parent.state, d, sl, parent.spawnCount, gridSize) &&
              c.path == parent.path + [Code(d)] && c.spawnCount == parent.spawnCount + 1 &&
              c.spawnList == sl && c.size == gridSize && c.goal == goal &&
              c.h == heuristic(c.state, goal) && c.f == c.h + |c.path| as real
  {
    ExpandAmongLegal(parent, ExpansionOrder, sl, gridSize, goal, heuristic);
    LegalDirectionsSpec(parent.state);
    forall k | 0 <= k < |LegalDirections(parent.state)|
      ensures ApplyMove(LegalDirections(parent.state)[k], parent.state) != parent.state
    {
      assert LegalDirections(parent.state)[k] in LegalDirections(parent.state);
    }
  }

  class Node {
    var state: Grid
    var path: string
    var spawnCount: nat
    var spawnList: seq<int>
    var size: (int, int)
    var goal: int
    var h: real
    var f: real

    /** The board is a proper grid and `size` fits it. */
    ghost predicate Valid()
      reads this
    {
      SizeFits(state, size)
    }

    /**
     * A node; the heuristic (computed with floating-point logarithms in the
     * source) is a parameter, evaluated once on the board and the goal.
     */
    constructor (state: Grid, path: string, spawnCount: nat, spawnList: seq<int>, size: (int, int), goal: int,
                 heuristic: (Grid, int) -> real)
      requires SizeFits(state, size)
      ensures Valid()
      ensures this.state == state && this.path == path && this.spawnCount == spawnCount
      ensures this.spawnList == spawnList && this.size == size && this.goal == goal
      ensures h == heuristic(state, goal) && f == h + |path| as real
    {
      this.state := state;
      this.path := path;
      this.spawnCount := spawnCount;
      this.spawnList := spawnList;
      this.size := size;
      this.goal := goal;
      h := heuristic(state, goal);
      f := heuristic(state, goal) + |path| as real;
    }

    /** `__lt__` on two nodes. */
    predicate Less(other: Node)
      reads this, other
    {
      KeyLess(f, h, other.f, other.h)
    }

    /** `getMaxTile`: the largest cell value, and 0 when no cell is larger. */
    method GetMaxTile() returns (highScore: int)
      ensures highScore >= 0
      ensures forall i, j :: 0 <= i < |state| && 0 <= j < |state[i]| ==> state[i][j] <= highScore
      ensures highScore == 0 || exists i, j :: 0 <= i < |state| && 0 <= j < |state[i]| && state[i][j] == highScore
    {
      highScore := 0;
      for x := 0 to |state|
        invariant highScore >= 0
        invariant forall i, j :: 0 <= i < x && 0 <= j < |state[i]| ==> state[i][j] <= highScore
        invariant highScore == 0 || exists i, j :: 0 <= i < x && 0 <= j < |state[i]| && state[i][j] == highScore
      {
        var line := state[x];
        for y := 0 to |line|
          invariant highScore >= 0
          invariant forall i, j :: 0 <= i < x && 0 <= j < |state[i]| ==> state[i][j] <= highScore
          invariant forall j :: 0 <= j < y ==> line[j] <= highScore
          invariant highScore == 0 || (exists i, j :: 0 <= i < x && 0 <= j < |state[i]| && state[i][j] == highScore) ||
                    (exists j :: 0 <= j < y && line[j] == highScore)
        {
          if line[y] > highScore {
            highScore := line[y];
          }
        }
      }
    }

    /** `getAvailableCells`: the empty cells, between 0 and width * height, none iff the board is full. */
    method GetAvailableCells() returns (cells: nat)
      requires Valid()
      ensures cells == GridZeros(state)
      ensures cells <= |state| * |state[0]|
      ensures cells == 0 <==> forall i, j :: 0 <= i < |state| && 0 <= j < |state[0]| ==> state[i][j] != 0
    {
      cells := 0;
      var grid := state;
      for x := 0 to |grid|
        invariant cells == GridZeros(grid[..x])
      {
        var line := grid[x];
        for y := 0 to |line|
          invariant cells == GridZeros(grid[..x]) + ZeroCount(line[..y])
        {
          assert line[..y + 1][..y] == line[..y];
          if line[y] == 0 {
            cells := cells + 1;
          }
        }
        assert line[..|line|] == line;
        assert grid[..x + 1][..x] == grid[..x];
      }
      assert grid[..|grid|] == grid;
      GridZerosBounds(state, |state[0]|);
    }

    /** `mergeFactor`: minus the equal pairs of the tightened rows and columns. */
    method MergeFactor() returns (r: int)
      requires Valid()
      ensures r == MergeFactorOf(state)
      ensures -(|state| * (|state[0]| - 1) + |state[0]| * (|state| - 1)) <= r <= 0
    {
      var grid := state;
      var mergeCount := TightPairCount(grid);
      var columnCount := TightPairCount(Transpose(grid));
      var total: int := mergeCount + columnCount;
      r := -1 * total;
      MergeFactorBounds(state);
    }

    /** `eval_smoothness`: at least 1, and exactly 1 iff every cell holds the same value. */
    function EvalSmoothness(): (r: int)
      reads this
      requires Valid()
      ensures r >= 1
      ensures r == 1 <==> forall i, j :: 0 <= i < |state| && 0 <= j < |state[0]| ==> state[i][j] == state[0][0]
    {
      SmoothnessOne(state);
      SmoothnessOf(state)
    }

    /** `eval_monotonicity`: minus the switches of the rows and columns, minus one. */
    method EvalMonotonicity() returns (r: int)
      requires Valid()
      ensures r == MonotonicityOf(state)
      ensures r <= -1
    {
      var grid := state;
      var rowSwitches := RowMonotonicity(grid);
      var columnSwitches := RowMonotonicity(Transpose(grid));
      var total: int := rowSwitches + columnSwitches + 1;
      r := -1 * total;
    }

    /**
     * `move`: for a direction name the table knows, a legal move replaces the
     * board with the moved board, spawns the next value and answers true; an
     * illegal move answers false and leaves the board alone. Any other name
     * answers None.
     */
    method Move(direction: string, spawnVal: nat) returns (r: Option<bool>)
      requires Valid()
      requires spawnList != [] || !MoveIsPossible(direction, state)
      modifies this`state
      ensures Valid()
      ensures ParseDirection(direction).None? ==> r == None
      ensures ParseDirection(direction).Some? ==> r == Some(MoveIsPossible(direction, old(state)))
      ensures r == Some(true) ==>
                spawnList != [] &&
                state == Successor(old(state), ParseDirection(direction).value, spawnList, spawnVal, size)
      ensures r != Some(true) ==> state == old(state)
    {
      var d := ParseDirection(direction);
      if d.Some? {
        if MoveIsPossible(direction, state) {
          var field := ApplyMove(d.value, state);
          var index := spawnVal;
          if index > |spawnList| - 1 {
            index := index % |spawnList|;
          } else {
            SmallIndexWraps(index, |spawnList|);
          }
          field := Spawn(field, spawnList, index, size);
          state := field;
          r := Some(true);
        } else {
          r := Some(false);
        }
      } else {
        r := None;
      }
    }

    /** The node's fields as a value. */
    function View(): NodeView
      reads this
    {
      NodeView(state, path, spawnCount, spawnList, size, goal, h, f)
    }

    /**
     * The body of the `CHILDREN` loop for one direction: a fresh node on this
     * board tries the move; on success a child is built from its board.
     */
    method TryDirection(direction: Direction, sl: seq<int>, gridSize: (int, int), goal: int,
                        heuristic: (Grid, int) -> real)
      returns (child: Node?)
      requires Valid() && SizeFits(state, gridSize)
      requires sl != [] || !IsMovable(direction, state)
      ensures child != null <==> IsMovable(direction, state)
      ensures child != null ==> fresh(child) && child.Valid()
      ensures child != null ==> child.state == Successor(state, direction, sl, spawnCount, gridSize)
      ensures child != null ==>
                child.path == path + [Code(direction)] && child.spawnCount == spawnCount + 1 &&
                child.spawnList == sl && child.size == gridSize && child.goal == goal &&
                child.h == heuristic(child.state, goal) && child.f == child.h + |child.path| as real
    {
      ParseName(direction);
      var curGrid := new Node(state, path, spawnCount, sl, gridSize, goal, heuristic);
      var moved := curGrid.Move(Name(direction), spawnCount);
      if moved == Some(true) {
        child := new Node(curGrid.state, path + [Code(direction)], spawnCount + 1, sl, gridSize, goal, heuristic);
      } else {
        child := null;
      }
    }

    /**
     * `CHILDREN`: one new child per legal direction, in the order Up, Down,
     * Left, Right; this node is not changed.
     */
    method Children(sl: seq<int>, gridSize: (int, int), goal: int, heuristic: (Grid, int) -> real)
      returns (childList: seq<Node>)
      requires Valid() && SizeFits(state, gridSize)
      requires sl != [] || forall d: Direction :: !IsMovable(d, state)
      ensures |childList| == |Expansion(View(), sl, gridSize, goal, heuristic)|
      ensures forall k :: 0 <= k < |childList| ==>
                fresh(childList[k]) && childList[k].Valid() &&
                childList[k].View() == Expansion(View(), sl, gridSize, goal, heuristic)[k]
    {
      childList := [];
      ghost var parent := View();
      ghost var views: seq<NodeView> := [];
      for i := 0 to |ExpansionOrder|
        invariant views == ExpandAmong(parent, ExpansionOrder[..i], sl, gridSize, goal, heuristic)
        invariant |childList| == |views|
        invariant forall k :: 0 <= k < |childList| ==>
                    fresh(childList[k]) && childList[k].Valid() && childList[k].View() == views[k]
      {
        var direction := ExpansionOrder[i];
        ExpandAmongNext(parent, i, sl, gridSize, goal, heuristic);
        var child := TryDirection(direction, sl, gridSize, goal, heuristic);
        if child != null {
          ChildViewOfFields(parent, direction, sl, gridSize, goal, heuristic, child.View());
          childList := childList + [child];
          views := views + [child.View()];
        }
      }
      assert ExpansionOrder[..|ExpansionOrder|] == ExpansionOrder;
    }
  }
}
