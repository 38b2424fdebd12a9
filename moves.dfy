/**
 * The four move directions, built from the left slide as the `moves` table
 * does, and the legality test `move_is_possible`, built the same way from
 * `row_is_left_movable`.
 */
module Moves {
  import opened Wrappers
  import opened Geometry
  import opened Rows

  datatype Direction = Up | Down | Left | Right

  /** The direction names the source uses as dictionary keys. */
  function Name(d: Direction): string
  {
    match d
    case Up => "Up"
    case Down => "Down"
    case Left => "Left"
    case Right => "Right"
  }

  /** The one-letter code a child appends to its path (`direction[0]`). */
  function Code(d: Direction): (c: char)
    ensures c in "UDLR"
  {
    Name(d)[0]
  }

  /** The letters appended to a path tell the four directions apart. */
  lemma CodeInjective(d1: Direction, d2: Direction)
    ensures Code(d1) == Code(d2) <==> d1 == d2
  {
  }

  /** Looking a name up in the `moves` (or `check`) table; any other string is absent. */
  function ParseDirection(s: string): (r: Option<Direction>)
    ensures r.Some? ==> Name(r.value) == s
    ensures r.None? ==> forall d: Direction :: Name(d) != s
  {
    if s == "Up" then Some(Up)
    else if s == "Down" then Some(Down)
    else if s == "Left" then Some(Left)
    else if s == "Right" then Some(Right)
    else None
  }

  lemma ParseName(d: Direction)
    ensures ParseDirection(Name(d)) == Some(d)
  {
  }

  function MoveLeft(g: Grid): (r: Grid)
    ensures |r| == |g| && forall i :: 0 <= i < |g| ==> |r[i]| == |g[i]|
    ensures IsGrid(g) ==> SameShape(g, r)
  {
    seq(|g|, i requires 0 <= i < |g| => MoveRowLeft(g[i]))
  }

  /** Left is the base of both tables; Right and Up are built on it, Down on Right. */
  function Rank(d: Direction): nat
  {
    match d
    case Left => 0
    case Right => 1
    case Up => 1
    case Down => 2
  }

  /**
   * The `moves` table: Left slides every row; Right is Left on the inverted
   * board, inverted back; Up is Left on the transposed board, transposed
   * back; Down is Right on the transposed board, transposed back. Every
   * move keeps the board's dimensions.
   */
  function ApplyMove(d: Direction, g: Grid): (r: Grid)
    requires IsGrid(g)
    ensures SameShape(g, r)
    decreases Rank(d)
  {
    match d
    case Left => MoveLeft(g)
    case Right => Invert(ApplyMove(Left, Invert(g)))
    case Up => Transpose(ApplyMove(Left, Transpose(g)))
    case Down => Transpose(ApplyMove(Right, Transpose(g)))
  }

  /** `check['Left']`: some row can move to the left. */
  predicate LeftMovable(g: Grid)
  {
    exists i :: 0 <= i < |g| && RowLeftMovable(g[i])
  }

  /** The `check` table of `move_is_possible`, built from Left as `moves` is. */
  predicate IsMovable(d: Direction, g: Grid)
    requires IsGrid(g)
    decreases Rank(d)
  {
    match d
    case Left => LeftMovable(g)
    case Right => IsMovable(Left, Invert(g))
    case Up => IsMovable(Left, Transpose(g))
    case Down => IsMovable(Right, Transpose(g))
  }

  /** `move_is_possible`: false for a name that is not a direction. */
  predicate MoveIsPossible(direction: string, field: Grid)
    requires IsGrid(field)
  {
    match ParseDirection(direction)
    case None => false
    case Some(d) => IsMovable(d, field)
  }

  lemma LeftMovableIff(g: Grid)
    ensures LeftMovable(g) <==> MoveLeft(g) != g
  {
    forall i | 0 <= i < |g|
      ensures RowLeftMovable(g[i]) <==> MoveLeft(g)[i] != g[i]
    {
      RowLeftMovableIff(g[i]);
    }
    if !LeftMovable(g) {
      assert forall i :: 0 <= i < |g| ==> MoveLeft(g)[i] == g[i];
    }
  }

  /** A direction is legal iff moving in it changes the board. */
  lemma {:induction false} IsMovableIff(d: Direction, g: Grid)
    requires IsGrid(g)
    ensures IsMovable(d, g) <==> ApplyMove(d, g) != g
    decreases Rank(d)
  {
    match d
    case Left =>
      LeftMovableIff(g);
    case Right =>
      IsMovableIff(Left, Invert(g));
      InvertInvolution(g);
      InvertInjective(ApplyMove(Left, Invert(g)), Invert(g));
    case Up =>
      IsMovableIff(Left, Transpose(g));
      TransposeInvolution(g);
      TransposeInjective(ApplyMove(Left, Transpose(g)), Transpose(g));
    case Down =>
      IsMovableIff(Right, Transpose(g));
      TransposeInvolution(g);
      TransposeInjective(ApplyMove(Right, Transpose(g)), Transpose(g));
  }

  /**
   * `move_is_possible(d, g)` holds iff `d` names a direction and the move it
   * names changes the board.
   */
  lemma MoveIsPossibleIff(direction: string, g: Grid)
    requires IsGrid(g)
    ensures MoveIsPossible(direction, g) <==>
              ParseDirection(direction).Some? && ApplyMove(ParseDirection(direction).value, g) != g
  {
    if ParseDirection(direction).Some? {
      IsMovableIff(ParseDirection(direction).value, g);
    }
  }

  /**
   * A single tile already in the top-left corner cannot move left: no row has
   * an empty cell before a tile or two equal tiles side by side, so the move
   * is refused and nothing is spawned.
   */
  lemma CornerTileLeftIsIllegal()
    ensures !MoveIsPossible("Left", [[2, 0, 0, 0], [0, 0, 0, 0], [0, 0, 0, 0], [0, 0, 0, 0]])
    ensures ApplyMove(Left, [[2, 0, 0, 0], [0, 0, 0, 0], [0, 0, 0, 0], [0, 0, 0, 0]])
            == [[2, 0, 0, 0], [0, 0, 0, 0], [0, 0, 0, 0], [0, 0, 0, 0]]
  {
    var g := [[2, 0, 0, 0], [0, 0, 0, 0], [0, 0, 0, 0], [0, 0, 0, 0]];
    assert ParseDirection("Left") == Some(Left);
    forall i | 0 <= i < |g|
      ensures !RowLeftMovable(g[i])
    {
      assert forall c :: 0 <= c < 3 ==> !Change(g[i], c);
    }
    LeftMovableIff(g);
  }

  /** Left slides every row to its left end. */
  lemma LeftSlidesRows(g: Grid)
    requires IsGrid(g)
    ensures forall i :: 0 <= i < |g| ==> ApplyMove(Left, g)[i] == MoveRowLeft(g[i])
  {
  }

  /** Right slides every row to its right end: the reversed row slid left, reversed back. */
  lemma RightSlidesRows(g: Grid)
    requires IsGrid(g)
    ensures forall i :: 0 <= i < |g| ==> ApplyMove(Right, g)[i] == Reverse(MoveRowLeft(Reverse(g[i])))
  {
    var m := ApplyMove(Left, Invert(g));
    assert ApplyMove(Right, g) == Invert(m);
    forall i | 0 <= i < |g|
      ensures ApplyMove(Right, g)[i] == Reverse(MoveRowLeft(Reverse(g[i])))
    {
      assert m[i] == MoveRowLeft(Invert(g)[i]);
    }
  }

  /** Up slides every column to the top: column j of the result is column j slid left. */
  lemma UpSlidesColumns(g: Grid)
    requires IsGrid(g)
    ensures forall i, j :: 0 <= i < |g| && 0 <= j < |g[0]| ==>
              ApplyMove(Up, g)[i][j] == MoveRowLeft(Transpose(g)[j])[i]
  {
    var t := Transpose(g);
    var m := ApplyMove(Left, t);
    assert ApplyMove(Up, g) == Transpose(m);
    forall i, j | 0 <= i < |g| && 0 <= j < |g[0]|
      ensures ApplyMove(Up, g)[i][j] == MoveRowLeft(t[j])[i]
    {
      assert m[j] == MoveRowLeft(t[j]);
    }
  }

  /** Down slides every column to the bottom: column j of the result is column j slid right. */
  lemma DownSlidesColumns(g: Grid)
    requires IsGrid(g)
    ensures forall i, j :: 0 <= i < |g| && 0 <= j < |g[0]| ==>
              ApplyMove(Down, g)[i][j] == Reverse(MoveRowLeft(Reverse(Transpose(g)[j])))[i]
  {
    var t := Transpose(g);
    var m := ApplyMove(Right, t);
    assert ApplyMove(Down, g) == Transpose(m);
    RightSlidesRows(t);
    forall i, j | 0 <= i < |g| && 0 <= j < |g[0]|
      ensures ApplyMove(Down, g)[i][j] == Reverse(MoveRowLeft(Reverse(t[j])))[i]
    {
      assert m[j] == Reverse(MoveRowLeft(Reverse(t[j])));
    }
  }

  /** Sum of every cell of the board. */
  function GridSum(g: Grid): int
  {
    if g == [] then 0 else Sum(g[0]) + GridSum(g[1..])
  }

  /** The rows of `a` and `b`, pairwise concatenated. */
  function JoinRows(a: Grid, b: Grid): (r: Grid)
    requires |a| == |b|
    ensures |r| == |a|
  {
    seq(|a|, j requires 0 <= j < |a| => a[j] + b[j])
  }

  lemma {:induction false} GridSumJoinRows(a: Grid, b: Grid)
    requires |a| == |b|
    ensures GridSum(JoinRows(a, b)) == GridSum(a) + GridSum(b)
  {
    if a != [] {
      assert JoinRows(a, b)[1..] == JoinRows(a[1..], b[1..]);
      SumAppend(a[0], b[0]);
      GridSumJoinRows(a[1..], b[1..]);
    }
  }

  /** The row `s` stood on end: one single-cell row per value. */
  function Upright(s: seq<int>): (r: Grid)
    ensures |r| == |s|
  {
    seq(|s|, j requires 0 <= j < |s| => [s[j]])
  }

  lemma {:induction false} GridSumUpright(s: seq<int>)
    ensures GridSum(Upright(s)) == Sum(s)
  {
    if s != [] {
      assert Upright(s)[1..] == Upright(s[1..]);
      assert Sum([s[0]]) == s[0] + Sum([]);
      GridSumUpright(s[1..]);
    }
  }

  lemma {:induction false} GridSumTranspose(g: Grid)
    requires IsGrid(g)
    ensures GridSum(Transpose(g)) == GridSum(g)
    decreases |g|
  {
    if |g| == 1 {
      assert Transpose(g) == Upright(g[0]) by {
        forall j | 0 <= j < |g[0]|
          ensures Transpose(g)[j] == [g[0][j]]
        {
        }
      }
      GridSumUpright(g[0]);
      assert g[1..] == [];
    } else {
      var rest := g[1..];
      assert IsGrid(rest);
      assert Transpose(g) == JoinRows(Upright(g[0]), Transpose(rest)) by {
        forall j | 0 <= j < |g[0]|
          ensures Transpose(g)[j] == JoinRows(Upright(g[0]), Transpose(rest))[j]
        {
          assert Transpose(g)[j] == [g[0][j]] + Transpose(rest)[j];
        }
      }
      GridSumJoinRows(Upright(g[0]), Transpose(rest));
      GridSumUpright(g[0]);
      GridSumTranspose(rest);
    }
  }

  lemma {:induction false} SumReverse(s: seq<int>)
    ensures Sum(Reverse(s)) == Sum(s)
  {
    if s != [] {
      assert Reverse(s) == Reverse(s[1..]) + [s[0]];
      SumAppend(Reverse(s[1..]), [s[0]]);
      SumReverse(s[1..]);
    }
  }

  lemma {:induction false} GridSumInvert(g: Grid)
    ensures GridSum(Invert(g)) == GridSum(g)
  {
    if g != [] {
      assert Invert(g)[1..] == Invert(g[1..]);
      SumReverse(g[0]);
      GridSumInvert(g[1..]);
    }
  }

  lemma {:induction false} GridSumMoveLeft(g: Grid)
    ensures GridSum(MoveLeft(g)) == GridSum(g)
  {
    if g != [] {
      assert MoveLeft(g)[1..] == MoveLeft(g[1..]);
      MoveRowLeftSum(g[0]);
      GridSumMoveLeft(g[1..]);
    }
  }

  /** A move never creates or destroys tile value: the board's sum is kept. */
  lemma {:induction false} MovePreservesSum(d: Direction, g: Grid)
    requires IsGrid(g)
    ensures GridSum(ApplyMove(d, g)) == GridSum(g)
    decreases Rank(d)
  {
    match d
    case Left =>
      GridSumMoveLeft(g);
    case Right =>
      GridSumInvert(ApplyMove(Left, Invert(g)));
      MovePreservesSum(Left, Invert(g));
      GridSumInvert(g);
    case Up =>
      GridSumTranspose(ApplyMove(Left, Transpose(g)));
      MovePreservesSum(Left, Transpose(g));
      GridSumTranspose(g);
    case Down =>
      GridSumTranspose(ApplyMove(Right, Transpose(g)));
      MovePreservesSum(Right, Transpose(g));
      GridSumTranspose(g);
  }

  /** The order in which a node tries the directions when it is expanded. */
  const ExpansionOrder: seq<Direction> := [Up, Down, Left, Right]

  /** The directions of `ds` that are legal on `g`, in the order of `ds`. */
  function LegalAmong(ds: seq<Direction>, g: Grid): (r: seq<Direction>)
    requires IsGrid(g)
    ensures |r| <= |ds|
    ensures forall d :: d in r <==> d in ds && IsMovable(d, g)
  {
    if ds == [] then []
    else
      var last := ds[|ds| - 1];
      LegalAmong(ds[..|ds| - 1], g) + (if IsMovable(last, g) then [last] else [])
  }

  /** The legal directions of `g` in expansion order. */
  function LegalDirections(g: Grid): seq<Direction>
    requires IsGrid(g)
  {
    LegalAmong(ExpansionOrder, g)
  }

  /** A board with no legal direction has none in any direction. */
  lemma NoLegalDirection(g: Grid, d: Direction)
    requires IsGrid(g) && LegalDirections(g) == []
    ensures !IsMovable(d, g)
  {
    assert d in ExpansionOrder;
  }

  /**
   * A direction is among the legal ones iff it changes the board; there are
   * at most four, and none when no move changes the board.
   */
  lemma LegalDirectionsSpec(g: Grid)
    requires IsGrid(g)
    ensures |LegalDirections(g)| <= 4
    ensures forall d :: d in LegalDirections(g) <==> ApplyMove(d, g) != g
    ensures LegalDirections(g) == [] <==> forall d :: ApplyMove(d, g) == g
  {
    forall d | true
      ensures d in LegalDirections(g) <==> ApplyMove(d, g) != g
    {
      IsMovableIff(d, g);
      match d
      case Up => assert ExpansionOrder[0] == d;
      case Down => assert ExpansionOrder[1] == d;
      case Left => assert ExpansionOrder[2] == d;
      case Right => assert ExpansionOrder[3] == d;
    }
    if LegalDirections(g) != [] {
      assert LegalDirections(g)[0] in LegalDirections(g);
    }
  }
}
