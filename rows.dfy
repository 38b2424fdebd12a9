/**
 * One row slid to the left: tighten, merge in a single left-to-right pass,
 * tighten again (grid.py, `move_row_left` and the helpers inside it).
 */
module Rows {

  /** Sum of the values of a row. */
  function Sum(s: seq<int>): int
  {
    if s == [] then 0 else s[0] + Sum(s[1..])
  }

  lemma {:induction false} SumAppend(a: seq<int>, b: seq<int>)
    ensures Sum(a + b) == Sum(a) + Sum(b)
  {
    if a == [] {
      assert a + b == b;
    } else {
      assert (a + b)[1..] == a[1..] + b;
      SumAppend(a[1..], b);
    }
  }

  /** `n` empty cells. */
  function Zeros(n: nat): (z: seq<int>)
    ensures |z| == n && forall k :: 0 <= k < n ==> z[k] == 0
  {
    seq(n, _ => 0)
  }

  lemma {:induction false} SumZeros(n: nat)
    ensures Sum(Zeros(n)) == 0
  {
    if n > 0 {
      assert Zeros(n)[1..] == Zeros(n - 1);
      SumZeros(n - 1);
    }
  }

  predicate AllNonZero(s: seq<int>)
  {
    forall k :: 0 <= k < |s| ==> s[k] != 0
  }

  predicate AllZero(s: seq<int>)
  {
    forall k :: 0 <= k < |s| ==> s[k] == 0
  }

  /** No empty cell comes before a tile. */
  predicate Packed(s: seq<int>)
  {
    forall i, j :: 0 <= i < j < |s| && s[i] == 0 ==> s[j] == 0
  }

  /** The tiles of a row in their order, empty cells dropped. */
  function NonZeros(s: seq<int>): (r: seq<int>)
    ensures |r| <= |s| && AllNonZero(r)
  {
    if s == [] then []
    else if s[0] != 0 then [s[0]] + NonZeros(s[1..])
    else NonZeros(s[1..])
  }

  lemma {:induction false} NonZerosAppend(a: seq<int>, b: seq<int>)
    ensures NonZeros(a + b) == NonZeros(a) + NonZeros(b)
  {
    if a == [] {
      assert a + b == b;
    } else {
      assert (a + b)[1..] == a[1..] + b;
      NonZerosAppend(a[1..], b);
    }
  }

  lemma {:induction false} NonZerosOfTiles(a: seq<int>)
    requires AllNonZero(a)
    ensures NonZeros(a) == a
  {
    if a != [] {
      NonZerosOfTiles(a[1..]);
    }
  }

  lemma {:induction false} NonZerosOfEmpty(a: seq<int>)
    requires AllZero(a)
    ensures NonZeros(a) == []
  {
    if a != [] {
      NonZerosOfEmpty(a[1..]);
    }
  }

  lemma {:induction false} SumNonZeros(s: seq<int>)
    ensures Sum(NonZeros(s)) == Sum(s)
  {
    if s != [] {
      SumNonZeros(s[1..]);
    }
  }

  /**
   * Tighten: the tiles packed to the left and the row padded with empty
   * cells to its old length. The tiles and their order are kept.
   */
  function Tighten(row: seq<int>): (r: seq<int>)
    ensures |r| == |row|
    ensures NonZeros(r) == NonZeros(row)
  {
    var tiles := NonZeros(row);
    var r := tiles + Zeros(|row| - |tiles|);
    NonZerosAppend(tiles, Zeros(|row| - |tiles|));
    NonZerosOfTiles(tiles);
    NonZerosOfEmpty(Zeros(|row| - |tiles|));
    r
  }

  /** After Tighten no empty cell comes before a tile. */
  lemma TightenIsPacked(row: seq<int>)
    ensures Packed(Tighten(row))
  {
    var tiles := NonZeros(row);
    assert Tighten(row) == tiles + Zeros(|row| - |tiles|);
  }

  /** A packed row is left as it is by Tighten. */
  lemma {:induction false} TightenPacked(row: seq<int>)
    requires Packed(row)
    ensures Tighten(row) == row
  {
    if row != [] {
      if row[0] == 0 {
        assert AllZero(row);
        NonZerosOfEmpty(row);
      } else {
        TightenPacked(row[1..]);
        assert Tighten(row) == [row[0]] + Tighten(row[1..]);
      }
    }
  }

  /**
   * The merge pass as the loop in the source computes it: scanning left to
   * right, an unconsumed cell equal to its right neighbour turns the pair into
   * (0, double); the doubled cell is consumed, so it is not merged again.
   */
  function MergePass(row: seq<int>): (r: seq<int>)
    ensures |r| == |row|
    decreases |row|
  {
    if |row| < 2 then row
    else if row[0] == row[1] then [0, 2 * row[1]] + MergePass(row[2..])
    else [row[0]] + MergePass(row[1..])
  }

  lemma ConcatAssoc(a: seq<int>, b: seq<int>, c: seq<int>)
    ensures a + b + c == a + (b + c)
  {
  }

  /** One step of the merge pass over an equal pair, after a prefix already produced. */
  lemma MergeStepPair(done: seq<int>, rest: seq<int>)
    requires |rest| >= 2 && rest[0] == rest[1]
    ensures done + [0] + [2 * rest[1]] + MergePass(rest[2..]) == done + MergePass(rest)
  {
    var tail := MergePass(rest[2..]);
    assert MergePass(rest) == [0, 2 * rest[1]] + tail;
    ConcatAssoc(done, [0], [2 * rest[1]]);
    assert [0] + [2 * rest[1]] == [0, 2 * rest[1]];
    ConcatAssoc(done, [0, 2 * rest[1]], tail);
  }

  /** One step of the merge pass over a tile that is not merged with its neighbour. */
  lemma MergeStepSingle(done: seq<int>, rest: seq<int>)
    requires |rest| >= 1 && (|rest| == 1 || rest[0] != rest[1])
    ensures done + [rest[0]] + MergePass(rest[1..]) == done + MergePass(rest)
  {
    var tail := MergePass(rest[1..]);
    if |rest| == 1 {
      assert rest == [rest[0]];
      assert tail == [];
    } else {
      assert MergePass(rest) == [rest[0]] + tail;
    }
    ConcatAssoc(done, [rest[0]], tail);
  }

  /** The merge loop, with its `pair` flag, appending to a new row. */
  method Merge(row: seq<int>) returns (newRow: seq<int>)
    ensures newRow == MergePass(row)
  {
    var pair := false;
    newRow := [];
    for i := 0 to |row|
      invariant !pair ==> newRow + MergePass(row[i..]) == MergePass(row)
      invariant pair ==> i < |row| && newRow + [2 * row[i]] + MergePass(row[i + 1..]) == MergePass(row)
    {
      if pair {
        newRow := newRow + [2 * row[i]];
        pair := false;
      } else if i + 1 < |row| && row[i] == row[i + 1] {
        MergeStepPair(newRow, row[i..]);
        assert row[i..][2..] == row[i + 2..];
        pair := true;
        newRow := newRow + [0];
      } else {
        MergeStepSingle(newRow, row[i..]);
        assert row[i..][1..] == row[i + 1..];
        newRow := newRow + [row[i]];
      }
    }
    assert row[|row|..] == [];
  }

  lemma {:induction false} SumMergePass(row: seq<int>)
    ensures Sum(MergePass(row)) == Sum(row)
    decreases |row|
  {
    if |row| >= 2 {
      if row[0] == row[1] {
        SumMergePass(row[2..]);
        assert Sum(row) == row[0] + Sum(row[1..]);
        assert row[1..][1..] == row[2..];
        SumAppend([0, 2 * row[1]], MergePass(row[2..]));
      } else {
        SumMergePass(row[1..]);
        SumAppend([row[0]], MergePass(row[1..]));
      }
    }
  }

  /** `move_row_left`: tighten, merge, tighten. */
  function MoveRowLeft(row: seq<int>): (r: seq<int>)
    ensures |r| == |row|
  {
    Tighten(MergePass(Tighten(row)))
  }

  /** After a slide to the left every tile comes before every empty cell. */
  lemma MoveRowLeftPacked(row: seq<int>)
    ensures Packed(MoveRowLeft(row))
  {
    TightenIsPacked(MergePass(Tighten(row)));
  }

  /**
   * Reference rule for combining a row's tiles: the first two tiles, when
   * equal, become one tile of twice the value and the rest is combined on its
   * own; otherwise the first tile stays and the rest is combined.
   */
  function Combine(tiles: seq<int>): (r: seq<int>)
    ensures |r| <= |tiles|
  {
    if |tiles| < 2 then tiles
    else if tiles[0] == tiles[1] then [2 * tiles[0]] + Combine(tiles[2..])
    else [tiles[0]] + Combine(tiles[1..])
  }

  /** Reference slide: the combined tiles at the left, empty cells after them. */
  function Slide(row: seq<int>): seq<int>
  {
    var c := Combine(NonZeros(row));
    c + Zeros(|row| - |c|)
  }

  lemma {:induction false} CombineTiles(tiles: seq<int>)
    requires AllNonZero(tiles)
    ensures AllNonZero(Combine(tiles))
  {
    if |tiles| >= 2 {
      if tiles[0] == tiles[1] {
        CombineTiles(tiles[2..]);
      } else {
        CombineTiles(tiles[1..]);
      }
    }
  }

  lemma {:induction false} SumCombine(tiles: seq<int>)
    ensures Sum(Combine(tiles)) == Sum(tiles)
  {
    if |tiles| >= 2 {
      assert tiles[1..][1..] == tiles[2..];
      if tiles[0] == tiles[1] {
        SumCombine(tiles[2..]);
      } else {
        SumCombine(tiles[1..]);
      }
    }
  }

  /** Two equal neighbouring tiles make the combined row shorter. */
  lemma {:induction false} CombineShrinks(tiles: seq<int>, i: nat)
    requires i + 1 < |tiles| && tiles[i] == tiles[i + 1]
    ensures |Combine(tiles)| < |tiles|
  {
    if tiles[0] != tiles[1] {
      CombineShrinks(tiles[1..], i - 1);
    }
  }

  lemma {:induction false} MergePassEmpty(n: nat)
    ensures MergePass(Zeros(n)) == Zeros(n)
  {
    if n >= 2 {
      assert Zeros(n)[2..] == Zeros(n - 2);
      MergePassEmpty(n - 2);
      assert Zeros(n) == [0, 0] + Zeros(n - 2);
    }
  }

  /** Merging a tightened row merges the tiles and leaves the padding alone. */
  lemma {:induction false} MergePassPadded(tiles: seq<int>, n: nat)
    requires AllNonZero(tiles)
    ensures MergePass(tiles + Zeros(n)) == MergePass(tiles) + Zeros(n)
    decreases |tiles|
  {
    var s := tiles + Zeros(n);
    if |tiles| == 0 {
      assert s == Zeros(n);
      MergePassEmpty(n);
    } else if |tiles| == 1 {
      if n > 0 {
        assert s[1..] == Zeros(n);
        MergePassEmpty(n);
      }
    } else {
      if tiles[0] == tiles[1] {
        assert s[2..] == tiles[2..] + Zeros(n);
        MergePassPadded(tiles[2..], n);
      } else {
        assert s[1..] == tiles[1..] + Zeros(n);
        MergePassPadded(tiles[1..], n);
      }
    }
  }

  /** On tiles alone, the merge pass leaves exactly the combined tiles. */
  lemma {:induction false} NonZerosMergePass(tiles: seq<int>)
    requires AllNonZero(tiles)
    ensures NonZeros(MergePass(tiles)) == Combine(tiles)
    decreases |tiles|
  {
    if |tiles| < 2 {
      NonZerosOfTiles(tiles);
    } else if tiles[0] == tiles[1] {
      NonZerosMergePass(tiles[2..]);
      NonZerosAppend([0, 2 * tiles[1]], MergePass(tiles[2..]));
    } else {
      NonZerosMergePass(tiles[1..]);
      NonZerosAppend([tiles[0]], MergePass(tiles[1..]));
    }
  }

  /** `move_row_left` agrees with the reference slide on every row. */
  lemma MoveRowLeftIsSlide(row: seq<int>)
    ensures MoveRowLeft(row) == Slide(row)
  {
    var tiles := NonZeros(row);
    var n := |row| - |tiles|;
    assert Tighten(row) == tiles + Zeros(n);
    MergePassPadded(tiles, n);
    NonZerosAppend(MergePass(tiles), Zeros(n));
    NonZerosOfEmpty(Zeros(n));
    NonZerosMergePass(tiles);
  }

  /** A slide never creates or destroys tile value. */
  lemma MoveRowLeftSum(row: seq<int>)
    ensures Sum(MoveRowLeft(row)) == Sum(row)
  {
    MoveRowLeftIsSlide(row);
    var c := Combine(NonZeros(row));
    SumAppend(c, Zeros(|row| - |c|));
    SumZeros(|row| - |c|);
    SumCombine(NonZeros(row));
    SumNonZeros(row);
  }

  /** The test at grid.py:23-28: a move (empty then tile) or a merge (two equal tiles). */
  predicate Change(row: seq<int>, i: int)
    requires 0 <= i < |row| - 1
  {
    (row[i] == 0 && row[i + 1] != 0) || (row[i] != 0 && row[i + 1] == row[i])
  }

  /** `row_is_left_movable`: some neighbouring pair would change. */
  predicate RowLeftMovable(row: seq<int>)
  {
    exists i :: 0 <= i < |row| - 1 && Change(row, i)
  }

  lemma {:induction false} EmptyPropagates(row: seq<int>, i: int, j: int)
    requires !RowLeftMovable(row)
    requires 0 <= i <= j < |row| && row[i] == 0
    ensures row[j] == 0
    decreases j - i
  {
    if i < j {
      assert !Change(row, i);
      EmptyPropagates(row, i + 1, j);
    }
  }

  lemma {:induction false} MergePassStill(row: seq<int>)
    requires !RowLeftMovable(row)
    ensures MergePass(row) == row
    decreases |row|
  {
    if |row| >= 2 {
      assert !Change(row, 0);
      if row[0] == row[1] {
        assert forall i :: 0 <= i < |row| - 3 ==> (Change(row[2..], i) <==> Change(row, i + 2));
        MergePassStill(row[2..]);
      } else {
        assert forall i :: 0 <= i < |row| - 2 ==> (Change(row[1..], i) <==> Change(row, i + 1));
        MergePassStill(row[1..]);
      }
    }
  }

  /**
   * The legality test is exact: a row can move left iff sliding it left
   * changes it.
   */
  lemma RowLeftMovableIff(row: seq<int>)
    ensures RowLeftMovable(row) <==> MoveRowLeft(row) != row
  {
    if !RowLeftMovable(row) {
      forall i, j | 0 <= i < j < |row| && row[i] == 0
        ensures row[j] == 0
      {
        EmptyPropagates(row, i, j);
      }
      TightenPacked(row);
      MergePassStill(row);
    } else if MoveRowLeft(row) == row {
      var i :| 0 <= i < |row| - 1 && Change(row, i);
      MoveRowLeftPacked(row);
      assert Packed(row);
      if row[i] != 0 {
        var tiles := NonZeros(row);
        TightenPacked(row);
        assert row == tiles + Zeros(|row| - |tiles|);
        assert i + 1 < |tiles|;
        CombineShrinks(tiles, i);
        MoveRowLeftIsSlide(row);
        var c := Combine(tiles);
        CombineTiles(tiles);
        NonZerosAppend(c, Zeros(|row| - |c|));
        NonZerosOfTiles(c);
        NonZerosOfEmpty(Zeros(|row| - |c|));
      }
    }
  }

  /** No cascade: the two merged pairs of 2, 2, 2, 2 are not merged again. */
  lemma MergeNoCascade()
    ensures MoveRowLeft([2, 2, 2, 2]) == [4, 4, 0, 0]
  {
    MoveRowLeftIsSlide([2, 2, 2, 2]);
  }

  /** Left bias: of three equal tiles, the two leftmost merge. */
  lemma MergeLeftBiased()
    ensures MoveRowLeft([2, 2, 2]) == [4, 2, 0]
  {
    MoveRowLeftIsSlide([2, 2, 2]);
  }

  /** Tiles separated by empty cells merge once they are packed. */
  lemma MergeAcrossGaps()
    ensures MoveRowLeft([0, 2, 0, 2]) == [4, 0, 0, 0]
  {
    MoveRowLeftIsSlide([0, 2, 0, 2]);
  }

  /** A tile made by a merge is not merged again with an equal neighbour. */
  lemma MergedTileStays()
    ensures MoveRowLeft([2, 2, 4]) == [4, 4, 0]
  {
    MoveRowLeftIsSlide([2, 2, 4]);
  }
}
