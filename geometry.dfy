/**
 * Grid geometry: the two transforms (transpose and horizontal invert) that
 * reduce every move direction to a slide to the left.
 */
module Geometry {

  /** A board, row by row; 0 is an empty cell. */
  type Grid = seq<seq<int>>

  /** The boards the engine works on: at least one row and one column, every row as long as the first. */
  predicate IsGrid(g: Grid)
  {
    |g| >= 1 && |g[0]| >= 1 && forall i :: 0 <= i < |g| ==> |g[i]| == |g[0]|
  }

  /** Two boards of the same shape. */
  predicate SameShape(a: Grid, b: Grid)
  {
    IsGrid(a) && IsGrid(b) && |a| == |b| && |a[0]| == |b[0]|
  }

  /** The matrix transpose: row j of the result is column j of `g`. */
  function Transpose(g: Grid): (t: Grid)
    requires IsGrid(g)
    ensures IsGrid(t) && |t| == |g[0]| && |t[0]| == |g|
    ensures forall j, i :: 0 <= j < |t| && 0 <= i < |g| ==> t[j][i] == g[i][j]
  {
    seq(|g[0]|, j requires 0 <= j < |g[0]| => seq(|g|, i requires 0 <= i < |g| => g[i][j]))
  }

  /** A row read from right to left. */
  function Reverse(s: seq<int>): (r: seq<int>)
    ensures |r| == |s|
    ensures forall k :: 0 <= k < |s| ==> r[k] == s[|s| - 1 - k]
  {
    seq(|s|, k requires 0 <= k < |s| => s[|s| - 1 - k])
  }

  /** Every row reversed; the order of the rows is kept. */
  function Invert(g: Grid): (r: Grid)
    ensures |r| == |g|
    ensures forall i :: 0 <= i < |g| ==> r[i] == Reverse(g[i])
    ensures IsGrid(g) ==> SameShape(g, r)
  {
    seq(|g|, i requires 0 <= i < |g| => Reverse(g[i]))
  }

  lemma ReverseInvolution(s: seq<int>)
    ensures Reverse(Reverse(s)) == s
  {
    assert forall k :: 0 <= k < |s| ==> Reverse(Reverse(s))[k] == s[k];
  }

  /** Inverting twice gives the board back. */
  lemma InvertInvolution(g: Grid)
    ensures Invert(Invert(g)) == g
  {
    forall i | 0 <= i < |g|
      ensures Invert(Invert(g))[i] == g[i]
    {
      ReverseInvolution(g[i]);
    }
  }

  /** Transposing twice gives the board back. */
  lemma TransposeInvolution(g: Grid)
    requires IsGrid(g)
    ensures Transpose(Transpose(g)) == g
  {
    var t := Transpose(Transpose(g));
    forall i | 0 <= i < |g|
      ensures t[i] == g[i]
    {
      assert forall j :: 0 <= j < |g[0]| ==> t[i][j] == g[i][j];
    }
  }

  /** Transposition is one-to-one, on boards of the same shape. */
  lemma TransposeInjective(a: Grid, b: Grid)
    requires IsGrid(a) && IsGrid(b)
    ensures Transpose(a) == Transpose(b) <==> a == b
  {
    if Transpose(a) == Transpose(b) {
      TransposeInvolution(a);
      TransposeInvolution(b);
    }
  }

  /** Inversion is one-to-one. */
  lemma InvertInjective(a: Grid, b: Grid)
    ensures Invert(a) == Invert(b) <==> a == b
  {
    if Invert(a) == Invert(b) {
      InvertInvolution(a);
      InvertInvolution(b);
    }
  }
}
