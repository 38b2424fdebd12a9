/**
 * The integer board metrics: empty cells, merge count, smoothness and
 * monotonicity, as functions of the board, with the loops of the source
 * proved against them.
 */
module Metrics {
  import opened Wrappers
  import opened Geometry
  import opened Rows

  // ---------------------------------------------------------------- empty cells

  /** Number of empty cells in a row. */
  function ZeroCount(s: seq<int>): (n: nat)
    ensures n <= |s|
  {
    if s == [] then 0
    else ZeroCount(s[..|s| - 1]) + (if s[|s| - 1] == 0 then 1 else 0)
  }

  /** Number of empty cells on a board. */
  function GridZeros(g: Grid): nat
  {
    if g == [] then 0
    else GridZeros(g[..|g| - 1]) + ZeroCount(g[|g| - 1])
  }

  lemma {:induction false} ZeroCountNone(s: seq<int>)
    ensures ZeroCount(s) == 0 <==> forall k :: 0 <= k < |s| ==> s[k] != 0
  {
    if s != [] {
      ZeroCountNone(s[..|s| - 1]);
      assert forall k :: 0 <= k < |s| - 1 ==> s[..|s| - 1][k] == s[k];
    }
  }

  /**
   * On a board of `h` rows of width `w` there are between 0 and w * h empty
   * cells, and none exactly when every cell holds a tile.
   */
  lemma {:induction false} GridZerosBounds(g: Grid, w: nat)
    requires forall i :: 0 <= i < |g| ==> |g[i]| == w
    ensures GridZeros(g) <= |g| * w
    ensures GridZeros(g) == 0 <==> forall i, j :: 0 <= i < |g| && 0 <= j < w ==> g[i][j] != 0
  {
    if g != [] {
      var n := |g| - 1;
      var front, last := g[..n], g[n];
      assert forall i :: 0 <= i < n ==> front[i] == g[i];
      GridZerosBounds(front, w);
      ZeroCountNone(last);
      assert GridZeros(g) == GridZeros(front) + ZeroCount(last);
      MulSucc(n, w);
      if GridZeros(g) == 0 {
        forall i, j | 0 <= i < |g| && 0 <= j < w
          ensures g[i][j] != 0
        {
          if i < n {
            assert front[i][j] != 0;
          }
        }
      }
    }
  }

  // ---------------------------------------------------------------- merge count

  /**
   * Equal neighbouring pairs (k, k + 1) with k < i, counted as the loop of
   * `mergeFactor` counts them (only pairs inside the row).
   */
  function PairsBefore(s: seq<int>, i: nat): (n: nat)
    ensures n <= i && (|s| > 0 ==> n < |s|)
  {
    if i == 0 then 0
    else PairsBefore(s, i - 1) + (if i < |s| && s[i - 1] == s[i] then 1 else 0)
  }

  /** Equal neighbouring pairs in a row; two empty cells are an equal pair too. */
  function PairCount(s: seq<int>): nat
  {
    PairsBefore(s, |s|)
  }

  /** The pairs of all rows, each row tightened first and padded with empty cells. */
  function TightPairs(rows: seq<seq<int>>): nat
  {
    if rows == [] then 0
    else TightPairs(rows[..|rows| - 1]) + PairCount(Tighten(rows[|rows| - 1]))
  }

  /** `mergeFactor`: minus the pair count over the rows and the columns. */
  function MergeFactorOf(g: Grid): (r: int)
    requires IsGrid(g)
    ensures r <= 0
  {
    -(TightPairs(g) + TightPairs(Transpose(g)))
  }

  lemma MulSucc(n: nat, k: nat)
    ensures (n + 1) * k == n * k + k
  {
  }

  lemma {:induction false} TightPairsBound(rows: seq<seq<int>>, w: nat)
    requires w >= 1 && forall i :: 0 <= i < |rows| ==> |rows[i]| == w
    ensures TightPairs(rows) <= |rows| * (w - 1)
  {
    if rows != [] {
      var n := |rows| - 1;
      assert forall i :: 0 <= i < n ==> rows[..n][i] == rows[i];
      TightPairsBound(rows[..n], w);
      var last := Tighten(rows[n]);
      assert |last| == w;
      assert PairCount(last) <= w - 1;
      assert TightPairs(rows) == TightPairs(rows[..n]) + PairCount(last);
      MulSucc(n, w - 1);
    }
  }

  /**
   * The merge count of an `h` by `w` board lies between
   * -(h * (w - 1) + w * (h - 1)) and 0.
   */
  lemma MergeFactorBounds(g: Grid)
    requires IsGrid(g)
    ensures -(|g| * (|g[0]| - 1) + |g[0]| * (|g| - 1)) <= MergeFactorOf(g) <= 0
  {
    TightPairsBound(g, |g[0]|);
    TightPairsBound(Transpose(g), |g|);
  }

  lemma {:induction false} PairsBeforeEmpty(n: nat, i: nat)
    requires i < n
    ensures PairsBefore(Zeros(n), i) == i
  {
    if i > 0 {
      PairsBeforeEmpty(n, i - 1);
    }
  }

  /** An empty row of width `w` stays empty when tightened and holds w - 1 equal pairs. */
  lemma EmptyRowPairs(w: nat)
    requires w >= 1
    ensures Tighten(Zeros(w)) == Zeros(w)
    ensures PairCount(Tighten(Zeros(w))) == w - 1
  {
    NonZerosOfEmpty(Zeros(w));
    PairsBeforeEmpty(w, w - 1);
  }

  lemma {:induction false} TightPairsEmpty(rows: seq<seq<int>>, w: nat)
    requires w >= 1 && forall i :: 0 <= i < |rows| ==> rows[i] == Zeros(w)
    ensures TightPairs(rows) == |rows| * (w - 1)
  {
    if rows != [] {
      var n := |rows| - 1;
      assert forall i :: 0 <= i < n ==> rows[..n][i] == rows[i];
      TightPairsEmpty(rows[..n], w);
      EmptyRowPairs(w);
      assert TightPairs(rows) == TightPairs(rows[..n]) + PairCount(Tighten(rows[n]));
      MulSucc(n, w - 1);
    }
  }

  /**
   * Because each row is padded before the pairs are counted, empty cells pair
   * with each other: an empty board reaches the lowest possible merge count.
   */
  lemma EmptyBoardMergeFactor(w: nat, h: nat)
    requires w >= 1 && h >= 1
    ensures MergeFactorOf(seq(h, _ => Zeros(w))) == -(h * (w - 1) + w * (h - 1))
  {
    var g := seq(h, _ => Zeros(w));
    TightPairsEmpty(g, w);
    assert forall j :: 0 <= j < w ==> Transpose(g)[j] == Zeros(h);
    TightPairsEmpty(Transpose(g), h);
  }

  /** The counting loop of `mergeFactor`, run over a list of rows. */
  method TightPairCount(rows: seq<seq<int>>) returns (count: nat)
    ensures count == TightPairs(rows)
  {
    count := 0;
    for r := 0 to |rows|
      invariant count == TightPairs(rows[..r])
    {
      var newRow := Tighten(rows[r]);
      for i := 0 to |newRow|
        invariant count == TightPairs(rows[..r]) + PairsBefore(newRow, i)
      {
        if i + 1 < |newRow| && newRow[i] == newRow[i + 1] {
          count := count + 1;
        }
      }
      assert rows[..r + 1][..r] == rows[..r];
    }
    assert rows[..|rows|] == rows;
  }

  // ---------------------------------------------------------------- smoothness

  function Abs(x: int): nat
  {
    if x < 0 then -x else x
  }

  /** Sum of the differences between neighbouring cells of a row. */
  function LineSmoothness(r: seq<int>): (n: nat)
  {
    if |r| < 2 then 0 else Abs(r[0] - r[1]) + LineSmoothness(r[1..])
  }

  /** `row_smoothness`: the line smoothness summed over a list of rows. */
  function RowSmoothness(rows: seq<seq<int>>): (n: nat)
  {
    if rows == [] then 0 else LineSmoothness(rows[0]) + RowSmoothness(rows[1..])
  }

  /** `eval_smoothness`: rows plus columns plus one, so at least 1. */
  function SmoothnessOf(g: Grid): (n: int)
    requires IsGrid(g)
    ensures n >= 1
  {
    RowSmoothness(g) + RowSmoothness(Transpose(g)) + 1
  }

  /** Every cell of the row equals its right neighbour. */
  predicate Level(r: seq<int>)
  {
    forall c :: 0 <= c < |r| - 1 ==> r[c] == r[c + 1]
  }

  lemma {:induction false} LineSmoothnessZero(r: seq<int>)
    ensures LineSmoothness(r) == 0 <==> Level(r)
  {
    if |r| >= 2 {
      LineSmoothnessZero(r[1..]);
      assert forall c :: 0 <= c < |r| - 2 ==> r[1..][c] == r[c + 1];
    }
  }

  lemma {:induction false} RowSmoothnessZero(rows: seq<seq<int>>)
    ensures RowSmoothness(rows) == 0 <==> forall i :: 0 <= i < |rows| ==> Level(rows[i])
  {
    if rows != [] {
      LineSmoothnessZero(rows[0]);
      RowSmoothnessZero(rows[1..]);
      assert forall i :: 1 <= i < |rows| ==> rows[1..][i - 1] == rows[i];
    }
  }

  lemma {:induction false} LevelConstant(r: seq<int>, c: nat)
    requires Level(r) && c < |r|
    ensures r[c] == r[0]
  {
    if c > 0 {
      LevelConstant(r, c - 1);
    }
  }

  /** The smoothness is exactly 1 iff every cell holds the same value. */
  lemma SmoothnessOne(g: Grid)
    requires IsGrid(g)
    ensures SmoothnessOf(g) == 1 <==> forall i, j :: 0 <= i < |g| && 0 <= j < |g[0]| ==> g[i][j] == g[0][0]
  {
    var t := Transpose(g);
    RowSmoothnessZero(g);
    RowSmoothnessZero(t);
    if SmoothnessOf(g) == 1 {
      forall i, j | 0 <= i < |g| && 0 <= j < |g[0]|
        ensures g[i][j] == g[0][0]
      {
        LevelConstant(g[i], j);
        LevelConstant(t[0], i);
      }
    } else {
      assert !(forall i :: 0 <= i < |g| ==> Level(g[i])) || !(forall j :: 0 <= j < |t| ==> Level(t[j]));
    }
  }

  // ---------------------------------------------------------------- monotonicity

  /** The direction of one strict step (true: up); an equal step has none. */
  function Step(a: int, b: int): seq<bool>
  {
    if b > a then [true] else if b < a then [false] else []
  }

  /** The directions of the strict steps of a row, in order. */
  function Dirs(r: seq<int>): (d: seq<bool>)
    ensures |d| <= |r|
  {
    if |r| < 2 then [] else Dirs(r[..|r| - 1]) + Step(r[|r| - 2], r[|r| - 1])
  }

  /** Neighbouring entries of `d` that differ. */
  function Changes(d: seq<bool>): nat
  {
    if |d| < 2 then 0
    else Changes(d[..|d| - 1]) + (if d[|d| - 2] != d[|d| - 1] then 1 else 0)
  }

  /** The switches of one row between increasing and decreasing. */
  function LineSwitches(r: seq<int>): nat
  {
    Changes(Dirs(r))
  }

  /** `row_monotonicity`: the switches summed over a list of rows. */
  function Switches(rows: seq<seq<int>>): nat
  {
    if rows == [] then 0
    else Switches(rows[..|rows| - 1]) + LineSwitches(rows[|rows| - 1])
  }

  /** `eval_monotonicity`: minus the switches over rows and columns, minus one. */
  function MonotonicityOf(g: Grid): (n: int)
    requires IsGrid(g)
    ensures n <= -1
  {
    -(Switches(g) + Switches(Transpose(g)) + 1)
  }

  /** The last strict direction seen, or None before the first one. */
  function LastDir(d: seq<bool>): Option<bool>
  {
    if d == [] then None else Some(d[|d| - 1])
  }

  lemma DirsSnoc(r: seq<int>, c: nat)
    requires c + 1 < |r|
    ensures Dirs(r[..c + 2]) == Dirs(r[..c + 1]) + Step(r[c], r[c + 1])
  {
    assert r[..c + 2][..c + 1] == r[..c + 1];
  }

  lemma LastDirSnoc(d: seq<bool>, x: seq<bool>)
    requires |x| <= 1
    ensures LastDir(d + x) == if x == [] then LastDir(d) else Some(x[0])
  {
    if x == [] {
      assert d + x == d;
    }
  }

  lemma ChangesSnoc(d: seq<bool>, x: seq<bool>)
    requires |x| <= 1
    ensures Changes(d + x) == Changes(d) + (if d != [] && x != [] && d[|d| - 1] != x[0] then 1 else 0)
  {
    if x == [] {
      assert d + x == d;
    } else {
      assert (d + x)[..|d|] == d;
    }
  }

  /**
   * The inner loop of `row_monotonicity` over one row, with its `increasing`
   * flag (None, True or False).
   */
  method LineSwitchCount(r: seq<int>) returns (switches: nat)
    ensures switches == LineSwitches(r)
  {
    switches := 0;
    if |r| == 0 {
      // range(len(r) - 1) is empty as well
      return;
    }
    var increasing: Option<bool> := None;
    for c := 0 to |r| - 1
      invariant switches == Changes(Dirs(r[..c + 1]))
      invariant increasing == LastDir(Dirs(r[..c + 1]))
    {
      ghost var seen := Dirs(r[..c + 1]);
      ghost var step := Step(r[c], r[c + 1]);
      DirsSnoc(r, c);
      ChangesSnoc(seen, step);
      LastDirSnoc(seen, step);
      if r[c + 1] > r[c] {
        if increasing == Some(false) {
          switches := switches + 1;
        }
        increasing := Some(true);
      } else if r[c + 1] < r[c] {
        if increasing == Some(true) {
          switches := switches + 1;
        }
        increasing := Some(false);
      }
    }
    assert r[..|r|] == r;
  }

  /** `row_monotonicity`: the switches of every row, added up. */
  method RowMonotonicity(rows: seq<seq<int>>) returns (switches: nat)
    ensures switches == Switches(rows)
  {
    switches := 0;
    for ri := 0 to |rows|
      invariant switches == Switches(rows[..ri])
    {
      var n := LineSwitchCount(rows[ri]);
      switches := switches + n;
      assert rows[..ri + 1][..ri] == rows[..ri];
    }
    assert rows[..|rows|] == rows;
  }

  /** A row whose steps all go one way, equal neighbours allowed. */
  predicate Monotone(r: seq<int>)
  {
    (forall c :: 0 <= c < |r| - 1 ==> !StepDown(r, c)) ||
    (forall c :: 0 <= c < |r| - 1 ==> !StepUp(r, c))
  }

  predicate StepUp(r: seq<int>, c: int)
    requires 0 <= c < |r| - 1
  {
    r[c] < r[c + 1]
  }

  predicate StepDown(r: seq<int>, c: int)
    requires 0 <= c < |r| - 1
  {
    r[c] > r[c + 1]
  }

  lemma {:induction false} DirsContents(r: seq<int>)
    ensures true in Dirs(r) <==> exists c :: 0 <= c < |r| - 1 && StepUp(r, c)
    ensures false in Dirs(r) <==> exists c :: 0 <= c < |r| - 1 && StepDown(r, c)
  {
    if |r| >= 2 {
      var n := |r| - 1;
      var p := r[..n];
      DirsContents(p);
      assert forall c :: 0 <= c < n - 1 ==> (StepUp(p, c) <==> StepUp(r, c));
      assert forall c :: 0 <= c < n - 1 ==> (StepDown(p, c) <==> StepDown(r, c));
      assert Dirs(r) == Dirs(p) + Step(r[n - 1], r[n]);
      if StepUp(r, n - 1) {
        assert true in Dirs(r);
      }
      if StepDown(r, n - 1) {
        assert false in Dirs(r);
      }
    }
  }

  lemma {:induction false} ChangesZero(d: seq<bool>)
    ensures Changes(d) == 0 <==> !(true in d && false in d)
  {
    if |d| >= 2 {
      var n := |d| - 1;
      ChangesZero(d[..n]);
      assert d == d[..n] + [d[n]];
      assert d[n - 1] in d[..n];
    }
  }

  /**
   * The first strict direction is never counted: a row has no switch iff it
   * is monotone.
   */
  lemma LineSwitchesZero(r: seq<int>)
    ensures LineSwitches(r) == 0 <==> Monotone(r)
  {
    DirsContents(r);
    ChangesZero(Dirs(r));
  }

  /** Example: one reversal; the first direction seen is not a switch. */
  lemma SwitchExampleReversal()
    ensures LineSwitches([2, 4, 2]) == 1
  {
    assert [2, 4, 2][..2] == [2, 4] && [2, 4][..1] == [2];
    assert Dirs([2, 4, 2]) == [true, false] && [true, false][..1] == [true];
  }

  /** Example: an equal step keeps the direction, so 4, 2, 2, 8 switches once. */
  lemma SwitchExampleEqualStep()
    ensures LineSwitches([4, 2, 2, 8]) == 1
  {
    assert [4, 2, 2, 8][..3] == [4, 2, 2] && [4, 2, 2][..2] == [4, 2] && [4, 2][..1] == [4];
    assert Dirs([4, 2, 2, 8]) == [false, true] && [false, true][..1] == [false];
  }
}
