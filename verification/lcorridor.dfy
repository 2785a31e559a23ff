/** `simple_l_corridor`: an L-shaped corridor with its bend at the midpoint
    column, the renderer's fallback when path-finding returns nothing. */
module LCorridor {
  import opened Common
  import opened Bresenham

  /** Python's `range(start, stop, step)` is still running at `v`. */
  predicate RangeContinues(v: int, stop: int, step: int) {
    if step > 0 then v < stop else v > stop
  }

  /** The bend column `(x1 + x2) // 2`; Dafny's `/` by 2 floors like `//`. */
  function MidX(start: Cell, end: Cell): int {
    (start.0 + end.0) / 2
  }

  /** The cells `(Offset(x, s, i + skip), y)` for `i < n`: a horizontal run. */
  function Row(x: int, y: int, s: int, skip: nat, n: nat): (r: seq<Cell>)
    ensures |r| == n
    ensures forall i :: 0 <= i < n ==> r[i] == (Offset(x, s, i + skip), y)
  {
    seq(n, i requires 0 <= i < n => (Offset(x, s, i + skip), y))
  }

  /** The cells `(x, Offset(y, s, i + skip))` for `i < n`: a vertical run. */
  function Column(x: int, y: int, s: int, skip: nat, n: nat): (r: seq<Cell>)
    ensures |r| == n
    ensures forall i :: 0 <= i < n ==> r[i] == (x, Offset(y, s, i + skip))
  {
    seq(n, i requires 0 <= i < n => (x, Offset(y, s, i + skip)))
  }

  /** The three legs written out: `x1 .. mid` along row `y1`, then the rest of
      column `mid` down (or up) to `y2`, then the rest of row `y2` to `x2`. */
  function LShape(start: Cell, end: Cell): seq<Cell> {
    FirstLeg(start, end) + ColumnLeg(start, end) + LastLeg(start, end)
  }

  /** The bend column lies between the two ends, on `start`'s side. */
  lemma MidBetween(start: Cell, end: Cell)
    ensures var mid := MidX(start, end); var sx := Sign(start.0, end.0);
      Offset(start.0, sx, Abs(mid - start.0)) == mid
      && Offset(mid, sx, Abs(end.0 - mid)) == end.0
      && Abs(mid - start.0) + Abs(end.0 - mid) == Abs(end.0 - start.0)
  {
  }

  /** The first leg of `LShape`. */
  function FirstLeg(start: Cell, end: Cell): seq<Cell> {
    Row(start.0, start.1, Sign(start.0, end.0), 0, Abs(MidX(start, end) - start.0) + 1)
  }

  /** The column leg of `LShape`, without its first cell. */
  function ColumnLeg(start: Cell, end: Cell): seq<Cell> {
    Column(MidX(start, end), start.1, Sign(start.1, end.1), 1, Abs(end.1 - start.1))
  }

  /** The last leg of `LShape`, without its first cell. */
  function LastLeg(start: Cell, end: Cell): seq<Cell> {
    Row(MidX(start, end), end.1, Sign(start.0, end.0), 1, Abs(end.0 - MidX(start, end)))
  }

  /** The first loop: `for x in range(x1, mid_x + step_x, step_x)`. */
  method WalkFirstLeg(start: Cell, end: Cell) returns (path: seq<Cell>)
    ensures path == FirstLeg(start, end)
  {
    var mid := MidX(start, end);
    MidBetween(start, end);
    var sx := Sign(start.0, end.0);
    var x := start.0;
    var i: nat := 0;
    path := [];
    while RangeContinues(x, mid + sx, sx)
      invariant i <= Abs(mid - start.0) + 1
      invariant x == Offset(start.0, sx, i)
      invariant path == Row(start.0, start.1, sx, 0, i)
      decreases Abs(mid - start.0) + 1 - i
    {
      path := path + [(x, start.1)];
      x := x + sx;
      i := i + 1;
    }
  }

  /** The second loop: `for y in range(y1, y2 + step_y, step_y)`, skipping
      cells already on the path. */
  method WalkColumn(start: Cell, end: Cell, leg1: seq<Cell>) returns (path: seq<Cell>)
    requires leg1 == FirstLeg(start, end)
    ensures path == leg1 + ColumnLeg(start, end)
  {
    var mid := MidX(start, end);
    MidBetween(start, end);
    var sy := Sign(start.1, end.1);
    var y := start.1;
    var j: nat := 0;
    path := leg1;
    while RangeContinues(y, end.1 + sy, sy)
      invariant j <= Abs(end.1 - start.1) + 1
      invariant y == Offset(start.1, sy, j)
      invariant path == leg1 + Column(mid, start.1, sy, 1, if j == 0 then 0 else j - 1)
      decreases Abs(end.1 - start.1) + 1 - j
    {
      ColumnStep(start, end, leg1, j, path);
      if (mid, y) !in path {
        path := path + [(mid, y)];
      }
      y := y + sy;
      j := j + 1;
    }
  }

  /** The third loop: `for x in range(mid_x, x2 + step_x, step_x)`, skipping
      cells already on the path. */
  method WalkLastLeg(start: Cell, end: Cell, legs: seq<Cell>) returns (path: seq<Cell>)
    requires legs == FirstLeg(start, end) + ColumnLeg(start, end)
    ensures path == legs + LastLeg(start, end)
  {
    var mid := MidX(start, end);
    MidBetween(start, end);
    var sx := Sign(start.0, end.0);
    var x := mid;
    var k: nat := 0;
    path := legs;
    while RangeContinues(x, end.0 + sx, sx)
      invariant k <= Abs(end.0 - mid) + 1
      invariant x == Offset(mid, sx, k)
      invariant path == legs + Row(mid, end.1, sx, 1, if k == 0 then 0 else k - 1)
      decreases Abs(end.0 - mid) + 1 - k
    {
      LastLegStep(start, end, legs, k, path);
      if (x, end.1) !in path {
        path := path + [(x, end.1)];
      }
      x := x + sx;
      k := k + 1;
    }
  }

  /** One pass of the column loop: cell `j` is new exactly when `j >= 1`. */
  lemma ColumnStep(start: Cell, end: Cell, leg1: seq<Cell>, j: nat, path: seq<Cell>)
    requires leg1 == FirstLeg(start, end) && j <= Abs(end.1 - start.1)
    requires path == leg1 + Column(MidX(start, end), start.1, Sign(start.1, end.1), 1, if j == 0 then 0 else j - 1)
    ensures var c := (MidX(start, end), Offset(start.1, Sign(start.1, end.1), j));
      (if c in path then path else path + [c])
        == leg1 + Column(MidX(start, end), start.1, Sign(start.1, end.1), 1, j)
  {
    var mid := MidX(start, end);
    var sy := Sign(start.1, end.1);
    MidBetween(start, end);
    if j == 0 {
      assert path[|path| - 1] == (mid, start.1);
    } else {
      ColumnCellIsNew(start, end, j, path);
      assert Column(mid, start.1, sy, 1, j) == Column(mid, start.1, sy, 1, j - 1) + [(mid, Offset(start.1, sy, j))];
    }
  }

  /** One pass of the last loop: cell `k` is new exactly when `k >= 1`. */
  lemma LastLegStep(start: Cell, end: Cell, legs: seq<Cell>, k: nat, path: seq<Cell>)
    requires legs == FirstLeg(start, end) + ColumnLeg(start, end) && k <= Abs(end.0 - MidX(start, end))
    requires path == legs + Row(MidX(start, end), end.1, Sign(start.0, end.0), 1, if k == 0 then 0 else k - 1)
    ensures var c := (Offset(MidX(start, end), Sign(start.0, end.0), k), end.1);
      (if c in path then path else path + [c])
        == legs + Row(MidX(start, end), end.1, Sign(start.0, end.0), 1, k)
  {
    var mid := MidX(start, end);
    var sx := Sign(start.0, end.0);
    MidBetween(start, end);
    if k == 0 {
      EndOfColumnOnPath(start, end);
    } else {
      RowCellIsNew(start, end, k, path);
      assert Row(mid, end.1, sx, 1, k) == Row(mid, end.1, sx, 1, k - 1) + [(Offset(mid, sx, k), end.1)];
    }
  }

  /** `simple_l_corridor(start, end)`: the three loops in order. */
  method SimpleLCorridor(start: Cell, end: Cell) returns (path: seq<Cell>)
    ensures path == LShape(start, end)
  {
    var leg1 := WalkFirstLeg(start, end);
    var legs := WalkColumn(start, end, leg1);
    path := WalkLastLeg(start, end, legs);
  }

  /** The cell where the last leg starts, `(mid, y2)`, is already on the path
      after the first two legs. */
  lemma EndOfColumnOnPath(start: Cell, end: Cell)
    ensures var mid := MidX(start, end);
      (mid, end.1) in Row(start.0, start.1, Sign(start.0, end.0), 0, Abs(mid - start.0) + 1)
        + Column(mid, start.1, Sign(start.1, end.1), 1, Abs(end.1 - start.1))
  {
    var mid := MidX(start, end);
    var leg1 := Row(start.0, start.1, Sign(start.0, end.0), 0, Abs(mid - start.0) + 1);
    var leg2 := Column(mid, start.1, Sign(start.1, end.1), 1, Abs(end.1 - start.1));
    MidBetween(start, end);
    if |leg2| > 0 {
      assert (leg1 + leg2)[|leg1| + |leg2| - 1] == (mid, end.1);
    } else {
      assert (leg1 + leg2)[|leg1| - 1] == (mid, end.1);
    }
  }

  /** Cell `j >= 1` of the column is on neither the first leg nor earlier in
      the column. */
  lemma ColumnCellIsNew(start: Cell, end: Cell, j: nat, path: seq<Cell>)
    requires 1 <= j <= Abs(end.1 - start.1)
    requires var mid := MidX(start, end);
      path == Row(start.0, start.1, Sign(start.0, end.0), 0, Abs(mid - start.0) + 1)
        + Column(mid, start.1, Sign(start.1, end.1), 1, j - 1)
    ensures (MidX(start, end), Offset(start.1, Sign(start.1, end.1), j)) !in path
  {
    var c := (MidX(start, end), Offset(start.1, Sign(start.1, end.1), j));
    forall i | 0 <= i < |path|
      ensures path[i] != c
    {
    }
  }

  /** Cell `k >= 1` of the last leg is on neither earlier leg nor earlier in
      the last leg. */
  lemma RowCellIsNew(start: Cell, end: Cell, k: nat, path: seq<Cell>)
    requires 1 <= k <= Abs(end.0 - MidX(start, end))
    requires var mid := MidX(start, end);
      path == Row(start.0, start.1, Sign(start.0, end.0), 0, Abs(mid - start.0) + 1)
        + Column(mid, start.1, Sign(start.1, end.1), 1, Abs(end.1 - start.1))
        + Row(mid, end.1, Sign(start.0, end.0), 1, k - 1)
    ensures (Offset(MidX(start, end), Sign(start.0, end.0), k), end.1) !in path
  {
    var mid := MidX(start, end);
    var sx := Sign(start.0, end.0);
    var c := (Offset(mid, sx, k), end.1);
    MidBetween(start, end);
    forall i | 0 <= i < |path|
      ensures path[i] != c
    {
    }
  }

  /** Each cell of the L-shape is one unit step (by `sx` along x or `sy`
      along y) after the one before it. */
  lemma LShapeSteps(start: Cell, end: Cell)
    ensures UnitSteps(LShape(start, end), Sign(start.0, end.0), Sign(start.1, end.1))
  {
    var l1 := FirstLeg(start, end);
    var l2 := ColumnLeg(start, end);
    var l3 := LastLeg(start, end);
    var sx := Sign(start.0, end.0);
    var sy := Sign(start.1, end.1);
    MidBetween(start, end);
    RowSteps(start.0, start.1, sx, sy, 0, |l1|);
    ColumnSteps(MidX(start, end), start.1, sx, sy, 1, |l2|);
    RowSteps(MidX(start, end), end.1, sx, sy, 1, |l3|);
    AppendSteps(l1, l2, sx, sy);
    var l12 := l1 + l2;
    assert l12[|l12| - 1] == (MidX(start, end), end.1) by {
      if |l2| > 0 {
        assert l12[|l12| - 1] == l2[|l2| - 1];
      } else {
        assert l12[|l12| - 1] == l1[|l1| - 1];
      }
    }
    AppendSteps(l12, l3, sx, sy);
  }

  lemma RowSteps(x: int, y: int, sx: int, sy: int, skip: nat, n: nat)
    requires sx == 1 || sx == -1
    ensures UnitSteps(Row(x, y, sx, skip, n), sx, sy)
  {
  }

  lemma ColumnSteps(x: int, y: int, sx: int, sy: int, skip: nat, n: nat)
    requires sy == 1 || sy == -1
    ensures UnitSteps(Column(x, y, sy, skip, n), sx, sy)
  {
  }

  /** The L-shape stays in the box spanned by its ends. */
  lemma LShapeBoxed(start: Cell, end: Cell)
    ensures InBox(LShape(start, end), start.0, start.1, end)
  {
    var p := LShape(start, end);
    var l1 := FirstLeg(start, end);
    var l2 := ColumnLeg(start, end);
    var l3 := LastLeg(start, end);
    MidBetween(start, end);
    forall i | 0 <= i < |p|
      ensures Between(start.0, p[i].0, end.0) && Between(start.1, p[i].1, end.1)
    {
      if i < |l1| {
        assert p[i] == l1[i];
      } else if i < |l1| + |l2| {
        assert p[i] == l2[i - |l1|];
      } else {
        assert p[i] == l3[i - |l1| - |l2|];
      }
    }
  }

  /** The L-shape has `|dx| + |dy| + 1` cells, from `start` to `end`. */
  lemma LShapeEnds(start: Cell, end: Cell)
    ensures var p := LShape(start, end);
      |p| == Abs(end.0 - start.0) + Abs(end.1 - start.1) + 1
      && p[0] == start && p[|p| - 1] == end
  {
    var p := LShape(start, end);
    var l1 := FirstLeg(start, end);
    var l2 := ColumnLeg(start, end);
    var l3 := LastLeg(start, end);
    MidBetween(start, end);
    assert p[0] == l1[0];
    if |l3| > 0 {
      assert p[|p| - 1] == l3[|l3| - 1];
    } else if |l2| > 0 {
      assert p[|p| - 1] == l2[|l2| - 1];
    } else {
      assert p[|p| - 1] == l1[|l1| - 1];
    }
  }

  /** The fallback corridor joins its two ends without revisiting a cell. */
  lemma LShapeConnects(start: Cell, end: Cell)
    ensures Connects(LShape(start, end), start, end)
    ensures NoRepeats(LShape(start, end))
    ensures |LShape(start, end)| == Abs(end.0 - start.0) + Abs(end.1 - start.1) + 1
  {
    var p := LShape(start, end);
    LShapeSteps(start, end);
    LShapeEnds(start, end);
    StaircaseNoRepeats(p, Sign(start.0, end.0), Sign(start.1, end.1));
    forall i | 0 <= i < |p| - 1
      ensures Adjacent(p[i], p[i + 1])
    {
      UnitStepAdjacent(p[i], p[i + 1], Sign(start.0, end.0), Sign(start.1, end.1));
    }
  }
}
