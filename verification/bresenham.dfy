/** `bresenham_path`: a line between two cells drawn with cardinal steps only
    (the corridor module and the ASCII renderer hold identical copies).

    The loop keeps `x`, `y` and the error term `err`; writing `a` for the x
    steps and `b` for the y steps taken so far, `err` is always
    `dx * (1 + b) - dy * (1 + a)`. From that the proof shows the loop takes
    exactly one step per iteration, never passes `x2` or `y2`, and stops after
    `dx + dy` iterations. */
module Bresenham {
  import opened Common

  /** `1 if to > from else -1`. */
  function Sign(from: int, to: int): int {
    if to > from then 1 else -1
  }

  /** `v` moved `n` times by `s` (`s` is 1 or -1). */
  function Offset(v: int, s: int, n: int): int {
    if s == 1 then v + n else v - n
  }

  /** Steps already taken from `from` toward the target, in direction `s`. */
  function Taken(from: int, cur: int, s: int): int {
    if s == 1 then cur - from else from - cur
  }

  /** `v` lies between `a` and `b`, whichever way round. */
  predicate Between(a: int, v: int, b: int) {
    (a <= v <= b) || (b <= v <= a)
  }

  /** `k * n`, spelled out so the loop proof stays linear. */
  function Times(k: int, n: nat): int {
    if n == 0 then 0 else Times(k, n - 1) + k
  }

  lemma {:induction false} TimesIsProduct(k: int, n: nat)
    ensures Times(k, n) == k * n
  {
    if n > 0 {
      TimesIsProduct(k, n - 1);
    }
  }

  /** The loop state `(x, y, err)` is one the loop can reach from `start`. */
  predicate Reachable(start: Cell, end: Cell, x: int, y: int, err: int) {
    var dx := Abs(end.0 - start.0);
    var dy := Abs(end.1 - start.1);
    var a := Taken(start.0, x, Sign(start.0, end.0));
    var b := Taken(start.1, y, Sign(start.1, end.1));
    0 <= a <= dx && 0 <= b <= dy && err == dx + Times(dx, b) - dy - Times(dy, a)
  }

  /** Iterations left: the Manhattan distance still to cover. */
  function Remaining(x: int, y: int, end: Cell): int {
    Abs(end.0 - x) + Abs(end.1 - y)
  }

  /** The branch test of the source for a horizontal step. */
  predicate StepsX(e2: int, dx: int, dy: int) {
    e2 > -dy && ((e2 < dx && dx > dy) || e2 >= dx)
  }

  lemma MulMonotone(k: int, m: int, n: int)
    requires k >= 0 && m <= n
    ensures k * m <= k * n
  {
    assert k * n - k * m == k * (n - m);
  }

  /** With x done and y not, `2 * err <= -dy`, so no horizontal step is taken. */
  lemma NoOvershootX(dx: int, dy: int, b: nat)
    requires dx >= 0 && b < dy
    ensures 2 * (dx + Times(dx, b) - dy - Times(dy, dx)) <= -dy
  {
    TimesIsProduct(dx, b);
    TimesIsProduct(dy, dx);
    MulMonotone(dx, b, dy - 1);
    assert dx * (dy - 1) == dx * dy - dx;
    assert dy * dx == dx * dy;
  }

  /** With y done and x not, `2 * err >= 2 * dx`, so the horizontal step is taken. */
  lemma NoOvershootY(dx: int, dy: int, a: nat)
    requires dy >= 0 && a < dx
    ensures 2 * (dx + Times(dx, dy) - dy - Times(dy, a)) >= 2 * dx
  {
    TimesIsProduct(dx, dy);
    TimesIsProduct(dy, a);
    MulMonotone(dy, a, dx - 1);
    assert dy * (dx - 1) == dy * dx - dy;
    assert dy * dx == dx * dy;
  }

  /** `d` is `c` moved one cell along x by `sx` or along y by `sy`. */
  predicate UnitStep(c: Cell, d: Cell, sx: int, sy: int) {
    d == (c.0 + sx, c.1) || d == (c.0, c.1 + sy)
  }

  /** Every cell of `p` is a unit step after the one before it. */
  predicate UnitSteps(p: seq<Cell>, sx: int, sy: int) {
    forall i :: 0 <= i < |p| - 1 ==> UnitStep(p[i], p[i + 1], sx, sy)
  }

  /** Every cell of `p` lies in the box with corners `(x, y)` and `end`. */
  predicate InBox(p: seq<Cell>, x: int, y: int, end: Cell) {
    forall i :: 0 <= i < |p| ==> Between(x, p[i].0, end.0) && Between(y, p[i].1, end.1)
  }

  /** The state after one iteration of the loop. */
  datatype State = State(x: int, y: int, err: int)

  /** The successor state `n` of `(x, y, err)` is reachable, one step nearer
      `end`, a unit step away, and still inside the box. */
  predicate GoodStep(start: Cell, end: Cell, x: int, y: int, n: State) {
    Reachable(start, end, n.x, n.y, n.err)
    && Remaining(n.x, n.y, end) == Remaining(x, y, end) - 1
    && UnitStep((x, y), (n.x, n.y), Sign(start.0, end.0), Sign(start.1, end.1))
    && Between(x, n.x, end.0) && Between(y, n.y, end.1)
  }

  /** The horizontal branch from a reachable state: x has not reached `end`. */
  lemma StepXGood(start: Cell, end: Cell, x: int, y: int, err: int)
    requires Reachable(start, end, x, y, err) && (x, y) != end
    requires StepsX(2 * err, Abs(end.0 - start.0), Abs(end.1 - start.1))
    ensures GoodStep(start, end, x, y, State(x + Sign(start.0, end.0), y, err - Abs(end.1 - start.1)))
  {
    var dx: int := Abs(end.0 - start.0);
    var dy: int := Abs(end.1 - start.1);
    var a := Taken(start.0, x, Sign(start.0, end.0));
    var b := Taken(start.1, y, Sign(start.1, end.1));
    assert a < dx by {
      if a == dx {
        NoOvershootX(dx, dy, b);
      }
    }
    assert Times(dy, a + 1) == Times(dy, a) + dy;
  }

  /** The vertical branch from a reachable state: y has not reached `end`. */
  lemma StepYGood(start: Cell, end: Cell, x: int, y: int, err: int)
    requires Reachable(start, end, x, y, err) && (x, y) != end
    requires !StepsX(2 * err, Abs(end.0 - start.0), Abs(end.1 - start.1)) && 2 * err < Abs(end.0 - start.0)
    ensures GoodStep(start, end, x, y, State(x, y + Sign(start.1, end.1), err + Abs(end.0 - start.0)))
  {
    var dx: int := Abs(end.0 - start.0);
    var dy: int := Abs(end.1 - start.1);
    var a := Taken(start.0, x, Sign(start.0, end.0));
    var b := Taken(start.1, y, Sign(start.1, end.1));
    assert b < dy by {
      if b == dy {
        NoOvershootY(dx, dy, a);
      }
    }
    assert Times(dx, b + 1) == Times(dx, b) + dx;
  }

  /** One iteration of the loop body from a reachable state away from `end`:
      the source's branches in its order. The third branch and the case where
      no branch fires cannot occur from a reachable state. */
  function Step(start: Cell, end: Cell, x: int, y: int, err: int): (n: State)
    requires Reachable(start, end, x, y, err)
    requires (x, y) != end
    ensures GoodStep(start, end, x, y, n)
  {
    var dx: int := Abs(end.0 - start.0);
    var dy: int := Abs(end.1 - start.1);
    var e2 := 2 * err;
    if StepsX(e2, dx, dy) then
      StepXGood(start, end, x, y, err);
      State(x + Sign(start.0, end.0), y, err - dy)
    else if e2 < dx then
      StepYGood(start, end, x, y, err);
      State(x, y + Sign(start.1, end.1), err + dx)
    else if e2 > -dy then
      // The third branch: its test and the failed first test give
      // `e2 >= dx`, which makes the first test true.
      assert false; State(x, y, err)
    else
      // No branch fires: `dx <= e2 <= -dy` forces `dx == dy == 0`, so the
      // loop would already have stopped.
      assert false; State(x, y, err)
  }

  /** The cells the loop appends from state `(x, y, err)` until it reaches `end`. */
  function Walk(start: Cell, end: Cell, x: int, y: int, err: int): (p: seq<Cell>)
    requires Reachable(start, end, x, y, err)
    ensures |p| == Remaining(x, y, end)
    ensures |p| > 0 ==> p[|p| - 1] == end
    ensures |p| > 0 ==> UnitStep((x, y), p[0], Sign(start.0, end.0), Sign(start.1, end.1))
    decreases Remaining(x, y, end)
  {
    if x == end.0 && y == end.1 then []
    else
      var n := Step(start, end, x, y, err);
      [(n.x, n.y)] + Walk(start, end, n.x, n.y, n.err)
  }

  /** Every cell of the walk is one unit step after the one before it. */
  lemma {:induction false} WalkSteps(start: Cell, end: Cell, x: int, y: int, err: int)
    requires Reachable(start, end, x, y, err)
    ensures UnitSteps(Walk(start, end, x, y, err), Sign(start.0, end.0), Sign(start.1, end.1))
    decreases Remaining(x, y, end)
  {
    if (x, y) != end {
      var n := Step(start, end, x, y, err);
      WalkSteps(start, end, n.x, n.y, n.err);
      var t := Walk(start, end, n.x, n.y, n.err);
      var p := Walk(start, end, x, y, err);
      assert p == [(n.x, n.y)] + t;
      forall i | 0 <= i < |p| - 1
        ensures UnitStep(p[i], p[i + 1], Sign(start.0, end.0), Sign(start.1, end.1))
      {
        if i > 0 {
          assert p[i] == t[i - 1] && p[i + 1] == t[i];
        }
      }
    }
  }

  /** The walk never leaves the box spanned by the current cell and `end`. */
  lemma {:induction false} WalkBoxed(start: Cell, end: Cell, x: int, y: int, err: int)
    requires Reachable(start, end, x, y, err)
    ensures InBox(Walk(start, end, x, y, err), x, y, end)
    decreases Remaining(x, y, end)
  {
    if (x, y) != end {
      var n := Step(start, end, x, y, err);
      WalkBoxed(start, end, n.x, n.y, n.err);
      var t := Walk(start, end, n.x, n.y, n.err);
      var p := Walk(start, end, x, y, err);
      assert p == [(n.x, n.y)] + t;
      forall i | 0 <= i < |p|
        ensures Between(x, p[i].0, end.0) && Between(y, p[i].1, end.1)
      {
        if i > 0 {
          assert p[i] == t[i - 1];
        }
      }
    }
  }

  /** A unit step is a cardinal step. */
  lemma UnitStepAdjacent(c: Cell, d: Cell, sx: int, sy: int)
    requires sx == 1 || sx == -1
    requires sy == 1 || sy == -1
    requires UnitStep(c, d, sx, sy)
    ensures Adjacent(c, d)
  {
  }

  /** Prefixing a cell one unit step before the first keeps the steps unit. */
  lemma ConsSteps(c: Cell, w: seq<Cell>, sx: int, sy: int)
    requires UnitSteps(w, sx, sy)
    requires |w| > 0 ==> UnitStep(c, w[0], sx, sy)
    ensures UnitSteps([c] + w, sx, sy)
  {
    var p := [c] + w;
    forall i | 0 <= i < |p| - 1
      ensures UnitStep(p[i], p[i + 1], sx, sy)
    {
      if i > 0 {
        assert p[i] == w[i - 1] && p[i + 1] == w[i];
      }
    }
  }

  /** Two unit-step paths joined by a unit step make one. */
  lemma AppendSteps(a: seq<Cell>, b: seq<Cell>, sx: int, sy: int)
    requires UnitSteps(a, sx, sy) && UnitSteps(b, sx, sy)
    requires |a| > 0 && |b| > 0 ==> UnitStep(a[|a| - 1], b[0], sx, sy)
    ensures UnitSteps(a + b, sx, sy)
  {
    var p := a + b;
    forall i | 0 <= i < |p| - 1
      ensures UnitStep(p[i], p[i + 1], sx, sy)
    {
      if i + 1 < |a| {
        assert p[i] == a[i] && p[i + 1] == a[i + 1];
      } else if i >= |a| {
        assert p[i] == b[i - |a|] && p[i + 1] == b[i + 1 - |a|];
      } else {
        assert p[i] == a[i] && p[i + 1] == b[0];
      }
    }
  }

  /** Prefixing the corner cell keeps a path in its box. */
  lemma ConsBoxed(c: Cell, w: seq<Cell>, end: Cell)
    requires InBox(w, c.0, c.1, end)
    ensures InBox([c] + w, c.0, c.1, end)
  {
    var p := [c] + w;
    forall i | 0 <= i < |p|
      ensures Between(c.0, p[i].0, end.0) && Between(c.1, p[i].1, end.1)
    {
      if i > 0 {
        assert p[i] == w[i - 1];
      }
    }
  }

  /** The loop starts from a reachable state. */
  lemma StartReachable(start: Cell, end: Cell)
    ensures Reachable(start, end, start.0, start.1, Abs(end.0 - start.0) - Abs(end.1 - start.1))
  {
    assert Times(Abs(end.0 - start.0), 0) == 0 && Times(Abs(end.1 - start.1), 0) == 0;
  }

  /** `bresenham_path(start, end)`. */
  function BresenhamPath(start: Cell, end: Cell): (p: seq<Cell>)
    ensures |p| == Abs(end.0 - start.0) + Abs(end.1 - start.1) + 1
    ensures p[0] == start && p[|p| - 1] == end
    ensures UnitSteps(p, Sign(start.0, end.0), Sign(start.1, end.1))
    ensures InBox(p, start.0, start.1, end)
  {
    var err := Abs(end.0 - start.0) - Abs(end.1 - start.1);
    StartReachable(start, end);
    var w := Walk(start, end, start.0, start.1, err);
    WalkSteps(start, end, start.0, start.1, err);
    WalkBoxed(start, end, start.0, start.1, err);
    ConsSteps(start, w, Sign(start.0, end.0), Sign(start.1, end.1));
    ConsBoxed(start, w, end);
    [start] + w
  }

  /** The line is a corridor from `start` to `end`. */
  lemma BresenhamConnects(start: Cell, end: Cell)
    ensures Connects(BresenhamPath(start, end), start, end)
  {
    var p := BresenhamPath(start, end);
    forall i | 0 <= i < |p| - 1
      ensures Adjacent(p[i], p[i + 1])
    {
      UnitStepAdjacent(p[i], p[i + 1], Sign(start.0, end.0), Sign(start.1, end.1));
    }
  }

  /** On a shared row the line is the straight run of cells between the two
      ends, `i` steps from `start` at index `i`. */
  lemma {:induction false} HorizontalRun(start: Cell, end: Cell, i: nat)
    requires start.1 == end.1
    requires i < |BresenhamPath(start, end)|
    ensures BresenhamPath(start, end)[i] == (Offset(start.0, Sign(start.0, end.0), i), start.1)
  {
    var p := BresenhamPath(start, end);
    if i > 0 {
      HorizontalRun(start, end, i - 1);
      assert UnitStep(p[i - 1], p[i], Sign(start.0, end.0), Sign(start.1, end.1));
      assert Between(start.1, p[i].1, end.1);
    }
  }

  /** On a shared column the line is the straight run of cells between the
      two ends, `i` steps from `start` at index `i`. */
  lemma {:induction false} VerticalRun(start: Cell, end: Cell, i: nat)
    requires start.0 == end.0
    requires i < |BresenhamPath(start, end)|
    ensures BresenhamPath(start, end)[i] == (start.0, Offset(start.1, Sign(start.1, end.1), i))
  {
    var p := BresenhamPath(start, end);
    if i > 0 {
      VerticalRun(start, end, i - 1);
      assert UnitStep(p[i - 1], p[i], Sign(start.0, end.0), Sign(start.1, end.1));
      assert Between(start.0, p[i].0, end.0);
    }
  }

  /** Identical ends give the one-cell path `[start]`. */
  lemma SinglePoint(c: Cell)
    ensures BresenhamPath(c, c) == [c]
  {
  }

  /** Along a path of unit steps, index `i` is exactly `i` steps from the
      first cell. */
  lemma {:induction false} StaircaseProgress(p: seq<Cell>, sx: int, sy: int, i: nat)
    requires sx == 1 || sx == -1
    requires sy == 1 || sy == -1
    requires UnitSteps(p, sx, sy)
    requires i < |p|
    ensures Taken(p[0].0, p[i].0, sx) + Taken(p[0].1, p[i].1, sy) == i
  {
    if i > 0 {
      StaircaseProgress(p, sx, sy, i - 1);
      assert UnitStep(p[i - 1], p[i], sx, sy);
    }
  }

  /** A path of unit steps never revisits a cell. */
  lemma StaircaseNoRepeats(p: seq<Cell>, sx: int, sy: int)
    requires sx == 1 || sx == -1
    requires sy == 1 || sy == -1
    requires UnitSteps(p, sx, sy)
    ensures NoRepeats(p)
  {
    forall i, j | 0 <= i < j < |p|
      ensures p[i] != p[j]
    {
      StaircaseProgress(p, sx, sy, i);
      StaircaseProgress(p, sx, sy, j);
    }
  }

  /** The line never visits a cell twice. */
  lemma BresenhamNoRepeats(start: Cell, end: Cell)
    ensures NoRepeats(BresenhamPath(start, end))
  {
    StaircaseNoRepeats(BresenhamPath(start, end), Sign(start.0, end.0), Sign(start.1, end.1));
  }
}
