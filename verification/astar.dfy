/** `astar_path`: try the Bresenham line first and keep it when every cell is
    walkable; otherwise search the walkability matrix with A* over cardinal
    neighbours, and fall back to the line when the search fails.

    The heuristic is a parameter (the source uses the Euclidean distance to
    the goal); the proof is about the path returned, not about its length. */
module AStar {
  import opened Common
  import opened Bresenham

  /** The walkability matrix, row by row: `m[y][x] == 1` marks a free cell. */
  type Grid = seq<seq<int>>

  /** `len(walkable_matrix[0]) if walkable_matrix else 0`. */
  function Width(m: Grid): nat {
    if |m| == 0 then 0 else |m[0]|
  }

  /** Every row is as long as the first. */
  predicate Rectangular(m: Grid) {
    forall y :: 0 <= y < |m| ==> |m[y]| == Width(m)
  }

  /** The bounds test and matrix lookup the source applies to a cell. */
  predicate Walkable(m: Grid, c: Cell) {
    InRange(c.0, Width(m)) && InRange(c.1, |m|) && c.0 < |m[c.1]| && m[c.1][c.0] == 1
  }

  /** Every cell of the path is walkable. */
  predicate PathClear(m: Grid, p: seq<Cell>) {
    forall i :: 0 <= i < |p| ==> Walkable(m, p[i])
  }

  /** The source's `path_clear` loop: stop at the first blocked cell. */
  method CheckClear(m: Grid, p: seq<Cell>) returns (clear: bool)
    ensures clear <==> PathClear(m, p)
  {
    clear := true;
    var i := 0;
    while i < |p|
      invariant 0 <= i <= |p|
      invariant forall k :: 0 <= k < i ==> Walkable(m, p[k])
    {
      if !Walkable(m, p[i]) {
        clear := false;
        break;
      }
      i := i + 1;
    }
  }

  /** The four candidate moves in the source's order: down, up, right, left. */
  function Moves(c: Cell): (ms: seq<Cell>)
    ensures |ms| == 4
    ensures forall d :: d in ms <==> Adjacent(c, d)
  {
    var r := [(c.0, c.1 + 1), (c.0, c.1 - 1), (c.0 + 1, c.1), (c.0 - 1, c.1)];
    assert forall d :: Adjacent(c, d) ==> d == r[0] || d == r[1] || d == r[2] || d == r[3];
    r
  }

  /** The walkable cells among `cs`, in order. */
  function KeepWalkable(m: Grid, cs: seq<Cell>): (r: seq<Cell>)
    ensures |r| <= |cs|
    ensures forall d :: d in r <==> d in cs && Walkable(m, d)
  {
    if |cs| == 0 then []
    else if Walkable(m, cs[0]) then [cs[0]] + KeepWalkable(m, cs[1..])
    else KeepWalkable(m, cs[1..])
  }

  /** `neighbors(pos)`: the walkable cardinal neighbours of `c`. */
  function Neighbors(m: Grid, c: Cell): (ns: seq<Cell>)
    ensures forall d :: d in ns <==> Adjacent(c, d) && Walkable(m, d)
  {
    KeepWalkable(m, Moves(c))
  }

  /** A heap entry `(f_score, counter, cell)`. */
  datatype Entry = Entry(f: real, counter: nat, cell: Cell)

  /** Python's tuple order on heap entries. */
  predicate EntryLess(a: Entry, b: Entry) {
    a.f < b.f
    || (a.f == b.f && a.counter < b.counter)
    || (a.f == b.f && a.counter == b.counter && a.cell.0 < b.cell.0)
    || (a.f == b.f && a.counter == b.counter && a.cell.0 == b.cell.0 && a.cell.1 < b.cell.1)
  }

  /** The position `heapq.heappop` takes: an entry no other entry is below. */
  function MinIndex(open: seq<Entry>): (k: nat)
    requires |open| > 0
    ensures k < |open|
    ensures forall j :: 0 <= j < |open| ==> !EntryLess(open[j], open[k])
  {
    if |open| == 1 then 0
    else
      var k := MinIndex(open[1..]);
      assert forall j :: 1 <= j < |open| ==> open[j] == open[1..][j - 1];
      if EntryLess(open[k + 1], open[0]) then k + 1 else 0
  }

  /** The search state: the heap, `came_from`, `g_score` and the tie-break counter. */
  datatype Search = Search(open: seq<Entry>, cameFrom: map<Cell, Cell>, g: map<Cell, nat>, counter: nat)

  /** The state before the first pop. */
  function Initial(start: Cell, h: Cell -> real): (s: Search)
    ensures s.open == [Entry(h(start), 0, start)]
    ensures s.g == map[start := 0] && s.cameFrom == map[] && s.counter == 0
  {
    Search([Entry(h(start), 0, start)], map[], map[start := 0], 0)
  }

  /** What the search keeps true: `came_from` is a tree rooted at `start`
      whose parent links are cardinal steps to walkable cells and strictly
      lower `g`, and every heap entry names a cell with a `g` score. */
  predicate SearchTree(m: Grid, start: Cell, s: Search) {
    && start in s.g && s.g[start] == 0 && start !in s.cameFrom
    && (forall c :: c in s.g ==> c == start || c in s.cameFrom)
    && (forall c :: c in s.cameFrom ==>
          c in s.g && s.cameFrom[c] in s.g && s.g[s.cameFrom[c]] < s.g[c]
          && Adjacent(s.cameFrom[c], c) && Walkable(m, c))
    && (forall i :: 0 <= i < |s.open| ==> s.open[i].cell in s.g)
  }

  /** The body of the neighbour loop for one neighbour of `current`. */
  function Relax(s: Search, current: Cell, neighbor: Cell, h: Cell -> real): (t: Search)
    requires current in s.g
    ensures neighbor in t.g && t.g[neighbor] <= s.g[current] + 1
    ensures neighbor in s.g && s.g[neighbor] <= s.g[current] + 1 ==> t == s
    ensures t != s ==>
      (neighbor in t.cameFrom && t.cameFrom[neighbor] == current && t.g[neighbor] == s.g[current] + 1
       && t.open == s.open + [Entry(t.g[neighbor] as real + h(neighbor), s.counter + 1, neighbor)])
  {
    var tentative := s.g[current] + 1;
    if neighbor !in s.g || tentative < s.g[neighbor] then
      Search(s.open + [Entry(tentative as real + h(neighbor), s.counter + 1, neighbor)],
             s.cameFrom[neighbor := current], s.g[neighbor := tentative], s.counter + 1)
    else s
  }

  /** Relaxing a walkable neighbour keeps the search tree intact. */
  lemma RelaxKeepsTree(m: Grid, start: Cell, s: Search, current: Cell, neighbor: Cell, h: Cell -> real)
    requires SearchTree(m, start, s)
    requires current in s.g && Adjacent(current, neighbor) && Walkable(m, neighbor)
    ensures SearchTree(m, start, Relax(s, current, neighbor, h))
  {
    var t := Relax(s, current, neighbor, h);
    if t != s {
      assert neighbor != start;
      forall c | c in t.cameFrom
        ensures c in t.g && t.cameFrom[c] in t.g && t.g[t.cameFrom[c]] < t.g[c]
      {
        if c != neighbor {
          assert t.cameFrom[c] == s.cameFrom[c];
          if s.cameFrom[c] == neighbor {
            assert t.g[neighbor] < s.g[neighbor];
          }
        }
      }
      forall i | 0 <= i < |t.open|
        ensures t.open[i].cell in t.g
      {
        if i < |s.open| {
          assert t.open[i] == s.open[i];
        }
      }
    }
  }

  // ---- Termination measure -------------------------------------------------

  /** The in-bounds cells of the matrix. */
  ghost function InBounds(m: Grid): set<Cell> {
    set x, y | 0 <= x < Width(m) && 0 <= y < |m| :: (x, y)
  }

  /** In-bounds cells the search has not scored yet. */
  ghost function Unscored(m: Grid, s: Search): nat {
    |InBounds(m) - s.g.Keys|
  }

  /** The sum of the `g` scores of the cells in `order`. */
  ghost function SumG(order: seq<Cell>, g: map<Cell, nat>): nat
    requires forall i :: 0 <= i < |order| ==> order[i] in g
  {
    if |order| == 0 then 0 else SumG(order[..|order| - 1], g) + g[order[|order| - 1]]
  }

  /** `order` lists the scored cells, each once, in the order they were found. */
  ghost predicate Discovery(order: seq<Cell>, s: Search) {
    NoRepeats(order) && (forall c :: c in order <==> c in s.g)
  }

  lemma {:induction false} SumGAgree(order: seq<Cell>, g: map<Cell, nat>, g': map<Cell, nat>)
    requires forall i :: 0 <= i < |order| ==> order[i] in g && order[i] in g' && g[order[i]] == g'[order[i]]
    ensures SumG(order, g) == SumG(order, g')
  {
    if |order| > 0 {
      SumGAgree(order[..|order| - 1], g, g');
    }
  }

  /** Lowering one listed score lowers the sum by the same amount. */
  lemma {:induction false} SumGLower(order: seq<Cell>, g: map<Cell, nat>, n: Cell, v: nat)
    requires NoRepeats(order)
    requires forall i :: 0 <= i < |order| ==> order[i] in g
    requires n in order
    ensures SumG(order, g[n := v]) == SumG(order, g) - g[n] + v
  {
    var last := order[|order| - 1];
    var init := order[..|order| - 1];
    if last == n {
      assert n !in init by {
        forall i | 0 <= i < |init|
          ensures init[i] != n
        {
          assert init[i] == order[i];
        }
      }
      SumGAgree(init, g, g[n := v]);
    } else {
      assert n in init by {
        var k :| 0 <= k < |order| && order[k] == n;
        assert init[k] == n;
      }
      SumGLower(init, g, n, v);
    }
  }

  /** Scoring a new cell adds its score to the sum. */
  lemma SumGAppend(order: seq<Cell>, g: map<Cell, nat>, n: Cell, v: nat)
    requires forall i :: 0 <= i < |order| ==> order[i] in g
    requires n !in order
    ensures SumG(order + [n], g[n := v]) == SumG(order, g) + v
  {
    assert (order + [n])[..|order|] == order;
    SumGAgree(order, g, g[n := v]);
  }

  /** `t` is strictly nearer the end of the search than `s`: fewer unscored
      cells, or as many and a lower score sum. */
  ghost predicate Nearer(m: Grid, t: Search, ot: seq<Cell>, s: Search, os: seq<Cell>)
    requires Discovery(ot, t) && Discovery(os, s)
  {
    Unscored(m, t) < Unscored(m, s)
    || (Unscored(m, t) == Unscored(m, s) && SumG(ot, t.g) < SumG(os, s.g))
  }

  /** `t` is `s` unchanged or strictly nearer the end of the search. */
  ghost predicate NoFurther(m: Grid, t: Search, ot: seq<Cell>, s: Search, os: seq<Cell>)
    requires Discovery(ot, t) && Discovery(os, s)
  {
    (t == s && ot == os) || Nearer(m, t, ot, s, os)
  }

  lemma NoFurtherTransitive(m: Grid, a: Search, oa: seq<Cell>, b: Search, ob: seq<Cell>, c: Search, oc: seq<Cell>)
    requires Discovery(oa, a) && Discovery(ob, b) && Discovery(oc, c)
    requires NoFurther(m, a, oa, b, ob) && NoFurther(m, b, ob, c, oc)
    ensures NoFurther(m, a, oa, c, oc)
  {
  }

  /** Lowering the score of a known cell brings the search nearer its end. */
  lemma RescoreProgress(m: Grid, s: Search, order: seq<Cell>, t: Search, n: Cell, v: nat)
    requires Discovery(order, s) && n in s.g && v < s.g[n] && t.g == s.g[n := v]
    ensures Discovery(order, t) && Nearer(m, t, order, s, order)
  {
    assert t.g.Keys == s.g.Keys;
    SumGLower(order, s.g, n, v);
  }

  /** Scoring a new in-bounds cell brings the search nearer its end. */
  lemma DiscoverProgress(m: Grid, s: Search, order: seq<Cell>, t: Search, n: Cell, v: nat)
    requires Discovery(order, s) && n !in s.g && Walkable(m, n) && t.g == s.g[n := v]
    ensures Discovery(order + [n], t) && Nearer(m, t, order + [n], s, order)
  {
    var order' := order + [n];
    assert n in InBounds(m);
    assert InBounds(m) - t.g.Keys == (InBounds(m) - s.g.Keys) - {n};
    SumGAppend(order, s.g, n, v);
    forall i, j | 0 <= i < j < |order'|
      ensures order'[i] != order'[j]
    {
      if j < |order| {
        assert order'[i] == order[i] && order'[j] == order[j];
      } else {
        assert order'[i] == order[i];
      }
    }
  }

  /** A relaxation that changes the state either scores a new in-bounds cell
      or lowers the score of a known one. */
  lemma RelaxProgress(m: Grid, s: Search, order: seq<Cell>, current: Cell, neighbor: Cell, h: Cell -> real)
    returns (order': seq<Cell>)
    requires Discovery(order, s)
    requires current in s.g && Walkable(m, neighbor)
    ensures Discovery(order', Relax(s, current, neighbor, h))
    ensures NoFurther(m, Relax(s, current, neighbor, h), order', s, order)
  {
    var t := Relax(s, current, neighbor, h);
    if t == s {
      order' := order;
    } else if neighbor in s.g {
      order' := order;
      RescoreProgress(m, s, order, t, neighbor, s.g[current] + 1);
    } else {
      order' := order + [neighbor];
      DiscoverProgress(m, s, order, t, neighbor, s.g[current] + 1);
    }
  }

  // ---- The search ----------------------------------------------------------

  /** Follow `came_from` back from `goal` to `start` and reverse: a path from
      `start` to `goal` all of whose cells after the first are walkable. */
  method Reconstruct(m: Grid, start: Cell, s: Search, goal: Cell) returns (path: seq<Cell>)
    requires SearchTree(m, start, s)
    requires goal in s.g
    ensures Connects(path, start, goal)
    ensures forall i :: 1 <= i < |path| ==> Walkable(m, path[i])
  {
    var current := goal;
    path := [current];
    while current in s.cameFrom
      invariant current in s.g
      invariant |path| > 0 && path[0] == current && path[|path| - 1] == goal
      invariant Contiguous(path)
      invariant current == goal || Walkable(m, path[1])
      invariant forall i :: 1 <= i < |path| ==> Walkable(m, path[i])
      invariant current != goal ==> path[1] in s.cameFrom && s.cameFrom[path[1]] == current
      decreases s.g[current]
    {
      var parent := s.cameFrom[current];
      assert Walkable(m, current);
      path := [parent] + path;
      current := parent;
    }
  }

  /** The `for neighbor in neighbors(current)` loop. */
  method Expand(m: Grid, start: Cell, s0: Search, ghost order0: seq<Cell>, current: Cell, h: Cell -> real)
    returns (s: Search, ghost order: seq<Cell>)
    requires SearchTree(m, start, s0) && Discovery(order0, s0) && current in s0.g
    ensures SearchTree(m, start, s) && Discovery(order, s)
    ensures NoFurther(m, s, order, s0, order0)
  {
    var ns := Neighbors(m, current);
    s, order := s0, order0;
    var i := 0;
    while i < |ns|
      invariant 0 <= i <= |ns|
      invariant SearchTree(m, start, s) && Discovery(order, s) && current in s.g
      invariant NoFurther(m, s, order, s0, order0)
    {
      assert ns[i] in ns;
      RelaxKeepsTree(m, start, s, current, ns[i], h);
      var order' := RelaxProgress(m, s, order, current, ns[i], h);
      var t := Relax(s, current, ns[i], h);
      NoFurtherTransitive(m, t, order', s, order, s0, order0);
      s, order := t, order';
      i := i + 1;
    }
  }

  /** `heapq.heappop`: the least entry leaves the heap; nothing else changes. */
  function Pop(s: Search): (r: (Cell, Search))
    requires |s.open| > 0
    ensures |r.1.open| == |s.open| - 1
    ensures r.1.g == s.g && r.1.cameFrom == s.cameFrom && r.1.counter == s.counter
    ensures exists k ::
      (0 <= k < |s.open| && s.open[k].cell == r.0
       && (forall j :: 0 <= j < |s.open| ==> !EntryLess(s.open[j], s.open[k]))
       && r.1.open == s.open[..k] + s.open[k + 1..])
  {
    var k := MinIndex(s.open);
    (s.open[k].cell, s.(open := s.open[..k] + s.open[k + 1..]))
  }

  /** Popping keeps the search tree, and the popped cell has a score. */
  lemma PopKeepsTree(m: Grid, start: Cell, s: Search)
    requires |s.open| > 0 && SearchTree(m, start, s)
    ensures Pop(s).0 in s.g && SearchTree(m, start, Pop(s).1)
  {
    var r := Pop(s);
    var k :| 0 <= k < |s.open| && s.open[k].cell == r.0 && r.1.open == s.open[..k] + s.open[k + 1..];
    assert s.open[k].cell in s.g;
    forall i | 0 <= i < |r.1.open|
      ensures r.1.open[i].cell in r.1.g
    {
      if i < k {
        assert r.1.open[i] == s.open[i];
      } else {
        assert r.1.open[i] == s.open[i + 1];
      }
    }
  }

  /** A pop followed by an expansion decreases the loop's measure: fewer
      unscored cells, or a lower score sum, or a shorter heap. */
  lemma PopExpandProgress(m: Grid, s: Search, popped: Search, order: seq<Cell>, t: Search, order': seq<Cell>)
    requires Discovery(order, s) && popped.g == s.g && |popped.open| < |s.open|
    requires Discovery(order', t) && NoFurther(m, t, order', popped, order)
    ensures Unscored(m, t) < Unscored(m, s)
      || (Unscored(m, t) == Unscored(m, s) && SumG(order', t.g) < SumG(order, s.g))
      || (Unscored(m, t) == Unscored(m, s) && SumG(order', t.g) == SumG(order, s.g) && |t.open| < |s.open|)
  {
    assert Discovery(order, popped);
  }

  /** The `while open_set` loop: `Some` path when the goal is popped, `None`
      when the heap runs empty. */
  method RunSearch(m: Grid, start: Cell, end: Cell, h: Cell -> real) returns (found: Option<seq<Cell>>)
    ensures found.Some? ==> Connects(found.value, start, end)
    ensures found.Some? ==> forall i :: 1 <= i < |found.value| ==> Walkable(m, found.value[i])
  {
    var s := Initial(start, h);
    ghost var order := [start];
    while |s.open| > 0
      invariant SearchTree(m, start, s)
      invariant Discovery(order, s)
      decreases Unscored(m, s), SumG(order, s.g), |s.open|
    {
      PopKeepsTree(m, start, s);
      var (current, popped) := Pop(s);
      if current == end {
        var path := Reconstruct(m, start, popped, current);
        return Some(path);
      }
      var s', order' := Expand(m, start, popped, order, current, h);
      PopExpandProgress(m, s, popped, order, s', order');
      s, order := s', order';
    }
    found := None;
  }

  /** `astar_path(walkable_matrix, start, end)` with heuristic `h`. */
  method AStarPath(m: Grid, start: Cell, end: Cell, h: Cell -> real) returns (path: seq<Cell>)
    ensures Connects(path, start, end)
    ensures PathClear(m, BresenhamPath(start, end)) ==> path == BresenhamPath(start, end)
    ensures path == BresenhamPath(start, end) || forall i :: 1 <= i < |path| ==> Walkable(m, path[i])
  {
    var line := BresenhamPath(start, end);
    BresenhamConnects(start, end);
    var clear := CheckClear(m, line);
    if clear {
      return line;
    }
    var found := RunSearch(m, start, end, h);
    if found.Some? {
      path := found.value;
    } else {
      path := line;
    }
  }
}
