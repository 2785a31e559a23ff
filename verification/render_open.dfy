/** `render_ascii`: the floor-only ASCII view. Rooms are drawn as `.` with
    `S` / `>` at the centre of the spawn and stairs rooms; each connection
    between placed rooms is routed with `astar_path` over a walkability matrix
    in which room tiles are blocked, and drawn as `,` on cells still blank. */
module OpenRender {
  import opened Common
  import opened Text
  import opened Rooms
  import opened Canvas
  import opened Bresenham
  import opened AStar
  import opened LCorridor
  import opened Corridors

  const Blank: char := ' '
  const Floor: char := '.'
  const CorridorTile: char := ','
  const SpawnTile: char := 'S'
  const StairsTile: char := '>'

  /** `max(r.x + r.width) + 2`: the grid width, with padding. */
  function GridWidth(rooms: seq<PlacedRoom>): (w: int)
    requires |rooms| > 0
    ensures forall k :: 0 <= k < |rooms| ==> rooms[k].x + rooms[k].width + 2 <= w
    ensures exists k :: 0 <= k < |rooms| && rooms[k].x + rooms[k].width + 2 == w
  {
    MaxRight(rooms) + 2
  }

  /** `max(r.y + r.height) + 2`: the grid height, with padding. */
  function GridHeight(rooms: seq<PlacedRoom>): (h: int)
    requires |rooms| > 0
    ensures forall k :: 0 <= k < |rooms| ==> rooms[k].y + rooms[k].height + 2 <= h
    ensures exists k :: 0 <= k < |rooms| && rooms[k].y + rooms[k].height + 2 == h
  {
    MaxBottom(rooms) + 2
  }

  // ---- The room layer ------------------------------------------------------

  /** What drawing room `r` leaves at `c`: its marker at the centre of a spawn
      or stairs room, floor elsewhere in its footprint, nothing outside. */
  function RoomMark(r: PlacedRoom, c: Cell): Option<char> {
    if c == Centre(r) && r.isSpawn then Some(SpawnTile)
    else if c == Centre(r) && r.isStairs then Some(StairsTile)
    else if InFootprint(r, c) then Some(Floor)
    else None
  }

  /** One pass of the room loop: the footprint filled with floor, then the
      centre marker, each only inside the grid. */
  function PaintRoom(g: seq<seq<char>>, r: PlacedRoom): (t: seq<seq<char>>)
    ensures |t| == |g| && forall y :: 0 <= y < |g| ==> |t[y]| == |g[y]|
  {
    seq(|g|, y requires 0 <= y < |g| =>
      seq(|g[y]|, x requires 0 <= x < |g[y]| => RoomMark(r, (x, y)).GetOr(g[y][x])))
  }

  /** The room loop over `rooms` in order. */
  function PaintRooms(g: seq<seq<char>>, rooms: seq<PlacedRoom>): (t: seq<seq<char>>)
    ensures |t| == |g| && forall y :: 0 <= y < |g| ==> |t[y]| == |g[y]|
  {
    if |rooms| == 0 then g
    else PaintRoom(PaintRooms(g, rooms[..|rooms| - 1]), rooms[|rooms| - 1])
  }

  /** The mark of the last room in `rooms` that marks `c`. */
  function LastMark(rooms: seq<PlacedRoom>, c: Cell): Option<char> {
    if |rooms| == 0 then None
    else
      match RoomMark(rooms[|rooms| - 1], c)
      case Some(ch) => Some(ch)
      case None => LastMark(rooms[..|rooms| - 1], c)
  }

  /** Each cell ends up as the last room that marks it leaves it, and keeps
      its old content when no room does. */
  lemma {:induction false} PaintRoomsLastWriter(g: seq<seq<char>>, rooms: seq<PlacedRoom>, c: Cell)
    requires 0 <= c.1 < |g| && 0 <= c.0 < |g[c.1]|
    ensures PaintRooms(g, rooms)[c.1][c.0] == LastMark(rooms, c).GetOr(g[c.1][c.0])
  {
    if |rooms| > 0 {
      PaintRoomsLastWriter(g, rooms[..|rooms| - 1], c);
    }
  }

  /** The grid after the room loop. */
  function RoomLayer(rooms: seq<PlacedRoom>, w: int, h: int): (g: seq<seq<char>>)
    ensures IsRect(g, Max(w, 0), Max(h, 0))
  {
    PaintRooms(Fill(w, h, Blank), rooms)
  }

  /** No room draws a corridor tile. */
  lemma RoomLayerHasNoCorridor(rooms: seq<PlacedRoom>, w: int, h: int, c: Cell)
    requires Inside(c, Max(w, 0), Max(h, 0))
    ensures RoomLayer(rooms, w, h)[c.1][c.0] in {Blank, Floor, SpawnTile, StairsTile}
    ensures RoomLayer(rooms, w, h)[c.1][c.0] == Blank <==> LastMark(rooms, c).None?
  {
    PaintRoomsLastWriter(Fill(w, h, Blank), rooms, c);
    LastMarkChar(rooms, c);
  }

  lemma {:induction false} LastMarkChar(rooms: seq<PlacedRoom>, c: Cell)
    ensures LastMark(rooms, c).Some? ==> LastMark(rooms, c).value in {Floor, SpawnTile, StairsTile}
  {
    if |rooms| > 0 {
      LastMarkChar(rooms[..|rooms| - 1], c);
    }
  }

  // ---- The walkability matrix ----------------------------------------------

  /** `(x, y) in room_tiles`: some room's footprint covers the cell. */
  predicate IsRoomTile(rooms: seq<PlacedRoom>, c: Cell) {
    exists k :: 0 <= k < |rooms| && InFootprint(rooms[k], c)
  }

  /** The matrix after the endpoints in `forced` were marked walkable: room
      tiles are blocked unless forced, every other cell is free. */
  function WalkMatrix(rooms: seq<PlacedRoom>, w: int, h: int, forced: set<Cell>): (m: seq<seq<int>>)
    ensures IsRect(m, Max(w, 0), Max(h, 0))
    ensures forall y :: 0 <= y < |m| ==> m[y] == WalkRow(rooms, w, y, forced)
  {
    seq(Max(h, 0), y requires 0 <= y < Max(h, 0) => WalkRow(rooms, w, y, forced))
  }

  /** Row `y` of the walkability matrix. */
  function WalkRow(rooms: seq<PlacedRoom>, w: int, y: int, forced: set<Cell>): (r: seq<int>)
    ensures |r| == Max(w, 0)
  {
    seq(Max(w, 0), x requires 0 <= x < Max(w, 0) =>
      if IsRoomTile(rooms, (x, y)) && (x, y) !in forced then 0 else 1)
  }

  /** The matrix the source builds before routing: room tiles blocked. */
  lemma InitialWalkMatrix(rooms: seq<PlacedRoom>, w: int, h: int, c: Cell)
    requires Inside(c, Max(w, 0), Max(h, 0))
    ensures Walkable(WalkMatrix(rooms, w, h, {}), c) <==> !IsRoomTile(rooms, c)
  {
  }

  /** Marking a cell walkable adds it to the forced set. */
  lemma ForceCell(rooms: seq<PlacedRoom>, w: int, h: int, forced: set<Cell>, c: Cell)
    requires Inside(c, w, h)
    ensures Put(WalkMatrix(rooms, w, h, forced), c, 1) == WalkMatrix(rooms, w, h, forced + {c})
  {
    var m := WalkMatrix(rooms, w, h, forced);
    var a := Put(m, c, 1);
    var b := WalkMatrix(rooms, w, h, forced + {c});
    forall y | 0 <= y < |a|
      ensures a[y] == b[y]
    {
      if y == c.1 {
        ForceRowHit(rooms, w, y, forced, c);
      } else {
        ForceRowMiss(rooms, w, y, forced, c);
      }
    }
  }

  lemma ForceRowHit(rooms: seq<PlacedRoom>, w: int, y: int, forced: set<Cell>, c: Cell)
    requires c.1 == y && 0 <= c.0 < w
    ensures WalkRow(rooms, w, y, forced)[c.0 := 1] == WalkRow(rooms, w, y, forced + {c})
  {
  }

  lemma ForceRowMiss(rooms: seq<PlacedRoom>, w: int, y: int, forced: set<Cell>, c: Cell)
    requires c.1 != y
    ensures WalkRow(rooms, w, y, forced) == WalkRow(rooms, w, y, forced + {c})
  {
  }

  /** A walkable cell of the matrix is inside and is not a room tile unless forced. */
  lemma WalkableCell(rooms: seq<PlacedRoom>, w: int, h: int, forced: set<Cell>, c: Cell)
    requires Walkable(WalkMatrix(rooms, w, h, forced), c)
    ensures Inside(c, w, h) && (!IsRoomTile(rooms, c) || c in forced)
  {
  }

  // ---- Corridors -----------------------------------------------------------

  /** The cells of a path. */
  function Cells(p: seq<Cell>): set<Cell> {
    set i | 0 <= i < |p| :: p[i]
  }

  /** The cells of all routed paths. */
  function AllCells(ps: seq<seq<Cell>>): set<Cell> {
    if |ps| == 0 then {} else AllCells(ps[..|ps| - 1]) + Cells(ps[|ps| - 1])
  }

  /** The room layer with `,` on every blank cell of `cs`. */
  function Overlay(layer: seq<seq<char>>, cs: set<Cell>): (g: seq<seq<char>>)
    ensures |g| == |layer| && forall y :: 0 <= y < |g| ==> |g[y]| == |layer[y]|
  {
    seq(|layer|, y requires 0 <= y < |layer| =>
      seq(|layer[y]|, x requires 0 <= x < |layer[y]| =>
        if layer[y][x] == Blank && (x, y) in cs then CorridorTile else layer[y][x]))
  }

  lemma OverlayKeepsRect(layer: seq<seq<char>>, cs: set<Cell>, w: nat, h: nat)
    requires IsRect(layer, w, h)
    ensures IsRect(Overlay(layer, cs), w, h)
  {
  }

  /** With no corridor cells the overlay is the layer itself. */
  lemma OverlayNothing(layer: seq<seq<char>>)
    ensures Overlay(layer, {}) == layer
  {
    var g := Overlay(layer, {});
    forall y | 0 <= y < |layer|
      ensures g[y] == layer[y]
    {
    }
  }

  /** One step of the drawing loop: a blank cell inside the grid becomes `,`. */
  function PaintCorridorCell(g: seq<seq<char>>, c: Cell): (t: seq<seq<char>>)
    ensures |t| == |g| && forall y :: 0 <= y < |g| ==> |t[y]| == |g[y]|
  {
    if 0 <= c.1 < |g| && 0 <= c.0 < |g[c.1]| && g[c.1][c.0] == Blank then Put(g, c, CorridorTile) else g
  }

  /** The drawing loop over one path. */
  function PaintPath(g: seq<seq<char>>, p: seq<Cell>): (t: seq<seq<char>>)
    ensures |t| == |g| && forall y :: 0 <= y < |g| ==> |t[y]| == |g[y]|
    decreases |p|
  {
    if |p| == 0 then g else PaintPath(PaintCorridorCell(g, p[0]), p[1..])
  }

  lemma PaintCellOverlay(layer: seq<seq<char>>, cs: set<Cell>, c: Cell)
    ensures PaintCorridorCell(Overlay(layer, cs), c) == Overlay(layer, cs + {c})
  {
    var a := PaintCorridorCell(Overlay(layer, cs), c);
    var b := Overlay(layer, cs + {c});
    forall y | 0 <= y < |a|
      ensures a[y] == b[y]
    {
    }
  }

  /** Drawing a path over the overlay of `cs` gives the overlay of `cs` plus
      the path's cells: the order of drawing does not matter. */
  lemma {:induction false} PaintPathOverlay(layer: seq<seq<char>>, cs: set<Cell>, p: seq<Cell>)
    ensures PaintPath(Overlay(layer, cs), p) == Overlay(layer, cs + Cells(p))
    decreases |p|
  {
    if |p| > 0 {
      PaintCellOverlay(layer, cs, p[0]);
      PaintPathOverlay(layer, cs + {p[0]}, p[1..]);
      assert cs + {p[0]} + Cells(p[1..]) == cs + Cells(p) by {
        assert forall i :: 0 < i < |p| ==> p[i] == p[1..][i - 1];
        assert forall i :: 0 <= i < |p| - 1 ==> p[1..][i] == p[i + 1];
      }
    } else {
      assert cs + Cells(p) == cs;
    }
  }

  // ---- Routing -------------------------------------------------------------

  /** The endpoint clamped into the grid. */
  function ClampCell(c: Cell, w: int, h: int): (r: Cell)
    requires w >= 1 && h >= 1
    ensures Inside(r, w, h)
    ensures Inside(c, w, h) ==> r == c
  {
    (Clamp(c.0, w), Clamp(c.1, h))
  }

  /** `find_connection_points` followed by clamping: the two room centres. */
  function Ends(rooms: seq<PlacedRoom>, c: Connection, w: int, h: int): (e: (Cell, Cell))
    requires BothPlaced(rooms, c) && w >= 1 && h >= 1
    ensures Inside(e.0, w, h) && Inside(e.1, w, h)
  {
    (ClampCell(CentreOf(rooms, c.0), w, h), ClampCell(CentreOf(rooms, c.1), w, h))
  }

  /** The endpoints forced walkable while routing `pairs`. */
  function Forced(rooms: seq<PlacedRoom>, pairs: seq<Connection>, w: int, h: int): set<Cell>
    requires forall k :: 0 <= k < |pairs| ==> BothPlaced(rooms, pairs[k])
    requires |pairs| > 0 ==> w >= 1 && h >= 1
  {
    if |pairs| == 0 then {}
    else
      var e := Ends(rooms, pairs[|pairs| - 1], w, h);
      Forced(rooms, pairs[..|pairs| - 1], w, h) + {e.0, e.1}
  }

  /** Every connection of `pairs` has both rooms placed, and the grid has room
      for the endpoints whenever there is one. */
  predicate Routable(rooms: seq<PlacedRoom>, pairs: seq<Connection>, w: int, h: int) {
    (forall k :: 0 <= k < |pairs| ==> BothPlaced(rooms, pairs[k]))
    && (|pairs| > 0 ==> w >= 1 && h >= 1)
  }

  /** `p` is what routing the last connection of `prefix` may return: a path
      between its clamped endpoints that is either the Bresenham line or keeps,
      after its first cell, to the grid and off room tiles other than the
      endpoints forced walkable so far. */
  predicate RouteOk(rooms: seq<PlacedRoom>, prefix: seq<Connection>, w: int, h: int, p: seq<Cell>) {
    Routable(rooms, prefix, w, h) && |prefix| > 0
    && var e := Ends(rooms, prefix[|prefix| - 1], w, h);
    Connects(p, e.0, e.1)
    && (p == BresenhamPath(e.0, e.1)
        || forall i :: 1 <= i < |p| ==>
             Inside(p[i], w, h) && (!IsRoomTile(rooms, p[i]) || p[i] in Forced(rooms, prefix, w, h)))
  }

  /** Path `j` of `routed` is a route for connection `j` of `pairs`. */
  predicate RoutesOk(rooms: seq<PlacedRoom>, pairs: seq<Connection>, w: int, h: int, routed: seq<seq<Cell>>) {
    |routed| == |pairs|
    && forall j :: 0 <= j < |pairs| ==> RouteOk(rooms, pairs[..j + 1], w, h, routed[j])
  }

  /** Routing one more connection forces its two endpoints. */
  lemma ForcedSnoc(rooms: seq<PlacedRoom>, pairs: seq<Connection>, c: Connection, w: int, h: int)
    requires Routable(rooms, pairs, w, h) && BothPlaced(rooms, c) && w >= 1 && h >= 1
    ensures Routable(rooms, pairs + [c], w, h)
    ensures Forced(rooms, pairs + [c], w, h)
      == Forced(rooms, pairs, w, h) + {Ends(rooms, c, w, h).0, Ends(rooms, c, w, h).1}
  {
    assert (pairs + [c])[..|pairs|] == pairs;
  }

  lemma RoutesExtend(rooms: seq<PlacedRoom>, pairs: seq<Connection>, w: int, h: int,
                     routed: seq<seq<Cell>>, c: Connection, p: seq<Cell>)
    requires Routable(rooms, pairs, w, h) && BothPlaced(rooms, c) && w >= 1 && h >= 1
    requires RoutesOk(rooms, pairs, w, h, routed)
    requires Routable(rooms, pairs + [c], w, h) && RouteOk(rooms, pairs + [c], w, h, p)
    ensures RoutesOk(rooms, pairs + [c], w, h, routed + [p])
  {
    var pairs' := pairs + [c];
    forall j | 0 <= j < |pairs'|
      ensures RouteOk(rooms, pairs'[..j + 1], w, h, (routed + [p])[j])
    {
      if j < |pairs| {
        assert pairs'[..j + 1] == pairs[..j + 1] && (routed + [p])[j] == routed[j];
      } else {
        assert pairs'[..j + 1] == pairs';
      }
    }
  }

  /** Forcing the two endpoints of `c` extends the forced set by them. */
  lemma ForceEnds(rooms: seq<PlacedRoom>, pairs: seq<Connection>, c: Connection, w: int, h: int)
    requires Routable(rooms, pairs, w, h) && BothPlaced(rooms, c) && w >= 1 && h >= 1
    ensures Routable(rooms, pairs + [c], w, h)
    ensures var e := Ends(rooms, c, w, h);
      PutEnds(WalkMatrix(rooms, w, h, Forced(rooms, pairs, w, h)), w, h, e.0, e.1)
        == WalkMatrix(rooms, w, h, Forced(rooms, pairs + [c], w, h))
  {
    var e := Ends(rooms, c, w, h);
    var forced := Forced(rooms, pairs, w, h);
    ForcedSnoc(rooms, pairs, c, w, h);
    ForceCell(rooms, w, h, forced, e.0);
    ForceCell(rooms, w, h, forced + {e.0}, e.1);
    AddTwo(forced, e.0, e.1);
  }

  /** `walkable_matrix[y][x] = 1` for both endpoints. */
  function PutEnds(m: seq<seq<int>>, w: nat, h: nat, a: Cell, b: Cell): seq<seq<int>>
    requires IsRect(m, w, h) && Inside(a, w, h) && Inside(b, w, h)
  {
    Put(Put(m, a, 1), b, 1)
  }

  lemma AddTwo<T>(s: set<T>, a: T, b: T)
    ensures s + {a} + {b} == s + {a, b}
  {
  }

  /** A path `astar_path` returned on the forced matrix is a valid route. */
  lemma AStarRouteOk(rooms: seq<PlacedRoom>, pairs: seq<Connection>, c: Connection, w: int, h: int, path: seq<Cell>)
    requires Routable(rooms, pairs, w, h) && BothPlaced(rooms, c) && w >= 1 && h >= 1
    requires Routable(rooms, pairs + [c], w, h)
    requires var e := Ends(rooms, c, w, h);
      Connects(path, e.0, e.1)
      && (path == BresenhamPath(e.0, e.1)
          || forall i :: 1 <= i < |path| ==>
               Walkable(WalkMatrix(rooms, w, h, Forced(rooms, pairs + [c], w, h)), path[i]))
    ensures RouteOk(rooms, pairs + [c], w, h, path)
  {
    var e := Ends(rooms, c, w, h);
    assert (pairs + [c])[|pairs|] == c;
    if path != BresenhamPath(e.0, e.1) {
      forall i | 1 <= i < |path|
        ensures Inside(path[i], w, h) && (!IsRoomTile(rooms, path[i]) || path[i] in Forced(rooms, pairs + [c], w, h))
      {
        WalkableCell(rooms, w, h, Forced(rooms, pairs + [c], w, h), path[i]);
      }
    }
  }

  /** Route one connection: force both endpoints walkable, ask `astar_path`
      with the heuristic aimed at this connection's end (`heuristic(end)`),
      fall back to the L-corridor on an empty answer. */
  method Route(rooms: seq<PlacedRoom>, ghost pairs: seq<Connection>, c: Connection, w: int, h: int,
               walk: seq<seq<int>>, heuristic: Cell -> Cell -> real)
    returns (walk': seq<seq<int>>, path: seq<Cell>)
    requires Routable(rooms, pairs, w, h) && BothPlaced(rooms, c) && w >= 1 && h >= 1
    requires walk == WalkMatrix(rooms, w, h, Forced(rooms, pairs, w, h))
    ensures Routable(rooms, pairs + [c], w, h)
    ensures walk' == WalkMatrix(rooms, w, h, Forced(rooms, pairs + [c], w, h))
    ensures RouteOk(rooms, pairs + [c], w, h, path)
  {
    var e := Ends(rooms, c, w, h);
    ForceEnds(rooms, pairs, c, w, h);
    walk' := PutEnds(walk, w, h, e.0, e.1);
    path := FindPath(walk', e.0, e.1, heuristic(e.1));
    AStarRouteOk(rooms, pairs, c, w, h, path);
  }

  /** `astar_path` on the forced matrix, with the L-corridor for an empty answer. */
  method FindPath(walk: seq<seq<int>>, start: Cell, end: Cell, heuristic: Cell -> real) returns (path: seq<Cell>)
    ensures Connects(path, start, end)
    ensures path == BresenhamPath(start, end) || forall i :: 1 <= i < |path| ==> Walkable(walk, path[i])
  {
    path := AStarPath(walk, start, end, heuristic);
    if |path| == 0 {
      path := SimpleLCorridor(start, end);
    }
  }

  /** The placed connections of `cs[..k + 1]` extend those of `cs[..k]` by
      `cs[k]` exactly when both its rooms are placed. */
  lemma PlacedPrefix(rooms: seq<PlacedRoom>, cs: seq<Connection>, k: nat)
    requires k < |cs|
    ensures PlacedPairs(rooms, cs[..k + 1]) ==
      if BothPlaced(rooms, cs[k]) then PlacedPairs(rooms, cs[..k]) + [cs[k]] else PlacedPairs(rooms, cs[..k])
    ensures BothPlaced(rooms, cs[k]) ==> |PlacedPairs(rooms, cs)| > 0
  {
    assert cs[..k + 1] == cs[..k] + [cs[k]];
    PlacedPairsConcat(rooms, cs[..k], [cs[k]]);
    assert [cs[k]][1..] == cs[k + 1..k + 1];
    assert cs[k] in cs;
  }

  /** One pass of the connection loop for a placed connection: route it and
      draw the path. */
  method RouteAndDraw(rooms: seq<PlacedRoom>, layer: seq<seq<char>>, ghost pairs: seq<Connection>,
                      c: Connection, w: int, h: int, walk: seq<seq<int>>, grid: seq<seq<char>>,
                      routed: seq<seq<Cell>>, heuristic: Cell -> Cell -> real)
    returns (walk': seq<seq<int>>, grid': seq<seq<char>>, routed': seq<seq<Cell>>)
    requires Routable(rooms, pairs, w, h) && BothPlaced(rooms, c) && w >= 1 && h >= 1
    requires walk == WalkMatrix(rooms, w, h, Forced(rooms, pairs, w, h))
    requires grid == Overlay(layer, AllCells(routed))
    requires RoutesOk(rooms, pairs, w, h, routed)
    ensures Routable(rooms, pairs + [c], w, h)
    ensures walk' == WalkMatrix(rooms, w, h, Forced(rooms, pairs + [c], w, h))
    ensures grid' == Overlay(layer, AllCells(routed'))
    ensures RoutesOk(rooms, pairs + [c], w, h, routed')
  {
    var path;
    walk', path := Route(rooms, pairs, c, w, h, walk, heuristic);
    PaintPathOverlay(layer, AllCells(routed), path);
    grid' := PaintPath(grid, path);
    RoutesExtend(rooms, pairs, w, h, routed, c, path);
    routed' := routed + [path];
    assert routed'[..|routed|] == routed;
  }

  /** One pass of the connection loop: skip a connection with an unplaced
      room, route and draw any other. */
  method Visit(rooms: seq<PlacedRoom>, layer: seq<seq<char>>, ghost pairs: seq<Connection>,
               c: Connection, w: int, h: int, walk: seq<seq<int>>, grid: seq<seq<char>>,
               routed: seq<seq<Cell>>, heuristic: Cell -> Cell -> real)
    returns (walk': seq<seq<int>>, grid': seq<seq<char>>, routed': seq<seq<Cell>>, ghost pairs': seq<Connection>)
    requires Routable(rooms, pairs, w, h) && (BothPlaced(rooms, c) ==> w >= 1 && h >= 1)
    requires walk == WalkMatrix(rooms, w, h, Forced(rooms, pairs, w, h))
    requires grid == Overlay(layer, AllCells(routed))
    requires RoutesOk(rooms, pairs, w, h, routed)
    ensures pairs' == if BothPlaced(rooms, c) then pairs + [c] else pairs
    ensures Routable(rooms, pairs', w, h)
    ensures walk' == WalkMatrix(rooms, w, h, Forced(rooms, pairs', w, h))
    ensures grid' == Overlay(layer, AllCells(routed'))
    ensures RoutesOk(rooms, pairs', w, h, routed')
  {
    if BothPlaced(rooms, c) {
      walk', grid', routed' := RouteAndDraw(rooms, layer, pairs, c, w, h, walk, grid, routed, heuristic);
      pairs' := pairs + [c];
    } else {
      walk', grid', routed', pairs' := walk, grid, routed, pairs;
    }
  }

  /** The routing state after the first `k` connections of `cs`: the walkable
      matrix forces their endpoints and the grid shows their routed paths. */
  predicate RoutedPrefix(rooms: seq<PlacedRoom>, cs: seq<Connection>, k: nat, w: int, h: int,
                         layer: seq<seq<char>>, walk: seq<seq<int>>, grid: seq<seq<char>>,
                         routed: seq<seq<Cell>>)
    requires k <= |cs|
  {
    var pairs := PlacedPairs(rooms, cs[..k]);
    Routable(rooms, pairs, w, h)
    && walk == WalkMatrix(rooms, w, h, Forced(rooms, pairs, w, h))
    && grid == Overlay(layer, AllCells(routed))
    && RoutesOk(rooms, pairs, w, h, routed)
  }

  /** Connection `k` of `cs` taken through one pass of the loop. */
  method VisitAt(rooms: seq<PlacedRoom>, cs: seq<Connection>, k: nat, w: int, h: int,
                 layer: seq<seq<char>>, walk: seq<seq<int>>, grid: seq<seq<char>>,
                 routed: seq<seq<Cell>>, heuristic: Cell -> Cell -> real)
    returns (walk': seq<seq<int>>, grid': seq<seq<char>>, routed': seq<seq<Cell>>)
    requires k < |cs| && (|PlacedPairs(rooms, cs)| > 0 ==> w >= 1 && h >= 1)
    requires RoutedPrefix(rooms, cs, k, w, h, layer, walk, grid, routed)
    ensures RoutedPrefix(rooms, cs, k + 1, w, h, layer, walk', grid', routed')
  {
    PlacedPrefix(rooms, cs, k);
    ghost var pairs';
    walk', grid', routed', pairs' :=
      Visit(rooms, layer, PlacedPairs(rooms, cs[..k]), cs[k], w, h, walk, grid, routed, heuristic);
  }

  /** The connection loop of `render_ascii` over a `w x h` grid whose room
      layer is `layer`. */
  method RouteAll(rooms: seq<PlacedRoom>, cs: seq<Connection>, w: int, h: int,
                  layer: seq<seq<char>>, heuristic: Cell -> Cell -> real)
    returns (grid: seq<seq<char>>, routed: seq<seq<Cell>>)
    requires |PlacedPairs(rooms, cs)| > 0 ==> w >= 1 && h >= 1
    ensures Routable(rooms, PlacedPairs(rooms, cs), w, h)
    ensures grid == Overlay(layer, AllCells(routed))
    ensures RoutesOk(rooms, PlacedPairs(rooms, cs), w, h, routed)
  {
    grid := layer;
    var walk := WalkMatrix(rooms, w, h, {});
    routed := [];
    OverlayNothing(layer);
    assert cs[..0] == [];
    var k := 0;
    while k < |cs|
      invariant 0 <= k <= |cs|
      invariant RoutedPrefix(rooms, cs, k, w, h, layer, walk, grid, routed)
    {
      walk, grid, routed := VisitAt(rooms, cs, k, w, h, layer, walk, grid, routed, heuristic);
      k := k + 1;
    }
    assert cs[..k] == cs;
  }

  /** `render_ascii(placed_rooms, corridors, ...)`. The routed paths are
      returned beside the text so the contract can speak about them;
      `heuristic(end)(cell)` stands for the Euclidean distance from the cell
      to the end of the connection being routed. */
  method RenderAscii(rooms: seq<PlacedRoom>, cs: seq<Connection>, heuristic: Cell -> Cell -> real)
    returns (text: string, grid: seq<seq<char>>, routed: seq<seq<Cell>>)
    requires |rooms| > 0
    requires |PlacedPairs(rooms, cs)| > 0 ==> GridWidth(rooms) >= 1 && GridHeight(rooms) >= 1
    ensures IsRect(grid, Max(GridWidth(rooms), 0), Max(GridHeight(rooms), 0))
    ensures text == Join(grid, '\n')
    ensures grid == Overlay(RoomLayer(rooms, GridWidth(rooms), GridHeight(rooms)), AllCells(routed))
    ensures Routable(rooms, PlacedPairs(rooms, cs), GridWidth(rooms), GridHeight(rooms))
    ensures RoutesOk(rooms, PlacedPairs(rooms, cs), GridWidth(rooms), GridHeight(rooms), routed)
  {
    var w, h := GridWidth(rooms), GridHeight(rooms);
    var layer := RoomLayer(rooms, w, h);
    grid, routed := RouteAll(rooms, cs, w, h, layer, heuristic);
    OverlayKeepsRect(layer, AllCells(routed), Max(w, 0), Max(h, 0));
    text := Join(grid, '\n');
  }
}
