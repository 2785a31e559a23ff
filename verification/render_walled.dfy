/** `render_ascii` of placement/test_placement.py: the walled ASCII view of a
    solver placement. Every room is a box of `#` walls around floor drawn in
    its type's character; corridor tiles then turn blank cells into `,` and
    wall cells into `+` doors. */
module WalledRender {
  import opened Common
  import opened Text
  import opened Canvas

  const Blank: char := ' '
  const Wall: char := '#'
  const CorridorTile: char := ','
  const Door: char := '+'

  /** The solver's answer as `solve` lists it: `(room, value)` pairs per
      predicate and the corridor tiles. A predicate the answer lacks is an
      empty list, as `placement.get(key, [])` reads it. */
  datatype Placement = Placement(
    roomX: seq<(int, int)>, roomY: seq<(int, int)>,
    roomW: seq<(int, int)>, roomH: seq<(int, int)>,
    roomType: seq<(int, string)>, corridorTiles: seq<Cell>)

  // ---- Dictionaries built from pairs ---------------------------------------

  /** `{r: v for r, v in pairs}`: a later pair overwrites an earlier one. */
  function DictOf<V>(pairs: seq<(int, V)>): map<int, V> {
    if |pairs| == 0 then map[]
    else DictOf(pairs[..|pairs| - 1])[pairs[|pairs| - 1].0 := pairs[|pairs| - 1].1]
  }

  /** The index of the last pair with key `k`, or -1 when there is none. */
  function LastPair<V>(pairs: seq<(int, V)>, k: int): (i: int)
    ensures -1 <= i < |pairs|
    ensures i >= 0 ==> pairs[i].0 == k
    ensures forall j :: i < j < |pairs| ==> pairs[j].0 != k
  {
    if |pairs| == 0 then -1
    else if pairs[|pairs| - 1].0 == k then |pairs| - 1
    else
      var init := pairs[..|pairs| - 1];
      assert forall j :: 0 <= j < |init| ==> init[j] == pairs[j];
      LastPair(init, k)
  }

  /** A key is in the dictionary exactly when some pair names it, and it maps
      to the value of the last such pair. */
  lemma {:induction false} DictOfLast<V>(pairs: seq<(int, V)>, k: int)
    ensures k in DictOf(pairs) <==> LastPair(pairs, k) >= 0
    ensures k in DictOf(pairs) ==> DictOf(pairs)[k] == pairs[LastPair(pairs, k)].1
  {
    if |pairs| > 0 {
      var init := pairs[..|pairs| - 1];
      DictOfLast(init, k);
      if pairs[|pairs| - 1].0 != k && LastPair(init, k) >= 0 {
        assert pairs[LastPair(init, k)] == init[LastPair(init, k)];
      }
    }
  }

  /** The dictionary's keys in iteration order: a key keeps the place of the
      pair that first named it. */
  function KeysOf<V>(pairs: seq<(int, V)>): (ks: seq<int>)
    ensures NoRepeats(ks)
    ensures forall k :: k in ks <==> k in DictOf(pairs)
  {
    if |pairs| == 0 then []
    else
      var prev := KeysOf(pairs[..|pairs| - 1]);
      var k := pairs[|pairs| - 1].0;
      if k in prev then prev
      else
        assert forall i :: 0 <= i < |prev| ==> (prev + [k])[i] == prev[i];
        prev + [k]
  }

  /** Repeating a pair's key later does not move it: keys come in the order
      of their first pair. */
  lemma {:induction false} KeysOfFirst<V>(pairs: seq<(int, V)>, i: nat, j: nat)
    requires i < j < |pairs| && pairs[i].0 != pairs[j].0
    requires forall m :: 0 <= m < i ==> pairs[m].0 != pairs[i].0
    requires forall m :: 0 <= m < j ==> pairs[m].0 != pairs[j].0
    ensures exists a, b :: 0 <= a < b < |KeysOf(pairs)| && KeysOf(pairs)[a] == pairs[i].0 && KeysOf(pairs)[b] == pairs[j].0
  {
    var init := pairs[..j];
    assert forall m :: 0 <= m < j ==> init[m] == pairs[m];
    KeysOfPrefix(pairs, j);
    assert pairs[i].0 in DictOf(init) by {
      assert init[i] == pairs[i];
      DictOfLast(init, pairs[i].0);
    }
    assert pairs[j].0 !in DictOf(init) by {
      DictOfLast(init, pairs[j].0);
    }
    var ks := KeysOf(pairs);
    var a :| 0 <= a < |KeysOf(init)| && KeysOf(init)[a] == pairs[i].0;
    KeysOfAppendNew(pairs, j);
    assert ks[a] == pairs[i].0;
    assert ks[|KeysOf(init)|] == pairs[j].0;
  }

  /** The keys of a prefix are a prefix of the keys. */
  lemma {:induction false} KeysOfPrefix<V>(pairs: seq<(int, V)>, n: nat)
    requires n <= |pairs|
    ensures |KeysOf(pairs[..n])| <= |KeysOf(pairs)|
    ensures KeysOf(pairs)[..|KeysOf(pairs[..n])|] == KeysOf(pairs[..n])
    decreases |pairs|
  {
    if n < |pairs| {
      var init := pairs[..|pairs| - 1];
      assert init[..n] == pairs[..n];
      KeysOfPrefix(init, n);
    } else {
      assert pairs[..n] == pairs;
    }
  }

  /** A key that no pair before `j` names is the next key after those of the
      first `j` pairs. */
  lemma {:induction false} KeysOfAppendNew<V>(pairs: seq<(int, V)>, j: nat)
    requires j < |pairs|
    requires pairs[j].0 !in DictOf(pairs[..j])
    ensures |KeysOf(pairs[..j])| < |KeysOf(pairs)|
    ensures KeysOf(pairs)[|KeysOf(pairs[..j])|] == pairs[j].0
  {
    assert pairs[..j + 1][..j] == pairs[..j];
    assert KeysOf(pairs[..j + 1]) == KeysOf(pairs[..j]) + [pairs[j].0];
    KeysOfPrefix(pairs, j + 1);
  }

  // ---- Rooms ---------------------------------------------------------------

  /** One room as the drawing loop reads it. */
  datatype Box = Box(x: int, y: int, w: int, h: int, kind: string)

  /** `room_y[r]`, `room_w[r]` and `room_h[r]` exist for every key of
      `room_x`; the source raises `KeyError` otherwise. */
  predicate Complete(p: Placement) {
    forall k :: k in DictOf(p.roomX) ==> k in DictOf(p.roomY) && k in DictOf(p.roomW) && k in DictOf(p.roomH)
  }

  /** The rooms in the order `room_x.keys()` lists them; a room without a
      `room_type` is `"normal"`. */
  function Boxes(p: Placement): (bs: seq<Box>)
    requires Complete(p)
    ensures |bs| == |KeysOf(p.roomX)|
    ensures forall i :: 0 <= i < |bs| ==> BoxOfLastPairs(p, KeysOf(p.roomX)[i], bs[i])
  {
    var ks := KeysOf(p.roomX);
    var bs := seq(|ks|, i requires 0 <= i < |ks| =>
      var r := ks[i];
      Box(DictOf(p.roomX)[r], DictOf(p.roomY)[r], DictOf(p.roomW)[r], DictOf(p.roomH)[r],
          if r in DictOf(p.roomType) then DictOf(p.roomType)[r] else "normal"));
    assert forall i :: 0 <= i < |bs| ==> BoxOfLastPairs(p, ks[i], bs[i]) by {
      forall i | 0 <= i < |bs|
        ensures BoxOfLastPairs(p, ks[i], bs[i])
      {
        var r := ks[i];
        DictOfLast(p.roomX, r);
        DictOfLast(p.roomY, r);
        DictOfLast(p.roomW, r);
        DictOfLast(p.roomH, r);
        DictOfLast(p.roomType, r);
      }
    }
    bs
  }

  /** Room `r`'s box, read straight from the pairs: position and size from
      the last pair naming `r` in each list, and the type from the last
      `room_type` pair, `"normal"` when there is none. */
  predicate BoxOfLastPairs(p: Placement, r: int, b: Box) {
    var ix, iy, iw, ih, it :=
      LastPair(p.roomX, r), LastPair(p.roomY, r), LastPair(p.roomW, r), LastPair(p.roomH, r), LastPair(p.roomType, r);
    ix >= 0 && iy >= 0 && iw >= 0 && ih >= 0 &&
    b.x == p.roomX[ix].1 && b.y == p.roomY[iy].1 && b.w == p.roomW[iw].1 && b.h == p.roomH[ih].1 &&
    b.kind == (if it >= 0 then p.roomType[it].1 else "normal")
  }

  /** `floor_char.get(t, ".")`. */
  function FloorChar(kind: string): (c: char)
    ensures c in {'@', 'B', '$', 'T', '.'}
    ensures c == '.' <==> kind !in ["spawn", "boss", "shop", "treasure"]
  {
    if kind == "spawn" then '@'
    else if kind == "boss" then 'B'
    else if kind == "shop" then '$'
    else if kind == "treasure" then 'T'
    else '.'
  }

  /** The cell lies in the box's `range(w) x range(h)` offsets. */
  predicate InBox(b: Box, c: Cell) {
    b.x <= c.0 < b.x + b.w && b.y <= c.1 < b.y + b.h
  }

  /** The offset is on the first or last row or column of the box. */
  predicate OnPerimeter(b: Box, c: Cell) {
    c.0 - b.x == 0 || c.0 - b.x == b.w - 1 || c.1 - b.y == 0 || c.1 - b.y == b.h - 1
  }

  /** What drawing box `b` leaves at `c`: a wall on the perimeter, the type's
      floor inside, nothing outside the box. */
  function BoxMark(b: Box, c: Cell): Option<char> {
    if !InBox(b, c) then None
    else if OnPerimeter(b, c) then Some(Wall)
    else Some(FloorChar(b.kind))
  }

  /** One pass of the room loop, stated cell by cell: every cell of the grid
      the box covers takes its mark. */
  function PaintBox(g: seq<seq<char>>, b: Box): (t: seq<seq<char>>)
    ensures |t| == |g| && forall y :: 0 <= y < |g| ==> |t[y]| == |g[y]|
  {
    seq(|g|, y requires 0 <= y < |g| =>
      seq(|g[y]|, x requires 0 <= x < |g[y]| => BoxMark(b, (x, y)).GetOr(g[y][x])))
  }

  /** The grid cells the loop has written after the rows `dy' < dy` and the
      first `dx` offsets of row `dy`. */
  predicate Written(b: Box, c: Cell, dy: int, dx: int) {
    InBox(b, c) && (c.1 - b.y < dy || (c.1 - b.y == dy && c.0 - b.x < dx))
  }

  /** The grid holds the box's marks on the written cells and the old
      content everywhere else. */
  predicate DrawnSoFar(t: seq<seq<char>>, g: seq<seq<char>>, n: nat, b: Box, dy: int, dx: int)
    requires IsRect(t, n, n) && IsRect(g, n, n)
  {
    forall y, x :: 0 <= y < n && 0 <= x < n ==>
      t[y][x] == if Written(b, (x, y), dy, dx) then BoxMark(b, (x, y)).value else g[y][x]
  }

  /** One pass of the inner loop writes the mark of offset `(dx, dy)`. */
  lemma DrawStep(t: seq<seq<char>>, g: seq<seq<char>>, n: nat, b: Box, dy: int, dx: int)
    requires IsRect(t, n, n) && IsRect(g, n, n)
    requires 0 <= dy < b.h && 0 <= dx < b.w
    requires DrawnSoFar(t, g, n, b, dy, dx)
    ensures var c := (b.x + dx, b.y + dy);
            var t' := if Inside(c, n, n) then Put(t, c, BoxMark(b, c).value) else t;
            IsRect(t', n, n) && DrawnSoFar(t', g, n, b, dy, dx + 1)
  {
  }

  /** The inner `for dx` loop over one row of the box. */
  method DrawRow(t: seq<seq<char>>, ghost g: seq<seq<char>>, n: nat, b: Box, dy: int) returns (t': seq<seq<char>>)
    requires IsRect(t, n, n) && IsRect(g, n, n)
    requires 0 <= dy < b.h
    requires DrawnSoFar(t, g, n, b, dy, 0)
    ensures IsRect(t', n, n) && DrawnSoFar(t', g, n, b, dy + 1, 0)
  {
    t' := t;
    var dx := 0;
    while dx < b.w
      invariant IsRect(t', n, n)
      invariant 0 <= dx <= Max(b.w, 0)
      invariant DrawnSoFar(t', g, n, b, dy, dx)
    {
      DrawStep(t', g, n, b, dy, dx);
      var px, py := b.x + dx, b.y + dy;
      if 0 <= px < n && 0 <= py < n {
        var ch := if dx == 0 || dx == b.w - 1 || dy == 0 || dy == b.h - 1 then Wall else FloorChar(b.kind);
        assert BoxMark(b, (px, py)) == Some(ch);
        t' := Put(t', (px, py), ch);
      }
      dx := dx + 1;
    }
    assert dx == Max(b.w, 0);
    RowDone(t', g, n, b, dy);
  }

  /** Finishing row `dy` is starting row `dy + 1`. */
  lemma RowDone(t: seq<seq<char>>, g: seq<seq<char>>, n: nat, b: Box, dy: int)
    requires IsRect(t, n, n) && IsRect(g, n, n)
    requires DrawnSoFar(t, g, n, b, dy, Max(b.w, 0))
    ensures DrawnSoFar(t, g, n, b, dy + 1, 0)
  {
    assert forall y, x :: 0 <= y < n && 0 <= x < n ==>
      (Written(b, (x, y), dy, Max(b.w, 0)) <==> Written(b, (x, y), dy + 1, 0));
  }

  /** The room's nested `for dy` / `for dx` loop with its bounds check. */
  method DrawBox(g: seq<seq<char>>, n: nat, b: Box) returns (t: seq<seq<char>>)
    requires IsRect(g, n, n)
    ensures t == PaintBox(g, b)
  {
    t := g;
    var dy := 0;
    while dy < b.h
      invariant IsRect(t, n, n)
      invariant 0 <= dy && (b.h >= 0 ==> dy <= b.h)
      invariant DrawnSoFar(t, g, n, b, dy, 0)
    {
      t := DrawRow(t, g, n, b, dy);
      dy := dy + 1;
    }
    BoxDone(t, g, n, b, dy);
  }

  /** After the last row every cell of the box holds its mark. */
  lemma BoxDone(t: seq<seq<char>>, g: seq<seq<char>>, n: nat, b: Box, dy: int)
    requires IsRect(t, n, n) && IsRect(g, n, n)
    requires dy >= b.h
    requires DrawnSoFar(t, g, n, b, dy, 0)
    ensures t == PaintBox(g, b)
  {
    forall y | 0 <= y < n
      ensures t[y] == PaintBox(g, b)[y]
    {
    }
  }

  /** The room loop over the boxes in order. */
  function PaintBoxes(g: seq<seq<char>>, bs: seq<Box>): (t: seq<seq<char>>)
    ensures |t| == |g| && forall y :: 0 <= y < |g| ==> |t[y]| == |g[y]|
  {
    if |bs| == 0 then g else PaintBox(PaintBoxes(g, bs[..|bs| - 1]), bs[|bs| - 1])
  }

  /** The room loop as the source runs it, one box at a time. */
  method DrawBoxes(g: seq<seq<char>>, n: nat, bs: seq<Box>) returns (t: seq<seq<char>>)
    requires IsRect(g, n, n)
    ensures t == PaintBoxes(g, bs)
  {
    t := g;
    var i := 0;
    while i < |bs|
      invariant i <= |bs|
      invariant t == PaintBoxes(g, bs[..i])
    {
      assert bs[..i + 1][..i] == bs[..i];
      t := DrawBox(t, n, bs[i]);
      i := i + 1;
    }
    assert bs[..i] == bs;
  }

  /** The mark of the last box in `bs` that covers `c`. */
  function LastMark(bs: seq<Box>, c: Cell): Option<char> {
    if |bs| == 0 then None
    else
      match BoxMark(bs[|bs| - 1], c)
      case Some(ch) => Some(ch)
      case None => LastMark(bs[..|bs| - 1], c)
  }

  /** Each cell ends up as the last box covering it leaves it, and keeps its
      old content when no box covers it. */
  lemma {:induction false} PaintBoxesLastWriter(g: seq<seq<char>>, bs: seq<Box>, c: Cell)
    requires 0 <= c.1 < |g| && 0 <= c.0 < |g[c.1]|
    ensures PaintBoxes(g, bs)[c.1][c.0] == LastMark(bs, c).GetOr(g[c.1][c.0])
  {
    if |bs| > 0 {
      PaintBoxesLastWriter(g, bs[..|bs| - 1], c);
    }
  }

  /** A covered cell is a wall exactly when it lies on the perimeter of the
      last box that covers it. */
  lemma {:induction false} LastMarkWall(bs: seq<Box>, c: Cell)
    ensures LastMark(bs, c).Some? <==> exists k :: 0 <= k < |bs| && InBox(bs[k], c)
    ensures LastMark(bs, c).Some? ==> LastMark(bs, c).value in {Wall, '@', 'B', '$', 'T', '.'}
  {
    if |bs| > 0 {
      var init := bs[..|bs| - 1];
      LastMarkWall(init, c);
      assert forall k :: 0 <= k < |init| ==> init[k] == bs[k];
    }
  }

  // ---- Corridors -----------------------------------------------------------

  /** What a corridor tile does to a cell: blank becomes `,`, a wall becomes
      a door, anything else stays. */
  function Tile(ch: char): (t: char)
    ensures ch == Blank ==> t == CorridorTile
    ensures ch == Wall ==> t == Door
    ensures ch != Blank && ch != Wall ==> t == ch
  {
    if ch == Blank then CorridorTile else if ch == Wall then Door else ch
  }

  /** Marking a cell twice is marking it once. */
  lemma TileIdempotent(ch: char)
    ensures Tile(Tile(ch)) == Tile(ch)
  {
  }

  /** One pass of the corridor loop. */
  function PaintTile(g: seq<seq<char>>, c: Cell): (t: seq<seq<char>>)
    ensures |t| == |g| && forall y :: 0 <= y < |g| ==> |t[y]| == |g[y]|
  {
    if 0 <= c.1 < |g| && 0 <= c.0 < |g[c.1]| then Put(g, c, Tile(g[c.1][c.0])) else g
  }

  /** The corridor loop over the tiles in order. */
  function PaintTiles(g: seq<seq<char>>, tiles: seq<Cell>): (t: seq<seq<char>>)
    ensures |t| == |g| && forall y :: 0 <= y < |g| ==> |t[y]| == |g[y]|
    decreases |tiles|
  {
    if |tiles| == 0 then g else PaintTiles(PaintTile(g, tiles[0]), tiles[1..])
  }

  /** The cells of a tile list. */
  function Cells(p: seq<Cell>): set<Cell> {
    set i | 0 <= i < |p| :: p[i]
  }

  /** The layer with every cell of `cs` marked once. */
  function Overlay(layer: seq<seq<char>>, cs: set<Cell>): (g: seq<seq<char>>)
    ensures |g| == |layer| && forall y :: 0 <= y < |g| ==> |g[y]| == |layer[y]|
  {
    seq(|layer|, y requires 0 <= y < |layer| =>
      seq(|layer[y]|, x requires 0 <= x < |layer[y]| =>
        if (x, y) in cs then Tile(layer[y][x]) else layer[y][x]))
  }

  lemma PaintTileOverlay(layer: seq<seq<char>>, cs: set<Cell>, c: Cell)
    ensures PaintTile(Overlay(layer, cs), c) == Overlay(layer, cs + {c})
  {
    var a := PaintTile(Overlay(layer, cs), c);
    var b := Overlay(layer, cs + {c});
    forall y | 0 <= y < |a|
      ensures a[y] == b[y]
    {
      forall x | 0 <= x < |a[y]|
        ensures a[y][x] == b[y][x]
      {
        if (x, y) == c && c in cs {
          TileIdempotent(layer[y][x]);
        }
      }
    }
  }

  /** Running the corridor loop over the tiles marks each of their cells
      once, whatever the order and however often a tile repeats. */
  lemma {:induction false} PaintTilesOverlay(layer: seq<seq<char>>, cs: set<Cell>, tiles: seq<Cell>)
    ensures PaintTiles(Overlay(layer, cs), tiles) == Overlay(layer, cs + Cells(tiles))
    decreases |tiles|
  {
    if |tiles| > 0 {
      PaintTileOverlay(layer, cs, tiles[0]);
      PaintTilesOverlay(layer, cs + {tiles[0]}, tiles[1..]);
      assert cs + {tiles[0]} + Cells(tiles[1..]) == cs + Cells(tiles) by {
        assert forall i :: 0 < i < |tiles| ==> tiles[i] == tiles[1..][i - 1];
        assert forall i :: 0 <= i < |tiles| - 1 ==> tiles[1..][i] == tiles[i + 1];
      }
    } else {
      assert cs + Cells(tiles) == cs;
    }
  }

  // ---- The whole renderer --------------------------------------------------

  /** The grid after both loops. */
  function Grid(p: Placement, n: int): (g: seq<seq<char>>)
    requires Complete(p)
    ensures IsRect(g, Max(n, 0), Max(n, 0))
  {
    PaintTiles(PaintBoxes(Fill(n, n, Blank), Boxes(p)), p.corridorTiles)
  }

  /** `render_ascii(placement, grid_size)`: the rows joined by newlines. */
  function RenderAscii(p: Placement, n: int): (s: string)
    requires Complete(p)
    ensures n <= 0 ==> s == ""
  {
    Join(Grid(p, n), '\n')
  }

  /** Every cell of the picture, stated without the loops: the mark of the
      last room covering it (blank when none does), then turned by a
      corridor tile when one lies there. */
  lemma GridCell(p: Placement, n: int, c: Cell)
    requires Complete(p) && Inside(c, n, n)
    ensures var base := LastMark(Boxes(p), c).GetOr(Blank);
            Grid(p, n)[c.1][c.0] == if c in Cells(p.corridorTiles) then Tile(base) else base
  {
    var layer := PaintBoxes(Fill(n, n, Blank), Boxes(p));
    assert Overlay(layer, {}) == layer by {
      var g := Overlay(layer, {});
      forall y | 0 <= y < |layer|
        ensures g[y] == layer[y]
      {
      }
    }
    PaintTilesOverlay(layer, {}, p.corridorTiles);
    assert {} + Cells(p.corridorTiles) == Cells(p.corridorTiles);
    PaintBoxesLastWriter(Fill(n, n, Blank), Boxes(p), c);
  }

  /** A door is a corridor tile on a room's wall, and a `,` a corridor tile
      that no room covers. */
  lemma DoorsAndCorridors(p: Placement, n: int, c: Cell)
    requires Complete(p) && Inside(c, n, n)
    ensures Grid(p, n)[c.1][c.0] == Door <==>
              c in Cells(p.corridorTiles) && LastMark(Boxes(p), c) == Some(Wall)
    ensures Grid(p, n)[c.1][c.0] == CorridorTile <==>
              c in Cells(p.corridorTiles) && !exists k :: 0 <= k < |Boxes(p)| && InBox(Boxes(p)[k], c)
    ensures Grid(p, n)[c.1][c.0] == Blank <==>
              c !in Cells(p.corridorTiles) && !exists k :: 0 <= k < |Boxes(p)| && InBox(Boxes(p)[k], c)
  {
    GridCell(p, n, c);
    LastMarkWall(Boxes(p), c);
  }

  /** The picture is `grid_size` lines of `grid_size` characters: splitting
      it at the newlines gives the grid's rows back, and its length counts
      one newline between each pair of rows. */
  lemma RenderShape(p: Placement, n: int)
    requires Complete(p) && n > 0
    ensures Split(RenderAscii(p, n), '\n') == Grid(p, n)
    ensures |RenderAscii(p, n)| == n * (n + 1) - 1
  {
    var g := Grid(p, n);
    forall row | row in g
      ensures NoSep(row, '\n')
    {
      var y :| 0 <= y < |g| && g[y] == row;
      forall x | 0 <= x < |row|
        ensures row[x] != '\n'
      {
        GridCell(p, n, (x, y));
        LastMarkWall(Boxes(p), (x, y));
      }
    }
    SplitJoin(g, '\n');
    JoinLength(g, '\n', n);
  }
}
