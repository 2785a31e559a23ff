/** The room records that flow through the pipeline: the solver's `Room`
    (a grid slot and a size), the `PlacedRoom` with a tile position, and the
    `Topology` that bundles rooms, connections and content types. */
module Rooms {
  import opened Common

  /** A room as the topology stage reports it. */
  datatype Room = Room(
    id: nat, gx: int, gy: int, width: int, height: int,
    isSpawn: bool, isStairs: bool,
    items: seq<nat>, enemies: seq<nat>, traps: seq<nat>)

  /** A room with a top-left tile position. */
  datatype PlacedRoom = PlacedRoom(
    id: nat, x: int, y: int, width: int, height: int,
    isSpawn: bool, isStairs: bool,
    items: seq<nat>, enemies: seq<nat>, traps: seq<nat>)

  /** A connection between two room ids. */
  type Connection = (nat, nat)

  /** Rooms in the order of the source's dictionary, connections in solver order. */
  datatype Topology = Topology(
    rooms: seq<Room>, connections: seq<Connection>,
    itemTypes: map<nat, string>, enemyTypes: map<nat, string>, trapTypes: map<nat, string>,
    gridSize: int)

  /** `list or []`: a missing content list becomes the empty list. */
  function ListOrEmpty(l: Option<seq<nat>>): (r: seq<nat>)
    ensures l.None? ==> r == []
    ensures l.Some? ==> r == l.value
  {
    l.GetOr([])
  }

  /** The dataclass constructor with its `__post_init__`: content lists that
      were not supplied become empty lists, everything else is kept. */
  function MakeRoom(id: nat, gx: int, gy: int, width: int, height: int,
                    isSpawn: bool, isStairs: bool,
                    items: Option<seq<nat>>, enemies: Option<seq<nat>>,
                    traps: Option<seq<nat>>): (r: Room)
    ensures r.id == id && r.gx == gx && r.gy == gy && r.width == width && r.height == height
    ensures r.isSpawn == isSpawn && r.isStairs == isStairs
    ensures items.None? ==> r.items == []
    ensures enemies.None? ==> r.enemies == []
    ensures traps.None? ==> r.traps == []
    ensures items.Some? ==> r.items == items.value
    ensures enemies.Some? ==> r.enemies == enemies.value
    ensures traps.Some? ==> r.traps == traps.value
  {
    Room(id, gx, gy, width, height, isSpawn, isStairs,
         ListOrEmpty(items), ListOrEmpty(enemies), ListOrEmpty(traps))
  }

  /** The `PlacedRoom` built from a topology room at tile position `(x, y)`. */
  function Place(r: Room, x: int, y: int): (p: PlacedRoom)
    ensures p.id == r.id && p.x == x && p.y == y
    ensures p.width == r.width && p.height == r.height
    ensures p.isSpawn == r.isSpawn && p.isStairs == r.isStairs
    ensures p.items == r.items && p.enemies == r.enemies && p.traps == r.traps
  {
    PlacedRoom(r.id, x, y, r.width, r.height, r.isSpawn, r.isStairs, r.items, r.enemies, r.traps)
  }

  /** The room stored under `id` (the first one, as a dictionary holds only one). */
  function Find(rooms: seq<PlacedRoom>, id: nat): (r: Option<PlacedRoom>)
    ensures r.Some? ==> r.value in rooms && r.value.id == id
    ensures r.None? <==> forall k :: 0 <= k < |rooms| ==> rooms[k].id != id
  {
    if |rooms| == 0 then None
    else if rooms[0].id == id then Some(rooms[0])
    else Find(rooms[1..], id)
  }

  predicate IsPlaced(rooms: seq<PlacedRoom>, id: nat) {
    Find(rooms, id).Some?
  }

  /** Both ends of the connection are placed rooms. */
  predicate BothPlaced(rooms: seq<PlacedRoom>, c: Connection) {
    IsPlaced(rooms, c.0) && IsPlaced(rooms, c.1)
  }

  /** The centre tile `(x + w // 2, y + h // 2)`; `//` floors like Dafny's `/` by 2. */
  function Centre(r: PlacedRoom): (c: Cell)
    ensures 2 * (c.0 - r.x) <= r.width <= 2 * (c.0 - r.x) + 1
    ensures 2 * (c.1 - r.y) <= r.height <= 2 * (c.1 - r.y) + 1
  {
    (r.x + r.width / 2, r.y + r.height / 2)
  }

  /** The cell lies in the room's `width x height` footprint. */
  predicate InFootprint(r: PlacedRoom, c: Cell) {
    r.x <= c.0 < r.x + r.width && r.y <= c.1 < r.y + r.height
  }

  /** A room at least one tile wide and high holds its own centre. */
  lemma CentreInFootprint(r: PlacedRoom)
    requires r.width >= 1 && r.height >= 1
    ensures InFootprint(r, Centre(r))
  {
  }

  /** `max(r.x + r.width for r in rooms)`. */
  function MaxRight(rooms: seq<PlacedRoom>): (m: int)
    requires |rooms| > 0
    ensures forall k :: 0 <= k < |rooms| ==> rooms[k].x + rooms[k].width <= m
    ensures exists k :: 0 <= k < |rooms| && rooms[k].x + rooms[k].width == m
  {
    if |rooms| == 1 then rooms[0].x + rooms[0].width
    else
      var rest := MaxRight(rooms[1..]);
      assert forall k :: 1 <= k < |rooms| ==> rooms[k] == rooms[1..][k - 1];
      Max(rooms[0].x + rooms[0].width, rest)
  }

  /** `max(r.y + r.height for r in rooms)`. */
  function MaxBottom(rooms: seq<PlacedRoom>): (m: int)
    requires |rooms| > 0
    ensures forall k :: 0 <= k < |rooms| ==> rooms[k].y + rooms[k].height <= m
    ensures exists k :: 0 <= k < |rooms| && rooms[k].y + rooms[k].height == m
  {
    if |rooms| == 1 then rooms[0].y + rooms[0].height
    else
      var rest := MaxBottom(rooms[1..]);
      assert forall k :: 1 <= k < |rooms| ==> rooms[k] == rooms[1..][k - 1];
      Max(rooms[0].y + rooms[0].height, rest)
  }
}
