/** pmd/dungeon.py: the finished `Dungeon` and the three-stage pipeline of
    `generate_dungeon` (topology, placement, corridors). */
module DungeonModel {
  import opened Common
  import opened Rooms
  import opened TopologyParse
  import opened Overlap
  import opened Placement
  import opened Corridors

  /** The calculated dungeon. */
  datatype Dungeon = Dungeon(
    rooms: seq<PlacedRoom>, connections: seq<Connection>, corridorTiles: seq<seq<Cell>>,
    itemTypes: map<nat, string>, enemyTypes: map<nat, string>, trapTypes: map<nat, string>)

  /** `Dungeon.width`: one past the rightmost room edge. `max` of no rooms
      raises, so there must be a room. */
  function Width(d: Dungeon): (w: int)
    requires |d.rooms| > 0
    ensures forall k :: 0 <= k < |d.rooms| ==> d.rooms[k].x + d.rooms[k].width < w
    ensures exists k :: 0 <= k < |d.rooms| && d.rooms[k].x + d.rooms[k].width + 1 == w
  {
    MaxRight(d.rooms) + 1
  }

  /** `Dungeon.height`: one past the bottom room edge. */
  function Height(d: Dungeon): (h: int)
    requires |d.rooms| > 0
    ensures forall k :: 0 <= k < |d.rooms| ==> d.rooms[k].y + d.rooms[k].height < h
    ensures exists k :: 0 <= k < |d.rooms| && d.rooms[k].y + d.rooms[k].height + 1 == h
  {
    MaxBottom(d.rooms) + 1
  }

  /** Every tile of every room lies inside the `width x height` box. */
  lemma RoomsInsideBox(d: Dungeon, k: nat, c: Cell)
    requires |d.rooms| > 0 && k < |d.rooms| && InFootprint(d.rooms[k], c)
    ensures c.0 < Width(d) && c.1 < Height(d)
  {
  }

  /** `generate_topology`'s default grid size, which `generate_dungeon` uses. */
  const DefaultGridSize := 4

  /** The rooms the pipeline needs for the placement fallback: that stage
      divides by the number of rooms and reads one layout position per room. */
  predicate CanPlace(t: Topology, outcome: SolverOutcome, layout: seq<(int, int)>) {
    FallsBack(outcome) ==> |t.rooms| > 0 && |layout| == |t.rooms|
  }

  /** `generate_dungeon(num_rooms, min_gap)` with the solvers' results as
      inputs: the topology `generate_topology` returns (`None` when its solver
      found no answer; `ParseOutput` models how it is built from the answer
      atoms), the placement solver's outcome and the fallback layout. */
  function GenerateDungeon(topology: Option<Topology>, minGap: int, outcome: SolverOutcome, layout: seq<(int, int)>): (d: Option<Dungeon>)
    requires topology.Some? ==> CanPlace(topology.value, outcome, layout)
    ensures d.None? <==> topology.None?
    ensures d.Some? ==>
              var t := topology.value;
              d.value.connections == t.connections &&
              d.value.itemTypes == t.itemTypes && d.value.enemyTypes == t.enemyTypes &&
              d.value.trapTypes == t.trapTypes &&
              (FallsBack(outcome) ==> SameRoomsExceptPositions(InitialPlacement(t.rooms, layout), d.value.rooms)) &&
              (FallsBack(outcome) && Resolve(InitialPlacement(t.rooms, layout), minGap, PassBudget).converged ==>
                 AllSeparated(d.value.rooms, minGap)) &&
              (!FallsBack(outcome) ==> d.value.rooms == SolverPlacement(t.rooms, outcome.positions)) &&
              (forall k :: 0 <= k < |d.value.rooms| ==> d.value.rooms[k].x >= 0 && d.value.rooms[k].y >= 0) &&
              (|d.value.rooms| > 0 ==>
                 (exists k :: 0 <= k < |d.value.rooms| && d.value.rooms[k].x == 0) &&
                 (exists k :: 0 <= k < |d.value.rooms| && d.value.rooms[k].y == 0)) &&
              |d.value.corridorTiles| == |PlacedPairs(d.value.rooms, t.connections)|
  {
    match topology
    case None => None
    case Some(t) =>
      var placed := PlaceRooms(t, minGap, outcome, layout);
      Some(Dungeon(placed, t.connections, CalculateCorridors(placed, t.connections),
                   t.itemTypes, t.enemyTypes, t.trapTypes))
  }

  /** Each corridor of a generated dungeon joins the centres of the two rooms
      of a connection the topology named, and every such connection between
      placed rooms gets one. */
  lemma GeneratedCorridors(t: Topology, minGap: int, outcome: SolverOutcome, layout: seq<(int, int)>, k: nat)
    requires CanPlace(t, outcome, layout)
    requires k < |GenerateDungeon(Some(t), minGap, outcome, layout).value.corridorTiles|
    ensures var d := GenerateDungeon(Some(t), minGap, outcome, layout).value;
            var c := PlacedPairs(d.rooms, d.connections)[k];
            c in t.connections && BothPlaced(d.rooms, c) &&
            Connects(d.corridorTiles[k], CentreOf(d.rooms, c.0), CentreOf(d.rooms, c.1))
  {
  }

  /** Fed the topology parsed from an answer, the dungeon's connections are
      the `corridor` atoms of that answer, in answer order. */
  lemma GeneratedConnections(atoms: seq<string>, minGap: int, outcome: SolverOutcome, layout: seq<(int, int)>)
    requires CanPlace(ParseOutput(Some(atoms), DefaultGridSize).value, outcome, layout)
    ensures GenerateDungeon(ParseOutput(Some(atoms), DefaultGridSize), minGap, outcome, layout).value.connections
            == CorridorsIn(Classified(atoms))
  {
  }
}
