/** Stage 3, `calculate_corridors`: one Bresenham line per connection whose
    two rooms were both placed, from centre to centre. */
module Corridors {
  import opened Common
  import opened Rooms
  import opened Bresenham

  /** The connections whose two rooms are placed, in their original order. */
  function PlacedPairs(rooms: seq<PlacedRoom>, cs: seq<Connection>): (ps: seq<Connection>)
    ensures |ps| <= |cs|
    ensures forall c :: c in ps <==> c in cs && BothPlaced(rooms, c)
  {
    if |cs| == 0 then []
    else if BothPlaced(rooms, cs[0]) then [cs[0]] + PlacedPairs(rooms, cs[1..])
    else PlacedPairs(rooms, cs[1..])
  }

  /** The filter distributes over concatenation, so kept connections stay in
      their original relative order. */
  lemma {:induction false} PlacedPairsConcat(rooms: seq<PlacedRoom>, cs: seq<Connection>, ds: seq<Connection>)
    ensures PlacedPairs(rooms, cs + ds) == PlacedPairs(rooms, cs) + PlacedPairs(rooms, ds)
  {
    if |cs| > 0 {
      assert (cs + ds)[1..] == cs[1..] + ds;
      PlacedPairsConcat(rooms, cs[1..], ds);
    } else {
      assert cs + ds == ds;
    }
  }

  /** The centre of a room known to be placed. */
  function CentreOf(rooms: seq<PlacedRoom>, id: nat): (c: Cell)
    requires IsPlaced(rooms, id)
    ensures exists k :: 0 <= k < |rooms| && rooms[k].id == id && c == Centre(rooms[k])
  {
    Centre(Find(rooms, id).value)
  }

  /** The corridor of one placed connection: the line between the centres. */
  function Corridor(rooms: seq<PlacedRoom>, c: Connection): (p: seq<Cell>)
    requires BothPlaced(rooms, c)
    ensures Connects(p, CentreOf(rooms, c.0), CentreOf(rooms, c.1))
  {
    BresenhamConnects(CentreOf(rooms, c.0), CentreOf(rooms, c.1));
    BresenhamPath(CentreOf(rooms, c.0), CentreOf(rooms, c.1))
  }

  /** `calculate_corridors(placed_rooms, connections)`. */
  function CalculateCorridors(rooms: seq<PlacedRoom>, cs: seq<Connection>): (paths: seq<seq<Cell>>)
    ensures |paths| == |PlacedPairs(rooms, cs)|
    ensures forall k :: 0 <= k < |paths| ==>
      var c := PlacedPairs(rooms, cs)[k];
      BothPlaced(rooms, c) && Connects(paths[k], CentreOf(rooms, c.0), CentreOf(rooms, c.1))
  {
    var ps := PlacedPairs(rooms, cs);
    seq(|ps|, k requires 0 <= k < |ps| => assert ps[k] in ps; Corridor(rooms, ps[k]))
  }
}
