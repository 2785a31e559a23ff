/** Room placement around the overlap resolver: the fact list handed to the
    placement solver, the rooms built from the solver's positions, and the
    force-directed fallback (the layout itself is an input; the resolver and
    normalisation are modelled). */
module Placement {
  import opened Common
  import opened Text
  import opened Rooms
  import opened Overlap

  /** `sum(max(r.width, r.height) + min_gap for r in rooms)`: conservative,
      as all rooms fit side by side in a row, or stacked in a column, with a
      gap after each. */
  function Bound(rooms: seq<Room>, minGap: int): (b: int)
    ensures RowWidth(rooms, minGap) <= b
    ensures ColumnHeight(rooms, minGap) <= b
  {
    if |rooms| == 0 then 0 else Max(rooms[0].width, rooms[0].height) + minGap + Bound(rooms[1..], minGap)
  }

  /** Width of all rooms side by side with a gap after each. */
  function RowWidth(rooms: seq<Room>, minGap: int): int {
    if |rooms| == 0 then 0 else rooms[0].width + minGap + RowWidth(rooms[1..], minGap)
  }

  /** Height of all rooms stacked with a gap after each. */
  function ColumnHeight(rooms: seq<Room>, minGap: int): int {
    if |rooms| == 0 then 0 else rooms[0].height + minGap + ColumnHeight(rooms[1..], minGap)
  }

  function RoomFact(r: Room): string {
    "room(" + NatToString(r.id) + ")."
  }

  function RoomWidthFact(r: Room): string {
    "room_w(" + NatToString(r.id) + ", " + IntToString(r.width) + ")."
  }

  function RoomHeightFact(r: Room): string {
    "room_h(" + NatToString(r.id) + ", " + IntToString(r.height) + ")."
  }

  function ConnectionFact(c: Connection): string {
    "connection(" + NatToString(c.0) + ", " + NatToString(c.1) + ")."
  }

  /** The three facts per room, room by room. */
  function RoomFacts(rooms: seq<Room>): (fs: seq<string>)
    ensures |fs| == 3 * |rooms|
  {
    if |rooms| == 0 then []
    else
      var r := rooms[|rooms| - 1];
      RoomFacts(rooms[..|rooms| - 1]) + [RoomFact(r), RoomWidthFact(r), RoomHeightFact(r)]
  }

  /** Room `k`'s facts sit at positions `3k`, `3k + 1` and `3k + 2`. */
  lemma {:induction false} RoomFactsAt(rooms: seq<Room>, k: nat)
    requires k < |rooms|
    ensures RoomFacts(rooms)[3 * k] == RoomFact(rooms[k])
    ensures RoomFacts(rooms)[3 * k + 1] == RoomWidthFact(rooms[k])
    ensures RoomFacts(rooms)[3 * k + 2] == RoomHeightFact(rooms[k])
  {
    var init := rooms[..|rooms| - 1];
    if k < |rooms| - 1 {
      RoomFactsAt(init, k);
      assert init[k] == rooms[k];
    }
  }

  /** One fact per connection, in connection order. */
  function ConnectionFacts(cs: seq<Connection>): (fs: seq<string>)
    ensures |fs| == |cs|
    ensures forall k :: 0 <= k < |cs| ==> fs[k] == ConnectionFact(cs[k])
  {
    if |cs| == 0 then [] else [ConnectionFact(cs[0])] + ConnectionFacts(cs[1..])
  }

  /** The `#const` lines fixing the solver's bounds and gap. */
  function ConstFacts(rooms: seq<Room>, minGap: int): seq<string> {
    var b := IntToString(Bound(rooms, minGap));
    ["#const bound_x = " + b + ".", "#const bound_y = " + b + ".",
     "#const min_gap = " + IntToString(minGap) + "."]
  }

  /** The fact list written for the placement solver: the three `#const`
      lines, then the `room`, `room_w` and `room_h` facts of every room, then
      one `connection` fact per connection. */
  function PlacementFacts(t: Topology, minGap: int): (fs: seq<string>)
    ensures |fs| == 3 + 3 * |t.rooms| + |t.connections|
    ensures fs[..3] == ConstFacts(t.rooms, minGap)
    ensures fs[3..3 + 3 * |t.rooms|] == RoomFacts(t.rooms)
    ensures fs[3 + 3 * |t.rooms|..] == ConnectionFacts(t.connections)
  {
    var consts := ConstFacts(t.rooms, minGap);
    var rf := RoomFacts(t.rooms);
    var cf := ConnectionFacts(t.connections);
    ConcatSlices(consts, rf, cf);
    consts + rf + cf
  }

  /** The three parts of a concatenation are its slices. */
  lemma ConcatSlices<T>(a: seq<T>, b: seq<T>, c: seq<T>)
    ensures (a + b + c)[..|a|] == a
    ensures (a + b + c)[|a|..|a| + |b|] == b
    ensures (a + b + c)[|a| + |b|..] == c
  {
  }

  /** Where each fact sits: room `k`'s three facts at `3 + 3k` onwards,
      connection `k`'s fact at `3 + 3 * |rooms| + k`. */
  lemma PlacementFactsAt(t: Topology, minGap: int)
    ensures var fs := PlacementFacts(t, minGap);
      && (forall k :: 0 <= k < |t.rooms| ==>
            fs[3 + 3 * k] == RoomFact(t.rooms[k]) && fs[4 + 3 * k] == RoomWidthFact(t.rooms[k])
            && fs[5 + 3 * k] == RoomHeightFact(t.rooms[k]))
      && (forall k :: 0 <= k < |t.connections| ==>
            fs[3 + 3 * |t.rooms| + k] == ConnectionFact(t.connections[k]))
  {
    RoomFactsPlaced(t, minGap);
    ConnectionFactsPlaced(t, minGap);
  }

  lemma RoomFactsPlaced(t: Topology, minGap: int)
    ensures var fs := PlacementFacts(t, minGap);
      forall k :: 0 <= k < |t.rooms| ==>
        fs[3 + 3 * k] == RoomFact(t.rooms[k]) && fs[4 + 3 * k] == RoomWidthFact(t.rooms[k])
        && fs[5 + 3 * k] == RoomHeightFact(t.rooms[k])
  {
    var fs := PlacementFacts(t, minGap);
    forall k | 0 <= k < |t.rooms|
      ensures fs[3 + 3 * k] == RoomFact(t.rooms[k]) && fs[4 + 3 * k] == RoomWidthFact(t.rooms[k])
        && fs[5 + 3 * k] == RoomHeightFact(t.rooms[k])
    {
      RoomFactsAt(t.rooms, k);
      SliceAt(fs, 3, 3 + 3 * |t.rooms|, 3 * k);
      SliceAt(fs, 3, 3 + 3 * |t.rooms|, 3 * k + 1);
      SliceAt(fs, 3, 3 + 3 * |t.rooms|, 3 * k + 2);
    }
  }

  lemma ConnectionFactsPlaced(t: Topology, minGap: int)
    ensures var fs := PlacementFacts(t, minGap);
      forall k :: 0 <= k < |t.connections| ==> fs[3 + 3 * |t.rooms| + k] == ConnectionFact(t.connections[k])
  {
    var fs := PlacementFacts(t, minGap);
    forall k | 0 <= k < |t.connections|
      ensures fs[3 + 3 * |t.rooms| + k] == ConnectionFact(t.connections[k])
    {
      SliceAt(fs, 3 + 3 * |t.rooms|, |fs|, k);
    }
  }

  lemma SliceAt<T>(s: seq<T>, i: nat, j: nat, k: nat)
    requires i <= j <= |s| && k < j - i
    ensures s[i..j][k] == s[i + k]
  {
  }

  /** What the solver reported for one room: `room_x` and `room_y` may each be missing. */
  datatype SolverPos = SolverPos(x: Option<int>, y: Option<int>)

  /** How the solver run ended: past its timeout, or with output holding the
      (possibly empty) positions found in it. */
  datatype SolverOutcome = TimedOut | Finished(positions: map<nat, SolverPos>)

  /** The rooms the solver positioned, in topology order; a missing coordinate is 0. */
  function PlaceFromPositions(rooms: seq<Room>, positions: map<nat, SolverPos>): (ps: seq<PlacedRoom>)
    ensures |ps| <= |rooms|
    ensures forall k :: 0 <= k < |ps| ==>
      ps[k].id in positions && ps[k].x == positions[ps[k].id].x.GetOr(0) && ps[k].y == positions[ps[k].id].y.GetOr(0)
    ensures forall r :: r in rooms && r.id in positions ==>
      Place(r, positions[r.id].x.GetOr(0), positions[r.id].y.GetOr(0)) in ps
    ensures forall p :: p in ps ==> exists r :: r in rooms && p == Place(r, p.x, p.y)
  {
    if |rooms| == 0 then []
    else
      var r := rooms[0];
      var rest := PlaceFromPositions(rooms[1..], positions);
      assert forall q :: q in rooms[1..] ==> q in rooms;
      if r.id in positions then
        [Place(r, positions[r.id].x.GetOr(0), positions[r.id].y.GetOr(0))] + rest
      else rest
  }

  /** The solver branch of `place_rooms`: build, then normalise when any room was placed. */
  function SolverPlacement(rooms: seq<Room>, positions: map<nat, SolverPos>): (ps: seq<PlacedRoom>)
    ensures |ps| == |PlaceFromPositions(rooms, positions)|
    ensures SameRoomsExceptPositions(PlaceFromPositions(rooms, positions), ps)
    ensures |ps| > 0 ==> (exists k :: 0 <= k < |ps| && ps[k].x == 0) && (exists k :: 0 <= k < |ps| && ps[k].y == 0)
    ensures forall k :: 0 <= k < |ps| ==> ps[k].x >= 0 && ps[k].y >= 0
    ensures var placed := PlaceFromPositions(rooms, positions);
            forall i, j :: 0 <= i < |ps| && 0 <= j < |ps| ==>
              ps[i].x - ps[j].x == placed[i].x - placed[j].x && ps[i].y - ps[j].y == placed[i].y - placed[j].y
  {
    var placed := PlaceFromPositions(rooms, positions);
    if |placed| == 0 then placed else Normalize(placed)
  }

  /** Rooms at the layout's integer positions, before any push. */
  function InitialPlacement(rooms: seq<Room>, layout: seq<(int, int)>): (ps: seq<PlacedRoom>)
    requires |layout| == |rooms|
    ensures |ps| == |rooms|
    ensures forall k :: 0 <= k < |rooms| ==> ps[k] == Place(rooms[k], layout[k].0, layout[k].1)
  {
    seq(|rooms|, k requires 0 <= k < |rooms| => Place(rooms[k], layout[k].0, layout[k].1))
  }

  /** The force-directed placement (`_fallback_placement`, and `place_rooms` /
      `force_directed_placement` of the floor generator and the renderer): the
      layout's integer positions, at most 50 passes of pushes, then normalised. */
  function ForceDirectedPlacement(rooms: seq<Room>, layout: seq<(int, int)>, minGap: int): (ps: seq<PlacedRoom>)
    requires |rooms| > 0 && |layout| == |rooms|
    ensures SameRoomsExceptPositions(InitialPlacement(rooms, layout), ps)
    ensures forall k :: 0 <= k < |ps| ==> ps[k].x >= 0 && ps[k].y >= 0
    ensures (exists k :: 0 <= k < |ps| && ps[k].x == 0) && (exists k :: 0 <= k < |ps| && ps[k].y == 0)
    ensures Resolve(InitialPlacement(rooms, layout), minGap, PassBudget).converged ==> AllSeparated(ps, minGap)
  {
    var init := InitialPlacement(rooms, layout);
    var r := Resolve(init, minGap, PassBudget);
    var ps := Normalize(r.rooms);
    NormalizeKeepsSeparation(r.rooms, minGap);
    SameRoomsTransitive(init, r.rooms, ps);
    ps
  }

  /** `place_rooms` takes the fallback when the solver timed out or reported no positions. */
  predicate FallsBack(outcome: SolverOutcome) {
    outcome.TimedOut? || |outcome.positions| == 0
  }

  /** `place_rooms(topology, min_gap)` with the solver's outcome and the
      fallback's layout as inputs. The fallback divides by the number of rooms,
      so it needs at least one. */
  function PlaceRooms(t: Topology, minGap: int, outcome: SolverOutcome, layout: seq<(int, int)>): (ps: seq<PlacedRoom>)
    requires FallsBack(outcome) ==> |t.rooms| > 0 && |layout| == |t.rooms|
    ensures FallsBack(outcome) ==> |ps| == |t.rooms|
    ensures FallsBack(outcome) ==> SameRoomsExceptPositions(InitialPlacement(t.rooms, layout), ps)
    ensures FallsBack(outcome) && Resolve(InitialPlacement(t.rooms, layout), minGap, PassBudget).converged ==>
              AllSeparated(ps, minGap)
    ensures !FallsBack(outcome) ==> ps == SolverPlacement(t.rooms, outcome.positions)
    ensures forall k :: 0 <= k < |ps| ==> ps[k].x >= 0 && ps[k].y >= 0
    ensures |ps| > 0 ==> (exists k :: 0 <= k < |ps| && ps[k].x == 0) && (exists k :: 0 <= k < |ps| && ps[k].y == 0)
  {
    if FallsBack(outcome) then ForceDirectedPlacement(t.rooms, layout, minGap)
    else SolverPlacement(t.rooms, outcome.positions)
  }
}
