# Dungeon layout pipeline — a Dafny model of its spatial half

The repository generates roguelike dungeon floors in three stages. An answer
set solver (clingo) proposes a room graph. The rooms are then placed on a
tile grid, and corridors are traced between the placed rooms. Two ASCII
renderers draw the result. This project models the deterministic,
geometric part of that pipeline and proves properties of it:

- **Topology parsing** (`atoms.dfy`, `topology_parse.dfy`). The answer is a
  list of atoms such as `room(3)`, `corridor(1,2)`, `item_in(4,3)` and
  `item_is(4,potion)`. They are matched against the fourteen patterns in
  order, each handler updates the parsers' dictionary, and the room records
  are built with their defaults (size 6, grid position 0). Both parsers,
  `_parse_output` and `parse_clingo_output` with `generate_clingcon_floor`,
  are modelled. Their handler chains differ only in form (`setdefault`
  against `if rid not in`, `break` against `continue`), so, judged
  equivalent on reading, both are modelled by one fold over the atoms;
  `ParsersAgree` relates only the two wrappers around that fold.
- **Placement** (`overlap.dfy`, `placement.dfy`). This covers the fact list
  handed to the placement solver and the rooms built from its positions. It
  also covers the overlap resolver shared by the three copies of
  `_push_apart`: one push per pair, passes over all pairs until nothing
  moves or 50 passes are spent, then normalisation to the origin.
- **Corridors** (`bresenham.dfy`, `corridors.dfy`, `lcorridor.dfy`,
  `astar.dfy`):
  - the cardinal-step Bresenham line;
  - `calculate_corridors`;
  - the renderer's A* search, which first tries the straight line;
  - the L-shaped fallback corridor.
- **Rendering** (`render_open.dfy`, `render_walled.dfy`, `canvas.dfy`). The
  wall-less renderer routes a corridor around the rooms when A* finds a
  way; otherwise it keeps the straight line, which is drawn only on blank
  cells. This is the common case: the four neighbours of a centre of a room
  at least 3x3 are room tiles, so the search stops after its first pop. It
  keeps a walkable matrix, and the endpoints it marks walkable stay walkable
  for the later corridors. The walled renderer draws solver placements with `#`
  walls, type floors, `,` corridors and `+` doors.
- **Chaining** (`facts.dfy`). This covers `solve`'s grouping of a model's
  atoms by predicate and `facts_from_solution`, which turns a solution back
  into fact text.
- **Pipeline** (`dungeon.dfy`): the `Dungeon` record's extent and
  `generate_dungeon`.

Choices made in the model:

- Dictionaries that keep insertion order are sequences. Identifiers are
  `nat`.
- Python's `/` on the doubled centres is kept exact by working with twice
  the centre. `int()` truncation toward zero is written out explicitly.
- Each process boundary becomes an input:
  - the solver answers;
  - the placement solver's outcome;
  - the spring layout's integer positions;
  - the A* heuristic, as a function of the connection's end and the cell.
- Where the source would raise, the operation has a precondition instead:
  - `max` or `min` of no rooms;
  - a `KeyError` for a room without a size;
  - division by zero when there are no rooms.

`FindPath` proves that `astar_path` never returns an empty path, because it
falls back to the Bresenham line. So the L-shaped corridor in
`render_ascii` is never drawn. It is modelled and proved on its own.

## Model

| member | source | states |
|---|---|---|
| Rooms.MakeRoom | pmd/topology.py:16-32 | content lists that are not supplied become empty, and every other field is kept |
| Rooms.Find | pmd/render_ascii.py:292-296 | a room is found exactly when some room has the id, and the room found has that id |
| Rooms.Centre | pmd/corridors.py:46-47 | the centre lies half the size into the room, rounded down: `2(c - x)` is `w` or `w - 1` on each axis |
| Rooms.CentreInFootprint | pmd/render_ascii.py:272-273 | a room of at least one tile contains its own centre |
| Overlap.TruncQuarter | pmd/placement.py:189 | `int(q / 4)` truncates toward zero for positive and negative `q` |
| Overlap.Shift | pmd/placement.py:188-189 | on a positive operand the shift is at least 1, and four times it just exceeds the operand |
| Overlap.ShiftOperandPositive | pmd/placement.py:177-189 | for a pair that is not separated, the quantity being truncated is positive on both axes |
| Overlap.PushApart | pmd/placement.py:175-206 | reports a move exactly when neither gap reaches `min_gap`; a pair it does not move stays the same; position sums are preserved; the x axis is used only when `abs(dx) > abs(dy)`; the first room moves away from the second |
| Overlap.PushClearance | pmd/placement.py:187-204 | after a push, the gap on the push axis exceeds `min_gap` and the other gap is unchanged |
| Overlap.PushSeparates | pmd/placement.py:175-206 | a pushed pair is always separated afterwards |
| Overlap.SignedPushAgrees | pmd/render_ascii.py:102-145 | the renderer's signed spelling of the push gives the same result as `_push_apart` |
| Overlap.PairOrderNoRepeats | pmd/placement.py:159-160 | the nested loops visit each unordered pair at most once |
| Overlap.Pass | pmd/placement.py:158-162 | a pass that moves nothing leaves the rooms alone, and then every pair is separated; sizes and the position sums are kept |
| Overlap.Resolve | pmd/placement.py:156-164 | at most the budget of passes runs; if the loop stops early, every pair is separated; rooms change only in position, and the position sums are kept |
| Overlap.PushesPreserveSums | pmd/placement.py:161 | any sequence of pushes keeps the sum of x and the sum of y |
| Overlap.MinX | pmd/placement.py:166 | the result is at most every x and equals some room's x |
| Overlap.Normalize | pmd/placement.py:166-170 | every coordinate is non-negative, some room sits at x = 0 and some at y = 0, and relative offsets are unchanged |
| Overlap.NormalizeKeepsSeparation | pmd/placement.py:166-170 | normalising preserves "every pair separated", in both directions |
| Placement.Bound | pmd/placement.py:38-39 | the "conservative" bound: all rooms side by side in one row, or stacked in one column, with a gap after each, fit inside it |
| Placement.PlacementFacts | pmd/placement.py:43-55 | the fact list is the three `#const` lines, then three facts per room, then one per connection |
| Placement.PlacementFactsAt | pmd/placement.py:49-55 | room k's facts sit at positions 3+3k to 5+3k, and connection k's fact at 3+3n+k |
| Placement.PlaceFromPositions | pmd/placement.py:93-108 | exactly the topology rooms the solver positioned are placed, with a missing coordinate read as 0 and everything else kept |
| Placement.SolverPlacement | pmd/placement.py:93-118 | the positioned rooms keep everything but their position and their pairwise offsets, and are normalised: all non-negative, with some room at x = 0 and some at y = 0 |
| Placement.ForceDirectedPlacement | pmd/placement.py:121-172 | every layout room is kept apart from its position; the result is normalised; rooms are pairwise separated whenever the pass loop converged |
| Placement.PlaceRooms | pmd/placement.py:72-118 | falls back on a timeout or an answer with no positions, and then the result is the topology's rooms in order, everything but position kept, separated when the passes converged; otherwise uses the solver's positions; the result is normalised |
| Bresenham.Step | pmd/corridors.py:22-33 | one loop iteration from a reachable state is a unit step that brings the cell one closer to the end, inside the box |
| Bresenham.BresenhamPath | pmd/corridors.py:9-35 | has `abs(dx) + abs(dy) + 1` cells, runs from start to end in unit steps toward the end, and stays within the bounding box |
| Bresenham.BresenhamConnects | pmd/corridors.py:9-35 | the line joins its ends in cardinal steps |
| Bresenham.BresenhamNoRepeats | pmd/corridors.py:9-35 | the line never visits a cell twice |
| Bresenham.HorizontalRun | pmd/corridors.py:9-35 | on a shared row, cell i is i steps along the row |
| Bresenham.VerticalRun | pmd/corridors.py:9-35 | on a shared column, cell i is i steps along the column |
| Corridors.PlacedPairs | pmd/corridors.py:42-44 | a connection is kept exactly when both of its rooms are placed |
| Corridors.PlacedPairsConcat | pmd/corridors.py:42-44 | kept connections stay in their original order |
| Corridors.CalculateCorridors | pmd/corridors.py:38-49 | one corridor per placed connection, each joining the two room centres in cardinal steps |
| LCorridor.SimpleLCorridor | pmd/render_ascii.py:325-352 | the three loops build the row to the bend column, then the column, then the row to the end, without duplicates |
| LCorridor.LShapeConnects | pmd/render_ascii.py:325-352 | the L-corridor joins start to end in cardinal steps, never repeats a cell, and has `abs(dx) + abs(dy) + 1` cells |
| LCorridor.LShapeBoxed | pmd/render_ascii.py:325-352 | the L-corridor stays in the box spanned by its ends |
| AStar.CheckClear | pmd/render_ascii.py:195-202 | the loop reports clear exactly when every cell is in bounds and walkable |
| AStar.Neighbors | pmd/render_ascii.py:211-216 | neighbours are exactly the walkable cardinal neighbours |
| AStar.MinIndex | pmd/render_ascii.py:224 | the entry popped is not above any entry, in tuple order |
| AStar.Relax | pmd/render_ascii.py:233-241 | after relaxing, the neighbour's score is at most the current score plus 1; an improvement records the parent and pushes a new heap entry, otherwise nothing changes |
| AStar.RelaxKeepsTree | pmd/render_ascii.py:233-241 | relaxing keeps `came_from` a tree rooted at the start whose links are cardinal steps to walkable cells with strictly lower scores |
| AStar.Reconstruct | pmd/render_ascii.py:226-231 | following `came_from` back from a scored goal gives a path from start to goal whose cells after the first are walkable |
| AStar.RunSearch | pmd/render_ascii.py:218-243 | a path the search returns joins start and end through walkable cells |
| AStar.AStarPath | pmd/render_ascii.py:185-243 | joins start and end in cardinal steps; returns the Bresenham line when it is clear; otherwise returns that line or a path whose cells after the first are walkable |
| OpenRender.GridWidth | pmd/render_ascii.py:250 | the width is two columns past the rightmost room edge: past every room, and attained |
| OpenRender.GridHeight | pmd/render_ascii.py:251 | the height is two rows past the bottom room edge: past every room, and attained |
| OpenRender.PaintRoomsLastWriter | pmd/render_ascii.py:260-277 | each cell shows the mark of the last room that covers it (floor, or `S`/`>` at a centre), or keeps its content when no room covers it |
| OpenRender.RoomLayerHasNoCorridor | pmd/render_ascii.py:253-277 | the room layer holds only blank, floor, spawn and stairs cells, and a cell is blank exactly when no room marks it |
| OpenRender.InitialWalkMatrix | pmd/render_ascii.py:279-289 | a cell of the matrix is walkable exactly when it is not a room tile |
| OpenRender.WalkableCell | pmd/render_ascii.py:305-307 | a walkable cell lies in the grid and is either not a room tile or an endpoint forced so far |
| OpenRender.PaintPathOverlay | pmd/render_ascii.py:316-320 | drawing paths puts `,` on exactly the blank cells they cover, whatever the order |
| OpenRender.ClampCell | pmd/render_ascii.py:301-303 | the clamped endpoint lies in the grid and equals the original when that was already inside |
| OpenRender.FindPath | pmd/render_ascii.py:309-314 | the path joins the two ends in cardinal steps, and it is either the straight line or stays on walkable cells |
| OpenRender.Route | pmd/render_ascii.py:296-314 | routing runs A* with the heuristic for this connection's end; it forces both endpoints walkable for good and returns a path between them that is either the straight line or stays on the grid, off room tiles other than forced endpoints |
| OpenRender.RouteAll | pmd/render_ascii.py:291-320 | every connection between placed rooms gets a valid route, and the grid is the room layer with those routes drawn |
| OpenRender.RenderAscii | pmd/render_ascii.py:246-322 | the text is the rows of a `max_x x max_y` grid joined by newlines; the grid is the room layer with `,` on the blank cells of the routed corridors, and each corridor is a valid route |
| Atoms.Number | pmd/topology.py:87-100 | `\d+` matches exactly when the text starts with a digit, and splits the text there |
| Atoms.FirstMatch | pmd/topology.py:104-108 | returns nothing exactly when no pattern matches; otherwise returns the first match |
| Atoms.Classify | pmd/topology.py:103-108 | an atom is handled by nothing exactly when none of the fourteen patterns matches it, and otherwise by what one of them reads (`ClassifyFindsMatch` pins which) |
| Atoms.MatchesExclusive | pmd/topology.py:86-108 | at most one pattern matches any atom, so the order of the patterns does not matter |
| Atoms.ClassifyFindsMatch | pmd/topology.py:103-108 | the loop with `break` returns exactly what the one matching pattern reads |
| Atoms.ClassifyRender | pmd/topology.py:86-108 | printing an atom and classifying the text gives the atom back |
| Atoms.NumberOf | pmd/topology.py:87-100 | `\d+` reads back the number that `str(n)` printed |
| TopologyParse.Register | pmd/topology.py:87 | `setdefault` adds a missing room at the end of the order and leaves a known one untouched |
| TopologyParse.StepRooms | pmd/topology.py:87-100 | one atom creates an entry only for the room of a `room`, `is_spawn`, `has_stairs` or `*_in` atom |
| TopologyParse.FoldCorridors | pmd/topology.py:88 | connections are the `corridor` atoms in atom order, repeats kept |
| TopologyParse.FoldRooms | pmd/topology.py:87-108 | a room has an entry exactly when a creating atom names it |
| TopologyParse.RoomAtomIdempotent | pmd/topology.py:87 | repeating `room(N)` changes nothing |
| TopologyParse.FoldFlags | pmd/topology.py:89-90 | `is_spawn`/`is_stairs` are set exactly when such an atom names the room |
| TopologyParse.FoldContent | pmd/topology.py:95-99 | a room's item, enemy and trap lists are its `*_in` ids in atom order, and the key exists exactly when there is one |
| TopologyParse.FoldFields | pmd/topology.py:91-94 | a room has a width, height, gx or gy exactly when an atom sets it, and the last such atom wins |
| TopologyParse.FoldTypes | pmd/topology.py:96-100 | an id has a type exactly when an `*_is` atom names it, and the last one wins |
| TopologyParse.BuildRooms | pmd/topology.py:110-123 | one room per entry, in entry order |
| TopologyParse.FoldRoom | pmd/topology.py:110-123 | each built room was named by a creating atom, and its flags and content come from its atoms |
| TopologyParse.RoomFields | pmd/topology.py:114-117 | size defaults to 6 and grid position to 0, otherwise the last atom's value is used |
| TopologyParse.BuiltIdsDistinct | pmd/topology.py:110-112 | built rooms have distinct ids |
| TopologyParse.Parse | pmd/topology.py:103-108 | the loop over the atoms leaves a well-formed dictionary, each room key listed once in insertion order, and its corridors are the `corridor` atoms in order |
| TopologyParse.ParseOutput | pmd/topology.py:70-132 | gives no topology exactly when there is no answer; otherwise the connections are the answer's corridors and the grid size is passed through |
| TopologyParse.ParseClingoOutput | pmd/generate_clingcon.py:146-278 | without an answer the dictionary stays empty |
| TopologyParse.ClingconFloor | pmd/generate_clingcon.py:304-334 | without an answer there are no rooms and no corridors; with one, the corridors are the answer's `corridor` atoms in order; the grid size is passed through |
| TopologyParse.ParsersAgree | pmd/generate_clingcon.py:307-334 | on an answer, the clingcon floor generator and `_parse_output` build the same topology |
| Facts.Stored | runner.py:36 | an atom is stored as `True` exactly when it has no arguments |
| Facts.Record | runner.py:29-36 | appending to a group adds the atom at its end and leaves the other groups alone |
| Facts.Collect | runner.py:28-37 | `on_model` builds a solution with each predicate named once, whose list for each predicate holds exactly that predicate's atoms in model order |
| Facts.CollectSize | runner.py:28-37 | one stored entry per shown atom |
| Facts.LinesMembers | runner.py:79-88 | a line is written exactly when it is the fact of an atom of an included predicate |
| Facts.LinesAppend | runner.py:80-88 | facts of later predicates follow those of earlier ones |
| Facts.EmptyFilter | runner.py:81 | an empty predicate list filters nothing out |
| Facts.OneFactPerAtom | runner.py:28-37 | serialising a collected model writes one fact per atom |
| Facts.ArgsReadBack | runner.py:87-88 | a fact splits back into its name and argument texts when no symbol argument holds a comma |
| Facts.FactsFromSolution | runner.py:68-89 | no lines give the empty text; otherwise, when no line holds a newline, the text splits back into exactly its lines (`LinesMembers` says which lines) |
| WalledRender.DictOfLast | placement/test_placement.py:87-91 | a key is present exactly when some pair names it, and the last pair's value wins |
| WalledRender.KeysOf | placement/test_placement.py:103 | the keys are listed once each, and they are exactly the dictionary's keys |
| WalledRender.Boxes | placement/test_placement.py:87-107 | one box per `room_x` key, in key order, whose position and size are the values of the last pair naming the room in each list and whose type is the last `room_type` pair's, `"normal"` when there is none |
| WalledRender.KeysOfFirst | placement/test_placement.py:103 | keys appear in the order of their first pair |
| WalledRender.FloorChar | placement/test_placement.py:94-107 | a type's floor is one of `@ B $ T .`, and `.` exactly for a type outside the four special names |
| WalledRender.DrawBox | placement/test_placement.py:109-117 | the nested loops paint walls on the perimeter and floor inside, within the grid, and nothing else |
| WalledRender.DrawBoxes | placement/test_placement.py:103-117 | the room loop paints the boxes in turn |
| WalledRender.PaintBoxesLastWriter | placement/test_placement.py:103-117 | each cell shows the mark of the last room covering it, or keeps its content |
| WalledRender.LastMarkWall | placement/test_placement.py:109-117 | a cell is marked exactly when some room covers it, and only with a wall or a floor character |
| WalledRender.Tile | placement/test_placement.py:122-125 | a blank becomes `,`, a wall becomes `+`, and everything else stays |
| WalledRender.TileIdempotent | placement/test_placement.py:120-125 | a repeated corridor tile changes nothing more |
| WalledRender.PaintTilesOverlay | placement/test_placement.py:120-125 | the corridor loop's result depends only on the set of tiles |
| WalledRender.GridCell | placement/test_placement.py:84-125 | each cell is the last covering room's mark (or blank), passed through `Tile` when a corridor tile lies there |
| WalledRender.DoorsAndCorridors | placement/test_placement.py:102-125 | `+` exactly on corridor tiles over walls, `,` exactly on corridor tiles outside every room, blank exactly on cells neither covers |
| WalledRender.RenderShape | placement/test_placement.py:127-129 | the text is `grid_size` lines of `grid_size` characters: it splits back into the grid, and its length is `n(n+1) - 1` |
| WalledRender.RenderAscii | placement/test_placement.py:84-129 | a grid size of 0 or less gives the empty string |
| Text.SplitJoin | runner.py:89 | splitting joined parts gives the parts back when none holds the separator |
| Text.DigitsRoundTrip | pmd/topology.py:87 | `int(str(n)) == n` |
| DungeonModel.Width | pmd/dungeon.py:22-24 | the width is past every room's right edge and equals one of them plus one |
| DungeonModel.Height | pmd/dungeon.py:26-28 | the height is past every room's bottom edge and equals one of them plus one |
| DungeonModel.RoomsInsideBox | pmd/dungeon.py:22-28 | every room tile lies inside `width x height` |
| DungeonModel.GenerateDungeon | pmd/dungeon.py:31-51 | gives no dungeon exactly when the topology solver found no answer; connections and type maps pass through; the fallback places the topology's rooms in order, everything but position kept, separated when the passes converged; otherwise the solver's placement is used; rooms are normalised (non-negative, some at x = 0 and some at y = 0); one corridor per placed connection |
| DungeonModel.GeneratedCorridors | pmd/dungeon.py:31-51 | each corridor joins the centres of a topology connection between placed rooms |
| DungeonModel.GeneratedConnections | pmd/dungeon.py:31-51 | fed the topology parsed from an answer, the dungeon's connections are that answer's `corridor` atoms in order |

## Left out

- Running clingo (subprocesses, the Python API, temporary fact files, time
  limits) is not modelled. The solver's answers are inputs: the atom list of
  the topology answer, the placement solver's outcome, and the shown
  symbols of a model. `generate_dungeon` takes the topology that
  `generate_topology` returns; `ParseOutput` models how that topology is
  built from the answer atoms.
- The `Answer:` regular expression and the `SATISFIABLE` test are not
  modelled. An answer is `Option<seq<string>>`, where `None` means no answer.
- `networkx.spring_layout` and the floating-point scaling of its positions
  are not modelled, because they are random and use floating point. The
  fallback takes the layout's integer positions as an input.
- `random.randint` seeds are not modelled, because they are only passed to
  the solver.
- The `re.finditer` scan for `room_x` and `room_y` in the placement solver's
  output is not modelled. Its result is the input map of positions.
- AStar.AStarPath: the heuristic `sqrt(dx^2 + dy^2)` is a parameter, and the
  path is not proved to be a shortest one.
- AStar.MinIndex: `heapq` is modelled as taking a least entry in tuple
  order. The heap's internal layout is not modelled.
- The three `PlacedRoom` and `Room` dataclass copies are modelled by one
  datatype each.
- Atoms.Number: Python's `\d` and `\w` also accept non-ASCII digits and
  letters. The model accepts ASCII only.
- Matplotlib plotting, `print_summary`, the `main` functions,
  `generate_examples.py`, the content and graph layers, and the test and
  benchmark scripts are not modelled, because they are presentation and
  drivers.
- OpenRender.RenderAscii: the item, enemy and trap type arguments are
  accepted and never read by the source, so they are not parameters.
- The model requires the following instead of modelling a crash:
  - there is at least one room where the source takes `max` or `min` of
    the rooms;
  - the fallback has a room, because it divides by their number;
  - every `room_x` key has `room_y`, `room_w` and `room_h` entries;
  - a routed endpoint can be clamped into a non-empty grid.
