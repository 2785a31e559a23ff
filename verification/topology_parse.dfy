/** The two topology parsers, `_parse_output` in pmd/topology.py and
    `parse_clingo_output` plus the Room-building loop of
    `generate_clingcon_floor` in pmd/generate_clingcon.py. They try the same
    patterns in the same order with the same handlers, so one fold models
    both; they differ only in what they return when the solver printed no
    answer. */
module TopologyParse {
  import opened Common
  import opened Rooms
  import opened Atoms

  /** The dictionary kept per room: the flags that were set and the content
      lists that were started. `is_spawn` and `is_stairs` are only ever set
      to `True`, so a missing key reads as `false`. */
  datatype Entry = Entry(
    isSpawn: bool, isStairs: bool,
    items: Option<seq<nat>>, enemies: Option<seq<nat>>, traps: Option<seq<nat>>)

  /** The parsers' `data` dictionary. `order` lists the room ids in the
      order the `rooms` dictionary received them. */
  datatype Data = Data(
    order: seq<nat>, entries: map<nat, Entry>, corridors: seq<Connection>,
    itemTypes: map<nat, string>, enemyTypes: map<nat, string>, trapTypes: map<nat, string>,
    gx: map<nat, nat>, gy: map<nat, nat>, widths: map<nat, nat>, heights: map<nat, nat>)

  const NewEntry := Entry(false, false, None, None, None)

  const Empty := Data([], map[], [], map[], map[], map[], map[], map[], map[], map[])

  /** The room dictionary's keys are exactly the ids in `order`, each once. */
  ghost predicate Valid(d: Data) {
    NoRepeats(d.order) && forall r :: r in d.entries <==> r in d.order
  }

  function List(e: Entry, c: Content): Option<seq<nat>> {
    match c
    case Items => e.items
    case Enemies => e.enemies
    case Traps => e.traps
  }

  function WithList(e: Entry, c: Content, l: seq<nat>): (e': Entry)
    ensures List(e', c) == Some(l)
    ensures forall c' :: c' != c ==> List(e', c') == List(e, c')
    ensures e'.isSpawn == e.isSpawn && e'.isStairs == e.isStairs
  {
    match c
    case Items => e.(items := Some(l))
    case Enemies => e.(enemies := Some(l))
    case Traps => e.(traps := Some(l))
  }

  function FieldMap(d: Data, f: Field): map<nat, nat> {
    match f
    case Width => d.widths
    case Height => d.heights
    case Gx => d.gx
    case Gy => d.gy
  }

  function TypeMap(d: Data, c: Content): map<nat, string> {
    match c
    case Items => d.itemTypes
    case Enemies => d.enemyTypes
    case Traps => d.trapTypes
  }

  /** The four field maps agree. */
  predicate SameFields(d: Data, d': Data) {
    d'.gx == d.gx && d'.gy == d.gy && d'.widths == d.widths && d'.heights == d.heights
  }

  /** The three type maps agree. */
  predicate SameTypes(d: Data, d': Data) {
    d'.itemTypes == d.itemTypes && d'.enemyTypes == d.enemyTypes && d'.trapTypes == d.trapTypes
  }

  /** `data[...][r] = v` for one field map; everything else is kept. */
  function SetField(d: Data, f: Field, r: nat, v: nat): (d': Data)
    ensures FieldMap(d', f) == FieldMap(d, f)[r := v]
    ensures d'.order == d.order && d'.entries == d.entries && d'.corridors == d.corridors
    ensures SameTypes(d, d')
  {
    match f
    case Width => d.(widths := d.widths[r := v])
    case Height => d.(heights := d.heights[r := v])
    case Gx => d.(gx := d.gx[r := v])
    case Gy => d.(gy := d.gy[r := v])
  }

  /** `data[..._types][t] = k` for one type map; everything else is kept. */
  function SetType(d: Data, c: Content, t: nat, k: string): (d': Data)
    ensures TypeMap(d', c) == TypeMap(d, c)[t := k]
    ensures d'.order == d.order && d'.entries == d.entries && d'.corridors == d.corridors
    ensures SameFields(d, d')
  {
    match c
    case Items => d.(itemTypes := d.itemTypes[t := k])
    case Enemies => d.(enemyTypes := d.enemyTypes[t := k])
    case Traps => d.(trapTypes := d.trapTypes[t := k])
  }

  /** `data["rooms"].setdefault(r, {"id": r})`: a new room goes to the end
      of the order, a known one is left as it is. */
  function Register(d: Data, r: nat): (d': Data)
    requires Valid(d)
    ensures Valid(d') && r in d'.entries
    ensures r in d.entries ==> d' == d
    ensures r !in d.entries ==> d'.order == d.order + [r] && d'.entries == d.entries[r := NewEntry]
    ensures d'.corridors == d.corridors && SameFields(d, d') && SameTypes(d, d')
  {
    if r in d.entries then d
    else
      var d' := d.(order := d.order + [r], entries := d.entries[r := NewEntry]);
      assert forall i :: 0 <= i < |d.order| ==> d'.order[i] == d.order[i];
      d'
  }

  /** What a room-creating handler does to the room's dictionary once it exists. */
  datatype Change = NoChange | MarkSpawn | MarkStairs | AddContent(content: Content, thing: nat)

  function Changed(e: Entry, ch: Change): (e': Entry) {
    match ch
    case NoChange => e
    case MarkSpawn => e.(isSpawn := true)
    case MarkStairs => e.(isStairs := true)
    case AddContent(c, t) => WithList(e, c, ListOrEmpty(List(e, c)) + [t])
  }

  /** Register the room, then change its dictionary. */
  function Touch(d: Data, r: nat, ch: Change): (d': Data)
    requires Valid(d)
    ensures Valid(d') && r in d'.entries
    ensures d'.order == Register(d, r).order
    ensures d'.entries == Register(d, r).entries[r := Changed(Register(d, r).entries[r], ch)]
    ensures d'.corridors == d.corridors && SameFields(d, d') && SameTypes(d, d')
  {
    var d' := Register(d, r);
    d'.(entries := d'.entries[r := Changed(d'.entries[r], ch)])
  }

  /** The handlers that `setdefault` the room entry: `room`, `is_spawn`,
      `has_stairs` and the `*_in` atoms. */
  predicate CreatesEntry(a: Atom) {
    a.RoomAtom? || a.SpawnAtom? || a.StairsAtom? || a.InAtom?
  }

  /** What a creating handler does to the entry after `setdefault`. */
  function ChangeOf(a: Atom): Change
    requires CreatesEntry(a)
  {
    match a
    case RoomAtom(_) => NoChange
    case SpawnAtom(_) => MarkSpawn
    case StairsAtom(_) => MarkStairs
    case InAtom(c, t, _) => AddContent(c, t)
  }

  /** The handler of one recognised atom. */
  function Apply(d: Data, a: Atom): (d': Data)
    requires Valid(d)
    ensures Valid(d')
  {
    if CreatesEntry(a) then Touch(d, a.room, ChangeOf(a))
    else
      match a
      case CorridorAtom(x, y) => d.(corridors := d.corridors + [(x, y)])
      case FieldAtom(f, r, v) => SetField(d, f, r, v)
      case IsAtom(c, t, k) => SetType(d, c, t, k)
  }

  /** One iteration of the loop over the atoms, given what the patterns read
      from it: an atom no pattern matches is skipped. */
  function Step(d: Data, x: Option<Atom>): (d': Data)
    requires Valid(d)
    ensures Valid(d')
  {
    match x
    case None => d
    case Some(a) => Apply(d, a)
  }

  /** What the patterns read from each atom, in atom order. */
  function Classified(atoms: seq<string>): (xs: seq<Option<Atom>>)
    ensures |xs| == |atoms|
    ensures forall i :: 0 <= i < |atoms| ==> xs[i] == Classify(atoms[i])
  {
    seq(|atoms|, i requires 0 <= i < |atoms| => Classify(atoms[i]))
  }

  /** The loop over the classified atoms, starting from the empty `data`. */
  function Fold(xs: seq<Option<Atom>>): (d: Data)
    ensures Valid(d)
  {
    if |xs| == 0 then Empty
    else Step(Fold(xs[..|xs| - 1]), xs[|xs| - 1])
  }

  /** The parsers' loop over the atoms. */
  function Parse(atoms: seq<string>): (d: Data)
    ensures Valid(d)
    ensures d.corridors == CorridorsIn(Classified(atoms))
  {
    FoldCorridors(Classified(atoms));
    Fold(Classified(atoms))
  }

  // ----- what the atoms say, stated without the fold -----

  /** The handler of `a` creates the entry of room `r` if it is missing. */
  predicate CreatesRoom(a: Atom, r: nat) {
    a == RoomAtom(r) || a == SpawnAtom(r) || a == StairsAtom(r) || (a.InAtom? && a.room == r)
  }

  predicate Creates(x: Option<Atom>, r: nat) {
    x.Some? && CreatesRoom(x.value, r)
  }

  /** The connection a `corridor` atom adds. */
  function CorridorOf(x: Option<Atom>): seq<Connection> {
    match x
    case Some(CorridorAtom(a, b)) => [(a, b)]
    case _ => []
  }

  /** The connections the atoms name, in atom order. */
  function CorridorsIn(xs: seq<Option<Atom>>): seq<Connection> {
    if |xs| == 0 then [] else CorridorOf(xs[0]) + CorridorsIn(xs[1..])
  }

  /** The content id an `*_in` atom of kind `c` puts in room `r`. */
  function ContentOf(x: Option<Atom>, c: Content, r: nat): seq<nat> {
    match x
    case Some(InAtom(c', t, r')) => if c' == c && r' == r then [t] else []
    case _ => []
  }

  /** The ids of kind `c` the atoms put in room `r`, in atom order, repeats kept. */
  function ContentIn(xs: seq<Option<Atom>>, c: Content, r: nat): seq<nat> {
    if |xs| == 0 then [] else ContentOf(xs[0], c, r) + ContentIn(xs[1..], c, r)
  }

  /** A `room_*` atom for field `f` of room `r`. */
  predicate SetsField(x: Option<Atom>, f: Field, r: nat) {
    x.Some? && x.value.FieldAtom? && x.value.field == f && x.value.room == r
  }

  /** A `*_is` atom for content `c` and id `t`. */
  predicate SetsType(x: Option<Atom>, c: Content, t: nat) {
    x.Some? && x.value.IsAtom? && x.value.content == c && x.value.thing == t
  }

  // ----- the fold against those statements -----

  lemma CorridorsInSnoc(xs: seq<Option<Atom>>, x: Option<Atom>)
    ensures CorridorsIn(xs + [x]) == CorridorsIn(xs) + CorridorOf(x)
  {
    if |xs| > 0 {
      assert (xs + [x])[1..] == xs[1..] + [x];
      CorridorsInSnoc(xs[1..], x);
    }
  }

  lemma ContentInSnoc(xs: seq<Option<Atom>>, x: Option<Atom>, c: Content, r: nat)
    ensures ContentIn(xs + [x], c, r) == ContentIn(xs, c, r) + ContentOf(x, c, r)
  {
    if |xs| > 0 {
      assert (xs + [x])[1..] == xs[1..] + [x];
      ContentInSnoc(xs[1..], x, c, r);
    }
  }

  /** One step adds the connection of a `corridor` atom and nothing else. */
  lemma StepCorridors(d: Data, x: Option<Atom>)
    requires Valid(d)
    ensures Step(d, x).corridors == d.corridors + CorridorOf(x)
  {
    if x.Some? && !x.value.CorridorAtom? {
      assert CorridorOf(x) == [];
    }
  }

  /** `setdefault` adds the key and keeps the others. */
  lemma TouchKeys(d: Data, q: nat, ch: Change, r: nat)
    requires Valid(d)
    ensures r in Touch(d, q, ch).entries <==> r in d.entries || r == q
  {
  }

  /** One step creates the room of a creating atom and no other. */
  lemma StepRooms(d: Data, x: Option<Atom>, r: nat)
    requires Valid(d)
    ensures r in Step(d, x).entries <==> r in d.entries || Creates(x, r)
  {
    if x.Some? && CreatesEntry(x.value) {
      TouchKeys(d, x.value.room, ChangeOf(x.value), r);
    }
  }

  /** What one step does to a field map. */
  lemma StepField(d: Data, x: Option<Atom>, f: Field, r: nat)
    requires Valid(d)
    ensures SetsField(x, f, r) ==> FieldMap(Step(d, x), f) == FieldMap(d, f)[r := x.value.value]
    ensures !SetsField(x, f, r) ==> (r in FieldMap(Step(d, x), f) <==> r in FieldMap(d, f))
    ensures !SetsField(x, f, r) && r in FieldMap(d, f) ==> FieldMap(Step(d, x), f)[r] == FieldMap(d, f)[r]
  {
    if x.Some? && x.value.FieldAtom? {
      SetFieldAt(d, x.value.field, x.value.room, x.value.value, f, r);
    } else {
      StepKeepsFields(d, x);
    }
  }

  lemma StepKeepsFields(d: Data, x: Option<Atom>)
    requires Valid(d) && !(x.Some? && x.value.FieldAtom?)
    ensures SameFields(d, Step(d, x))
  {
  }

  lemma SetFieldAt(d: Data, g: Field, q: nat, v: nat, f: Field, r: nat)
    ensures g == f && q == r ==> FieldMap(SetField(d, g, q, v), f) == FieldMap(d, f)[r := v]
    ensures !(g == f && q == r) ==> (r in FieldMap(SetField(d, g, q, v), f) <==> r in FieldMap(d, f))
    ensures !(g == f && q == r) && r in FieldMap(d, f) ==> FieldMap(SetField(d, g, q, v), f)[r] == FieldMap(d, f)[r]
  {
  }

  /** What one step does to a type map. */
  lemma StepType(d: Data, x: Option<Atom>, c: Content, t: nat)
    requires Valid(d)
    ensures SetsType(x, c, t) ==> TypeMap(Step(d, x), c) == TypeMap(d, c)[t := x.value.kind]
    ensures !SetsType(x, c, t) ==> (t in TypeMap(Step(d, x), c) <==> t in TypeMap(d, c))
    ensures !SetsType(x, c, t) && t in TypeMap(d, c) ==> TypeMap(Step(d, x), c)[t] == TypeMap(d, c)[t]
  {
    if x.Some? && x.value.IsAtom? {
      SetTypeAt(d, x.value.content, x.value.thing, x.value.kind, c, t);
    } else {
      StepKeepsTypes(d, x);
    }
  }

  lemma StepKeepsTypes(d: Data, x: Option<Atom>)
    requires Valid(d) && !(x.Some? && x.value.IsAtom?)
    ensures SameTypes(d, Step(d, x))
  {
  }

  lemma SetTypeAt(d: Data, b: Content, q: nat, k: string, c: Content, t: nat)
    ensures b == c && q == t ==> TypeMap(SetType(d, b, q, k), c) == TypeMap(d, c)[t := k]
    ensures !(b == c && q == t) ==> (t in TypeMap(SetType(d, b, q, k), c) <==> t in TypeMap(d, c))
    ensures !(b == c && q == t) && t in TypeMap(d, c) ==> TypeMap(SetType(d, b, q, k), c)[t] == TypeMap(d, c)[t]
  {
  }

  /** `corridor(a,b)` atoms become connections in atom order, repeats kept. */
  lemma {:induction false} FoldCorridors(xs: seq<Option<Atom>>)
    ensures Fold(xs).corridors == CorridorsIn(xs)
  {
    if |xs| > 0 {
      var init := xs[..|xs| - 1];
      FoldCorridors(init);
      StepCorridors(Fold(init), xs[|xs| - 1]);
      assert xs == init + [xs[|xs| - 1]];
      CorridorsInSnoc(init, xs[|xs| - 1]);
    }
  }

  /** Exactly the rooms that a `room`, `is_spawn`, `has_stairs` or `*_in`
      atom names get an entry; `room_*` and `*_is` atoms create none. */
  lemma {:induction false} FoldRooms(xs: seq<Option<Atom>>, r: nat)
    ensures r in Fold(xs).entries <==> exists i :: 0 <= i < |xs| && Creates(xs[i], r)
  {
    if |xs| > 0 {
      var n := |xs| - 1;
      var init := xs[..n];
      FoldRooms(init, r);
      StepRooms(Fold(init), xs[n], r);
      assert forall i :: 0 <= i < n ==> xs[i] == init[i];
      if r in Fold(xs).entries && r !in Fold(init).entries {
        assert Creates(xs[n], r);
      }
    }
  }

  /** A `room(N)` atom for a room that already has an entry changes nothing,
      so repeating one is the same as writing it once. */
  lemma RoomAtomIdempotent(d: Data, r: nat)
    requires Valid(d)
    ensures r in d.entries ==> Apply(d, RoomAtom(r)) == d
    ensures Apply(Apply(d, RoomAtom(r)), RoomAtom(r)) == Apply(d, RoomAtom(r))
  {
  }

  /** The change one step makes to the entry of room `r`. */
  function ChangeAt(x: Option<Atom>, r: nat): Change {
    if x.Some? && CreatesEntry(x.value) && x.value.room == r then ChangeOf(x.value) else NoChange
  }

  /** The entry of `r` after one step: the previous entry (or a fresh one)
      with the step's change applied. */
  lemma StepEntry(d: Data, x: Option<Atom>, r: nat)
    requires Valid(d) && r in Step(d, x).entries
    ensures Step(d, x).entries[r] == Changed(if r in d.entries then d.entries[r] else NewEntry, ChangeAt(x, r))
  {
    if x.Some? && CreatesEntry(x.value) {
      TouchEntry(d, x.value.room, ChangeOf(x.value), r);
    } else {
      StepKeepsEntries(d, x);
    }
  }

  /** A handler that does not create a room leaves the room dictionary alone. */
  lemma StepKeepsEntries(d: Data, x: Option<Atom>)
    requires Valid(d) && !(x.Some? && CreatesEntry(x.value))
    ensures Step(d, x).entries == d.entries
  {
  }

  /** `setdefault` followed by the change touches only the named room. */
  lemma TouchEntry(d: Data, q: nat, ch: Change, r: nat)
    requires Valid(d) && r in Touch(d, q, ch).entries
    ensures Touch(d, q, ch).entries[r] ==
              if r == q then Changed(if q in d.entries then d.entries[q] else NewEntry, ch)
              else d.entries[r]
  {
  }

  /** What a change does to the flags. */
  lemma ChangedFlags(e: Entry, x: Option<Atom>, r: nat)
    ensures Changed(e, ChangeAt(x, r)).isSpawn <==> e.isSpawn || x == Some(SpawnAtom(r))
    ensures Changed(e, ChangeAt(x, r)).isStairs <==> e.isStairs || x == Some(StairsAtom(r))
  {
  }

  /** What a change does to one content list. */
  lemma ChangedList(e: Entry, x: Option<Atom>, c: Content, r: nat)
    ensures List(Changed(e, ChangeAt(x, r)), c) ==
              if |ContentOf(x, c, r)| > 0 then Some(ListOrEmpty(List(e, c)) + ContentOf(x, c, r))
              else List(e, c)
  {
    if x.Some? && x.value.InAtom? && x.value.room == r && x.value.content == c {
      assert ContentOf(x, c, r) == [x.value.thing];
    } else {
      assert ContentOf(x, c, r) == [];
    }
  }

  /** `is_spawn(N)` and `has_stairs(N)` atoms set the flags, and only they do. */
  lemma {:induction false} FoldFlags(xs: seq<Option<Atom>>, r: nat)
    requires r in Fold(xs).entries
    ensures Fold(xs).entries[r].isSpawn <==> exists i :: 0 <= i < |xs| && xs[i] == Some(SpawnAtom(r))
    ensures Fold(xs).entries[r].isStairs <==> exists i :: 0 <= i < |xs| && xs[i] == Some(StairsAtom(r))
  {
    var n := |xs| - 1;
    var init := xs[..n];
    assert forall i :: 0 <= i < n ==> xs[i] == init[i];
    StepEntry(Fold(init), xs[n], r);
    ChangedFlags(if r in Fold(init).entries then Fold(init).entries[r] else NewEntry, xs[n], r);
    if r in Fold(init).entries {
      FoldFlags(init, r);
    } else {
      NothingBeforeEntry(init, r);
    }
  }

  /** A room without an entry has had no atom that creates it. */
  lemma NothingBeforeEntry(xs: seq<Option<Atom>>, r: nat)
    requires r !in Fold(xs).entries
    ensures forall i :: 0 <= i < |xs| ==> !Creates(xs[i], r)
  {
    FoldRooms(xs, r);
  }

  /** Without a creating atom there is no content for the room. */
  lemma {:induction false} NoContentWithoutCreation(xs: seq<Option<Atom>>, c: Content, r: nat)
    requires forall i :: 0 <= i < |xs| ==> !Creates(xs[i], r)
    ensures ContentIn(xs, c, r) == []
  {
    if |xs| > 0 {
      assert ContentOf(xs[0], c, r) == [] by {
        assert !Creates(xs[0], r);
      }
      assert forall i :: 0 <= i < |xs| - 1 ==> xs[1..][i] == xs[i + 1];
      NoContentWithoutCreation(xs[1..], c, r);
    }
  }

  /** The `items`/`enemies`/`traps` list of a room holds the ids of its
      `*_in` atoms in atom order, repeats kept; the key exists exactly when
      there was at least one such atom. */
  lemma {:induction false} FoldContent(xs: seq<Option<Atom>>, c: Content, r: nat)
    requires r in Fold(xs).entries
    ensures List(Fold(xs).entries[r], c) ==
              if |ContentIn(xs, c, r)| > 0 then Some(ContentIn(xs, c, r)) else None
  {
    var n := |xs| - 1;
    var init := xs[..n];
    assert xs == init + [xs[n]];
    ContentInSnoc(init, xs[n], c, r);
    var prev := if r in Fold(init).entries then Fold(init).entries[r] else NewEntry;
    StepEntry(Fold(init), xs[n], r);
    ChangedList(prev, xs[n], c, r);
    assert ListOrEmpty(List(prev, c)) == ContentIn(init, c, r) &&
           List(prev, c) == (if |ContentIn(init, c, r)| > 0 then Some(ContentIn(init, c, r)) else None) by {
      if r in Fold(init).entries {
        FoldContent(init, c, r);
      } else {
        NothingBeforeEntry(init, r);
        NoContentWithoutCreation(init, c, r);
      }
    }
    if |ContentOf(xs[n], c, r)| == 0 {
      assert ContentIn(xs, c, r) == ContentIn(init, c, r);
    }
  }

  /** The index of the last `room_*` atom for field `f` of room `r`, or -1
      when there is none. */
  function LastField(xs: seq<Option<Atom>>, f: Field, r: nat): (i: int)
    ensures -1 <= i < |xs|
    ensures i >= 0 ==> SetsField(xs[i], f, r)
    ensures forall j :: i < j < |xs| ==> !SetsField(xs[j], f, r)
  {
    if |xs| == 0 then -1
    else if SetsField(xs[|xs| - 1], f, r) then |xs| - 1
    else
      var init := xs[..|xs| - 1];
      assert forall j :: 0 <= j < |init| ==> init[j] == xs[j];
      LastField(init, f, r)
  }

  /** The index of the last `*_is` atom for content `c` and id `t`, or -1
      when there is none. */
  function LastType(xs: seq<Option<Atom>>, c: Content, t: nat): (i: int)
    ensures -1 <= i < |xs|
    ensures i >= 0 ==> SetsType(xs[i], c, t)
    ensures forall j :: i < j < |xs| ==> !SetsType(xs[j], c, t)
  {
    if |xs| == 0 then -1
    else if SetsType(xs[|xs| - 1], c, t) then |xs| - 1
    else
      var init := xs[..|xs| - 1];
      assert forall j :: 0 <= j < |init| ==> init[j] == xs[j];
      LastType(init, c, t)
  }

  /** `room_width`, `room_height`, `room_gx` and `room_gy` assign into a
      dictionary, so a room has the field exactly when some atom set it, and
      the last such atom wins. */
  lemma {:induction false} FoldFields(xs: seq<Option<Atom>>, f: Field, r: nat)
    ensures r in FieldMap(Fold(xs), f) <==> LastField(xs, f, r) >= 0
    ensures r in FieldMap(Fold(xs), f) ==> FieldMap(Fold(xs), f)[r] == xs[LastField(xs, f, r)].value.value
  {
    if |xs| > 0 {
      var n := |xs| - 1;
      var init := xs[..n];
      FoldFields(init, f, r);
      StepField(Fold(init), xs[n], f, r);
      if !SetsField(xs[n], f, r) && LastField(init, f, r) >= 0 {
        assert xs[LastField(init, f, r)] == init[LastField(init, f, r)];
      }
    }
  }

  /** `item_is`, `enemy_is` and `trap_is` assign into a dictionary, so an id
      has a type exactly when some atom named one, and the last such atom wins. */
  lemma {:induction false} FoldTypes(xs: seq<Option<Atom>>, c: Content, t: nat)
    ensures t in TypeMap(Fold(xs), c) <==> LastType(xs, c, t) >= 0
    ensures t in TypeMap(Fold(xs), c) ==> TypeMap(Fold(xs), c)[t] == xs[LastType(xs, c, t)].value.kind
  {
    if |xs| > 0 {
      var n := |xs| - 1;
      var init := xs[..n];
      FoldTypes(init, c, t);
      StepType(Fold(init), xs[n], c, t);
      if !SetsType(xs[n], c, t) && LastType(init, c, t) >= 0 {
        assert xs[LastType(init, c, t)] == init[LastType(init, c, t)];
      }
    }
  }

  // ----- building the Rooms -----

  /** `dict.get(r, default)`. */
  function Get(m: map<nat, nat>, r: nat, default: nat): (v: nat)
    ensures r in m ==> v == m[r]
    ensures r !in m ==> v == default
  {
    if r in m then m[r] else default
  }

  /** The Room-building loop: one `Room` per entry, in entry order; width
      and height default to 6 and the grid position to `(0, 0)`. */
  function BuildRooms(d: Data): (rs: seq<Room>)
    requires Valid(d)
    ensures |rs| == |d.order|
    ensures forall k :: 0 <= k < |rs| ==> rs[k].id == d.order[k]
  {
    seq(|d.order|, k requires 0 <= k < |d.order| =>
      var r := d.order[k];
      assert r in d.entries;
      var e := d.entries[r];
      MakeRoom(r, Get(d.gx, r, 0), Get(d.gy, r, 0), Get(d.widths, r, 6), Get(d.heights, r, 6),
               e.isSpawn, e.isStairs, e.items, e.enemies, e.traps))
  }

  /** The `Topology` of `_parse_output`, or `None` when the output held no answer. */
  function ParseOutput(answer: Option<seq<string>>, gridSize: int): (t: Option<Topology>)
    ensures t.None? <==> answer.None?
    ensures t.Some? ==> t.value.gridSize == gridSize &&
                        t.value.connections == CorridorsIn(Classified(answer.value))
  {
    match answer
    case None => None
    case Some(atoms) =>
      var d := Parse(atoms);
      FoldCorridors(Classified(atoms));
      Some(Topology(BuildRooms(d), d.corridors, d.itemTypes, d.enemyTypes, d.trapTypes, gridSize))
  }

  /** `parse_clingo_output`: the same `data`, empty when there was no answer. */
  function ParseClingoOutput(answer: Option<seq<string>>): (d: Data)
    ensures Valid(d)
    ensures answer.None? ==> d == Empty
  {
    match answer
    case None => Empty
    case Some(atoms) => Parse(atoms)
  }

  /** What `generate_clingcon_floor` returns once it has parsed the output:
      the same fields as a `Topology`. */
  function ClingconFloor(answer: Option<seq<string>>, gridSize: int): (t: Topology)
    ensures answer.None? ==> t.rooms == [] && t.connections == [] && t.gridSize == gridSize
    ensures answer.Some? ==> t.connections == CorridorsIn(Classified(answer.value)) && t.gridSize == gridSize
  {
    var d := ParseClingoOutput(answer);
    Topology(BuildRooms(d), d.corridors, d.itemTypes, d.enemyTypes, d.trapTypes, gridSize)
  }

  /** On an answer the two parsers build the same topology. */
  lemma ParsersAgree(atoms: seq<string>, gridSize: int)
    ensures ParseOutput(Some(atoms), gridSize) == Some(ClingconFloor(Some(atoms), gridSize))
  {
  }

  /** The id, flags and content of a built room, stated against the
      classified atoms: the room was named by a creating atom, and its flags
      and content lists come from their atoms. */
  lemma {:induction false} FoldRoom(xs: seq<Option<Atom>>, k: nat)
    requires k < |BuildRooms(Fold(xs))|
    ensures var room := BuildRooms(Fold(xs))[k];
            var r := room.id;
            (exists i :: 0 <= i < |xs| && Creates(xs[i], r)) &&
            (room.isSpawn <==> exists i :: 0 <= i < |xs| && xs[i] == Some(SpawnAtom(r))) &&
            (room.isStairs <==> exists i :: 0 <= i < |xs| && xs[i] == Some(StairsAtom(r))) &&
            room.items == ContentIn(xs, Items, r) &&
            room.enemies == ContentIn(xs, Enemies, r) &&
            room.traps == ContentIn(xs, Traps, r)
  {
    var d := Fold(xs);
    var r := d.order[k];
    assert r in d.entries;
    FoldRooms(xs, r);
    FoldFlags(xs, r);
    FoldContent(xs, Items, r);
    FoldContent(xs, Enemies, r);
    FoldContent(xs, Traps, r);
  }

  /** The value of the last `room_*` atom for field `f` of room `r`, or
      `default` when there is none. */
  function LastFieldOr(xs: seq<Option<Atom>>, f: Field, r: nat, default: nat): nat {
    var i := LastField(xs, f, r);
    if i >= 0 then xs[i].value.value else default
  }

  /** A built room's size is the last `room_width`/`room_height` value for it
      or 6, and its grid position the last `room_gx`/`room_gy` value or 0. */
  lemma RoomFields(xs: seq<Option<Atom>>, k: nat)
    requires k < |BuildRooms(Fold(xs))|
    ensures var room := BuildRooms(Fold(xs))[k];
            room.width == LastFieldOr(xs, Width, room.id, 6) &&
            room.height == LastFieldOr(xs, Height, room.id, 6) &&
            room.gx == LastFieldOr(xs, Gx, room.id, 0) &&
            room.gy == LastFieldOr(xs, Gy, room.id, 0)
  {
    var r := Fold(xs).order[k];
    assert r in Fold(xs).entries;
    FoldFields(xs, Width, r);
    FoldFields(xs, Height, r);
    FoldFields(xs, Gx, r);
    FoldFields(xs, Gy, r);
  }

  /** The built rooms have distinct ids. */
  lemma BuiltIdsDistinct(d: Data)
    requires Valid(d)
    ensures forall i, j :: 0 <= i < j < |BuildRooms(d)| ==> BuildRooms(d)[i].id != BuildRooms(d)[j].id
  {
  }
}
