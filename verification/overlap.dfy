/** The overlap resolver: `_push_apart` and the pass loop around it, then the
    normalisation to the origin. The source keeps three copies of the push
    (placement, constraint-floor generator, ASCII renderer); the first two are
    written identically and are `PushApart` here, the renderer's copy writes the
    shift with signed deltas and is `PushApartSigned`, proved equal to it.

    Centres are half-integers (`x + w / 2`), so the model works with doubled
    centres `2 * x + w`; every quantity of the source is then an integer or an
    integer over 2 or 4, and `int(...)` becomes an explicit truncation. */
module Overlap {
  import opened Common
  import opened Rooms

  /** The number of passes `range(50)` allows. */
  const PassBudget: nat := 50

  /** Horizontal clearance between the two rooms (negative when they overlap). */
  function GapX(a: PlacedRoom, b: PlacedRoom): int {
    Max(b.x - (a.x + a.width), a.x - (b.x + b.width))
  }

  /** Vertical clearance between the two rooms (negative when they overlap). */
  function GapY(a: PlacedRoom, b: PlacedRoom): int {
    Max(b.y - (a.y + a.height), a.y - (b.y + b.height))
  }

  /** The pair needs no push: one axis already has `minGap` of clearance. */
  predicate Separated(a: PlacedRoom, b: PlacedRoom, minGap: int) {
    GapX(a, b) >= minGap || GapY(a, b) >= minGap
  }

  /** Twice the horizontal centre `x + width / 2`. */
  function CentreX2(r: PlacedRoom): int {
    2 * r.x + r.width
  }

  /** Twice the vertical centre `y + height / 2`. */
  function CentreY2(r: PlacedRoom): int {
    2 * r.y + r.height
  }

  /** Twice the clearance is the centre distance less the two half-sizes. */
  lemma GapXIdentity(a: PlacedRoom, b: PlacedRoom)
    ensures 2 * GapX(a, b) == Abs(CentreX2(b) - CentreX2(a)) - (a.width + b.width)
  {
  }

  lemma GapYIdentity(a: PlacedRoom, b: PlacedRoom)
    ensures 2 * GapY(a, b) == Abs(CentreY2(b) - CentreY2(a)) - (a.height + b.height)
  {
  }

  /** Python's `int(q / 4)`: division truncated toward zero. */
  function TruncQuarter(q: int): (r: int)
    ensures q >= 0 ==> 4 * r <= q < 4 * r + 4
    ensures q < 0 ==> 4 * r - 4 < q <= 4 * r
  {
    if q >= 0 then q / 4 else -((-q) / 4)
  }

  /** The quantity truncated by the push: `needed - |delta|` doubled twice over,
      i.e. `2 * (size1 + size2) / 2 + 2 * minGap - 2 * |delta|`. */
  function ShiftOperand(size1: int, size2: int, delta2: int, minGap: int): int {
    size1 + size2 + 2 * minGap - Abs(delta2)
  }

  /** `int((needed - abs(delta)) / 2) + 1`; on a positive operand the
      truncation is a floor and the shift is at least 1. */
  function Shift(size1: int, size2: int, delta2: int, minGap: int): (s: int)
    ensures ShiftOperand(size1, size2, delta2, minGap) > 0 ==>
      s >= 1 && s == ShiftOperand(size1, size2, delta2, minGap) / 4 + 1
    ensures ShiftOperand(size1, size2, delta2, minGap) > 0 ==>
      ShiftOperand(size1, size2, delta2, minGap) < 4 * s <= ShiftOperand(size1, size2, delta2, minGap) + 4
  {
    TruncQuarter(ShiftOperand(size1, size2, delta2, minGap)) + 1
  }

  /** A pair that is not separated has both operands positive: each gap is
      below `minGap`, so `needed - |delta|` is positive on both axes and the
      truncation in `Shift` never meets a negative number. */
  lemma ShiftOperandPositive(a: PlacedRoom, b: PlacedRoom, minGap: int)
    requires !Separated(a, b, minGap)
    ensures ShiftOperand(a.width, b.width, CentreX2(b) - CentreX2(a), minGap) > 0
    ensures ShiftOperand(a.height, b.height, CentreY2(b) - CentreY2(a), minGap) > 0
  {
    GapXIdentity(a, b);
    GapYIdentity(a, b);
  }

  /** The horizontal axis is chosen only when `|dx| > |dy|`; ties go vertical. */
  predicate PushesHorizontally(a: PlacedRoom, b: PlacedRoom) {
    Abs(CentreX2(b) - CentreX2(a)) > Abs(CentreY2(b) - CentreY2(a))
  }

  /** The outcome of one push: whether anything moved, and the two rooms after it. */
  datatype Push = Push(moved: bool, first: PlacedRoom, second: PlacedRoom)

  /** Everything but the position is kept. */
  predicate SameExceptPosition(r: PlacedRoom, s: PlacedRoom) {
    r.id == s.id && r.width == s.width && r.height == s.height
    && r.isSpawn == s.isSpawn && r.isStairs == s.isStairs
    && r.items == s.items && r.enemies == s.enemies && r.traps == s.traps
  }

  /** The horizontal push: rooms move apart along x by `s` each, the first
      toward smaller x when the second's centre is not left of it. */
  function PushX(a: PlacedRoom, b: PlacedRoom, minGap: int): (p: Push)
    requires ShiftOperand(a.width, b.width, CentreX2(b) - CentreX2(a), minGap) > 0
    ensures p.moved && SameExceptPosition(a, p.first) && SameExceptPosition(b, p.second)
    ensures p.first.x + p.second.x == a.x + b.x && p.first.y == a.y && p.second.y == b.y
    ensures CentreX2(b) >= CentreX2(a) ==> p.first.x < a.x
    ensures CentreX2(b) < CentreX2(a) ==> p.first.x > a.x
  {
    var dx2 := CentreX2(b) - CentreX2(a);
    var s := Shift(a.width, b.width, dx2, minGap);
    if dx2 >= 0 then Push(true, a.(x := a.x - s), b.(x := b.x + s))
    else Push(true, a.(x := a.x + s), b.(x := b.x - s))
  }

  /** The vertical push, the same along y. */
  function PushY(a: PlacedRoom, b: PlacedRoom, minGap: int): (p: Push)
    requires ShiftOperand(a.height, b.height, CentreY2(b) - CentreY2(a), minGap) > 0
    ensures p.moved && SameExceptPosition(a, p.first) && SameExceptPosition(b, p.second)
    ensures p.first.y + p.second.y == a.y + b.y && p.first.x == a.x && p.second.x == b.x
    ensures CentreY2(b) >= CentreY2(a) ==> p.first.y < a.y
    ensures CentreY2(b) < CentreY2(a) ==> p.first.y > a.y
  {
    var dy2 := CentreY2(b) - CentreY2(a);
    var s := Shift(a.height, b.height, dy2, minGap);
    if dy2 >= 0 then Push(true, a.(y := a.y - s), b.(y := b.y + s))
    else Push(true, a.(y := a.y + s), b.(y := b.y - s))
  }

  /** `_push_apart(r1, r2, min_gap)`. */
  function PushApart(a: PlacedRoom, b: PlacedRoom, minGap: int): (p: Push)
    ensures p.moved <==> !Separated(a, b, minGap)
    ensures !p.moved ==> p.first == a && p.second == b
    ensures SameExceptPosition(a, p.first) && SameExceptPosition(b, p.second)
    ensures p.first.x + p.second.x == a.x + b.x && p.first.y + p.second.y == a.y + b.y
    ensures p.moved && PushesHorizontally(a, b) ==>
      p.first.y == a.y && p.second.y == b.y
      && (CentreX2(b) >= CentreX2(a) ==> p.first.x < a.x)
      && (CentreX2(b) < CentreX2(a) ==> p.first.x > a.x)
    ensures p.moved && !PushesHorizontally(a, b) ==>
      p.first.x == a.x && p.second.x == b.x
      && (CentreY2(b) >= CentreY2(a) ==> p.first.y < a.y)
      && (CentreY2(b) < CentreY2(a) ==> p.first.y > a.y)
  {
    if GapX(a, b) >= minGap || GapY(a, b) >= minGap then Push(false, a, b)
    else
      ShiftOperandPositive(a, b, minGap);
      if PushesHorizontally(a, b) then PushX(a, b, minGap) else PushY(a, b, minGap)
  }

  /** After a push the pair is clear on the push axis by strictly more than
      `minGap` (the `+ 1` in the shift beats the truncation), and the other
      axis is untouched. */
  lemma PushClearance(a: PlacedRoom, b: PlacedRoom, minGap: int)
    requires !Separated(a, b, minGap)
    ensures var p := PushApart(a, b, minGap);
      (PushesHorizontally(a, b) ==> GapX(p.first, p.second) > minGap && GapY(p.first, p.second) == GapY(a, b))
      && (!PushesHorizontally(a, b) ==> GapY(p.first, p.second) > minGap && GapX(p.first, p.second) == GapX(a, b))
  {
    var p := PushApart(a, b, minGap);
    ShiftOperandPositive(a, b, minGap);
    GapXIdentity(a, b);
    GapYIdentity(a, b);
    GapXIdentity(p.first, p.second);
    GapYIdentity(p.first, p.second);
  }

  /** Consequently a pushed pair never needs the same push again. */
  lemma PushSeparates(a: PlacedRoom, b: PlacedRoom, minGap: int)
    ensures var p := PushApart(a, b, minGap); Separated(p.first, p.second, minGap)
  {
    if !Separated(a, b, minGap) {
      PushClearance(a, b, minGap);
    }
  }

  /** The renderer's spelling of the shift: `needed - dx` when `dx >= 0` and
      `needed + dx` otherwise. */
  function SignedShift(size1: int, size2: int, delta2: int, minGap: int): int {
    if delta2 >= 0 then TruncQuarter(size1 + size2 + 2 * minGap - delta2) + 1
    else TruncQuarter(size1 + size2 + 2 * minGap + delta2) + 1
  }

  /** The renderer's horizontal push. */
  function SignedPushX(a: PlacedRoom, b: PlacedRoom, minGap: int): Push {
    var dx2 := CentreX2(b) - CentreX2(a);
    var s := SignedShift(a.width, b.width, dx2, minGap);
    if dx2 >= 0 then Push(true, a.(x := a.x - s), b.(x := b.x + s))
    else Push(true, a.(x := a.x + s), b.(x := b.x - s))
  }

  /** The renderer's vertical push. */
  function SignedPushY(a: PlacedRoom, b: PlacedRoom, minGap: int): Push {
    var dy2 := CentreY2(b) - CentreY2(a);
    var s := SignedShift(a.height, b.height, dy2, minGap);
    if dy2 >= 0 then Push(true, a.(y := a.y - s), b.(y := b.y + s))
    else Push(true, a.(y := a.y + s), b.(y := b.y - s))
  }

  /** `push_apart(r1, r2, min_gap)` as the ASCII renderer writes it. */
  function PushApartSigned(a: PlacedRoom, b: PlacedRoom, minGap: int): Push {
    if GapX(a, b) >= minGap || GapY(a, b) >= minGap then Push(false, a, b)
    else if PushesHorizontally(a, b) then SignedPushX(a, b, minGap)
    else SignedPushY(a, b, minGap)
  }

  /** The signed shift is the shift of `abs(delta)`. */
  lemma SignedShiftAgrees(size1: int, size2: int, delta2: int, minGap: int)
    ensures SignedShift(size1, size2, delta2, minGap) == Shift(size1, size2, delta2, minGap)
  {
  }

  lemma SignedPushXAgrees(a: PlacedRoom, b: PlacedRoom, minGap: int)
    requires ShiftOperand(a.width, b.width, CentreX2(b) - CentreX2(a), minGap) > 0
    ensures SignedPushX(a, b, minGap) == PushX(a, b, minGap)
  {
    SignedShiftAgrees(a.width, b.width, CentreX2(b) - CentreX2(a), minGap);
  }

  lemma SignedPushYAgrees(a: PlacedRoom, b: PlacedRoom, minGap: int)
    requires ShiftOperand(a.height, b.height, CentreY2(b) - CentreY2(a), minGap) > 0
    ensures SignedPushY(a, b, minGap) == PushY(a, b, minGap)
  {
    SignedShiftAgrees(a.height, b.height, CentreY2(b) - CentreY2(a), minGap);
  }

  /** The renderer's copy of the push behaves exactly like the other two. */
  lemma SignedPushAgrees(a: PlacedRoom, b: PlacedRoom, minGap: int)
    ensures PushApartSigned(a, b, minGap) == PushApart(a, b, minGap)
  {
    if !Separated(a, b, minGap) {
      ShiftOperandPositive(a, b, minGap);
      if PushesHorizontally(a, b) {
        SignedPushXAgrees(a, b, minGap);
      } else {
        SignedPushYAgrees(a, b, minGap);
      }
    }
  }

  /** `(i, j)` comes before `(k, l)` in the order of the nested loops. */
  predicate PairBefore(p: (nat, nat), q: (nat, nat)) {
    p.0 < q.0 || (p.0 == q.0 && p.1 < q.1)
  }

  /** The pairs `(i, j), (i, j + 1), ..., (i, n - 1)`: one run of the inner loop. */
  function Row(i: nat, j: nat, n: nat): (r: seq<(nat, nat)>)
    ensures forall k :: 0 <= k < |r| ==> r[k].0 == i && j <= r[k].1 < n
    ensures forall k, l :: 0 <= k < l < |r| ==> r[k].1 < r[l].1
    ensures forall b :: j <= b < n ==> (i, b) in r
    decreases n - j
  {
    if j >= n then [] else [(i, j)] + Row(i, j + 1, n)
  }

  /** The pairs the loops `for i ...: for j in range(i + 1, n)` visit from row `i` on. */
  function PairsFrom(i: nat, n: nat): (r: seq<(nat, nat)>)
    ensures forall k :: 0 <= k < |r| ==> i <= r[k].0 < r[k].1 < n
    ensures forall k, l :: 0 <= k < l < |r| ==> PairBefore(r[k], r[l])
    ensures forall a, b :: i <= a < b < n ==> (a, b) in r
    decreases n - i
  {
    if i >= n then [] else Row(i, i + 1, n) + PairsFrom(i + 1, n)
  }

  /** One pass visits every unordered pair `i < j` exactly once, in key order. */
  function PairOrder(n: nat): (r: seq<(nat, nat)>)
    ensures forall k :: 0 <= k < |r| ==> r[k].0 < r[k].1 < n
    ensures forall a, b :: 0 <= a < b < n ==> (a, b) in r
    ensures forall k, l :: 0 <= k < l < |r| ==> PairBefore(r[k], r[l])
  {
    PairsFrom(0, n)
  }

  /** Strictly ordered pairs never repeat. */
  lemma PairOrderNoRepeats(n: nat)
    ensures NoRepeats(PairOrder(n))
  {
  }

  /** The state after some pushes of a pass: the rooms and whether anything moved. */
  datatype PassResult = PassResult(rooms: seq<PlacedRoom>, moved: bool)

  predicate PairsWithin(pairs: seq<(nat, nat)>, n: nat) {
    forall k :: 0 <= k < |pairs| ==> pairs[k].0 < pairs[k].1 < n
  }

  /** Every pair of rooms is separated. */
  predicate AllSeparated(rs: seq<PlacedRoom>, minGap: int) {
    forall i, j :: 0 <= i < j < |rs| ==> Separated(rs[i], rs[j], minGap)
  }

  /** Rooms correspond one to one and differ at most in position. */
  predicate SameRoomsExceptPositions(rs: seq<PlacedRoom>, ts: seq<PlacedRoom>) {
    |rs| == |ts| && forall k :: 0 <= k < |rs| ==> SameExceptPosition(rs[k], ts[k])
  }

  lemma SameRoomsTransitive(a: seq<PlacedRoom>, b: seq<PlacedRoom>, c: seq<PlacedRoom>)
    requires SameRoomsExceptPositions(a, b) && SameRoomsExceptPositions(b, c)
    ensures SameRoomsExceptPositions(a, c)
  {
  }

  /** Pushes applied in turn to the listed pairs, each seeing the positions the
      earlier pushes left (the source mutates the rooms in place). */
  function ApplyPushes(rs: seq<PlacedRoom>, pairs: seq<(nat, nat)>, minGap: int): (res: PassResult)
    requires PairsWithin(pairs, |rs|)
    ensures SameRoomsExceptPositions(rs, res.rooms)
    ensures !res.moved ==> res.rooms == rs
    ensures !res.moved ==> forall k :: 0 <= k < |pairs| ==> Separated(rs[pairs[k].0], rs[pairs[k].1], minGap)
    decreases |pairs|
  {
    if |pairs| == 0 then PassResult(rs, false)
    else
      var i := pairs[0].0;
      var j := pairs[0].1;
      var p := PushApart(rs[i], rs[j], minGap);
      var rest := ApplyPushes(rs[i := p.first][j := p.second], pairs[1..], minGap);
      PassResult(rest.rooms, p.moved || rest.moved)
  }

  /** One pass of the gap-enforcement loop. */
  function Pass(rs: seq<PlacedRoom>, minGap: int): (res: PassResult)
    ensures SameRoomsExceptPositions(rs, res.rooms)
    ensures !res.moved ==> res.rooms == rs && AllSeparated(rs, minGap)
    ensures SumX(res.rooms) == SumX(rs) && SumY(res.rooms) == SumY(rs)
  {
    var pairs := PairOrder(|rs|);
    var res := ApplyPushes(rs, pairs, minGap);
    PushesPreserveSums(rs, pairs, minGap);
    assert !res.moved ==> AllSeparated(rs, minGap) by {
      if !res.moved {
        forall i, j | 0 <= i < j < |rs| ensures Separated(rs[i], rs[j], minGap) {
          var k :| 0 <= k < |pairs| && pairs[k] == (i, j);
        }
      }
    }
    res
  }

  /** The result of the pass loop: final rooms, passes run, and whether a pass
      with no move ended it early. */
  datatype Resolution = Resolution(rooms: seq<PlacedRoom>, passes: nat, converged: bool)

  /** `for _ in range(budget): ...; if not moved: break`. */
  function Resolve(rs: seq<PlacedRoom>, minGap: int, budget: nat): (r: Resolution)
    ensures r.passes <= budget
    ensures r.converged ==> r.passes >= 1 && AllSeparated(r.rooms, minGap)
    ensures !r.converged ==> r.passes == budget
    ensures SameRoomsExceptPositions(rs, r.rooms)
    ensures SumX(r.rooms) == SumX(rs) && SumY(r.rooms) == SumY(rs)
    decreases budget
  {
    if budget == 0 then Resolution(rs, 0, false)
    else
      var p := Pass(rs, minGap);
      if !p.moved then Resolution(p.rooms, 1, true)
      else
        var r := Resolve(p.rooms, minGap, budget - 1);
        Resolution(r.rooms, r.passes + 1, r.converged)
  }

  /** Sum of the rooms' x coordinates. */
  function SumX(rs: seq<PlacedRoom>): int {
    if |rs| == 0 then 0 else rs[0].x + SumX(rs[1..])
  }

  /** Sum of the rooms' y coordinates. */
  function SumY(rs: seq<PlacedRoom>): int {
    if |rs| == 0 then 0 else rs[0].y + SumY(rs[1..])
  }

  lemma {:induction false} SumUpdate(rs: seq<PlacedRoom>, i: nat, v: PlacedRoom)
    requires i < |rs|
    ensures SumX(rs[i := v]) == SumX(rs) - rs[i].x + v.x
    ensures SumY(rs[i := v]) == SumY(rs) - rs[i].y + v.y
  {
    if i > 0 {
      assert rs[i := v][1..] == rs[1..][i - 1 := v];
      SumUpdate(rs[1..], i - 1, v);
    }
  }

  /** Each push moves its two rooms by equal and opposite amounts, so the sum
      of all coordinates on each axis survives any sequence of pushes. */
  lemma {:induction false} PushesPreserveSums(rs: seq<PlacedRoom>, pairs: seq<(nat, nat)>, minGap: int)
    requires PairsWithin(pairs, |rs|)
    ensures SumX(ApplyPushes(rs, pairs, minGap).rooms) == SumX(rs)
    ensures SumY(ApplyPushes(rs, pairs, minGap).rooms) == SumY(rs)
    decreases |pairs|
  {
    if |pairs| > 0 {
      var i := pairs[0].0;
      var j := pairs[0].1;
      var p := PushApart(rs[i], rs[j], minGap);
      var mid := rs[i := p.first];
      SumUpdate(rs, i, p.first);
      SumUpdate(mid, j, p.second);
      PushesPreserveSums(mid[j := p.second], pairs[1..], minGap);
    }
  }

  /** `min(r.x for r in rooms)`. */
  function MinX(rs: seq<PlacedRoom>): (m: int)
    requires |rs| > 0
    ensures forall k :: 0 <= k < |rs| ==> m <= rs[k].x
    ensures exists k :: 0 <= k < |rs| && rs[k].x == m
  {
    if |rs| == 1 then rs[0].x
    else
      var rest := MinX(rs[1..]);
      assert forall k :: 1 <= k < |rs| ==> rs[k] == rs[1..][k - 1];
      Min(rs[0].x, rest)
  }

  /** `min(r.y for r in rooms)`. */
  function MinY(rs: seq<PlacedRoom>): (m: int)
    requires |rs| > 0
    ensures forall k :: 0 <= k < |rs| ==> m <= rs[k].y
    ensures exists k :: 0 <= k < |rs| && rs[k].y == m
  {
    if |rs| == 1 then rs[0].y
    else
      var rest := MinY(rs[1..]);
      assert forall k :: 1 <= k < |rs| ==> rs[k] == rs[1..][k - 1];
      Min(rs[0].y, rest)
  }

  /** Shift every room by `(-min_x, -min_y)`. Python's `min` of no rooms raises,
      so callers pass at least one room. */
  function Normalize(rs: seq<PlacedRoom>): (ts: seq<PlacedRoom>)
    requires |rs| > 0
    ensures SameRoomsExceptPositions(rs, ts)
    ensures forall k :: 0 <= k < |ts| ==> ts[k].x >= 0 && ts[k].y >= 0
    ensures exists k :: 0 <= k < |ts| && ts[k].x == 0
    ensures exists k :: 0 <= k < |ts| && ts[k].y == 0
    ensures forall i, j :: 0 <= i < |ts| && 0 <= j < |ts| ==>
      ts[i].x - ts[j].x == rs[i].x - rs[j].x && ts[i].y - ts[j].y == rs[i].y - rs[j].y
  {
    var mx := MinX(rs);
    var my := MinY(rs);
    var ts := Translate(rs, mx, my);
    assert exists k :: 0 <= k < |ts| && ts[k].x == 0 by {
      var k :| 0 <= k < |rs| && rs[k].x == mx;
      assert ts[k].x == 0;
    }
    assert exists k :: 0 <= k < |ts| && ts[k].y == 0 by {
      var k :| 0 <= k < |rs| && rs[k].y == my;
      assert ts[k].y == 0;
    }
    ts
  }

  /** Every room moved by `(-dx, -dy)`. */
  function Translate(rs: seq<PlacedRoom>, dx: int, dy: int): (ts: seq<PlacedRoom>)
    ensures SameRoomsExceptPositions(rs, ts)
    ensures forall k :: 0 <= k < |ts| ==> ts[k].x == rs[k].x - dx && ts[k].y == rs[k].y - dy
  {
    seq(|rs|, k requires 0 <= k < |rs| => rs[k].(x := rs[k].x - dx, y := rs[k].y - dy))
  }

  /** Translation does not change clearances, so normalising keeps every pair separated. */
  lemma NormalizeKeepsSeparation(rs: seq<PlacedRoom>, minGap: int)
    requires |rs| > 0
    ensures AllSeparated(Normalize(rs), minGap) <==> AllSeparated(rs, minGap)
  {
    var ts := Normalize(rs);
    forall i, j | 0 <= i < j < |ts| ensures Separated(ts[i], ts[j], minGap) <==> Separated(rs[i], rs[j], minGap) {
      TranslateKeepsGaps(rs[i], rs[j], ts[i], ts[j]);
    }
  }

  /** Gaps depend only on the rooms' relative position. */
  lemma TranslateKeepsGaps(a: PlacedRoom, b: PlacedRoom, a': PlacedRoom, b': PlacedRoom)
    requires SameExceptPosition(a, a') && SameExceptPosition(b, b')
    requires a'.x - b'.x == a.x - b.x && a'.y - b'.y == a.y - b.y
    ensures GapX(a', b') == GapX(a, b) && GapY(a', b') == GapY(a, b)
  {
  }
}
