/**
 * The container floor and its engine: aggregates, adding and removing boxes,
 * the containment-plus-non-overlap check, the greedy 50 mm placement search
 * and the torque-based weight-balance record.
 */
module Containers {
  import opened Wrappers
  import opened Boxes
  import opened Lists
  import GridScan

  /** Standard floor size, mm. */
  const DefaultLength: real := 11900.0
  const DefaultWidth: real := 2300.0

  /** Torque limits, kg mm: lateral (the y axis, labelled left/right) and
      longitudinal (the x axis, labelled front/rear). */
  const LrTorqueLimit: real := 500000.0
  const FrTorqueLimit: real := 2000000.0

  /** Boxes are kept in insertion order. */
  datatype Container = Container(name: string, length: real, width: real, boxes: seq<Box>)

  datatype Point = Point(x: real, y: real)

  /** Python's `v or default` on an optional dimension: a missing value and
      a zero both fall back to the default. */
  function OrDefault(v: Option<real>, default: real): real
  {
    if v.Some? && v.value != 0.0 then v.value else default
  }

  /** `Container(name, length, width)`. */
  function NewContainer(name: string, length: Option<real>, width: Option<real>): (c: Container)
    ensures c.name == name && c.boxes == []
    ensures length.Some? && length.value != 0.0 ==> c.length == length.value
    ensures length.None? || length.value == 0.0 ==> c.length == DefaultLength
    ensures width.Some? && width.value != 0.0 ==> c.width == width.value
    ensures width.None? || width.value == 0.0 ==> c.width == DefaultWidth
    ensures c.length != 0.0 && c.width != 0.0
    ensures Valid(c)
  {
    Container(name, OrDefault(length, DefaultLength), OrDefault(width, DefaultWidth), [])
  }

  // ---------------------------------------------------------------------------
  // Aggregates. Sums run from the first box to the last, as Python's `sum`.

  function SumWeight(bs: seq<Box>): real
  {
    if |bs| == 0 then 0.0 else SumWeight(bs[..|bs| - 1]) + bs[|bs| - 1].weight
  }

  function SumArea(bs: seq<Box>): real
  {
    if |bs| == 0 then 0.0 else SumArea(bs[..|bs| - 1]) + Area(bs[|bs| - 1])
  }

  /** Sum of `weight * center_x`. */
  function MomentX(bs: seq<Box>): real
  {
    if |bs| == 0 then 0.0 else MomentX(bs[..|bs| - 1]) + bs[|bs| - 1].weight * CenterX(bs[|bs| - 1])
  }

  /** Sum of `weight * center_y`. */
  function MomentY(bs: seq<Box>): real
  {
    if |bs| == 0 then 0.0 else MomentY(bs[..|bs| - 1]) + bs[|bs| - 1].weight * CenterY(bs[|bs| - 1])
  }

  function FloorArea(c: Container): real
  {
    c.length * c.width
  }

  function UsedArea(c: Container): real
  {
    SumArea(c.boxes)
  }

  function TotalWeight(c: Container): real
  {
    SumWeight(c.boxes)
  }

  /** Fraction of the floor covered by boxes; 0 for a floor without area. */
  function AreaUtilization(c: Container): (u: real)
    ensures FloorArea(c) > 0.0 ==> u * FloorArea(c) == UsedArea(c)
    ensures FloorArea(c) <= 0.0 ==> u == 0.0
  {
    if FloorArea(c) > 0.0 then UsedArea(c) / FloorArea(c) else 0.0
  }

  lemma {:induction false} SumWeightAppend(bs: seq<Box>, more: seq<Box>)
    ensures SumWeight(bs + more) == SumWeight(bs) + SumWeight(more)
    decreases |more|
  {
    if |more| > 0 {
      assert (bs + more)[..|bs + more| - 1] == bs + more[..|more| - 1];
      assert (bs + more)[|bs + more| - 1] == more[|more| - 1];
      SumWeightAppend(bs, more[..|more| - 1]);
    } else {
      assert bs + more == bs;
    }
  }

  lemma {:induction false} SumAreaAppend(bs: seq<Box>, more: seq<Box>)
    ensures SumArea(bs + more) == SumArea(bs) + SumArea(more)
    decreases |more|
  {
    if |more| > 0 {
      assert (bs + more)[..|bs + more| - 1] == bs + more[..|more| - 1];
      assert (bs + more)[|bs + more| - 1] == more[|more| - 1];
      SumAreaAppend(bs, more[..|more| - 1]);
    } else {
      assert bs + more == bs;
    }
  }

  lemma SumWeightSingle(b: Box)
    ensures SumWeight([b]) == b.weight
  {
    assert [b][..0] == [];
  }

  lemma SumAreaSingle(b: Box)
    ensures SumArea([b]) == Area(b)
  {
    assert [b][..0] == [];
  }

  // ---------------------------------------------------------------------------
  // Containment and non-overlap

  /** The footprint lies within `[0, length] x [0, width]`. */
  predicate InBounds(c: Container, b: Box)
  {
    !(b.x < 0.0 || b.y < 0.0 || b.x + ActualLength(b) > c.length || b.y + ActualWidth(b) > c.width)
  }

  /** `can_place_box`: in bounds and overlapping no member, where `skip` is
      the position of the box itself when it is already a member (the source
      skips that member by object identity). */
  predicate CanPlace(c: Container, b: Box, skip: Option<nat>)
  {
    && InBounds(c, b)
    && forall k :: 0 <= k < |c.boxes| && skip != Some(k) ==> !Overlaps(b, c.boxes[k])
  }

  /** The container invariant: every member in bounds, no two members overlap. */
  ghost predicate Valid(c: Container)
  {
    && (forall k :: 0 <= k < |c.boxes| ==> InBounds(c, c.boxes[k]))
    && (forall k, l :: 0 <= k < |c.boxes| && 0 <= l < |c.boxes| && k != l ==> !Overlaps(c.boxes[k], c.boxes[l]))
  }

  /** `add_box` of a box that is not a member: appended exactly when it can
      be placed where it stands; otherwise nothing changes. */
  function AddBox(c: Container, b: Box): (r: (bool, Container))
    ensures r.0 <==> CanPlace(c, b, None)
    ensures r.0 ==> r.1 == c.(boxes := c.boxes + [b])
    ensures !r.0 ==> r.1 == c
    ensures Valid(c) ==> Valid(r.1)
    ensures TotalWeight(r.1) == TotalWeight(c) + (if r.0 then b.weight else 0.0)
    ensures UsedArea(r.1) == UsedArea(c) + (if r.0 then Area(b) else 0.0)
  {
    if CanPlace(c, b, None) then
      SumWeightAppend(c.boxes, [b]);
      SumWeightSingle(b);
      SumAreaAppend(c.boxes, [b]);
      SumAreaSingle(b);
      (true, c.(boxes := c.boxes + [b]))
    else
      (false, c)
  }

  /** `remove_box`: succeeds exactly when a field-equal box is a member, and
      then drops the first such member only. */
  function RemoveBox(c: Container, b: Box): (r: (bool, Container))
    ensures r.0 <==> b in c.boxes
    ensures r.1.name == c.name && r.1.length == c.length && r.1.width == c.width
    ensures r.1.boxes == RemoveFirst(c.boxes, b)
    ensures multiset(r.1.boxes) == multiset(c.boxes) - multiset{b}
    ensures !r.0 ==> r.1 == c
    ensures Valid(c) ==> Valid(r.1)
    ensures r.0 ==> TotalWeight(r.1) == TotalWeight(c) - b.weight
  {
    if b in c.boxes then
      var r := c.(boxes := RemoveFirst(c.boxes, b));
      RemovePreservesValid(c, b);
      RemoveFirstWeight(c.boxes, b);
      (true, r)
    else
      (false, c)
  }

  lemma RemovePreservesValid(c: Container, b: Box)
    requires b in c.boxes
    ensures Valid(c) ==> Valid(c.(boxes := RemoveFirst(c.boxes, b)))
  {
    var i := FirstIndex(c.boxes, b);
    var r := RemoveFirst(c.boxes, b);
    // position k of the result came from position Src(k) of the original
    forall k | 0 <= k < |r|
      ensures r[k] == c.boxes[if k < i then k else k + 1]
    {
    }
  }

  lemma RemoveFirstWeight(bs: seq<Box>, b: Box)
    requires b in bs
    ensures SumWeight(RemoveFirst(bs, b)) == SumWeight(bs) - b.weight
  {
    var i := FirstIndex(bs, b);
    assert bs == bs[..i] + [b] + bs[i + 1..];
    assert RemoveFirst(bs, b) == bs[..i] + bs[i + 1..];
    SumWeightAppend(bs[..i] + [b], bs[i + 1..]);
    SumWeightAppend(bs[..i], [b]);
    SumWeightAppend(bs[..i], bs[i + 1..]);
    SumWeightSingle(b);
  }

  /** `clear`: no boxes remain; the floor is kept. */
  function Clear(c: Container): (r: Container)
    ensures r.name == c.name && r.length == c.length && r.width == c.width
    ensures |r.boxes| == 0 && Valid(r)
    ensures TotalWeight(r) == 0.0 && UsedArea(r) == 0.0
  {
    c.(boxes := [])
  }

  /** `get_available_space`: the whole floor when empty; the source returns
      no regions once any box is placed. */
  function AvailableSpace(c: Container): (r: seq<Rect>)
    ensures |c.boxes| == 0 ==> r == [Rect(0.0, 0.0, c.length, c.width)]
    ensures |c.boxes| > 0 ==> r == []
  {
    if |c.boxes| == 0 then [Rect(0.0, 0.0, c.length, c.width)] else []
  }

  /** A member of a valid container may stay where it is once it is skipped
      as itself. */
  lemma MemberStaysPlaceable(c: Container, k: nat)
    requires Valid(c) && k < |c.boxes|
    ensures CanPlace(c, c.boxes[k], Some(k))
  {
  }

  /** After a successful add, checking the new member against the others
      again succeeds. */
  lemma AddedBoxStaysPlaceable(c: Container, b: Box)
    requires AddBox(c, b).0
    ensures var c' := AddBox(c, b).1;
      |c'.boxes| == |c.boxes| + 1 && CanPlace(c', b, Some(|c.boxes|))
  {
  }

  // ---------------------------------------------------------------------------
  // The greedy placement search

  /** `max(0, int(room))`; for a negative room Python's truncation and the
      floor both give a value clamped to 0. */
  function ScanLimit(room: real): (m: int)
    ensures m >= 0
    ensures room >= 0.0 ==> m == room.Floor
    ensures room < 0.0 ==> m == 0
  {
    if room.Floor < 0 then 0 else room.Floor
  }

  function MaxX(c: Container, b: Box): int
  {
    ScanLimit(c.length - ActualLength(b))
  }

  function MaxY(c: Container, b: Box): int
  {
    ScanLimit(c.width - ActualWidth(b))
  }

  function GridPoint(i: int, j: int): Point
  {
    Point((GridScan.Step * i) as real, (GridScan.Step * j) as real)
  }

  /** Visiting order of the search on points: by row, then by column. */
  predicate LexBefore(p: Point, q: Point)
  {
    p.y < q.y || (p.y == q.y && p.x < q.x)
  }

  /** The box can be placed when moved to `p`. */
  predicate FitsAt(c: Container, b: Box, skip: Option<nat>, p: Point)
  {
    CanPlace(c, MoveTo(b, p.x, p.y), skip)
  }

  /** `FitsAt` on grid indices, as the scan consumes it. */
  function FitsGrid(c: Container, b: Box, skip: Option<nat>): (int, int) -> bool
  {
    (i: int, j: int) => FitsAt(c, b, skip, GridPoint(i, j))
  }

  /** The grid point `(i, j)` is visited by the search for this box. */
  predicate Visited(c: Container, b: Box, i: int, j: int)
  {
    GridScan.OnScan(MaxX(c, b), i) && GridScan.OnScan(MaxY(c, b), j)
  }

  lemma GridOrder(i1: int, j1: int, i2: int, j2: int)
    ensures LexBefore(GridPoint(i1, j1), GridPoint(i2, j2)) <==> GridScan.Before(i1, j1, i2, j2)
  {
  }

  /** `find_placement_position`: the first visited grid point at which the
      box fits, scanning rows in the outer loop and columns in the inner
      loop; `None` when no visited point fits. The box and the container are
      values here, so the source's restoring of the position is implicit. */
  function FindPlacementPosition(c: Container, b: Box, skip: Option<nat>): (r: Option<Point>)
    ensures r.Some? ==> FitsAt(c, b, skip, r.value)
    ensures r.Some? ==> r.value.x >= 0.0 && r.value.y >= 0.0
    ensures r.Some? ==> exists i, j :: Visited(c, b, i, j) && r.value == GridPoint(i, j)
    ensures r.Some? ==>
      forall i, j ::
        Visited(c, b, i, j) && LexBefore(GridPoint(i, j), r.value) ==> !FitsAt(c, b, skip, GridPoint(i, j))
    ensures r.None? <==> forall i, j :: Visited(c, b, i, j) ==> !FitsAt(c, b, skip, GridPoint(i, j))
  {
    var fits := FitsGrid(c, b, skip);
    var s := GridScan.Scan(fits, MaxX(c, b), MaxY(c, b), 0, 0);
    if s.Some? then
      var p := GridPoint(s.value.0, s.value.1);
      assert Visited(c, b, s.value.0, s.value.1);
      assert forall i, j ::
        Visited(c, b, i, j) && LexBefore(GridPoint(i, j), p) ==> !FitsAt(c, b, skip, GridPoint(i, j)) by {
        forall i, j | Visited(c, b, i, j) && LexBefore(GridPoint(i, j), p)
          ensures !FitsAt(c, b, skip, GridPoint(i, j))
        {
          GridOrder(i, j, s.value.0, s.value.1);
          assert !fits(i, j);
        }
      }
      Some(p)
    else
      assert forall i, j :: Visited(c, b, i, j) ==> !FitsAt(c, b, skip, GridPoint(i, j)) by {
        forall i, j | Visited(c, b, i, j)
          ensures !FitsAt(c, b, skip, GridPoint(i, j))
        {
          assert !fits(i, j);
        }
      }
      None
  }

  /** The nested loops of the source, returning at the first fit. */
  method FindPlacementPositionLoop(c: Container, b: Box, skip: Option<nat>) returns (r: Option<Point>)
    ensures r == FindPlacementPosition(c, b, skip)
    ensures r.Some? ==> FitsAt(c, b, skip, r.value)
  {
    ghost var fits := FitsGrid(c, b, skip);
    var maxY := MaxY(c, b);
    var maxX := MaxX(c, b);
    var j := 0;
    while GridScan.Step * j < maxY + GridScan.Step
      invariant 0 <= j
      invariant GridScan.Scan(fits, maxX, maxY, 0, 0) == GridScan.Scan(fits, maxX, maxY, 0, j)
      decreases maxY + GridScan.Step - GridScan.Step * j
    {
      var i := 0;
      while GridScan.Step * i < maxX + GridScan.Step
        invariant 0 <= i
        invariant GridScan.Scan(fits, maxX, maxY, 0, 0) == GridScan.Scan(fits, maxX, maxY, i, j)
        decreases maxX + GridScan.Step - GridScan.Step * i
      {
        var p := GridPoint(i, j);
        if CanPlace(c, MoveTo(b, p.x, p.y), skip) {
          return Some(p);
        }
        i := i + 1;
      }
      j := j + 1;
    }
    return None;
  }

  // ---------------------------------------------------------------------------
  // Weight balance

  function Abs(v: real): real
  {
    if v < 0.0 then -v else v
  }

  /** Which side of a centre line a box's centroid falls on. */
  datatype Axis = AlongX | AlongY

  function Centre(b: Box, axis: Axis): real
  {
    match axis
    case AlongX => CenterX(b)
    case AlongY => CenterY(b)
  }

  /** The centroid lies strictly below the line on that axis (the "front"
      or "left" side); `lower == false` selects the other side, which
      includes the line itself. */
  predicate OnSide(b: Box, axis: Axis, line: real, lower: bool)
  {
    (Centre(b, axis) < line) == lower
  }

  /** Total weight of the boxes on one side. */
  function SideWeight(bs: seq<Box>, axis: Axis, line: real, lower: bool): real
  {
    if |bs| == 0 then 0.0
    else
      var b := bs[|bs| - 1];
      SideWeight(bs[..|bs| - 1], axis, line, lower) + (if OnSide(b, axis, line, lower) then b.weight else 0.0)
  }

  /** Total torque of the boxes on one side: weight times the distance of
      the centroid from the line. */
  function SideTorque(bs: seq<Box>, axis: Axis, line: real, lower: bool): real
  {
    if |bs| == 0 then 0.0
    else
      var b := bs[|bs| - 1];
      SideTorque(bs[..|bs| - 1], axis, line, lower)
        + (if OnSide(b, axis, line, lower) then b.weight * Abs(Centre(b, axis) - line) else 0.0)
  }

  /** The eight accumulators of the balance loop. */
  datatype Tally = Tally(leftWeight: real, rightWeight: real, frontWeight: real, rearWeight: real,
                         leftTorque: real, rightTorque: real, frontTorque: real, rearTorque: real)

  /** One iteration of the balance loop. */
  function TallyStep(t: Tally, b: Box, xLine: real, yLine: real): Tally
  {
    var cx := b.x + ActualLength(b) / 2.0;
    var cy := b.y + ActualWidth(b) / 2.0;
    var dLr := Abs(cy - yLine);
    var dFr := Abs(cx - xLine);
    var t1 :=
      if cx < xLine then t.(frontWeight := t.frontWeight + b.weight, frontTorque := t.frontTorque + b.weight * dFr)
      else t.(rearWeight := t.rearWeight + b.weight, rearTorque := t.rearTorque + b.weight * dFr);
    if cy < yLine then t1.(leftWeight := t1.leftWeight + b.weight, leftTorque := t1.leftTorque + b.weight * dLr)
    else t1.(rightWeight := t1.rightWeight + b.weight, rightTorque := t1.rightTorque + b.weight * dLr)
  }

  /** The balance loop over all boxes. Left/right splits on the y centroid
      against `width / 2`, front/rear on the x centroid against `length / 2`. */
  function TallyBoxes(bs: seq<Box>, xLine: real, yLine: real): (t: Tally)
    ensures t.leftWeight == SideWeight(bs, AlongY, yLine, true)
    ensures t.rightWeight == SideWeight(bs, AlongY, yLine, false)
    ensures t.frontWeight == SideWeight(bs, AlongX, xLine, true)
    ensures t.rearWeight == SideWeight(bs, AlongX, xLine, false)
    ensures t.leftTorque == SideTorque(bs, AlongY, yLine, true)
    ensures t.rightTorque == SideTorque(bs, AlongY, yLine, false)
    ensures t.frontTorque == SideTorque(bs, AlongX, xLine, true)
    ensures t.rearTorque == SideTorque(bs, AlongX, xLine, false)
  {
    if |bs| == 0 then Tally(0.0, 0.0, 0.0, 0.0, 0.0, 0.0, 0.0, 0.0)
    else TallyStep(TallyBoxes(bs[..|bs| - 1], xLine, yLine), bs[|bs| - 1], xLine, yLine)
  }

  /** The record `calculate_weight_balance` returns. */
  datatype BalanceInfo = BalanceInfo(
    leftWeight: real, rightWeight: real, frontWeight: real, rearWeight: real,
    leftTorque: real, rightTorque: real, frontTorque: real, rearTorque: real,
    lrTorque: real, frTorque: real, lrTorqueLimit: real, frTorqueLimit: real,
    centerX: real, centerY: real, isBalanced: bool)

  /** `calculate_weight_balance`. */
  function WeightBalance(c: Container): (r: BalanceInfo)
    ensures r.leftWeight == SideWeight(c.boxes, AlongY, c.width / 2.0, true)
    ensures r.rightWeight == SideWeight(c.boxes, AlongY, c.width / 2.0, false)
    ensures r.frontWeight == SideWeight(c.boxes, AlongX, c.length / 2.0, true)
    ensures r.rearWeight == SideWeight(c.boxes, AlongX, c.length / 2.0, false)
    ensures r.leftTorque == SideTorque(c.boxes, AlongY, c.width / 2.0, true)
    ensures r.rightTorque == SideTorque(c.boxes, AlongY, c.width / 2.0, false)
    ensures r.frontTorque == SideTorque(c.boxes, AlongX, c.length / 2.0, true)
    ensures r.rearTorque == SideTorque(c.boxes, AlongX, c.length / 2.0, false)
    ensures r.lrTorque == Abs(r.leftTorque - r.rightTorque)
    ensures r.frTorque == Abs(r.frontTorque - r.rearTorque)
    ensures r.lrTorqueLimit == LrTorqueLimit && r.frTorqueLimit == FrTorqueLimit
    ensures r.isBalanced <==> r.lrTorque <= LrTorqueLimit && r.frTorque <= FrTorqueLimit
    ensures TotalWeight(c) > 0.0 ==>
      r.centerX == MomentX(c.boxes) / TotalWeight(c) && r.centerY == MomentY(c.boxes) / TotalWeight(c)
    ensures TotalWeight(c) <= 0.0 ==> r.centerX == c.length / 2.0 && r.centerY == c.width / 2.0
  {
    if |c.boxes| == 0 then
      BalanceInfo(0.0, 0.0, 0.0, 0.0, 0.0, 0.0, 0.0, 0.0, 0.0, 0.0,
                  LrTorqueLimit, FrTorqueLimit, c.length / 2.0, c.width / 2.0, true)
    else
      var xLine := c.length / 2.0;
      var yLine := c.width / 2.0;
      var t := TallyBoxes(c.boxes, xLine, yLine);
      var lr := Abs(t.leftTorque - t.rightTorque);
      var fr := Abs(t.frontTorque - t.rearTorque);
      var total := TotalWeight(c);
      var cx := if total > 0.0 then MomentX(c.boxes) / total else xLine;
      var cy := if total > 0.0 then MomentY(c.boxes) / total else yLine;
      BalanceInfo(t.leftWeight, t.rightWeight, t.frontWeight, t.rearWeight,
                  t.leftTorque, t.rightTorque, t.frontTorque, t.rearTorque,
                  lr, fr, LrTorqueLimit, FrTorqueLimit, cx, cy,
                  lr <= LrTorqueLimit && fr <= FrTorqueLimit)
  }

  /** Every box is counted on exactly one side of each line. */
  lemma {:induction false} SidesPartitionWeight(bs: seq<Box>, axis: Axis, line: real)
    ensures SideWeight(bs, axis, line, true) + SideWeight(bs, axis, line, false) == SumWeight(bs)
  {
    if |bs| > 0 {
      SidesPartitionWeight(bs[..|bs| - 1], axis, line);
    }
  }

  /** With no negative weights no side torque is negative. */
  lemma {:induction false} SideTorqueNonNegative(bs: seq<Box>, axis: Axis, line: real, lower: bool)
    requires forall k :: 0 <= k < |bs| ==> bs[k].weight >= 0.0
    ensures SideTorque(bs, axis, line, lower) >= 0.0
  {
    if |bs| > 0 {
      var b := bs[|bs| - 1];
      SideTorqueNonNegative(bs[..|bs| - 1], axis, line, lower);
      assert b.weight * Abs(Centre(b, axis) - line) >= 0.0;
    }
  }

  /** Left plus right and front plus rear both give the total weight; with no
      negative weights all four torques are non-negative. */
  lemma BalancePartitionsLoad(c: Container)
    ensures WeightBalance(c).leftWeight + WeightBalance(c).rightWeight == TotalWeight(c)
    ensures WeightBalance(c).frontWeight + WeightBalance(c).rearWeight == TotalWeight(c)
    ensures (forall k :: 0 <= k < |c.boxes| ==> c.boxes[k].weight >= 0.0) ==>
      var r := WeightBalance(c);
      r.leftTorque >= 0.0 && r.rightTorque >= 0.0 && r.frontTorque >= 0.0 && r.rearTorque >= 0.0
  {
    SidesPartitionWeight(c.boxes, AlongY, c.width / 2.0);
    SidesPartitionWeight(c.boxes, AlongX, c.length / 2.0);
    if forall k :: 0 <= k < |c.boxes| ==> c.boxes[k].weight >= 0.0 {
      SideTorqueNonNegative(c.boxes, AlongY, c.width / 2.0, true);
      SideTorqueNonNegative(c.boxes, AlongY, c.width / 2.0, false);
      SideTorqueNonNegative(c.boxes, AlongX, c.length / 2.0, true);
      SideTorqueNonNegative(c.boxes, AlongX, c.length / 2.0, false);
    }
  }

  /** An empty container is balanced, with zero weights and torques and the
      geometric centre. */
  lemma EmptyContainerBalance(c: Container)
    requires |c.boxes| == 0
    ensures var r := WeightBalance(c);
      && r.leftWeight == 0.0 && r.rightWeight == 0.0 && r.frontWeight == 0.0 && r.rearWeight == 0.0
      && r.leftTorque == 0.0 && r.rightTorque == 0.0 && r.frontTorque == 0.0 && r.rearTorque == 0.0
      && r.lrTorque == 0.0 && r.frTorque == 0.0
      && r.lrTorqueLimit == 500000.0 && r.frTorqueLimit == 2000000.0
      && r.centerX == c.length / 2.0 && r.centerY == c.width / 2.0
      && r.isBalanced
  {
  }

  // ---------------------------------------------------------------------------
  // Consequences

  /** In an empty container any box whose footprint fits the floor is placed
      at the origin, the first point of the scan. */
  lemma EmptyContainerPlacesAtOrigin(c: Container, b: Box)
    requires |c.boxes| == 0
    requires 0.0 <= ActualLength(b) <= c.length && 0.0 <= ActualWidth(b) <= c.width
    ensures FindPlacementPosition(c, b, None) == Some(Point(0.0, 0.0))
  {
    var origin := GridPoint(0, 0);
    assert Visited(c, b, 0, 0);
    assert FitsAt(c, b, None, origin);
    var r := FindPlacementPosition(c, b, None);
    assert r.Some?;
  }

  /** Sums of `weight * center_x` lie between the extreme centres times
      the total weight. */
  lemma {:induction false} MomentXBounds(bs: seq<Box>, lo: real, hi: real)
    requires forall k :: 0 <= k < |bs| ==> bs[k].weight >= 0.0 && lo <= CenterX(bs[k]) <= hi
    ensures lo * SumWeight(bs) <= MomentX(bs) <= hi * SumWeight(bs)
  {
    if |bs| > 0 {
      var prefix := bs[..|bs| - 1];
      var b := bs[|bs| - 1];
      assert forall k :: 0 <= k < |prefix| ==> prefix[k] == bs[k];
      MomentXBounds(prefix, lo, hi);
      var v := CenterX(b);
      assert lo <= v <= hi && b.weight >= 0.0;
      WeightedBetween(b.weight, v, lo, hi);
      assert SumWeight(bs) == SumWeight(prefix) + b.weight;
      assert MomentX(bs) == MomentX(prefix) + b.weight * v;
      AddBetween(lo, hi, SumWeight(prefix), MomentX(prefix), b.weight, b.weight * v);
    }
  }

  lemma {:induction false} MomentYBounds(bs: seq<Box>, lo: real, hi: real)
    requires forall k :: 0 <= k < |bs| ==> bs[k].weight >= 0.0 && lo <= CenterY(bs[k]) <= hi
    ensures lo * SumWeight(bs) <= MomentY(bs) <= hi * SumWeight(bs)
  {
    if |bs| > 0 {
      var prefix := bs[..|bs| - 1];
      var b := bs[|bs| - 1];
      assert forall k :: 0 <= k < |prefix| ==> prefix[k] == bs[k];
      MomentYBounds(prefix, lo, hi);
      var v := CenterY(b);
      assert lo <= v <= hi && b.weight >= 0.0;
      WeightedBetween(b.weight, v, lo, hi);
      assert SumWeight(bs) == SumWeight(prefix) + b.weight;
      assert MomentY(bs) == MomentY(prefix) + b.weight * v;
      AddBetween(lo, hi, SumWeight(prefix), MomentY(prefix), b.weight, b.weight * v);
    }
  }

  lemma AddBetween(lo: real, hi: real, s: real, m: real, w: real, wv: real)
    requires lo * s <= m <= hi * s && lo * w <= wv <= hi * w
    ensures lo * (s + w) <= m + wv <= hi * (s + w)
  {
    assert lo * (s + w) == lo * s + lo * w;
    assert hi * (s + w) == hi * s + hi * w;
  }

  lemma WeightedBetween(w: real, v: real, lo: real, hi: real)
    requires w >= 0.0 && lo <= v <= hi
    ensures lo * w <= w * v <= hi * w
  {
  }

  /** For a valid load of real boxes the centre of gravity lies on the floor. */
  lemma CentreOfGravityOnFloor(c: Container)
    requires Valid(c)
    requires forall k :: 0 <= k < |c.boxes| ==> HasExtent(c.boxes[k]) && c.boxes[k].weight >= 0.0
    requires TotalWeight(c) > 0.0
    ensures 0.0 <= WeightBalance(c).centerX <= c.length
    ensures 0.0 <= WeightBalance(c).centerY <= c.width
  {
    MeanCentreXOnFloor(c);
    MeanCentreYOnFloor(c);
  }

  lemma MeanCentreXOnFloor(c: Container)
    requires forall k :: 0 <= k < |c.boxes| ==> InBounds(c, c.boxes[k])
    requires forall k :: 0 <= k < |c.boxes| ==> HasExtent(c.boxes[k]) && c.boxes[k].weight >= 0.0
    requires TotalWeight(c) > 0.0
    ensures 0.0 <= MomentX(c.boxes) / TotalWeight(c) <= c.length
  {
    MomentXOnFloor(c.boxes, c.length);
    var w := TotalWeight(c);
    DivideBetween(MomentX(c.boxes), w, c.length, MomentX(c.boxes) / w);
  }

  lemma MeanCentreYOnFloor(c: Container)
    requires forall k :: 0 <= k < |c.boxes| ==> InBounds(c, c.boxes[k])
    requires forall k :: 0 <= k < |c.boxes| ==> HasExtent(c.boxes[k]) && c.boxes[k].weight >= 0.0
    requires TotalWeight(c) > 0.0
    ensures 0.0 <= MomentY(c.boxes) / TotalWeight(c) <= c.width
  {
    MomentYOnFloor(c.boxes, c.width);
    var w := TotalWeight(c);
    DivideBetween(MomentY(c.boxes), w, c.width, MomentY(c.boxes) / w);
  }

  lemma MomentXOnFloor(bs: seq<Box>, length: real)
    requires forall k :: 0 <= k < |bs| ==>
      HasExtent(bs[k]) && bs[k].weight >= 0.0 && bs[k].x >= 0.0 && bs[k].x + ActualLength(bs[k]) <= length
    ensures 0.0 <= MomentX(bs) <= length * SumWeight(bs)
  {
    forall k | 0 <= k < |bs|
      ensures 0.0 <= CenterX(bs[k]) <= length
    {
      assert HasExtent(bs[k]);
    }
    MomentXBounds(bs, 0.0, length);
  }

  lemma MomentYOnFloor(bs: seq<Box>, width: real)
    requires forall k :: 0 <= k < |bs| ==>
      HasExtent(bs[k]) && bs[k].weight >= 0.0 && bs[k].y >= 0.0 && bs[k].y + ActualWidth(bs[k]) <= width
    ensures 0.0 <= MomentY(bs) <= width * SumWeight(bs)
  {
    forall k | 0 <= k < |bs|
      ensures 0.0 <= CenterY(bs[k]) <= width
    {
      assert HasExtent(bs[k]);
    }
    MomentYBounds(bs, 0.0, width);
  }

  lemma DivideBetween(s: real, w: real, hi: real, q: real)
    requires w > 0.0 && 0.0 <= s <= hi * w && q == s / w
    ensures 0.0 <= q <= hi
  {
  }

  /** Two boxes of the sample data side by side on the standard floor: a
      1500 x 1000 box fits above them at (0, 800) but not at the origin. */
  lemma SampleScenarioCanPlace()
    ensures var c := Container("C", 11900.0, 2300.0, [
        Box("BOX001", 1200.0, 800.0, 450.0, None, 0.0, 0.0, false),
        Box("BOX002", 1000.0, 600.0, 320.0, None, 1200.0, 0.0, false)]);
      var third := NewBox("BOX003", 1500.0, 1000.0, 680.0, None);
      && CanPlace(c, MoveTo(third, 0.0, 800.0), None)
      && !CanPlace(c, third, None)
  {
    var c := Container("C", 11900.0, 2300.0, [
        Box("BOX001", 1200.0, 800.0, 450.0, None, 0.0, 0.0, false),
        Box("BOX002", 1000.0, 600.0, 320.0, None, 1200.0, 0.0, false)]);
    var third := NewBox("BOX003", 1500.0, 1000.0, 680.0, None);
    assert Overlaps(third, c.boxes[0]);
  }

  /** A single 600 kg box centred on the floor is balanced with zero torques. */
  lemma CentredBoxIsBalanced()
    ensures var c := Container("C", 11900.0, 2300.0, [Box("B", 1000.0, 600.0, 600.0, None, 5450.0, 850.0, false)]);
      var r := WeightBalance(c);
      && r.leftTorque == 0.0 && r.rightTorque == 0.0
      && r.frontTorque == 0.0 && r.rearTorque == 0.0
      && r.isBalanced
  {
  }

  /** Two 1000 kg boxes along the lower edge of the front half exceed the
      lateral torque limit. */
  lemma HeavyEdgeLoadIsUnbalanced()
    ensures var c := Container("C", 11900.0, 2300.0, [
        Box("A", 1000.0, 400.0, 1000.0, None, 0.0, 0.0, false),
        Box("B", 1000.0, 400.0, 1000.0, None, 1000.0, 0.0, false)]);
      var r := WeightBalance(c);
      r.leftTorque == 1900000.0 && r.lrTorque == 1900000.0 && !r.isBalanced
  {
  }
}
