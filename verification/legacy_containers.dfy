/**
 * The older container engine of the Windows deployment. It shares the data
 * model and the aggregates, adding and removing, clearing and the available
 * space with the current engine, but differs in four operations: the
 * placement check never skips the box itself, the placement search leaves
 * the box where it last looked, the default floor is 11800 mm long, and the
 * balance record compares raw weights (with the axes labelled the other way
 * round) against strict limits.
 */
module LegacyContainers {
  import opened Wrappers
  import opened Boxes
  import GridScan
  import C = Containers

  const DefaultLength: real := 11800.0
  const DefaultWidth: real := 2300.0

  /** Weight-difference limits, kg. */
  const LrDiffLimit: real := 500.0
  const FrDiffLimit: real := 2000.0

  /** `Container(name, length, width)` with this engine's defaults. */
  function NewContainer(name: string, length: Option<real>, width: Option<real>): (c: C.Container)
    ensures c.name == name && c.boxes == []
    ensures length.Some? && length.value != 0.0 ==> c.length == length.value
    ensures length.None? || length.value == 0.0 ==> c.length == DefaultLength
    ensures width.Some? && width.value != 0.0 ==> c.width == width.value
    ensures width.None? || width.value == 0.0 ==> c.width == DefaultWidth
  {
    C.Container(name, C.OrDefault(length, DefaultLength), C.OrDefault(width, DefaultWidth), [])
  }

  /** `can_place_box` without self-exclusion: in bounds and overlapping no
      member at all. */
  predicate CanPlace(c: C.Container, b: Box)
  {
    && C.InBounds(c, b)
    && forall k :: 0 <= k < |c.boxes| ==> !Overlaps(b, c.boxes[k])
  }

  /** For a box that is not a member the two engines agree. */
  lemma CanPlaceAgreesForNonMembers(c: C.Container, b: Box)
    ensures CanPlace(c, b) <==> C.CanPlace(c, b, None)
  {
  }

  /** A member of positive extent is rejected at its own position, while the
      current engine, which skips it, accepts it in a valid container. */
  lemma MemberBlocksItself(c: C.Container, k: nat)
    requires k < |c.boxes| && HasExtent(c.boxes[k])
    ensures !CanPlace(c, c.boxes[k])
    ensures C.Valid(c) ==> C.CanPlace(c, c.boxes[k], Some(k))
  {
    BoxOverlapsItself(c.boxes[k]);
  }

  /** `add_box`: appended exactly when the placement check passes. */
  function AddBox(c: C.Container, b: Box): (r: (bool, C.Container))
    ensures r.0 <==> CanPlace(c, b)
    ensures r.0 ==> r.1 == c.(boxes := c.boxes + [b])
    ensures !r.0 ==> r.1 == c
    ensures C.Valid(c) ==> C.Valid(r.1)
    ensures r == C.AddBox(c, b)
  {
    if CanPlace(c, b) then (true, c.(boxes := c.boxes + [b])) else (false, c)
  }

  // ---------------------------------------------------------------------------
  // The placement search without restore

  /** What the search leaves behind: the answer, the box where the search
      left it, and the container (whose member moves along when the box
      searched for is that member). */
  datatype Search = Search(position: Option<C.Point>, box: Box, container: C.Container)

  /** The container as seen while the box stands at `moved`: the box is the
      same object as member `member`, if it is one. */
  function Track(c: C.Container, member: Option<nat>, moved: Box): C.Container
  {
    if member.Some? && member.value < |c.boxes| then c.(boxes := c.boxes[member.value := moved]) else c
  }

  function At(b: Box, p: C.Point): Box
  {
    MoveTo(b, p.x, p.y)
  }

  /** The check the search makes after moving the box to grid point `(i, j)`. */
  function FitsGrid(c: C.Container, b: Box, member: Option<nat>): (int, int) -> bool
  {
    (i: int, j: int) => var m := At(b, C.GridPoint(i, j)); CanPlace(Track(c, member, m), m)
  }

  /** `find_placement_position` of the Windows deployment. On success the box
      stays at the answer; on failure it stays at the last point scanned. */
  function FindPlacementPosition(c: C.Container, b: Box, member: Option<nat>): (r: Search)
    requires member.Some? ==> member.value < |c.boxes| && c.boxes[member.value] == b
    ensures r.position.Some? ==>
      && r.box == At(b, r.position.value)
      && r.container == Track(c, member, r.box)
      && CanPlace(r.container, r.box)
    ensures r.position.Some? ==>
      forall i, j ::
        C.Visited(c, b, i, j) && C.LexBefore(C.GridPoint(i, j), r.position.value) ==> !FitsGrid(c, b, member)(i, j)
    ensures r.position.None? ==>
      && r.box == At(b, C.GridPoint(GridScan.LastOnScan(C.MaxX(c, b)), GridScan.LastOnScan(C.MaxY(c, b))))
      && r.container == Track(c, member, r.box)
      && forall i, j :: C.Visited(c, b, i, j) ==> !FitsGrid(c, b, member)(i, j)
  {
    var fits := FitsGrid(c, b, member);
    var s := GridScan.Scan(fits, C.MaxX(c, b), C.MaxY(c, b), 0, 0);
    if s.Some? then
      var p := C.GridPoint(s.value.0, s.value.1);
      assert forall i, j ::
        C.Visited(c, b, i, j) && C.LexBefore(C.GridPoint(i, j), p) ==> !fits(i, j) by {
        forall i, j | C.Visited(c, b, i, j) && C.LexBefore(C.GridPoint(i, j), p)
          ensures !fits(i, j)
        {
          C.GridOrder(i, j, s.value.0, s.value.1);
        }
      }
      var m := At(b, p);
      Search(Some(p), m, Track(c, member, m))
    else
      var last := C.GridPoint(GridScan.LastOnScan(C.MaxX(c, b)), GridScan.LastOnScan(C.MaxY(c, b)));
      var m := At(b, last);
      Search(None, m, Track(c, member, m))
  }

  /** For a box that is not a member the answer is the current engine's. */
  lemma NonMemberSearchAgrees(c: C.Container, b: Box)
    ensures FindPlacementPosition(c, b, None).position == C.FindPlacementPosition(c, b, None)
  {
    GridScan.ScanRespectsEqualTests(FitsGrid(c, b, None), C.FitsGrid(c, b, None), C.MaxX(c, b), C.MaxY(c, b), 0, 0);
  }

  /** Searching for a member of positive extent never succeeds (the box
      collides with itself everywhere), and the member is left at the last
      scanned point. */
  lemma MemberSearchFails(c: C.Container, k: nat)
    requires k < |c.boxes| && HasExtent(c.boxes[k])
    ensures var b := c.boxes[k];
      var r := FindPlacementPosition(c, b, Some(k));
      && r.position.None?
      && r.box == At(b, C.GridPoint(GridScan.LastOnScan(C.MaxX(c, b)), GridScan.LastOnScan(C.MaxY(c, b))))
      && r.container.boxes[k] == r.box
  {
    var b := c.boxes[k];
    var r := FindPlacementPosition(c, b, Some(k));
    if r.position.Some? {
      assert r.container.boxes[k] == r.box;
      BoxOverlapsItself(r.box);
    }
  }

  // ---------------------------------------------------------------------------
  // The weight-difference balance

  /** The record this engine's `calculate_weight_balance` returns. */
  datatype BalanceInfo = BalanceInfo(
    leftWeight: real, rightWeight: real, frontWeight: real, rearWeight: real,
    lrDiff: real, frDiff: real, centerX: real, centerY: real, isBalanced: bool)

  /** A non-empty load of total weight 0 makes the source call itself
      forever; the model's domain excludes exactly that case. */
  predicate BalanceTerminates(c: C.Container)
  {
    |c.boxes| == 0 || C.TotalWeight(c) != 0.0
  }

  /** `calculate_weight_balance`: left/right splits on the x centroid against
      `length / 2` and front/rear on the y centroid against `width / 2`. */
  function WeightBalance(c: C.Container): (r: BalanceInfo)
    requires BalanceTerminates(c)
    ensures r.leftWeight == C.SideWeight(c.boxes, C.AlongX, c.length / 2.0, true)
    ensures r.rightWeight == C.SideWeight(c.boxes, C.AlongX, c.length / 2.0, false)
    ensures r.frontWeight == C.SideWeight(c.boxes, C.AlongY, c.width / 2.0, true)
    ensures r.rearWeight == C.SideWeight(c.boxes, C.AlongY, c.width / 2.0, false)
    ensures r.lrDiff == C.Abs(r.leftWeight - r.rightWeight)
    ensures r.frDiff == C.Abs(r.frontWeight - r.rearWeight)
    ensures r.isBalanced <==> r.lrDiff < LrDiffLimit && r.frDiff < FrDiffLimit
    ensures |c.boxes| == 0 ==> r.centerX == c.length / 2.0 && r.centerY == c.width / 2.0
    ensures |c.boxes| > 0 ==>
      r.centerX * C.TotalWeight(c) == C.MomentX(c.boxes) && r.centerY * C.TotalWeight(c) == C.MomentY(c.boxes)
  {
    if |c.boxes| == 0 then
      BalanceInfo(0.0, 0.0, 0.0, 0.0, 0.0, 0.0, c.length / 2.0, c.width / 2.0, true)
    else
      var total := C.TotalWeight(c);
      var cx := C.MomentX(c.boxes) / total;
      var cy := C.MomentY(c.boxes) / total;
      var left := C.SideWeight(c.boxes, C.AlongX, c.length / 2.0, true);
      var right := C.SideWeight(c.boxes, C.AlongX, c.length / 2.0, false);
      var front := C.SideWeight(c.boxes, C.AlongY, c.width / 2.0, true);
      var rear := C.SideWeight(c.boxes, C.AlongY, c.width / 2.0, false);
      var lrDiff := C.Abs(left - right);
      var frDiff := C.Abs(front - rear);
      BalanceInfo(left, right, front, rear, lrDiff, frDiff, cx, cy, lrDiff < LrDiffLimit && frDiff < FrDiffLimit)
  }

  /** Each axis splits the whole load between its two sides. */
  lemma BalancePartitionsLoad(c: C.Container)
    requires BalanceTerminates(c)
    ensures WeightBalance(c).leftWeight + WeightBalance(c).rightWeight == C.TotalWeight(c)
    ensures WeightBalance(c).frontWeight + WeightBalance(c).rearWeight == C.TotalWeight(c)
  {
    C.SidesPartitionWeight(c.boxes, C.AlongX, c.length / 2.0);
    C.SidesPartitionWeight(c.boxes, C.AlongY, c.width / 2.0);
  }

  /** The labels are swapped relative to the current engine: this engine's
      left/right weights are the current engine's front/rear weights and
      vice versa. */
  lemma AxesAreSwapped(c: C.Container)
    requires BalanceTerminates(c)
    ensures WeightBalance(c).leftWeight == C.WeightBalance(c).frontWeight
    ensures WeightBalance(c).rightWeight == C.WeightBalance(c).rearWeight
    ensures WeightBalance(c).frontWeight == C.WeightBalance(c).leftWeight
    ensures WeightBalance(c).rearWeight == C.WeightBalance(c).rightWeight
  {
  }

  /** An empty container gives zero weights and differences, the geometric
      centre, and a balanced verdict. */
  lemma EmptyContainerBalance(c: C.Container)
    requires |c.boxes| == 0
    ensures var r := WeightBalance(c);
      && r.leftWeight == 0.0 && r.rightWeight == 0.0 && r.frontWeight == 0.0 && r.rearWeight == 0.0
      && r.lrDiff == 0.0 && r.frDiff == 0.0
      && r.centerX == c.length / 2.0 && r.centerY == c.width / 2.0
      && r.isBalanced
  {
  }

  /** The limits are strict: a difference of exactly 500 kg is unbalanced. */
  lemma LimitIsStrict()
    ensures var c := C.Container("C", 11800.0, 2300.0, [Box("A", 1000.0, 1000.0, 500.0, None, 0.0, 0.0, false)]);
      var r := WeightBalance(c);
      r.lrDiff == 500.0 && !r.isBalanced
  {
    var b := Box("A", 1000.0, 1000.0, 500.0, None, 0.0, 0.0, false);
    var c := C.Container("C", 11800.0, 2300.0, [b]);
    assert [b][..0] == [];
    C.SumWeightSingle(b);
  }
}
