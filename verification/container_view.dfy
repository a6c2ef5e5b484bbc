/**
 * The decisions the container view makes when the user drags, rotates,
 * releases or deletes a box on the floor plan. Only the validity logic is
 * modelled; the item is identified with its box, and a box that is a member
 * of the container is the same object as that member, so moving it moves
 * the member (`member` names its position).
 */
module ContainerView {
  import opened Wrappers
  import opened Boxes
  import opened Lists
  import C = Containers

  /** Snap resolution in millimetres. */
  const GridSize: real := 10.0

  /** Commit threshold on release, in millimetres. */
  const MoveThreshold: real := 0.1

  /** The nearest multiple of the snap resolution (ties go up). */
  function Snap(v: real): (r: real)
    ensures r / GridSize == (r / GridSize).Floor as real
    ensures v - GridSize / 2.0 < r <= v + GridSize / 2.0
  {
    var n := (v / GridSize + 0.5).Floor;
    assert n as real * GridSize / GridSize == n as real;
    n as real * GridSize
  }

  /** No multiple of the snap resolution is closer to `v` than `Snap(v)`. */
  lemma SnapIsNearest(v: real, m: int)
    ensures C.Abs(Snap(v) - v) <= C.Abs(m as real * GridSize - v)
  {
    var r := Snap(v);
    var n := (r / GridSize).Floor;
    assert r == n as real * GridSize;
    if m < n {
      assert m as real * GridSize <= r - GridSize;
    } else if m > n {
      assert m as real * GridSize >= r + GridSize;
    }
  }

  /** Snapping a snapped value changes nothing. */
  lemma SnapIsIdempotent(v: real)
    ensures Snap(Snap(v)) == Snap(v)
  {
    var r := Snap(v);
    var n := (r / GridSize).Floor;
    assert r == n as real * GridSize;
    assert r / GridSize + 0.5 == n as real + 0.5;
    assert (n as real + 0.5).Floor == n;
  }

  /** `member`, when present, is the position of `b` in the container. */
  predicate IsMember(c: Option<C.Container>, b: Box, member: Option<nat>)
  {
    member.Some? ==> c.Some? && member.value < |c.value.boxes| && c.value.boxes[member.value] == b
  }

  /** The container as it is once the item's box is `moved`. */
  function Track(c: Option<C.Container>, member: Option<nat>, moved: Box): Option<C.Container>
  {
    if c.Some? && member.Some? && member.value < |c.value.boxes| then
      Some(c.value.(boxes := c.value.boxes[member.value := moved]))
    else c
  }

  /** The test `itemChange` makes at the snapped position; without a
      container every position is accepted. */
  predicate DropIsValid(c: Option<C.Container>, m: Box, member: Option<nat>)
  {
    match c
    case None => true
    case Some(ct) =>
      if m.x < 0.0 || m.y < 0.0 || m.x + ActualLength(m) > ct.length || m.y + ActualWidth(m) > ct.width then false
      else forall k :: 0 <= k < |ct.boxes| && member != Some(k) ==> !Overlaps(m, ct.boxes[k])
  }

  /** The outcome of one drag step: whether it was accepted, the position the
      item is given, the box afterwards and the container afterwards. */
  datatype Drag = Drag(accepted: bool, x: real, y: real, box: Box, container: Option<C.Container>)

  /** `itemChange` for a position change to `(rawX, rawY)` millimetres. */
  function ItemChange(c: Option<C.Container>, b: Box, member: Option<nat>, rawX: real, rawY: real): (r: Drag)
    requires IsMember(c, b, member)
    ensures r.accepted ==> r.x == Snap(rawX) && r.y == Snap(rawY) && r.box == MoveTo(b, r.x, r.y)
    ensures r.accepted ==> r.container == Track(c, member, r.box)
    ensures !r.accepted ==> r.x == b.x && r.y == b.y && r.box == b && r.container == c
    ensures c.None? ==> r.accepted && r.container.None?
    ensures c.Some? ==> (r.accepted <==> C.CanPlace(c.value, MoveTo(b, Snap(rawX), Snap(rawY)), member))
  {
    var m := MoveTo(b, Snap(rawX), Snap(rawY));
    if DropIsValid(c, m, member) then Drag(true, m.x, m.y, m, Track(c, member, m))
    else Drag(false, b.x, b.y, b, c)
  }

  /** Replacing a member by a box that can be placed with that member
      skipped keeps the container valid. */
  lemma ReplaceKeepsValid(c: C.Container, k: nat, m: Box)
    requires k < |c.boxes| && C.Valid(c) && C.CanPlace(c, m, Some(k))
    ensures C.Valid(c.(boxes := c.boxes[k := m]))
  {
    var d := c.(boxes := c.boxes[k := m]);
    forall i, j | 0 <= i < |d.boxes| && 0 <= j < |d.boxes| && i != j
      ensures !Overlaps(d.boxes[i], d.boxes[j])
    {
      if i == k {
        assert !Overlaps(m, c.boxes[j]);
      } else if j == k {
        assert !Overlaps(m, c.boxes[i]);
        OverlapsIsSymmetric(m, c.boxes[i]);
      }
    }
  }

  /** Dragging a member of a valid container, accepted or not, leaves the
      container valid. */
  lemma DragKeepsValid(c: C.Container, k: nat, rawX: real, rawY: real)
    requires k < |c.boxes| && C.Valid(c)
    ensures var r := ItemChange(Some(c), c.boxes[k], Some(k), rawX, rawY);
      r.container.Some? && C.Valid(r.container.value)
  {
    var r := ItemChange(Some(c), c.boxes[k], Some(k), rawX, rawY);
    if r.accepted {
      ReplaceKeepsValid(c, k, r.box);
    }
  }

  /** The check `rotate_box` makes after rotating: only the far edges are
      checked, then the other boxes. */
  predicate RotationFits(ct: C.Container, rb: Box, member: Option<nat>)
  {
    && !(rb.x + ActualLength(rb) > ct.length || rb.y + ActualWidth(rb) > ct.width)
    && forall k :: 0 <= k < |ct.boxes| && member != Some(k) ==> !Overlaps(rb, ct.boxes[k])
  }

  /** `rotate_box`: the box ends up either rotated or exactly as it was;
      with a container, it is rotated exactly when the rotated footprint
      passes the check. Returns the box and the container afterwards. */
  function RotateBox(c: Option<C.Container>, b: Box, member: Option<nat>): (r: (Box, Option<C.Container>))
    requires IsMember(c, b, member)
    ensures r.0 == Rotate(b) || r.0 == b
    ensures r.0.rotated == !b.rotated <==> r.0 != b
    ensures c.Some? ==> (r.0 != b <==> RotationFits(c.value, Rotate(b), member))
    ensures c.None? ==> r.0 == Rotate(b)
    ensures r.0 == b ==> r.1 == c
    ensures r.0 != b ==> r.1 == Track(c, member, r.0)
  {
    var rb := Rotate(b);
    if !CanRotate(b) then (b, c)
    else if c.Some? && !RotationFits(c.value, rb, member) then (b, c)
    else (rb, Track(c, member, rb))
  }

  /** Rotating a member of a valid container keeps it valid: the member was
      in bounds, so checking the far edges is enough. */
  lemma RotateKeepsValid(c: C.Container, k: nat)
    requires k < |c.boxes| && C.Valid(c)
    ensures var r := RotateBox(Some(c), c.boxes[k], Some(k));
      r.1.Some? && C.Valid(r.1.value)
  {
    var b := c.boxes[k];
    var r := RotateBox(Some(c), b, Some(k));
    if r.0 != b {
      assert C.InBounds(c, b);
      assert C.CanPlace(c, r.0, Some(k));
      ReplaceKeepsValid(c, k, r.0);
    }
  }

  /** `mouseReleaseEvent`: the item's position `(px, py)` is written to the
      box only if it moved more than 0.1 mm along either axis. The box is
      the container's member when `member` says so, and the container sees
      the write. No placement check is made here. */
  function Release(c: Option<C.Container>, b: Box, member: Option<nat>, px: real, py: real): (r: (Box, Option<C.Container>))
    requires IsMember(c, b, member)
    ensures r.0 == b || r.0 == MoveTo(b, px, py)
    ensures C.Abs(r.0.x - px) <= MoveThreshold && C.Abs(r.0.y - py) <= MoveThreshold
    ensures r.0 == b <==> C.Abs(b.x - px) <= MoveThreshold && C.Abs(b.y - py) <= MoveThreshold
    ensures r.0 == b ==> r.1 == c
    ensures r.0 != b ==> r.1 == Track(c, member, r.0)
    ensures IsMember(r.1, r.0, member)
  {
    if C.Abs(px - b.x) > MoveThreshold || C.Abs(py - b.y) > MoveThreshold then
      var moved := MoveTo(b, px, py);
      (moved, Track(c, member, moved))
    else (b, c)
  }

  /** Releasing twice at the same position is the same as releasing once:
      the box and the container the first release leaves are kept. */
  lemma ReleaseIsIdempotent(c: Option<C.Container>, b: Box, member: Option<nat>, px: real, py: real)
    requires IsMember(c, b, member)
    ensures var r := Release(c, b, member, px, py);
      Release(r.1, r.0, member, px, py) == r
  {
  }

  /** Releasing a member where the box already stands after an accepted drag
      step changes nothing, so the container the drag left stays valid. */
  lemma ReleaseAfterDragKeepsValid(c: C.Container, k: nat, rawX: real, rawY: real)
    requires k < |c.boxes| && C.Valid(c)
    ensures var d := ItemChange(Some(c), c.boxes[k], Some(k), rawX, rawY);
      var r := Release(d.container, d.box, Some(k), d.x, d.y);
      r == (d.box, d.container) && r.1.Some? && C.Valid(r.1.value)
  {
    var d := ItemChange(Some(c), c.boxes[k], Some(k), rawX, rawY);
    DragKeepsValid(c, k, rawX, rawY);
    if d.accepted {
      assert d.box == c.boxes[k].(x := d.x, y := d.y);
    }
  }

  /** The Delete key: each selected box is removed from the container by
      value, in selection order; without a container nothing happens. */
  function DeleteSelected(c: Option<C.Container>, selected: seq<Box>): (r: Option<C.Container>)
    ensures c.None? <==> r.None?
    ensures c.Some? ==>
      && r.value.name == c.value.name && r.value.length == c.value.length && r.value.width == c.value.width
      && multiset(r.value.boxes) == multiset(c.value.boxes) - multiset(selected)
    ensures c.Some? && C.Valid(c.value) ==> C.Valid(r.value)
  {
    match c
    case None => None
    case Some(container) => Some(DeleteFrom(container, selected))
  }

  function DeleteFrom(c: C.Container, selected: seq<Box>): (r: C.Container)
    ensures r.name == c.name && r.length == c.length && r.width == c.width
    ensures multiset(r.boxes) == multiset(c.boxes) - multiset(selected)
    ensures C.Valid(c) ==> C.Valid(r)
    decreases |selected|
  {
    if |selected| == 0 then c
    else
      var next := C.RemoveBox(c, selected[0]).1;
      var r := DeleteFrom(next, selected[1..]);
      RemoveOneThenRest(c.boxes, next.boxes, r.boxes, selected);
      r
  }

  /** Deleting the selection removes the boxes one first occurrence at a
      time. */
  lemma {:induction false} DeleteIsRemoveEach(c: C.Container, selected: seq<Box>)
    ensures DeleteSelected(Some(c), selected).value.boxes == RemoveEach(c.boxes, selected)
    decreases |selected|
  {
    if |selected| > 0 {
      DeleteIsRemoveEach(C.RemoveBox(c, selected[0]).1, selected[1..]);
    }
  }

  /** The R key: every selected member is rotated, with no bounds or
      collision check. */
  function RotateSelected(c: C.Container, selected: set<nat>): (r: C.Container)
    ensures r.name == c.name && r.length == c.length && r.width == c.width
    ensures |r.boxes| == |c.boxes|
    ensures forall k :: 0 <= k < |c.boxes| && k !in selected ==> r.boxes[k] == c.boxes[k]
    ensures forall k :: 0 <= k < |c.boxes| && k in selected ==> r.boxes[k] == Rotate(c.boxes[k])
    ensures forall k :: 0 <= k < |c.boxes| && k in selected ==>
      r.boxes[k].rotated != c.boxes[k].rotated && Area(r.boxes[k]) == Area(c.boxes[k])
  {
    c.(boxes := seq(|c.boxes|, k requires 0 <= k < |c.boxes| => if k in selected then Rotate(c.boxes[k]) else c.boxes[k]))
  }

  /** Pressing R twice on the same selection restores the container. */
  lemma RotateSelectedTwiceRestores(c: C.Container, selected: set<nat>)
    ensures RotateSelected(RotateSelected(c, selected), selected) == c
  {
    var r := RotateSelected(RotateSelected(c, selected), selected);
    forall k | 0 <= k < |c.boxes|
      ensures r.boxes[k] == c.boxes[k]
    {
      RotateIsInvolution(c.boxes[k]);
    }
  }

  /** Unlike `rotate_box`, the R key can push a box out of the container. */
  lemma RKeyCanBreakValidity()
    ensures var c := C.Container("C", 1000.0, 500.0, [Box("A", 800.0, 100.0, 10.0, None, 0.0, 0.0, false)]);
      C.Valid(c) && !C.Valid(RotateSelected(c, {0}))
  {
    var c := C.Container("C", 1000.0, 500.0, [Box("A", 800.0, 100.0, 10.0, None, 0.0, 0.0, false)]);
    var r := RotateSelected(c, {0});
    assert !C.InBounds(r, r.boxes[0]);
  }

  /** Whereas `rotate_box` refuses the same rotation. */
  lemma RotateBoxRefusesOverflow()
    ensures var c := C.Container("C", 1000.0, 500.0, [Box("A", 800.0, 100.0, 10.0, None, 0.0, 0.0, false)]);
      RotateBox(Some(c), c.boxes[0], Some(0)).0 == c.boxes[0]
  {
  }
}
