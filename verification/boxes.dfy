/**
 * A cargo box on the container floor: its footprint under the 0/90 degree
 * rotation flag, its bounds, its centroid and the half-open overlap test.
 * Lengths are millimetres, weights kilograms.
 */
module Boxes {
  import opened Wrappers

  /** `length` and `width` are measured along the un-rotated axes; `(x, y)` is
      the corner of the footprint nearest the origin. */
  datatype Box = Box(id: string, length: real, width: real, weight: real,
                     height: Option<real>, x: real, y: real, rotated: bool)

  /** An axis-aligned rectangle `(x1, y1, x2, y2)`. */
  datatype Rect = Rect(x1: real, y1: real, x2: real, y2: real)

  /** `Box(id, length, width, weight, height)` with the dataclass defaults
      for the position and the rotation flag. */
  function NewBox(id: string, length: real, width: real, weight: real, height: Option<real>): Box
  {
    Box(id, length, width, weight, height, 0.0, 0.0, false)
  }

  /** Extent of the footprint along x. */
  function ActualLength(b: Box): real
  {
    if b.rotated then b.width else b.length
  }

  /** Extent of the footprint along y. */
  function ActualWidth(b: Box): real
  {
    if b.rotated then b.length else b.width
  }

  function Area(b: Box): real
  {
    b.length * b.width
  }

  function CenterX(b: Box): real
  {
    b.x + ActualLength(b) / 2.0
  }

  function CenterY(b: Box): real
  {
    b.y + ActualWidth(b) / 2.0
  }

  function Bounds(b: Box): Rect
  {
    Rect(b.x, b.y, b.x + ActualLength(b), b.y + ActualWidth(b))
  }

  /** The half-open intersection test: rectangles that only share an edge
      do not intersect. */
  predicate Intersects(r: Rect, s: Rect)
  {
    !(r.x2 <= s.x1 || r.x1 >= s.x2 || r.y2 <= s.y1 || r.y1 >= s.y2)
  }

  predicate Overlaps(a: Box, b: Box)
  {
    Intersects(Bounds(a), Bounds(b))
  }

  /** Every box may be rotated. */
  predicate CanRotate(b: Box)
  {
    true
  }

  /** `rotate`: the flag flips, so the footprint swaps; nothing else changes. */
  function Rotate(b: Box): (r: Box)
    ensures r.rotated == !b.rotated
    ensures ActualLength(r) == ActualWidth(b) && ActualWidth(r) == ActualLength(b)
    ensures r.(rotated := b.rotated) == b
  {
    if CanRotate(b) then b.(rotated := !b.rotated) else b
  }

  /** `move_to`: the position is set; nothing else changes. */
  function MoveTo(b: Box, x: real, y: real): (r: Box)
    ensures r.x == x && r.y == y
    ensures ActualLength(r) == ActualLength(b) && ActualWidth(r) == ActualWidth(b)
    ensures r.(x := b.x, y := b.y) == b
  {
    b.(x := x, y := y)
  }

  /** A box has a footprint of positive area. */
  predicate HasExtent(b: Box)
  {
    b.length > 0.0 && b.width > 0.0
  }

  /** The point `(px, py)` lies in `r` taken as the half-open `[x1, x2) x [y1, y2)`. */
  predicate HalfOpenContains(r: Rect, px: real, py: real)
  {
    r.x1 <= px < r.x2 && r.y1 <= py < r.y2
  }

  // ---------------------------------------------------------------------------
  // Properties

  /** The rotation flag swaps the footprint; the area ignores it. */
  lemma FootprintFollowsRotation(b: Box)
    ensures b.rotated ==> ActualLength(b) == b.width && ActualWidth(b) == b.length
    ensures !b.rotated ==> ActualLength(b) == b.length && ActualWidth(b) == b.width
    ensures Area(b) == ActualLength(b) * ActualWidth(b)
  {
  }

  /** The bounds span the footprint from the position, and the centre is
      their midpoint. */
  lemma BoundsAndCentre(b: Box)
    ensures Bounds(b).x2 - Bounds(b).x1 == ActualLength(b)
    ensures Bounds(b).y2 - Bounds(b).y1 == ActualWidth(b)
    ensures CenterX(b) == (Bounds(b).x1 + Bounds(b).x2) / 2.0
    ensures CenterY(b) == (Bounds(b).y1 + Bounds(b).y2) / 2.0
  {
  }

  /** Rotation flips the flag, swaps the footprint, keeps the area, and is
      its own inverse. */
  lemma RotateIsInvolution(b: Box)
    ensures Rotate(b).rotated == !b.rotated
    ensures ActualLength(Rotate(b)) == ActualWidth(b)
    ensures ActualWidth(Rotate(b)) == ActualLength(b)
    ensures Area(Rotate(b)) == Area(b)
    ensures Rotate(Rotate(b)) == b
  {
  }

  /** Moving changes the position only, and shifts the bounds rigidly. */
  lemma MoveToChangesOnlyPosition(b: Box, x: real, y: real)
    ensures var m := MoveTo(b, x, y);
      && m.x == x && m.y == y
      && m.id == b.id && m.length == b.length && m.width == b.width
      && m.weight == b.weight && m.height == b.height && m.rotated == b.rotated
      && ActualLength(m) == ActualLength(b) && ActualWidth(m) == ActualWidth(b)
      && Bounds(m) == Rect(x, y, x + ActualLength(b), y + ActualWidth(b))
  {
  }

  lemma IntersectsIsSymmetric(r: Rect, s: Rect)
    ensures Intersects(r, s) <==> Intersects(s, r)
  {
  }

  lemma OverlapsIsSymmetric(a: Box, b: Box)
    ensures Overlaps(a, b) <==> Overlaps(b, a)
  {
  }

  /** Boxes that meet along an edge, or are separated along an axis, do
      not overlap. */
  lemma SeparatedBoxesDoNotOverlap(a: Box, b: Box)
    requires a.x + ActualLength(a) <= b.x || b.x + ActualLength(b) <= a.x
          || a.y + ActualWidth(a) <= b.y || b.y + ActualWidth(b) <= a.y
    ensures !Overlaps(a, b)
  {
  }

  /** For rectangles of positive area, the half-open test holds exactly when
      some point lies in both half-open rectangles. */
  lemma IntersectsIffCommonPoint(r: Rect, s: Rect)
    requires r.x1 < r.x2 && r.y1 < r.y2 && s.x1 < s.x2 && s.y1 < s.y2
    ensures Intersects(r, s) <==>
      exists px: real, py: real :: HalfOpenContains(r, px, py) && HalfOpenContains(s, px, py)
  {
    if Intersects(r, s) {
      var px := if r.x1 < s.x1 then s.x1 else r.x1;
      var py := if r.y1 < s.y1 then s.y1 else r.y1;
      assert HalfOpenContains(r, px, py) && HalfOpenContains(s, px, py);
    }
  }

  /** A box of positive extent overlaps itself. */
  lemma BoxOverlapsItself(b: Box)
    requires HasExtent(b)
    ensures Overlaps(b, b)
  {
  }

  /** Two boxes whose interiors share a point overlap (the converse
      direction of the edge rule). */
  lemma SharedInteriorPointOverlaps(a: Box, b: Box, px: real, py: real)
    requires Bounds(a).x1 < px < Bounds(a).x2 && Bounds(a).y1 < py < Bounds(a).y2
    requires Bounds(b).x1 < px < Bounds(b).x2 && Bounds(b).y1 < py < Bounds(b).y2
    ensures Overlaps(a, b)
  {
  }
}
