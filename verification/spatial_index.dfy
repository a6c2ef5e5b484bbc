/**
 * The uniform-grid spatial index: the floor is cut into square cells of
 * `cellSize` millimetres, every indexed object is recorded in each cell its
 * bounding box touches, and a query returns everything recorded in the
 * cells the query box touches (a superset of the objects that actually
 * intersect it). The Python list of lists of sets is modelled as a map from
 * cell to set; a cell missing from the map holds nothing.
 */
module SpatialIndex {
  import opened Boxes

  const DefaultCellSize: real := 1000.0

  /** Indexed objects are named by their box id. */
  type ObjectId = string

  datatype Cell = Cell(row: int, col: int)

  datatype Grid = Grid(width: real, height: real, cellSize: real, rows: int, cols: int,
                          cells: map<Cell, set<ObjectId>>, objectCells: map<ObjectId, seq<Cell>>)

  /** `contains_point`: the closed rectangle, edges included. */
  predicate ClosedContains(r: Rect, x: real, y: real)
  {
    r.x1 <= x <= r.x2 && r.y1 <= y <= r.y2
  }

  /** Unlike the intersection test, the point test includes the far edges. */
  lemma ContainsPointIsClosed(r: Rect, x: real, y: real)
    ensures HalfOpenContains(r, x, y) ==> ClosedContains(r, x, y)
    ensures r.x1 <= r.x2 && r.y1 <= r.y2 ==> ClosedContains(r, r.x2, r.y2) && !HalfOpenContains(r, r.x2, r.y2)
  {
  }

  function Max(a: int, b: int): int
  {
    if a < b then b else a
  }

  function Min(a: int, b: int): int
  {
    if a < b then a else b
  }

  /** `math.ceil`. */
  function Ceil(x: real): (n: int)
    ensures x <= n as real < x + 1.0
  {
    -((-x).Floor)
  }

  /** Multiplying by a positive size preserves order. */
  lemma ScaleOrder(a: real, b: real, size: real)
    requires size > 0.0
    ensures a < b <==> a * size < b * size
    ensures a <= b <==> a * size <= b * size
  {
  }

  /** `v // size` on floats, for a positive size, compared with an integer. */
  lemma FloorDivBounds(v: real, size: real, k: int)
    requires size > 0.0
    ensures k <= (v / size).Floor <==> k as real * size <= v
    ensures (v / size).Floor <= k <==> v < (k + 1) as real * size
  {
    FloorDivLower(v, size, k);
    FloorDivUpper(v, size, k);
  }

  lemma FloorDivLower(v: real, size: real, k: int)
    requires size > 0.0
    ensures k <= (v / size).Floor <==> k as real * size <= v
  {
    var q := v / size;
    assert q * size == v;
    FloorAtLeast(q, k);
    ScaleOrder(k as real, q, size);
  }

  lemma FloorDivUpper(v: real, size: real, k: int)
    requires size > 0.0
    ensures (v / size).Floor <= k <==> v < (k + 1) as real * size
  {
    var q := v / size;
    assert q * size == v;
    FloorAtMost(q, k);
    ScaleOrder(q, (k + 1) as real, size);
  }

  lemma FloorAtLeast(q: real, k: int)
    ensures k <= q.Floor <==> k as real <= q
  {
  }

  lemma FloorAtMost(q: real, k: int)
    ensures q.Floor <= k <==> q < (k + 1) as real
  {
  }

  /** A non-negative coordinate below `n` cells lies in a cell `0 <= k < n`. */
  lemma CellOf(v: real, size: real, n: int)
    requires size > 0.0 && 0.0 <= v < n as real * size
    ensures var k := (v / size).Floor;
      0 <= k < n && k as real * size <= v < (k + 1) as real * size
  {
    var k := (v / size).Floor;
    FloorDivBounds(v, size, k);
    FloorDivBounds(v, size, 0);
    FloorDivBounds(v, size, n - 1);
  }

  /** The clamped index range along one axis is exactly the in-grid cells
      whose span meets `[lo, hi]`. */
  lemma AxisRange(lo: real, hi: real, size: real, n: int, k: int)
    requires size > 0.0
    ensures Max(0, (lo / size).Floor) <= k <= Min(n - 1, (hi / size).Floor) <==>
      0 <= k < n && k as real * size <= hi && lo < (k + 1) as real * size
  {
    FloorDivBounds(lo, size, k);
    FloorDivBounds(hi, size, k);
  }

  /** `math.ceil(v / size) * size` covers `v` with less than one spare cell. */
  lemma CeilDivBounds(v: real, size: real)
    requires size > 0.0
    ensures var n := Ceil(v / size);
      (n - 1) as real * size < v <= n as real * size
  {
    var q := v / size;
    var n := Ceil(q);
    assert q * size == v;
    ScaleOrder((n - 1) as real, q, size);
    ScaleOrder(q, n as real, size);
  }

  /** `SpatialGrid(width, height, cell_size)`: just enough whole cells to
      cover the extent. */
  function NewGrid(width: real, height: real, cellSize: real): (g: Grid)
    requires cellSize > 0.0
    ensures g.width == width && g.height == height && g.cellSize == cellSize
    ensures (g.cols - 1) as real * cellSize < width <= g.cols as real * cellSize
    ensures (g.rows - 1) as real * cellSize < height <= g.rows as real * cellSize
    ensures g.objectCells == map[]
    ensures forall cell :: Contents(g, cell) == {}
  {
    var cols := Ceil(width / cellSize);
    var rows := Ceil(height / cellSize);
    CeilDivBounds(width, cellSize);
    CeilDivBounds(height, cellSize);
    Grid(width, height, cellSize, rows, cols, map[], map[])
  }

  function Lookup(m: map<Cell, set<ObjectId>>, cell: Cell): set<ObjectId>
  {
    if cell in m then m[cell] else {}
  }

  /** The objects recorded in a cell. */
  function Contents(g: Grid, cell: Cell): set<ObjectId>
  {
    Lookup(g.cells, cell)
  }

  predicate InGrid(g: Grid, cell: Cell)
  {
    0 <= cell.row < g.rows && 0 <= cell.col < g.cols
  }

  /** The cell's square `[col * size, (col + 1) * size) x [row * size, (row + 1) * size)`
      meets the closed box. */
  predicate CellMeets(g: Grid, cell: Cell, bbox: Rect)
  {
    && cell.col as real * g.cellSize <= bbox.x2 && bbox.x1 < (cell.col + 1) as real * g.cellSize
    && cell.row as real * g.cellSize <= bbox.y2 && bbox.y1 < (cell.row + 1) as real * g.cellSize
  }

  /** Cells `(r, c0)` to `(r, c1)`. */
  function RowCells(r: int, c0: int, c1: int): (s: seq<Cell>)
    ensures forall cell :: cell in s <==> cell.row == r && c0 <= cell.col <= c1
    decreases c1 - c0
  {
    if c0 > c1 then [] else [Cell(r, c0)] + RowCells(r, c0 + 1, c1)
  }

  /** The rectangle of cells `[r0, r1] x [c0, c1]`, row by row. */
  function Block(r0: int, r1: int, c0: int, c1: int): (s: seq<Cell>)
    ensures forall cell :: cell in s <==> r0 <= cell.row <= r1 && c0 <= cell.col <= c1
    decreases r1 - r0
  {
    if r0 > r1 then [] else RowCells(r0, c0, c1) + Block(r0 + 1, r1, c0, c1)
  }

  /** `_get_cells`: the grid cells a bounding box touches, clamped to the grid. */
  function GetCells(g: Grid, bbox: Rect): (s: seq<Cell>)
    requires g.cellSize > 0.0
    ensures forall cell :: cell in s <==> InGrid(g, cell) && CellMeets(g, cell, bbox)
  {
    var s := Block(Max(0, (bbox.y1 / g.cellSize).Floor), Min(g.rows - 1, (bbox.y2 / g.cellSize).Floor),
                   Max(0, (bbox.x1 / g.cellSize).Floor), Min(g.cols - 1, (bbox.x2 / g.cellSize).Floor));
    forall cell: Cell
      ensures cell in s <==> InGrid(g, cell) && CellMeets(g, cell, bbox)
    {
      InBlock(g, bbox, cell);
    }
    s
  }

  lemma InBlock(g: Grid, bbox: Rect, cell: Cell)
    requires g.cellSize > 0.0
    ensures var s := Block(Max(0, (bbox.y1 / g.cellSize).Floor), Min(g.rows - 1, (bbox.y2 / g.cellSize).Floor),
                           Max(0, (bbox.x1 / g.cellSize).Floor), Min(g.cols - 1, (bbox.x2 / g.cellSize).Floor));
      cell in s <==> InGrid(g, cell) && CellMeets(g, cell, bbox)
  {
    var r0 := Max(0, (bbox.y1 / g.cellSize).Floor);
    var r1 := Min(g.rows - 1, (bbox.y2 / g.cellSize).Floor);
    var c0 := Max(0, (bbox.x1 / g.cellSize).Floor);
    var c1 := Min(g.cols - 1, (bbox.x2 / g.cellSize).Floor);
    BlockMembership(r0, r1, c0, c1, cell);
    ColumnRange(g, bbox, cell.col);
    RowRange(g, bbox, cell.row);
    MeetsByAxis(g, cell, bbox);
  }

  lemma BlockMembership(r0: int, r1: int, c0: int, c1: int, cell: Cell)
    ensures cell in Block(r0, r1, c0, c1) <==> r0 <= cell.row <= r1 && c0 <= cell.col <= c1
  {
  }

  lemma MeetsByAxis(g: Grid, cell: Cell, bbox: Rect)
    ensures InGrid(g, cell) && CellMeets(g, cell, bbox) <==> ColumnMeets(g, cell.col, bbox) && RowMeets(g, cell.row, bbox)
  {
  }

  /** The column part of `InGrid` and `CellMeets`. */
  predicate ColumnMeets(g: Grid, col: int, bbox: Rect)
  {
    0 <= col < g.cols && col as real * g.cellSize <= bbox.x2 && bbox.x1 < (col + 1) as real * g.cellSize
  }

  /** The row part of `InGrid` and `CellMeets`. */
  predicate RowMeets(g: Grid, row: int, bbox: Rect)
  {
    0 <= row < g.rows && row as real * g.cellSize <= bbox.y2 && bbox.y1 < (row + 1) as real * g.cellSize
  }

  lemma ColumnRange(g: Grid, bbox: Rect, col: int)
    requires g.cellSize > 0.0
    ensures Max(0, (bbox.x1 / g.cellSize).Floor) <= col <= Min(g.cols - 1, (bbox.x2 / g.cellSize).Floor)
      <==> ColumnMeets(g, col, bbox)
  {
    AxisRange(bbox.x1, bbox.x2, g.cellSize, g.cols, col);
  }

  lemma RowRange(g: Grid, bbox: Rect, row: int)
    requires g.cellSize > 0.0
    ensures Max(0, (bbox.y1 / g.cellSize).Floor) <= row <= Min(g.rows - 1, (bbox.y2 / g.cellSize).Floor)
      <==> RowMeets(g, row, bbox)
  {
    AxisRange(bbox.y1, bbox.y2, g.cellSize, g.rows, row);
  }

  /** Adds `obj` to every listed cell. */
  function AddToCells(m: map<Cell, set<ObjectId>>, cs: seq<Cell>, obj: ObjectId): (r: map<Cell, set<ObjectId>>)
    ensures forall cell :: Lookup(r, cell) == Lookup(m, cell) + (if cell in cs then {obj} else {})
    decreases |cs|
  {
    if |cs| == 0 then m
    else
      var r := AddToCells(m[cs[0] := Lookup(m, cs[0]) + {obj}], cs[1..], obj);
      assert forall cell :: cell in cs <==> cell == cs[0] || cell in cs[1..];
      r
  }

  /** Discards `obj` from every listed cell. */
  function DiscardFromCells(m: map<Cell, set<ObjectId>>, cs: seq<Cell>, obj: ObjectId): (r: map<Cell, set<ObjectId>>)
    ensures forall cell :: Lookup(r, cell) == Lookup(m, cell) - (if cell in cs then {obj} else {})
    decreases |cs|
  {
    if |cs| == 0 then m
    else
      var r := DiscardFromCells(m[cs[0] := Lookup(m, cs[0]) - {obj}], cs[1..], obj);
      assert forall cell :: cell in cs <==> cell == cs[0] || cell in cs[1..];
      r
  }

  /** `insert`: records the object in the cells its box touches. An object
      already present keeps its entries in its old cells. */
  function Insert(g: Grid, obj: ObjectId, bbox: Rect): (r: Grid)
    requires g.cellSize > 0.0
    ensures r.width == g.width && r.height == g.height && r.cellSize == g.cellSize
    ensures r.rows == g.rows && r.cols == g.cols
    ensures forall cell ::
      Contents(r, cell) == Contents(g, cell) + (if InGrid(g, cell) && CellMeets(g, cell, bbox) then {obj} else {})
    ensures obj in r.objectCells
    ensures forall cell :: cell in r.objectCells[obj] <==> InGrid(g, cell) && CellMeets(g, cell, bbox)
    ensures forall o :: o != obj ==> (o in r.objectCells <==> o in g.objectCells)
    ensures forall o :: o != obj && o in g.objectCells ==> r.objectCells[o] == g.objectCells[o]
  {
    var cs := GetCells(g, bbox);
    g.(cells := AddToCells(g.cells, cs, obj), objectCells := g.objectCells[obj := cs])
  }

  /** `remove`: forgets the object and discards it from its recorded cells;
      an object that is not indexed is ignored. */
  function Remove(g: Grid, obj: ObjectId): (r: Grid)
    ensures obj !in g.objectCells ==> r == g
    ensures r.width == g.width && r.height == g.height && r.cellSize == g.cellSize
    ensures r.rows == g.rows && r.cols == g.cols
    ensures obj !in r.objectCells
    ensures forall o :: o != obj ==> (o in r.objectCells <==> o in g.objectCells)
    ensures forall o :: o != obj && o in g.objectCells ==> r.objectCells[o] == g.objectCells[o]
    ensures obj in g.objectCells ==>
      forall cell :: Contents(r, cell) == Contents(g, cell) - (if cell in g.objectCells[obj] then {obj} else {})
  {
    if obj in g.objectCells then
      g.(cells := DiscardFromCells(g.cells, g.objectCells[obj], obj), objectCells := g.objectCells - {obj})
    else
      g
  }

  /** `update`: remove, then insert at the new box. */
  function Update(g: Grid, obj: ObjectId, bbox: Rect): (r: Grid)
    requires g.cellSize > 0.0
    ensures r == Insert(Remove(g, obj), obj, bbox)
  {
    Insert(Remove(g, obj), obj, bbox)
  }

  /** The union of the listed cells' contents. */
  function Collect(g: Grid, cs: seq<Cell>): (r: set<ObjectId>)
    ensures forall x :: x in r <==> exists k :: 0 <= k < |cs| && x in Contents(g, cs[k])
    decreases |cs|
  {
    if |cs| == 0 then {}
    else
      var r := Contents(g, cs[0]) + Collect(g, cs[1..]);
      assert forall k :: 1 <= k < |cs| ==> cs[k] == cs[1..][k - 1];
      r
  }

  /** `query`: everything recorded in a cell the box touches. */
  function Query(g: Grid, bbox: Rect): (r: set<ObjectId>)
    requires g.cellSize > 0.0
    ensures forall x :: x in r <==>
      exists cell :: InGrid(g, cell) && CellMeets(g, cell, bbox) && x in Contents(g, cell)
  {
    var cs := GetCells(g, bbox);
    var r := Collect(g, cs);
    assert forall x :: x in r <==>
      exists cell :: InGrid(g, cell) && CellMeets(g, cell, bbox) && x in Contents(g, cell) by {
      forall x
        ensures x in r <==> exists cell :: InGrid(g, cell) && CellMeets(g, cell, bbox) && x in Contents(g, cell)
      {
        if exists cell :: InGrid(g, cell) && CellMeets(g, cell, bbox) && x in Contents(g, cell) {
          var cell :| InGrid(g, cell) && CellMeets(g, cell, bbox) && x in Contents(g, cell);
          var k :| 0 <= k < |cs| && cs[k] == cell;
        }
      }
    }
    r
  }

  /** `n` lies within `d` cells of `c` in both directions. */
  predicate Near(c: Cell, n: Cell, d: int)
  {
    -d <= n.row - c.row <= d && -d <= n.col - c.col <= d
  }

  /** The grid cells within `d` cells of `c`. */
  function Around(g: Grid, c: Cell, d: int): (s: seq<Cell>)
    ensures forall n :: n in s <==> InGrid(g, n) && Near(c, n, d)
  {
    Block(Max(0, c.row - d), Min(g.rows - 1, c.row + d), Max(0, c.col - d), Min(g.cols - 1, c.col + d))
  }

  /** The union over the listed cells of what lies within `d` cells of them. */
  function CollectAround(g: Grid, cs: seq<Cell>, d: int): (r: set<ObjectId>)
    ensures forall x :: x in r <==>
      exists k, n :: 0 <= k < |cs| && InGrid(g, n) && Near(cs[k], n, d) && x in Contents(g, n)
    decreases |cs|
  {
    if |cs| == 0 then {}
    else
      var here := Collect(g, Around(g, cs[0], d));
      var rest := CollectAround(g, cs[1..], d);
      assert forall x :: x in here <==> exists n :: InGrid(g, n) && Near(cs[0], n, d) && x in Contents(g, n) by {
        forall x
          ensures x in here <==> exists n :: InGrid(g, n) && Near(cs[0], n, d) && x in Contents(g, n)
        {
          var a := Around(g, cs[0], d);
          if exists n :: InGrid(g, n) && Near(cs[0], n, d) && x in Contents(g, n) {
            var n :| InGrid(g, n) && Near(cs[0], n, d) && x in Contents(g, n);
            var i :| 0 <= i < |a| && a[i] == n;
          }
        }
      }
      assert forall k :: 1 <= k < |cs| ==> cs[k] == cs[1..][k - 1];
      here + rest
  }

  /** `get_nearby_objects`: the objects recorded within `ceil(distance / size)`
      cells of any cell of `obj`, without `obj` itself. */
  function Nearby(g: Grid, obj: ObjectId, distance: real): (r: set<ObjectId>)
    requires g.cellSize > 0.0
    ensures obj !in r
    ensures obj !in g.objectCells ==> r == {}
    ensures obj in g.objectCells ==> forall x :: x in r <==>
      && x != obj
      && exists k, n ::
        && 0 <= k < |g.objectCells[obj]| && InGrid(g, n)
        && Near(g.objectCells[obj][k], n, Ceil(distance / g.cellSize)) && x in Contents(g, n)
  {
    if obj !in g.objectCells then {}
    else
      var cs := g.objectCells[obj];
      if |cs| == 0 then {}
      else CollectAround(g, cs, Ceil(distance / g.cellSize)) - {obj}
  }

  /** `clear`: empties every cell and forgets every object; the grid keeps
      its dimensions. */
  function Clear(g: Grid): (r: Grid)
    ensures r.width == g.width && r.height == g.height && r.cellSize == g.cellSize
    ensures r.rows == g.rows && r.cols == g.cols
    ensures r.objectCells == map[]
    ensures forall cell :: Contents(r, cell) == {}
  {
    g.(cells := map[], objectCells := map[])
  }

  // ---------------------------------------------------------------------------
  // Properties

  /** The two views of the index agree: an object's recorded cells are grid
      cells that list it, and a cell lists only objects that record it. */
  ghost predicate Consistent(g: Grid)
  {
    && (forall o, cell :: o in g.objectCells && cell in g.objectCells[o] ==> InGrid(g, cell) && o in Contents(g, cell))
    && (forall o, cell :: o in Contents(g, cell) ==> o in g.objectCells && cell in g.objectCells[o])
  }

  lemma NewGridIsConsistent(width: real, height: real, cellSize: real)
    requires cellSize > 0.0
    ensures Consistent(NewGrid(width, height, cellSize))
  {
  }

  /** Inserting an object not yet indexed keeps the index consistent. */
  lemma InsertKeepsConsistent(g: Grid, obj: ObjectId, bbox: Rect)
    requires g.cellSize > 0.0 && Consistent(g) && obj !in g.objectCells
    ensures Consistent(Insert(g, obj, bbox))
  {
  }

  /** Re-inserting an indexed object without removing it first leaves it
      listed in an old cell the new box does not touch, which breaks
      consistency; `update` removes first for this reason. */
  lemma ReinsertLeavesStaleCell(g: Grid, obj: ObjectId, bbox: Rect, cell: Cell)
    requires g.cellSize > 0.0 && Consistent(g)
    requires obj in g.objectCells && cell in g.objectCells[obj] && !CellMeets(g, cell, bbox)
    ensures obj in Contents(Insert(g, obj, bbox), cell)
    ensures cell !in Insert(g, obj, bbox).objectCells[obj]
    ensures !Consistent(Insert(g, obj, bbox))
  {
  }

  lemma RemoveKeepsConsistent(g: Grid, obj: ObjectId)
    requires Consistent(g)
    ensures Consistent(Remove(g, obj))
    ensures forall cell :: obj !in Contents(Remove(g, obj), cell)
  {
    var r := Remove(g, obj);
    if obj in g.objectCells {
      forall o, cell | o in r.objectCells && cell in r.objectCells[o]
        ensures InGrid(r, cell) && o in Contents(r, cell)
      {
        assert o != obj && cell in g.objectCells[o];
        assert InGrid(g, cell) && o in Contents(g, cell);
      }
      forall o, cell | o in Contents(r, cell)
        ensures o in r.objectCells && cell in r.objectCells[o]
      {
        assert o in Contents(g, cell);
      }
      forall cell
        ensures obj !in Contents(r, cell)
      {
        if obj in Contents(g, cell) {
          assert cell in g.objectCells[obj];
        }
      }
    }
  }

  /** `update` keeps the index consistent and lists the object in exactly
      the cells its new box touches. */
  lemma UpdateKeepsConsistent(g: Grid, obj: ObjectId, bbox: Rect)
    requires g.cellSize > 0.0 && Consistent(g)
    ensures Consistent(Update(g, obj, bbox))
    ensures forall cell :: obj in Contents(Update(g, obj, bbox), cell) <==> InGrid(g, cell) && CellMeets(g, cell, bbox)
  {
    var g1 := Remove(g, obj);
    RemoveKeepsConsistent(g, obj);
    InsertKeepsConsistent(g1, obj, bbox);
    forall cell
      ensures obj in Contents(Update(g, obj, bbox), cell) <==> InGrid(g, cell) && CellMeets(g, cell, bbox)
    {
      assert obj !in Contents(g1, cell);
      assert InGrid(g1, cell) == InGrid(g, cell) && CellMeets(g1, cell, bbox) == CellMeets(g, cell, bbox);
    }
  }

  /** Removing a freshly inserted object restores the index. */
  lemma InsertThenRemove(g: Grid, obj: ObjectId, bbox: Rect)
    requires g.cellSize > 0.0 && Consistent(g) && obj !in g.objectCells
    ensures Remove(Insert(g, obj, bbox), obj).objectCells == g.objectCells
    ensures forall cell :: Contents(Remove(Insert(g, obj, bbox), obj), cell) == Contents(g, cell)
  {
    var r := Remove(Insert(g, obj, bbox), obj);
    assert forall cell :: obj !in Contents(g, cell);
  }

  /** In a consistent index, a query returns exactly the objects with a
      recorded cell that the query box touches. */
  lemma QueryIffSharedCell(g: Grid, q: Rect, x: ObjectId)
    requires g.cellSize > 0.0 && Consistent(g)
    ensures x in Query(g, q) <==>
      x in g.objectCells && exists k :: 0 <= k < |g.objectCells[x]| && CellMeets(g, g.objectCells[x][k], q)
  {
    if x in g.objectCells && exists k :: 0 <= k < |g.objectCells[x]| && CellMeets(g, g.objectCells[x][k], q) {
      var k :| 0 <= k < |g.objectCells[x]| && CellMeets(g, g.objectCells[x][k], q);
      var cell := g.objectCells[x][k];
      assert InGrid(g, cell) && x in Contents(g, cell);
    }
    if x in Query(g, q) {
      var cell :| InGrid(g, cell) && CellMeets(g, cell, q) && x in Contents(g, cell);
      var k :| 0 <= k < |g.objectCells[x]| && g.objectCells[x][k] == cell;
    }
  }

  /** The index has no false negatives: an object indexed at a box of
      positive area that intersects the query box is returned, provided the corner where the
      two boxes start to overlap lies inside the gridded extent. */
  lemma QueryFindsIntersecting(g: Grid, x: ObjectId, b: Rect, q: Rect)
    requires g.cellSize > 0.0 && Consistent(g)
    requires x in g.objectCells && g.objectCells[x] == GetCells(g, b)
    requires Intersects(b, q)
    requires b.x1 < b.x2 && b.y1 < b.y2 && q.x1 < q.x2 && q.y1 < q.y2
    requires var px := if b.x1 < q.x1 then q.x1 else b.x1;
      var py := if b.y1 < q.y1 then q.y1 else b.y1;
      0.0 <= px < g.cols as real * g.cellSize && 0.0 <= py < g.rows as real * g.cellSize
    ensures x in Query(g, q)
  {
    var cell := CommonCell(b, q, g.cellSize, g.cols, g.rows);
    assert InGrid(g, cell) && CellMeets(g, cell, b) && CellMeets(g, cell, q);
    assert cell in g.objectCells[x];
  }

  /** The cell, within `cols x rows` cells of side `size`, holding the
      corner where `b` and `q` start to overlap. */
  lemma CommonCell(b: Rect, q: Rect, size: real, cols: int, rows: int) returns (cell: Cell)
    requires size > 0.0 && Intersects(b, q)
    requires b.x1 < b.x2 && b.y1 < b.y2 && q.x1 < q.x2 && q.y1 < q.y2
    requires var px := if b.x1 < q.x1 then q.x1 else b.x1;
      var py := if b.y1 < q.y1 then q.y1 else b.y1;
      0.0 <= px < cols as real * size && 0.0 <= py < rows as real * size
    ensures 0 <= cell.col < cols && 0 <= cell.row < rows
    ensures var lo := cell.col as real * size; var hi := (cell.col + 1) as real * size;
      lo <= b.x2 && b.x1 < hi && lo <= q.x2 && q.x1 < hi
    ensures var lo := cell.row as real * size; var hi := (cell.row + 1) as real * size;
      lo <= b.y2 && b.y1 < hi && lo <= q.y2 && q.y1 < hi
  {
    var col := CommonIndex(b.x1, b.x2, q.x1, q.x2, size, cols);
    var row := CommonIndex(b.y1, b.y2, q.y1, q.y2, size, rows);
    cell := Cell(row, col);
  }

  /** Along one axis: the index of the cell holding the point where two
      overlapping spans start to overlap. */
  lemma CommonIndex(lo1: real, hi1: real, lo2: real, hi2: real, size: real, n: int) returns (k: int)
    requires size > 0.0 && lo1 < hi1 && lo2 < hi2 && lo1 < hi2 && lo2 < hi1
    requires var p := if lo1 < lo2 then lo2 else lo1; 0.0 <= p < n as real * size
    ensures 0 <= k < n
    ensures k as real * size <= hi1 && lo1 < (k + 1) as real * size
    ensures k as real * size <= hi2 && lo2 < (k + 1) as real * size
  {
    var p := if lo1 < lo2 then lo2 else lo1;
    k := (p / size).Floor;
    CellOf(p, size, n);
    SpanMeets(lo1, hi1, lo2, hi2, p, k as real * size, (k + 1) as real * size);
  }

  /** Where two overlapping spans start to overlap, any span `[a, c)`
      containing that point meets both. */
  lemma SpanMeets(lo1: real, hi1: real, lo2: real, hi2: real, p: real, a: real, c: real)
    requires p == (if lo1 < lo2 then lo2 else lo1) && p < hi1 && p < hi2
    requires a <= p < c
    ensures a <= hi1 && lo1 < c && a <= hi2 && lo2 < c
  {
  }

  /** Nearby objects never include the object itself, and in a consistent
      index they are all indexed. */
  lemma NearbyIsIndexed(g: Grid, obj: ObjectId, distance: real)
    requires g.cellSize > 0.0 && Consistent(g)
    ensures forall x :: x in Nearby(g, obj, distance) ==> x != obj && x in g.objectCells
  {
  }

  /** After `clear` nothing is returned by any query. */
  lemma ClearEmptiesQueries(g: Grid, q: Rect)
    requires g.cellSize > 0.0
    ensures Consistent(Clear(g))
    ensures Query(Clear(g), q) == {}
  {
  }
}
