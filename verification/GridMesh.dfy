/** `CToolsNavMesh`: the grid over the nav areas and the queries on it (extension/toolsnav_mesh.cpp:20-159,
    240-408; extension/toolsnav_mesh.h:60-178). */
module GridMesh {
  import opened OpenList
  import opened NavAreas
  import opened GridGeometry
  import opened GridOrder
  import opened Wrappers

  function Index(f: Frame, c: Cell): int {
    c.x + c.y * f.sizeX
  }

  /** Distinct cells of the grid have distinct places, all of them in range. */
  lemma IndexInRange(f: Frame, c: Cell)
    requires FrameOk(f) && InGrid(f, c)
    ensures 0 <= Index(f, c) < f.sizeX * f.sizeY
  {
    assert c.y * f.sizeX <= (f.sizeY - 1) * f.sizeX;
  }

  /** In a column of the grid, the place of a cell is past the grid exactly when its row is. */
  lemma PastTheGridIff(f: Frame, c: Cell)
    requires FrameOk(f) && 0 <= c.x < f.sizeX && 0 <= c.y
    ensures f.sizeX * f.sizeY <= Index(f, c) <==> f.sizeY <= c.y
  {
    if f.sizeY <= c.y {
      assert f.sizeY * f.sizeX <= c.y * f.sizeX;
    } else {
      IndexInRange(f, c);
    }
  }

  lemma IndexInjective(f: Frame, c: Cell, d: Cell)
    requires FrameOk(f) && InGrid(f, c) && InGrid(f, d) && c != d
    ensures Index(f, c) != Index(f, d)
  {
    if c.y < d.y {
      RowsApart(f.sizeX, c.y, d.y);
    } else if d.y < c.y {
      RowsApart(f.sizeX, d.y, c.y);
    }
  }

  lemma RowsApart(size: int, y: int, y': int)
    requires 1 <= size && y < y'
    ensures y * size + size <= y' * size
  {
    assert (y + 1) * size <= y' * size;
  }

  // ---------- Nested loops over cells ----------

  /** The kept cells before row y of column x. */
  function Upto(x0: int, x: int, y0: int, y: int, y1: int, keep: Cell -> bool): seq<Cell> {
    Columns(x0, x, y0, y1, keep) + Column(x, y0, y, keep)
  }

  lemma UptoStep(f: Frame, areas: seq<GridArea>, x0: int, x: int, y0: int, y: int, y1: int, keep: Cell -> bool)
    requires FrameOk(f) && x0 <= x && y0 <= y < y1
    ensures !keep(Cell(x, y)) ==> Upto(x0, x, y0, y + 1, y1, keep) == Upto(x0, x, y0, y, y1, keep)
    ensures keep(Cell(x, y)) ==>
              Listing(f, areas, Upto(x0, x, y0, y + 1, y1, keep)) ==
              Listing(f, areas, Upto(x0, x, y0, y, y1, keep)) + Covering(f, areas, Cell(x, y))
  {
    var u, c := Upto(x0, x, y0, y, y1, keep), Cell(x, y);
    if keep(c) {
      assert Upto(x0, x, y0, y + 1, y1, keep) == u + [c];
      assert (u + [c])[..|u|] == u;
    } else {
      assert Upto(x0, x, y0, y + 1, y1, keep) == u;
    }
  }

  lemma UptoEnds(x0: int, x: int, y0: int, y: int, y1: int, keep: Cell -> bool)
    requires x0 <= x && (y == y1 || y1 <= y == y0)
    ensures Upto(x0, x, y0, y0, y1, keep) == Columns(x0, x, y0, y1, keep)
    ensures Upto(x0, x, y0, y, y1, keep) == Columns(x0, x + 1, y0, y1, keep)
  {
  }

  lemma {:induction false} ColumnPrefix(x: int, y0: int, y: int, y1: int, keep: Cell -> bool)
    requires y <= y1
    ensures Column(x, y0, y, keep) <= Column(x, y0, y1, keep)
    decreases y1 - y
  {
    if y < y1 {
      ColumnPrefix(x, y0, y, y1 - 1, keep);
    }
  }

  lemma {:induction false} UptoPrefix(x0: int, x: int, x1: int, y0: int, y: int, y1: int, keep: Cell -> bool)
    requires x0 <= x < x1 && y <= y1
    ensures Upto(x0, x, y0, y, y1, keep) <= Columns(x0, x1, y0, y1, keep)
    decreases x1 - x
  {
    if x == x1 - 1 {
      ColumnPrefix(x, y0, y, y1, keep);
    } else {
      UptoPrefix(x0, x, x1 - 1, y0, y, y1, keep);
    }
  }

  /** What has been listed before row y is a prefix of the whole listing. */
  lemma ListedPrefix(f: Frame, areas: seq<GridArea>, x0: int, x: int, x1: int, y0: int, y: int, y1: int, keep: Cell -> bool)
    requires FrameOk(f) && x0 <= x < x1 && y <= y1
    ensures Listing(f, areas, Upto(x0, x, y0, y, y1, keep)) <= Listing(f, areas, Columns(x0, x1, y0, y1, keep))
  {
    var u, all := Upto(x0, x, y0, y, y1, keep), Columns(x0, x1, y0, y1, keep);
    UptoPrefix(x0, x, x1, y0, y, y1, keep);
    assert all == u + all[|u|..];
    ListingConcat(f, areas, u, all[|u|..]);
  }

  // ---------- The mesh ----------

  /** The bounds of the mesh before any area is seen (toolsnav_mesh.cpp:30-33). */
  const SENTINEL := 9999999999.9

  const HALF_HUMAN_HEIGHT := 36.0

  /** The area falls into the grid without any clamping. */
  predicate Fits(f: Frame, s: Shape) {
    && 0 <= Trunc((s.nw.x - f.minX) / CELL_SIZE) && Trunc((s.se.x - f.minX) / CELL_SIZE) < f.sizeX
    && 0 <= Trunc((s.nw.y - f.minY) / CELL_SIZE) && Trunc((s.se.y - f.minY) / CELL_SIZE) < f.sizeY
  }

  class ToolsNavMesh {
    var areas: seq<GridArea>
    var grid: seq<seq<GridArea>>
    var frame: Frame
    var isLoaded: bool
    var extentMarker: uint32
    var radiusMarker: uint32
    var nearestMarker: uint32

    /** The markers start at random values. */
    constructor (extentMarker: uint32, radiusMarker: uint32, nearestMarker: uint32)
      ensures Valid() && areas == [] && !isLoaded
    {
      areas, grid, isLoaded := [], [], false;
      frame := Frame(0.0, 0.0, 0, 0);
      this.extentMarker, this.radiusMarker, this.nearestMarker := extentMarker, radiusMarker, nearestMarker;
    }

    /** Every cell holds exactly the areas registered there, in the order in which they were added. */
    ghost predicate Valid()
      reads this
    {
      && ShapesOk(areas)
      && (grid == [] ==> areas == [])
      && (grid != [] ==> Holds(areas))
    }

    ghost predicate Holds(list: seq<GridArea>)
      reads this`frame, this`grid
    {
      && FrameOk(frame) && |grid| == frame.sizeX * frame.sizeY
      && forall c {:trigger Covering(frame, list, c)} :: InGrid(frame, c) ==>
           0 <= Index(frame, c) < |grid| && grid[Index(frame, c)] == Covering(frame, list, c)
    }

    method Clear()
      modifies this
      ensures Valid() && areas == [] && grid == [] && !isLoaded
      ensures extentMarker == old(extentMarker) && radiusMarker == old(radiusMarker) && nearestMarker == old(nearestMarker)
    {
      isLoaded := false;
      grid, areas := [], [];
    }

    /** `Load`: the grid is built anew over all areas; none of them needs any clamping. */
    method Load(navAreas: seq<GridArea>)
      requires ShapesOk(navAreas)
      modifies this
      ensures Valid() && areas == navAreas && isLoaded == (navAreas != []) && (grid == [] <==> navAreas == [])
      ensures forall i :: 0 <= i < |areas| ==> Fits(frame, areas[i].shape)
    {
      hide ShapeOk, Fits;
      Clear();
      if |navAreas| <= 0 {
        return;
      }
      var extent := Bounds(navAreas);
      AllocateGrid(extent.lo.x, extent.hi.x, extent.lo.y, extent.hi.y);
      ghost var f := frame;
      for it := 0 to |navAreas|
        invariant Holds(navAreas[..it]) && areas == navAreas[..it] && grid != [] && frame == f
      {
        assert navAreas[..it + 1] == navAreas[..it] + [navAreas[it]];
        AddNavArea(navAreas[it]);
      }
      assert navAreas[..|navAreas|] == navAreas;
      isLoaded := true;
      forall i | 0 <= i < |areas|
        ensures Fits(frame, areas[i].shape)
      {
        FitsBounds(frame, areas[i].shape, extent);
      }
    }

    /** Lines 29-59. */
    static method Bounds(navAreas: seq<GridArea>) returns (extent: Extent)
      requires ShapesOk(navAreas) && navAreas != []
      ensures forall i :: 0 <= i < |navAreas| ==> Encloses(extent, navAreas[i].shape)
      ensures extent.lo.x <= extent.hi.x && extent.lo.y <= extent.hi.y
      ensures forall e: Extent ::
                Encloses(e, navAreas[0].shape) && (forall i :: 0 <= i < |navAreas| ==> Encloses(e, navAreas[i].shape))
                && e.lo.x <= 9999999999.9 && e.lo.y <= 9999999999.9 && -9999999999.9 <= e.hi.x && -9999999999.9 <= e.hi.y
                ==> e.lo.x <= extent.lo.x && e.lo.y <= extent.lo.y && extent.hi.x <= e.hi.x && extent.hi.y <= e.hi.y
    {
      var lo, hi := Vector(SENTINEL, SENTINEL, 0.0), Vector(-SENTINEL, -SENTINEL, 0.0);
      for i := 0 to |navAreas|
        invariant forall k :: 0 <= k < i ==> Encloses(Extent(lo, hi), navAreas[k].shape)
        invariant forall e: Extent ::
                    (forall k :: 0 <= k < i ==> Encloses(e, navAreas[k].shape))
                    && e.lo.x <= SENTINEL && e.lo.y <= SENTINEL && -SENTINEL <= e.hi.x && -SENTINEL <= e.hi.y
                    ==> e.lo.x <= lo.x && e.lo.y <= lo.y && hi.x <= e.hi.x && hi.y <= e.hi.y
      {
        var areaExtent := GetExtent(navAreas[i].shape);
        if areaExtent.lo.x < lo.x {
          lo := lo.(x := areaExtent.lo.x);
        }
        if areaExtent.lo.y < lo.y {
          lo := lo.(y := areaExtent.lo.y);
        }
        if areaExtent.hi.x > hi.x {
          hi := hi.(x := areaExtent.hi.x);
        }
        if areaExtent.hi.y > hi.y {
          hi := hi.(y := areaExtent.hi.y);
        }
      }
      extent := Extent(lo, hi);
      assert Encloses(extent, navAreas[0].shape);
    }

    static predicate Encloses(e: Extent, s: Shape) {
      e.lo.x <= s.nw.x && s.se.x <= e.hi.x && e.lo.y <= s.nw.y && s.se.y <= e.hi.y
    }

    lemma FitsBounds(f: Frame, s: Shape, e: Extent)
      requires ShapeOk(s) && Encloses(e, s) && f.minX == e.lo.x && f.minY == e.lo.y
      requires f.sizeX == Trunc((e.hi.x - e.lo.x) / CELL_SIZE) + 1
      requires f.sizeY == Trunc((e.hi.y - e.lo.y) / CELL_SIZE) + 1
      ensures Fits(f, s)
    {
      TruncIsMonotone((s.se.x - f.minX) / CELL_SIZE, (e.hi.x - e.lo.x) / CELL_SIZE, 0);
      TruncIsMonotone((s.se.y - f.minY) / CELL_SIZE, (e.hi.y - e.lo.y) / CELL_SIZE, 0);
    }

    method AllocateGrid(minX: real, maxX: real, minY: real, maxY: real)
      requires minX <= maxX && minY <= maxY && grid == []
      modifies this`frame, this`grid
      ensures frame.minX == minX && frame.minY == minY
      ensures frame.sizeX == Trunc((maxX - minX) / CELL_SIZE) + 1 && frame.sizeY == Trunc((maxY - minY) / CELL_SIZE) + 1
      ensures Holds([]) && grid != []
    {
      frame := Frame(minX, minY, Trunc((maxX - minX) / CELL_SIZE) + 1, Trunc((maxY - minY) / CELL_SIZE) + 1);
      var size := frame.sizeX * frame.sizeY;
      assert 1 <= size by {
        IndexInRange(frame, Cell(0, 0));
      }
      grid := seq(size, i requires 0 <= i < size => []);
      forall c | InGrid(frame, c)
        ensures 0 <= Index(frame, c) < |grid|
      {
        IndexInRange(frame, c);
      }
    }

    /** `AddNavArea`: the area goes to the end of every cell that its box covers. */
    method AddNavArea(area: GridArea)
      requires Holds(areas)
      modifies this`areas, this`grid
      ensures areas == old(areas) + [area] && Holds(areas) && |grid| == |old(grid)|
    {
      hide Entered, Covering, Index;
      var lo := CellOf(frame, area.shape.nw.x, area.shape.nw.y);
      var hi := CellOf(frame, area.shape.se.x, area.shape.se.y);
      ghost var was := areas;
      areas := areas + [area];
      EnteredNone(was, area, lo, hi);
      var y := lo.y;
      while y <= hi.y
        invariant lo.y <= y && InGrid(frame, lo) && InGrid(frame, hi)
        invariant areas == was + [area] && |grid| == |old(grid)| && Entered(was, area, lo, hi, Cell(lo.x, y))
      {
        var x := lo.x;
        while x <= hi.x
          invariant lo.x <= x
          invariant areas == was + [area] && |grid| == |old(grid)| && Entered(was, area, lo, hi, Cell(x, y))
        {
          Enter(was, area, lo, hi, Cell(x, y));
          x := x + 1;
        }
        EnteredRow(was, area, lo, hi, x, y);
        y := y + 1;
      }
      EnteredAll(was, area, lo, hi, y);
    }

    lemma EnteredNone(was: seq<GridArea>, area: GridArea, lo: Cell, hi: Cell)
      requires Holds(was)
      ensures FrameOk(frame) && Entered(was, area, lo, hi, lo)
    {
      hide Index, Covering;
      forall c | InGrid(frame, c)
        ensures EnteredCell(was, area, lo, hi, lo, c)
      {
        assert Covering(frame, was, c) + [] == Covering(frame, was, c) == grid[Index(frame, c)];
      }
    }

    lemma EnteredRow(was: seq<GridArea>, area: GridArea, lo: Cell, hi: Cell, x: int, y: int)
      requires Entered(was, area, lo, hi, Cell(x, y)) && hi.x < x
      ensures Entered(was, area, lo, hi, Cell(lo.x, y + 1))
    {
      forall c | InGrid(frame, c)
        ensures EnteredCell(was, area, lo, hi, Cell(lo.x, y + 1), c)
      {
        assert EnteredCell(was, area, lo, hi, Cell(x, y), c);
      }
    }

    lemma EnteredAll(was: seq<GridArea>, area: GridArea, lo: Cell, hi: Cell, y: int)
      requires Entered(was, area, lo, hi, Cell(lo.x, y)) && hi.y < y
      requires lo == CellOf(frame, area.shape.nw.x, area.shape.nw.y) && hi == CellOf(frame, area.shape.se.x, area.shape.se.y)
      ensures Holds(was + [area])
    {
      hide CellOf;
      var list := was + [area];
      assert list[..|list| - 1] == was;
      forall c | InGrid(frame, c)
        ensures 0 <= Index(frame, c) < |grid| && grid[Index(frame, c)] == Covering(frame, list, c)
      {
        assert EnteredCell(was, area, lo, hi, Cell(lo.x, y), c);
        assert Covers(frame, area.shape, c) <==> lo.x <= c.x <= hi.x && lo.y <= c.y <= hi.y;
      }
    }

    /** The area stands in its cells up to, and without, the one given. */
    ghost predicate Entered(was: seq<GridArea>, area: GridArea, lo: Cell, hi: Cell, next: Cell)
      reads this`frame, this`grid
    {
      && FrameOk(frame) && |grid| == frame.sizeX * frame.sizeY
      && forall c {:trigger EnteredCell(was, area, lo, hi, next, c)} :: InGrid(frame, c) ==>
           EnteredCell(was, area, lo, hi, next, c)
    }

    ghost predicate EnteredCell(was: seq<GridArea>, area: GridArea, lo: Cell, hi: Cell, next: Cell, c: Cell)
      requires FrameOk(frame)
      reads this`frame, this`grid
    {
      && 0 <= Index(frame, c) < |grid|
      && grid[Index(frame, c)] == Covering(frame, was, c) +
           if lo.x <= c.x <= hi.x && lo.y <= c.y <= hi.y && (c.y < next.y || (c.y == next.y && c.x < next.x))
           then [area] else []
    }

    /** Line 107. */
    method Enter(ghost was: seq<GridArea>, area: GridArea, ghost lo: Cell, ghost hi: Cell, c: Cell)
      requires Entered(was, area, lo, hi, c) && InGrid(frame, c)
      requires lo.x <= c.x <= hi.x && lo.y <= c.y <= hi.y
      modifies this`grid
      ensures Entered(was, area, lo, hi, Cell(c.x + 1, c.y)) && |grid| == |old(grid)|
    {
      assert EnteredCell(was, area, lo, hi, c, c);
      var i := Index(frame, c);
      label before:
      grid := grid[i := grid[i] + [area]];
      forall d | InGrid(frame, d)
        ensures EnteredCell(was, area, lo, hi, Cell(c.x + 1, c.y), d)
      {
        assert old@before(EnteredCell(was, area, lo, hi, c, d));
        if c != d {
          IndexInjective(frame, c, d);
        }
      }
    }

    // ---------- Queries ----------

    /** The areas that carry the marker are those already seen. */
    ghost predicate Marked(marker: uint32, seen: seq<GridArea>)
      reads this`areas, areas`nearNavSearchMarker
    {
      forall a :: a in areas ==> (a.nearNavSearchMarker == marker <==> a in seen)
    }

    /** No area carries the marker. */
    ghost predicate FreshMarker(marker: uint32)
      reads this`areas, areas`nearNavSearchMarker
    {
      forall a :: a in areas ==> a.nearNavSearchMarker != marker
    }

    static lemma NextPicked(seen: seq<GridArea>, cell: seq<GridArea>, i: nat, want: GridArea -> bool)
      requires i < |cell|
      ensures var list, next := seen + cell[..i], seen + cell[..i + 1];
              && Picked(next, want) == Picked(list, want) + (if cell[i] !in list && want(cell[i]) then [cell[i]] else [])
              && forall a :: a in next <==> a in list || a == cell[i]
    {
      var list := seen + cell[..i];
      assert seen + cell[..i + 1] == list + [cell[i]] && (list + [cell[i]])[..|list|] == list;
    }

    /** The areas of one cell: mark each that is not marked yet, and call the functor on it if it is wanted. */
    method VisitCell(cell: seq<GridArea>, marker: uint32, want: GridArea -> bool, func: GridArea -> bool,
                     ghost seen: seq<GridArea>, before: seq<GridArea>)
      returns (ok: bool, calls: seq<GridArea>, ghost n: nat)
      requires forall a :: a in cell ==> a in areas
      requires Marked(marker, seen) && Reports(Picked(seen, want), func, true, before)
      modifies areas`nearNavSearchMarker
      ensures n <= |cell| && Reports(Picked(seen + cell[..n], want), func, ok, calls)
      ensures ok ==> n == |cell| && Marked(marker, seen + cell)
    {
      hide Picked;
      ok, calls, n := true, before, |cell|;
      var i := 0;
      assert seen + cell[..0] == seen;
      while i < |cell|
        invariant i <= |cell| && Marked(marker, seen + cell[..i]) && Reports(Picked(seen + cell[..i], want), func, true, calls)
      {
        var area := cell[i];
        assert area in cell && area in areas;
        NextPicked(seen, cell, i, want);
        i := i + 1;
        if area.nearNavSearchMarker != marker {
          area.nearNavSearchMarker := marker;
          if want(area) {
            calls := calls + [area];
            if !func(area) {
              return false, calls, i;
            }
          }
        }
      }
      assert cell[..i] == cell;
    }

    /** The cells have been visited, and the functor has accepted what it was called on. */
    ghost predicate Scanned(marker: uint32, cells: seq<Cell>, want: GridArea -> bool, func: GridArea -> bool,
                            calls: seq<GridArea>)
      requires FrameOk(frame)
      reads this`areas, this`frame, areas`nearNavSearchMarker
    {
      var list := Listing(frame, areas, cells);
      Marked(marker, list) && Reports(Picked(list, want), func, true, calls)
    }

    /** The functor has stopped the scan among these cells. */
    ghost predicate Stopped(cells: seq<Cell>, want: GridArea -> bool, func: GridArea -> bool, calls: seq<GridArea>)
      requires FrameOk(frame)
      reads this`areas, this`frame
    {
      Reports(Picked(Listing(frame, areas, cells), want), func, false, calls)
    }

    /** The nested loops of the radius query, over columns x0 to x1 and rows y0 to y1 (both included). Cells
        outside the grid are skipped. */
    method VisitCells(x0: int, x1: int, y0: int, y1: int, marker: uint32, want: GridArea -> bool, func: GridArea -> bool)
      returns (ok: bool, calls: seq<GridArea>)
      requires Valid() && grid != [] && FreshMarker(marker)
      modifies areas`nearNavSearchMarker
      ensures Reports(Picked(Listing(frame, areas, Columns(x0, x1 + 1, y0, y1 + 1, Inside(frame))), want), func, ok, calls)
    {
      hide Scanned, Stopped, Upto, Columns;
      ghost var keep := Inside(frame);
      var x := x0;
      ok, calls := true, [];
      NoneScanned(marker, x0, y0, y1 + 1, want, func);
      while x <= x1
        invariant x0 <= x && (x <= x1 + 1 || x == x0) && Valid() && grid != []
        invariant Scanned(marker, Columns(x0, x, y0, y1 + 1, keep), want, func, calls)
      {
        var y := y0;
        UptoEnds(x0, x, y0, if y0 <= y1 then y1 + 1 else y0, y1 + 1, keep);
        while y <= y1
          invariant y0 <= y && (y <= y1 + 1 || y == y0) && Valid() && grid != []
          invariant Scanned(marker, Upto(x0, x, y0, y, y1 + 1, keep), want, func, calls)
        {
          ok, calls := VisitGrid(x0, x, x1 + 1, y0, y, y1 + 1, marker, want, func, calls);
          if !ok {
            StoppedReports(Columns(x0, x1 + 1, y0, y1 + 1, keep), want, func, calls);
            return;
          }
          y := y + 1;
        }
        x := x + 1;
      }
      ScannedReports(marker, x0, x, x1, y0, y1, want, func, calls);
    }

    lemma NoneScanned(marker: uint32, x0: int, y0: int, y1: int, want: GridArea -> bool, func: GridArea -> bool)
      requires FrameOk(frame) && FreshMarker(marker)
      ensures Scanned(marker, Columns(x0, x0, y0, y1, Inside(frame)), want, func, [])
    {
    }

    lemma StoppedReports(cells: seq<Cell>, want: GridArea -> bool, func: GridArea -> bool, calls: seq<GridArea>)
      requires FrameOk(frame) && Stopped(cells, want, func, calls)
      ensures Reports(Picked(Listing(frame, areas, cells), want), func, false, calls)
    {
    }

    lemma ScannedReports(marker: uint32, x0: int, x: int, x1: int, y0: int, y1: int,
                         want: GridArea -> bool, func: GridArea -> bool, calls: seq<GridArea>)
      requires FrameOk(frame) && x1 < x && (x <= x1 + 1 || x == x0)
      requires Scanned(marker, Columns(x0, x, y0, y1 + 1, Inside(frame)), want, func, calls)
      ensures Reports(Picked(Listing(frame, areas, Columns(x0, x1 + 1, y0, y1 + 1, Inside(frame))), want), func, true, calls)
    {
      assert Columns(x0, x, y0, y1 + 1, Inside(frame)) == Columns(x0, x1 + 1, y0, y1 + 1, Inside(frame));
    }

    /** One turn of the inner loop. */
    method VisitGrid(ghost x0: int, x: int, ghost x1: int, ghost y0: int, y: int, ghost y1: int,
                     marker: uint32, want: GridArea -> bool, func: GridArea -> bool, before: seq<GridArea>)
      returns (ok: bool, calls: seq<GridArea>)
      requires Valid() && grid != [] && x0 <= x < x1 && y0 <= y < y1
      requires Scanned(marker, Upto(x0, x, y0, y, y1, Inside(frame)), want, func, before)
      modifies areas`nearNavSearchMarker
      ensures ok ==> Scanned(marker, Upto(x0, x, y0, y + 1, y1, Inside(frame)), want, func, calls)
      ensures !ok ==> Stopped(Columns(x0, x1, y0, y1, Inside(frame)), want, func, calls)
    {
      hide Upto, Picked, Reports, Marked, Listing, Covering, Index;
      ghost var keep := Inside(frame);
      var c := Cell(x, y);
      UptoStep(frame, areas, x0, x, y0, y, y1, keep);
      if !InGrid(frame, c) {
        return true, before;
      }
      ghost var list, n := Listing(frame, areas, Upto(x0, x, y0, y, y1, keep)), 0;
      assert grid[Index(frame, c)] == Covering(frame, areas, c);
      CoveringExact(frame, areas, c);
      ok, calls, n := VisitCell(grid[Index(frame, c)], marker, want, func, list, before);
      if !ok {
        ListedPrefix(frame, areas, x0, x, x1, y0, y + 1, y1, keep);
        StoppedEarly(list + Covering(frame, areas, c)[..n], Listing(frame, areas, Columns(x0, x1, y0, y1, keep)),
                     want, func, calls);
      } else {
        assert Covering(frame, areas, c)[..n] == Covering(frame, areas, c);
      }
    }

    /** The nested loops of the rectangle query, which trust their columns and give up at a place past the grid.
        They can only get there in a row that the grid does not have. */
    method VisitRectangle(lo: Cell, hi: Cell, marker: uint32, want: GridArea -> bool, func: GridArea -> bool)
      returns (ok: bool, calls: seq<GridArea>, walkedOff: bool)
      requires Valid() && grid != [] && FreshMarker(marker)
      requires 0 <= lo.x && hi.x < frame.sizeX && 0 <= lo.y
      modifies areas`nearNavSearchMarker
      ensures walkedOff ==> ok && frame.sizeY <= hi.y
      ensures !walkedOff ==>
                Reports(Picked(Listing(frame, areas, Columns(lo.x, hi.x + 1, lo.y, hi.y + 1, Inside(frame))), want), func, ok, calls)
    {
      hide Scanned, Stopped, Upto, Columns, Index, Holds, ShapesOk, Reports, Picked, Listing, FreshMarker, FrameOk;
      FrameIsOk();
      ghost var keep := Inside(frame);
      var x := lo.x;
      ok, calls, walkedOff := true, [], false;
      NoneScanned(marker, lo.x, lo.y, hi.y + 1, want, func);
      while x <= hi.x
        invariant lo.x <= x && (x <= hi.x + 1 || x == lo.x) && Valid() && grid != []
        invariant Scanned(marker, Columns(lo.x, x, lo.y, hi.y + 1, keep), want, func, calls)
      {
        var y := lo.y;
        UptoEnds(lo.x, x, lo.y, if lo.y <= hi.y then hi.y + 1 else lo.y, hi.y + 1, keep);
        while y <= hi.y
          invariant lo.y <= y && (y <= hi.y + 1 || y == lo.y) && Valid() && grid != []
          invariant Scanned(marker, Upto(lo.x, x, lo.y, y, hi.y + 1, keep), want, func, calls)
        {
          OffTheGridIff(Cell(x, y));
          if Index(frame, Cell(x, y)) >= |grid| {
            return true, calls, true;
          }
          ok, calls := VisitGrid(lo.x, x, hi.x + 1, lo.y, y, hi.y + 1, marker, want, func, calls);
          if !ok {
            StoppedReports(Columns(lo.x, hi.x + 1, lo.y, hi.y + 1, keep), want, func, calls);
            return;
          }
          y := y + 1;
        }
        x := x + 1;
      }
      ScannedReports(marker, lo.x, x, hi.x, lo.y, hi.y, want, func, calls);
    }

    lemma FrameIsOk()
      requires Valid() && grid != []
      ensures FrameOk(frame)
    {
    }

    /** `PastTheGridIff` on this mesh. */
    lemma OffTheGridIff(c: Cell)
      requires Valid() && grid != [] && 0 <= c.x < frame.sizeX && 0 <= c.y
      ensures |grid| <= Index(frame, c) <==> frame.sizeY <= c.y
    {
      PastTheGridIff(frame, c);
    }

    /** `ForAllAreasOverlappingExtent`: unless the functor stops the scan, it is called exactly once on each
        area that a full scan would select, and on no other, provided the rectangle spans cells. It never walks
        off the grid. */
    method ForAllAreasOverlappingExtent(func: GridArea -> bool, extent: Extent)
      returns (ok: bool, calls: seq<GridArea>, walkedOff: bool)
      requires Valid() && FreshMarker(NextMarker(extentMarker))
      modifies this`extentMarker, areas`nearNavSearchMarker
      ensures Valid() && extentMarker == (if grid == [] then old(extentMarker) else NextMarker(old(extentMarker)))
      ensures !walkedOff && (grid == [] ==> ok && calls == [])
      ensures grid != [] ==>
                Reports(Picked(Listing(frame, areas, Spanned(frame, extent)), Touches(extent)), func, ok, calls)
      ensures grid != [] && ok ==>
                Distinct(calls) && forall a :: a in calls <==>
                  SpansCells(frame, extent) && a in areas && Overlaps(extent, GetExtent(a.shape))
    {
      hide Picked, Listing, SpansCells, Overlaps, GetExtent, Columns, Marked;
      if |grid| == 0 {
        return true, [], false;
      }
      extentMarker := NextMarker(extentMarker);
      var lo, hi := CellOf(frame, extent.lo.x, extent.lo.y), CellOf(frame, extent.hi.x, extent.hi.y);
      ok, calls, walkedOff := VisitRectangle(lo, hi, extentMarker, Touches(extent), func);
      ExtentQueryIsFullScan(frame, areas, extent);
    }

    /** `ForAllAreasInRadius`. It has no guard for an empty grid. */
    method ForAllAreasInRadius(func: GridArea -> bool, pos: Vector, radius: real) returns (ok: bool, calls: seq<GridArea>)
      requires Valid() && grid != [] && FreshMarker(NextMarker(radiusMarker))
      modifies this`radiusMarker, areas`nearNavSearchMarker
      ensures Valid() && radiusMarker == NextMarker(old(radiusMarker))
      ensures Reports(Picked(Listing(frame, areas, Around(frame, pos, radius)), Near(pos, radius)), func, ok, calls)
      ensures ok && 0.0 <= radius ==>
                Distinct(calls) && forall a :: a in calls <==>
                  a in areas && (radius == 0.0 || DistSq(a.shape.center, pos) <= radius * radius)
    {
      hide Picked, Listing, DistSq, Columns, Marked;
      radiusMarker := NextMarker(radiusMarker);
      var origin := CellOf(frame, pos.x, pos.y);
      var shiftLimit := ShiftLimit(frame, radius);
      ok, calls := VisitCells(origin.x - shiftLimit, origin.x + shiftLimit, origin.y - shiftLimit, origin.y + shiftLimit,
                              radiusMarker, Near(pos, radius), func);
      if 0.0 <= radius {
        RadiusQueryIsFullScan(frame, areas, pos, radius);
      }
    }

    /** The position is above or below the area, the surface there at most 5 units above it, and not further below
        than the limit. */
    ghost predicate InReach(a: GridArea, pos: Vector, beneathLimit: real) {
      && a.shape.nw.x <= pos.x <= a.shape.se.x && a.shape.nw.y <= pos.y <= a.shape.se.y
      && pos.z - beneathLimit <= GetZ(a.shape, pos.x, pos.y) <= pos.z + 5.0
      && -99999999.9 < GetZ(a.shape, pos.x, pos.y)
    }

    /** `GetNavArea` for a position: one cell answers like a scan over all areas. */
    method GetNavArea(pos: Vector, beneathLimit: real) returns (use: GridArea?)
      requires Valid()
      ensures use == if grid == [] then null else Highest(areas, pos, beneathLimit).use
      ensures use != null ==> use in areas && InReach(use, pos, beneathLimit)
      ensures grid != [] ==>
                forall a :: a in areas && InReach(a, pos, beneathLimit) ==>
                  use != null && GetZ(a.shape, pos.x, pos.y) <= GetZ(use.shape, pos.x, pos.y)
    {
      if |grid| == 0 {
        return null;
      }
      use := null;
      var useZ, testPos := LOWEST_Z, pos.(z := pos.z + REACH_ABOVE);
      var c := CellOf(frame, pos.x, pos.y);
      ghost var list := Covering(frame, areas, c);
      assert grid[Index(frame, c)] == list;
      var cell := grid[Index(frame, c)];
      for i := 0 to |cell|
        invariant Best(use, useZ) == Highest(list[..i], pos, beneathLimit)
      {
        var area := cell[i];
        assert list[..i + 1][..i] == list[..i];
        if Beneath(area.shape, testPos) {
          var z := GetZ(area.shape, testPos.x, testPos.y);
          if z > testPos.z {
            continue;
          }
          if z < pos.z - beneathLimit {
            continue;
          }
          if z > useZ {
            use, useZ := area, z;
          }
        }
      }
      assert list[..|list|] == list;
      PointQueryIsFullScan(frame, areas, pos, beneathLimit);
      HighestIsFirstHighest(areas, pos, beneathLimit);
    }

    // ---------- The ring search ----------

    /** What has been scanned when the rings of `list` are done: the marked areas are those not blocked. */
    ghost predicate Searched(marker: uint32, list: seq<GridArea>, blocked: GridArea -> bool, pos: Vector,
                             limitSq: real, close: GridArea?, closeDistSq: real)
      reads this`areas, areas`nearNavSearchMarker
    {
      && (forall a :: a in areas ==> (a.nearNavSearchMarker == marker <==> a in list && !blocked(a)))
      && NearestOf(list, blocked, pos, pos, limitSq, close, closeDistSq)
      && (close != null ==> FirstOf(list, blocked, pos, pos, close))
    }

    /** The search has gone on as it was, or found an area that it had not met before and set its limit to
        one more ring. */
    ghost predicate Continues(list: seq<GridArea>, list': seq<GridArea>, shift: int, close: GridArea?, shiftLimit: int,
                              close': GridArea?, shiftLimit': int)
    {
      if close' == close then shiftLimit' == shiftLimit
      else close' != null && close' in list' && close' !in list && shiftLimit' == shift + 1
    }

    lemma ContinuesOn(list: seq<GridArea>, mid: seq<GridArea>, list': seq<GridArea>, shift: int, c0: GridArea?, l0: int,
                      c1: GridArea?, l1: int, c2: GridArea?, l2: int)
      requires list <= mid <= list' && (c0 != null ==> c0 in list)
      requires Continues(list, mid, shift, c0, l0, c1, l1) && Continues(mid, list', shift, c1, l1, c2, l2)
      ensures Continues(list, list', shift, c0, l0, c2, l2)
    {
    }

    lemma CloseIsListed(marker: uint32, list: seq<GridArea>, blocked: GridArea -> bool, pos: Vector,
                        limitSq: real, close: GridArea?, closeDistSq: real)
      requires Searched(marker, list, blocked, pos, limitSq, close, closeDistSq)
      ensures close != null ==> close in list
    {
    }

    /** Lines 329-401 for one area, without line-of-sight checks. */
    method SearchArea(area: GridArea, marker: uint32, blocked: GridArea -> bool, source: Vector, pos: Vector, shift: int,
                      ghost limitSq: real, ghost list: seq<GridArea>, close: GridArea?, closeDistSq: real, shiftLimit: int)
      returns (close': GridArea?, closeDistSq': real, shiftLimit': int)
      requires area in areas && source.x == pos.x && source.y == pos.y
      requires Searched(marker, list, blocked, pos, limitSq, close, closeDistSq)
      modifies area`nearNavSearchMarker
      ensures Searched(marker, list + [area], blocked, pos, limitSq, close', closeDistSq')
      ensures Continues(list, list + [area], shift, close, shiftLimit, close', shiftLimit')
    {
      close', closeDistSq', shiftLimit' := close, closeDistSq, shiftLimit;
      ghost var list' := list + [area];
      assert list' == list + [area] && list'[|list|] == area;
      StillFirst(list, area, blocked, pos, close);
      if area.nearNavSearchMarker == marker {
        return;
      }
      if blocked(area) {
        return;
      }
      area.nearNavSearchMarker := marker;
      var areaPos := ClosestPoint(area.shape, source);
      var distSq := DistSq(areaPos, pos);
      assert distSq == AreaDistSq(area, pos, pos);
      if distSq >= closeDistSq {
        return;
      }
      closeDistSq' := distSq;
      close' := area;
      shiftLimit' := shift + 1;
      assert forall i :: 0 <= i < |list| && !blocked(list'[i]) ==> list'[i] in list;
    }

    lemma StillFirst(list: seq<GridArea>, area: GridArea, blocked: GridArea -> bool, pos: Vector, close: GridArea?)
      requires close != null ==> FirstOf(list, blocked, pos, pos, close)
      ensures close != null ==> FirstOf(list + [area], blocked, pos, pos, close)
    {
      if close != null {
        var k :| 0 <= k < |list| && list[k] == close &&
          forall i :: 0 <= i < k && !blocked(list[i]) ==> AreaDistSq(close, pos, pos) < AreaDistSq(list[i], pos, pos);
        var list' := list + [area];
        assert list'[k] == close;
      }
    }

    /** Lines 325-402: one cell. */
    method SearchCell(cell: seq<GridArea>, marker: uint32, blocked: GridArea -> bool, source: Vector, pos: Vector, shift: int,
                      ghost limitSq: real, ghost list: seq<GridArea>, close: GridArea?, closeDistSq: real, shiftLimit: int)
      returns (close': GridArea?, closeDistSq': real, shiftLimit': int)
      requires (forall a :: a in cell ==> a in areas) && source.x == pos.x && source.y == pos.y
      requires Searched(marker, list, blocked, pos, limitSq, close, closeDistSq)
      modifies areas`nearNavSearchMarker
      ensures Searched(marker, list + cell, blocked, pos, limitSq, close', closeDistSq')
      ensures Continues(list, list + cell, shift, close, shiftLimit, close', shiftLimit')
    {
      hide Searched;
      close', closeDistSq', shiftLimit' := close, closeDistSq, shiftLimit;
      assert list + cell[..0] == list;
      CloseIsListed(marker, list, blocked, pos, limitSq, close, closeDistSq);
      for i := 0 to |cell|
        invariant Searched(marker, list + cell[..i], blocked, pos, limitSq, close', closeDistSq')
        invariant Continues(list, list + cell[..i], shift, close, shiftLimit, close', shiftLimit')
      {
        assert cell[i] in cell;
        ghost var before := list + cell[..i];
        assert list + cell[..i + 1] == before + [cell[i]];
        ghost var c1, l1 := close', shiftLimit';
        close', closeDistSq', shiftLimit' := SearchArea(cell[i], marker, blocked, source, pos, shift, limitSq, before,
                                                        close', closeDistSq', shiftLimit');
        ContinuesOn(list, before, before + [cell[i]], shift, close, shiftLimit, c1, l1, close', shiftLimit');
      }
      assert cell[..|cell|] == cell;
    }

    /** These cells have been searched since the search stood at `list`. */
    ghost predicate RingSearched(cells: seq<Cell>, marker: uint32, blocked: GridArea -> bool, pos: Vector, limitSq: real,
                                 list: seq<GridArea>, shift: int, close: GridArea?, shiftLimit: int,
                                 close': GridArea?, closeDistSq': real, shiftLimit': int)
      requires FrameOk(frame)
      reads this`areas, this`frame, areas`nearNavSearchMarker
    {
      var list' := list + Listing(frame, areas, cells);
      && Searched(marker, list', blocked, pos, limitSq, close', closeDistSq')
      && Continues(list, list', shift, close, shiftLimit, close', shiftLimit')
    }

    /** Lines 308-404: one ring. */
    method SearchRing(o: Cell, shift: nat, marker: uint32, blocked: GridArea -> bool, source: Vector, pos: Vector,
                      ghost limitSq: real, ghost list: seq<GridArea>, close: GridArea?, closeDistSq: real, shiftLimit: int)
      returns (close': GridArea?, closeDistSq': real, shiftLimit': int)
      requires Valid() && grid != [] && source.x == pos.x && source.y == pos.y
      requires Searched(marker, list, blocked, pos, limitSq, close, closeDistSq)
      modifies areas`nearNavSearchMarker
      ensures RingSearched(Ring(frame, o, shift), marker, blocked, pos, limitSq, list, shift, close, shiftLimit,
                           close', closeDistSq', shiftLimit')
    {
      hide Searched, RingSearched, Upto, Columns;
      ghost var keep, x0, y0, y1 := OnRing(frame, o, shift), o.x - shift, o.y - shift, o.y + shift + 1;
      close', closeDistSq', shiftLimit' := close, closeDistSq, shiftLimit;
      NoneSearched(x0, y0, y1, keep, marker, blocked, pos, limitSq, list, shift, close, closeDistSq, shiftLimit);
      var x := o.x - shift;
      while x <= o.x + shift
        invariant x0 <= x <= o.x + shift + 1 && Valid() && grid != []
        invariant RingSearched(Columns(x0, x, y0, y1, keep), marker, blocked, pos, limitSq, list, shift, close, shiftLimit,
                               close', closeDistSq', shiftLimit')
      {
        var y := o.y - shift;
        UptoEnds(x0, x, y0, y1, y1, keep);
        while y <= o.y + shift
          invariant y0 <= y <= y1 && Valid() && grid != []
          invariant RingSearched(Upto(x0, x, y0, y, y1, keep), marker, blocked, pos, limitSq, list, shift, close, shiftLimit,
                                 close', closeDistSq', shiftLimit')
        {
          close', closeDistSq', shiftLimit' := SearchGrid(o, shift, x, y, marker, blocked, source, pos, limitSq, list,
                                                          close, shiftLimit, close', closeDistSq', shiftLimit');
          y := y + 1;
        }
        x := x + 1;
      }
    }

    lemma NoneSearched(x0: int, y0: int, y1: int, keep: Cell -> bool, marker: uint32, blocked: GridArea -> bool, pos: Vector,
                       limitSq: real, list: seq<GridArea>, shift: int, close: GridArea?, closeDistSq: real, shiftLimit: int)
      requires FrameOk(frame) && Searched(marker, list, blocked, pos, limitSq, close, closeDistSq)
      ensures RingSearched(Columns(x0, x0, y0, y1, keep), marker, blocked, pos, limitSq, list, shift, close, shiftLimit,
                           close, closeDistSq, shiftLimit)
      ensures close != null ==> close in list
    {
      assert list + [] == list;
    }

    /** One turn of the inner loop: cells outside the grid or inside the ring are skipped. */
    method SearchGrid(o: Cell, shift: nat, x: int, y: int, marker: uint32, blocked: GridArea -> bool, source: Vector, pos: Vector,
                      ghost limitSq: real, ghost list: seq<GridArea>, ghost close: GridArea?, ghost shiftLimit: int,
                      c1: GridArea?, d1: real, l1: int)
      returns (close': GridArea?, closeDistSq': real, shiftLimit': int)
      requires Valid() && grid != [] && source.x == pos.x && source.y == pos.y && (close != null ==> close in list)
      requires o.x - shift <= x <= o.x + shift && o.y - shift <= y <= o.y + shift
      requires RingSearched(Upto(o.x - shift, x, o.y - shift, y, o.y + shift + 1, OnRing(frame, o, shift)),
                            marker, blocked, pos, limitSq, list, shift, close, shiftLimit, c1, d1, l1)
      modifies areas`nearNavSearchMarker
      ensures RingSearched(Upto(o.x - shift, x, o.y - shift, y + 1, o.y + shift + 1, OnRing(frame, o, shift)),
                           marker, blocked, pos, limitSq, list, shift, close, shiftLimit, close', closeDistSq', shiftLimit')
    {
      hide Searched, Upto, Listing, Covering, Index, Continues, InGrid;
      ghost var x0, y0, y1, keep := o.x - shift, o.y - shift, o.y + shift + 1, OnRing(frame, o, shift);
      var c := Cell(x, y);
      close', closeDistSq', shiftLimit' := c1, d1, l1;
      UptoStep(frame, areas, x0, x, y0, y, y1, keep);
      if InGrid(frame, c) && !(o.x - shift < x < o.x + shift && o.y - shift < y < o.y + shift) {
        ghost var before, cell := list + Listing(frame, areas, Upto(x0, x, y0, y, y1, keep)), Covering(frame, areas, c);
        assert grid[Index(frame, c)] == cell;
        CoveringExact(frame, areas, c);
        close', closeDistSq', shiftLimit' := SearchCell(grid[Index(frame, c)], marker, blocked, source, pos, shift,
                                                        limitSq, before, c1, d1, l1);
        assert before + cell == list + (Listing(frame, areas, Upto(x0, x, y0, y, y1, keep)) + cell);
        ContinuesOn(list, before, before + cell, shift, close, shiftLimit, c1, l1, close', shiftLimit');
      }
    }

    ghost function Unseen(list: seq<GridArea>): set<GridArea>
      reads this`areas
    {
      set a | a in areas && a !in list
    }

    /** The state of the search before ring `shift`. While nothing is found its limit is the one it started
        with; an answer stems from the ring before the limit, and from no earlier one. */
    ghost predicate BeforeRing(o: Cell, shift: nat, shiftLimit: int, first: int, close: GridArea?)
      requires FrameOk(frame)
      reads this`areas, this`frame
    {
      && (shift <= shiftLimit + 1 || shift == 0)
      && if close == null then shiftLimit == first
         else
           && 0 < shiftLimit <= shift
           && close in Listing(frame, areas, Rings(frame, o, shiftLimit))
           && close !in Listing(frame, areas, Rings(frame, o, shiftLimit - 1))
    }

    lemma RingAdvances(o: Cell, shift: nat, first: int, close: GridArea?, shiftLimit: int, close': GridArea?, shiftLimit': int)
      requires FrameOk(frame) && BeforeRing(o, shift, shiftLimit, first, close) && shift <= shiftLimit
      requires close != null ==> close in Listing(frame, areas, Rings(frame, o, shift))
      requires var list := Listing(frame, areas, Rings(frame, o, shift));
               Continues(list, list + Listing(frame, areas, Ring(frame, o, shift)), shift, close, shiftLimit, close', shiftLimit')
      ensures var list := Listing(frame, areas, Rings(frame, o, shift));
              var list' := Listing(frame, areas, Rings(frame, o, shift + 1));
              && list' == list + Listing(frame, areas, Ring(frame, o, shift))
              && BeforeRing(o, shift + 1, shiftLimit', first, close')
              && (Unseen(list') < Unseen(list) || (Unseen(list') == Unseen(list) && shiftLimit' == shiftLimit))
    {
      hide Listing, Rings, Ring;
      var list, list' := Listing(frame, areas, Rings(frame, o, shift)), Listing(frame, areas, Rings(frame, o, shift + 1));
      RingsNext(o, shift);
      assert Unseen(list') <= Unseen(list);
      if close' != close {
        assert close' in Unseen(list) && close' !in Unseen(list');
      }
    }

    lemma RingsNext(o: Cell, shift: nat)
      requires FrameOk(frame)
      ensures Listing(frame, areas, Rings(frame, o, shift + 1)) ==
              Listing(frame, areas, Rings(frame, o, shift)) + Listing(frame, areas, Ring(frame, o, shift))
      ensures forall a :: a in Listing(frame, areas, Rings(frame, o, shift + 1)) ==> a in areas
    {
      assert Rings(frame, o, shift + 1) == Rings(frame, o, shift) + Ring(frame, o, shift);
      ListingConcat(frame, areas, Rings(frame, o, shift), Ring(frame, o, shift));
      ListingExact(frame, areas, Rings(frame, o, shift + 1));
    }

    /** Lines 280-407: ever larger rings around the origin, until one ring after the last improvement. */
    method SearchRings(o: Cell, marker: uint32, blocked: GridArea -> bool, source: Vector, pos: Vector, maxDist: real)
      returns (close: GridArea?, ghost closeDistSq: real, ghost n: nat)
      requires Valid() && grid != [] && FreshMarker(marker) && source.x == pos.x && source.y == pos.y
      modifies areas`nearNavSearchMarker
      ensures Valid() && grid != []
      ensures NearestInRings(o, pos, maxDist, blocked, close, closeDistSq, n)
    {
      hide Continues, Listing, Rings, Ring, RingSearched, Unseen, Searched, BeforeRing, NearestInRings, Marked, GoesOn;
      var distSq, shiftLimit, shift := maxDist * maxDist, Ceil(maxDist / CELL_SIZE), 0;
      close := null;
      NoRings(o, marker, blocked, pos, maxDist);
      while shift <= shiftLimit
        invariant 0 <= shift && Valid() && grid != []
        invariant Searched(marker, Listing(frame, areas, Rings(frame, o, shift)), blocked, pos, maxDist * maxDist, close, distSq)
        invariant BeforeRing(o, shift, shiftLimit, Ceil(maxDist / CELL_SIZE), close)
        invariant forall r :: 1 <= r < shift ==> GoesOn(frame, areas, o, blocked, pos, maxDist, r)
        decreases Unseen(Listing(frame, areas, Rings(frame, o, shift))), shiftLimit - shift
      {
        ghost var list, c, l := Listing(frame, areas, Rings(frame, o, shift)), close, shiftLimit;
        CloseIsListed(marker, list, blocked, pos, maxDist * maxDist, close, distSq);
        HasGoneOn(o, marker, blocked, pos, maxDist, shift, shiftLimit, close, distSq);
        close, distSq, shiftLimit := SearchRing(o, shift, marker, blocked, source, pos, maxDist * maxDist, list,
                                                close, distSq, shiftLimit);
        RingIsSearched(o, shift, marker, blocked, pos, maxDist * maxDist, list, c, l, close, distSq, shiftLimit);
        RingAdvances(o, shift, Ceil(maxDist / CELL_SIZE), c, l, close, shiftLimit);
        shift := shift + 1;
      }
      closeDistSq, n := distSq, shift;
      SearchEnds(o, marker, blocked, pos, maxDist, n, shiftLimit, close, distSq);
    }

    lemma SearchEnds(o: Cell, marker: uint32, blocked: GridArea -> bool, pos: Vector, maxDist: real, shift: nat,
                     shiftLimit: int, close: GridArea?, distSq: real)
      requires FrameOk(frame) && shiftLimit < shift
      requires Searched(marker, Listing(frame, areas, Rings(frame, o, shift)), blocked, pos, maxDist * maxDist, close, distSq)
      requires BeforeRing(o, shift, shiftLimit, Ceil(maxDist / CELL_SIZE), close)
      requires forall r :: 1 <= r < shift ==> GoesOn(frame, areas, o, blocked, pos, maxDist, r)
      ensures NearestInRings(o, pos, maxDist, blocked, close, distSq, shift)
    {
      hide Listing, Rings, NearestOf, FirstOf, GoesOn;
    }

    /** Why ring `shift` is searched. */
    lemma HasGoneOn(o: Cell, marker: uint32, blocked: GridArea -> bool, pos: Vector, maxDist: real, shift: nat,
                    shiftLimit: int, close: GridArea?, distSq: real)
      requires FrameOk(frame) && shift <= shiftLimit
      requires Searched(marker, Listing(frame, areas, Rings(frame, o, shift)), blocked, pos, maxDist * maxDist, close, distSq)
      requires BeforeRing(o, shift, shiftLimit, Ceil(maxDist / CELL_SIZE), close)
      ensures 1 <= shift ==> GoesOn(frame, areas, o, blocked, pos, maxDist, shift)
    {
      hide Listing, Rings, Ring, AreaDistSq;
      if 1 <= shift && close != null {
        RingsNext(o, shift - 1);
        var before, now := Listing(frame, areas, Rings(frame, o, shift - 1)), Listing(frame, areas, Rings(frame, o, shift));
        FirstIsNew(before, now, blocked, pos, maxDist * maxDist, close, distSq);
      }
    }

    /** The first of the nearest areas of a list, if it is not among those of a prefix, is nearer than all of them. */
    static lemma FirstIsNew(before: seq<GridArea>, now: seq<GridArea>, blocked: GridArea -> bool, pos: Vector, limitSq: real,
                            close: GridArea, distSq: real)
      requires before <= now && close !in before
      requires NearestOf(now, blocked, pos, pos, limitSq, close, distSq) && FirstOf(now, blocked, pos, pos, close)
      ensures Improved(before, now, blocked, pos, limitSq)
    {
      hide AreaDistSq;
      var k :| 0 <= k < |now| && now[k] == close &&
        forall i :: 0 <= i < k && !blocked(now[i]) ==> AreaDistSq(close, pos, pos) < AreaDistSq(now[i], pos, pos);
      forall b | b in before && !blocked(b)
        ensures AreaDistSq(close, pos, pos) < AreaDistSq(b, pos, pos)
      {
        var i :| 0 <= i < |before| && before[i] == b;
        assert now[i] == b;
      }
    }

    lemma NoRings(o: Cell, marker: uint32, blocked: GridArea -> bool, pos: Vector, maxDist: real)
      requires FrameOk(frame) && FreshMarker(marker)
      ensures Searched(marker, Listing(frame, areas, Rings(frame, o, 0)), blocked, pos, maxDist * maxDist, null, maxDist * maxDist)
      ensures BeforeRing(o, 0, Ceil(maxDist / CELL_SIZE), Ceil(maxDist / CELL_SIZE), null)
    {
    }

    lemma RingIsSearched(o: Cell, shift: nat, marker: uint32, blocked: GridArea -> bool, pos: Vector, limitSq: real,
                         list: seq<GridArea>, close: GridArea?, shiftLimit: int,
                         close': GridArea?, closeDistSq': real, shiftLimit': int)
      requires FrameOk(frame)
      requires RingSearched(Ring(frame, o, shift), marker, blocked, pos, limitSq, list, shift, close, shiftLimit,
                            close', closeDistSq', shiftLimit')
      ensures Searched(marker, list + Listing(frame, areas, Ring(frame, o, shift)), blocked, pos, limitSq, close', closeDistSq')
      ensures Continues(list, list + Listing(frame, areas, Ring(frame, o, shift)), shift, close, shiftLimit, close', shiftLimit')
    {
    }

    /** `GetNearestNavArea` without line-of-sight checks. `groundZ` is what the ground trace found, if anything. */
    method GetNearestNavArea(pos: Vector, maxDist: real, checkGround: bool, groundZ: Option<real>, blocked: GridArea -> bool)
      returns (close: GridArea?, ghost closeDistSq: real, ghost n: nat)
      requires Valid() && FreshMarker(NextMarker(nearestMarker))
      modifies this`nearestMarker, areas`nearNavSearchMarker
      ensures Valid()
      ensures Shortcut(pos, checkGround, groundZ).Some? ==> close == Shortcut(pos, checkGround, groundZ).value
      ensures Shortcut(pos, checkGround, groundZ).None? ==>
                && FrameOk(frame)
                && NearestInRings(CellOf(frame, pos.x, pos.y), pos, maxDist, blocked, close, closeDistSq, n)
                && NearestOfAll(pos, maxDist, blocked, close, closeDistSq, n)
    {
      hide NearestInRings, NearestOfAll, NearestOf, FirstOf, Listing, Rings, Highest, Marked;
      close, closeDistSq, n := null, 0.0, 0;
      if |grid| == 0 {
        return;
      }
      if !checkGround {
        close := GetNavArea(pos, 120.0);
        if close != null {
          return;
        }
      }
      var source := pos;
      if groundZ.Some? {
        source := source.(z := groundZ.value);
      } else if checkGround {
        return;
      }
      source := source.(z := source.z + HALF_HUMAN_HEIGHT);
      nearestMarker := NextMarker(nearestMarker);
      var origin := CellOf(frame, pos.x, pos.y);
      close, closeDistSq, n := SearchRings(origin, nearestMarker, blocked, source, pos, maxDist);
      AnswersGlobally(pos, maxDist, blocked, close, closeDistSq, n);
    }

    /** The answer when no ring is searched (lines 244-276). */
    ghost function Shortcut(pos: Vector, checkGround: bool, groundZ: Option<real>): Option<GridArea?>
      reads this
    {
      if grid == [] then Some(null)
      else if !checkGround && Highest(areas, pos, 120.0).use != null then Some(Highest(areas, pos, 120.0).use)
      else if checkGround && groundZ.None? then Some(null)
      else None
    }

    /** `RingAnswer` on this mesh. */
    ghost predicate NearestInRings(o: Cell, pos: Vector, maxDist: real, blocked: GridArea -> bool,
                                   close: GridArea?, closeDistSq: real, n: nat)
      requires FrameOk(frame)
      reads this
    {
      RingAnswer(frame, areas, o, pos, maxDist, blocked, close, closeDistSq, n)
    }

    /** No answer means that no area of the whole mesh lies within `maxDist`. An answer is nearest in the whole mesh
        if `maxDist` is at most the length of a cell, or if it is no further away than n - 1 cells. */
    ghost predicate NearestOfAll(pos: Vector, maxDist: real, blocked: GridArea -> bool,
                                 close: GridArea?, closeDistSq: real, n: nat)
      reads this`areas
    {
      && (close == null && 0.0 <= maxDist ==>
            forall a :: a in areas && !blocked(a) ==> maxDist * maxDist <= AreaDistSq(a, pos, pos))
      && (close != null && closeDistSq <= ((n - 1) as real * CELL_SIZE) * ((n - 1) as real * CELL_SIZE) ==>
            IsNearest(areas, pos, blocked, closeDistSq))
      && (close != null && 0.0 <= maxDist <= CELL_SIZE ==> IsNearest(areas, pos, blocked, closeDistSq))
    }

    lemma AnswersGlobally(pos: Vector, maxDist: real, blocked: GridArea -> bool, close: GridArea?, closeDistSq: real, n: nat)
      requires Valid() && grid != []
      requires NearestInRings(CellOf(frame, pos.x, pos.y), pos, maxDist, blocked, close, closeDistSq, n)
      ensures NearestOfAll(pos, maxDist, blocked, close, closeDistSq, n)
    {
      hide AreaDistSq, Listing, Rings, CellOf;
      if close == null && 0.0 <= maxDist {
        NullMeansNoneInReach(frame, areas, blocked, pos, pos, maxDist, n);
      }
      if close != null && closeDistSq <= ((n - 1) as real * CELL_SIZE) * ((n - 1) as real * CELL_SIZE) {
        CloseAnswerIsGlobal(frame, areas, blocked, pos, pos, maxDist * maxDist, n, close);
      }
      if close != null && 0.0 <= maxDist <= CELL_SIZE {
        WithinOneCellIsNearest(frame, areas, pos, maxDist, blocked, close, closeDistSq, n);
      }
    }
  }

  /** A scan that was stopped early has only called the functor on what the whole scan would have met. */
  lemma StoppedEarly(list: seq<GridArea>, all: seq<GridArea>, want: GridArea -> bool, func: GridArea -> bool,
                     calls: seq<GridArea>)
    requires list <= all && Reports(Picked(list, want), func, false, calls)
    ensures Reports(Picked(all, want), func, false, calls)
  {
    assert all == list + all[|list|..];
    PickedPrefix(list, all[|list|..], want);
  }
}
