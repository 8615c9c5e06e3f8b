/** The order in which the grid queries meet cells and areas, and what they pick from it
    (extension/toolsnav_mesh.h:60-178; extension/toolsnav_mesh.cpp:297-407). */
module GridOrder {
  import opened OpenList
  import opened NavAreas
  import opened GridGeometry

  class GridArea {
    const id: nat
    const shape: Shape
    var nearNavSearchMarker: uint32

    constructor (id: nat, shape: Shape)
      ensures this.id == id && this.shape == shape && nearNavSearchMarker == 0
    {
      this.id, this.shape := id, shape;
      nearNavSearchMarker := 0;
    }
  }

  // ---------- Cells, column by column ----------

  function Column(x: int, y0: int, y1: int, keep: Cell -> bool): seq<Cell>
    decreases y1 - y0
  {
    if y1 <= y0 then []
    else Column(x, y0, y1 - 1, keep) + if keep(Cell(x, y1 - 1)) then [Cell(x, y1 - 1)] else []
  }

  /** The kept cells of the columns x0 to x1, rows y0 to y1 (upper bounds excluded), as two nested loops
      meet them. */
  function Columns(x0: int, x1: int, y0: int, y1: int, keep: Cell -> bool): seq<Cell>
    decreases x1 - x0
  {
    if x1 <= x0 then [] else Columns(x0, x1 - 1, y0, y1, keep) + Column(x1 - 1, y0, y1, keep)
  }

  lemma {:induction false} ColumnExact(x: int, y0: int, y1: int, keep: Cell -> bool)
    ensures Distinct(Column(x, y0, y1, keep))
    ensures forall c :: c in Column(x, y0, y1, keep) <==> c.x == x && y0 <= c.y < y1 && keep(c)
    decreases y1 - y0
  {
    if y0 < y1 {
      ColumnExact(x, y0, y1 - 1, keep);
      DistinctConcat(Column(x, y0, y1 - 1, keep), if keep(Cell(x, y1 - 1)) then [Cell(x, y1 - 1)] else []);
    }
  }

  /** Nested loops meet every kept cell of the rectangle exactly once. */
  lemma {:induction false} ColumnsExact(x0: int, x1: int, y0: int, y1: int, keep: Cell -> bool)
    ensures Distinct(Columns(x0, x1, y0, y1, keep))
    ensures forall c :: c in Columns(x0, x1, y0, y1, keep) <==> x0 <= c.x < x1 && y0 <= c.y < y1 && keep(c)
    decreases x1 - x0
  {
    if x0 < x1 {
      ColumnsExact(x0, x1 - 1, y0, y1, keep);
      ColumnExact(x1 - 1, y0, y1, keep);
      DistinctConcat(Columns(x0, x1 - 1, y0, y1, keep), Column(x1 - 1, y0, y1, keep));
    }
  }

  lemma DistinctConcat<T>(s: seq<T>, t: seq<T>)
    requires Distinct(s) && Distinct(t) && forall x :: x in s ==> x !in t
    ensures Distinct(s + t)
  {
    var r := s + t;
    forall i, j | 0 <= i < j < |r|
      ensures r[i] != r[j]
    {
      if i < |s| <= j {
        assert r[i] in s && r[j] in t;
      }
    }
  }

  function Inside(f: Frame): Cell -> bool {
    c => InGrid(f, c)
  }

  // ---------- Rings ----------

  function Abs(x: int): nat {
    if x < 0 then -x else x
  }

  /** Chebyshev distance. */
  function Distance(c: Cell, d: Cell): nat {
    if Abs(c.x - d.x) < Abs(c.y - d.y) then Abs(c.y - d.y) else Abs(c.x - d.x)
  }

  /** In the grid, and not strictly inside the square of this shift (toolsnav_mesh.cpp:310-323). */
  function OnRing(f: Frame, o: Cell, shift: int): Cell -> bool {
    c => InGrid(f, c) && !(o.x - shift < c.x < o.x + shift && o.y - shift < c.y < o.y + shift)
  }

  function Ring(f: Frame, o: Cell, shift: int): seq<Cell> {
    Columns(o.x - shift, o.x + shift + 1, o.y - shift, o.y + shift + 1, OnRing(f, o, shift))
  }

  function Rings(f: Frame, o: Cell, n: nat): seq<Cell> {
    if n == 0 then [] else Rings(f, o, n - 1) + Ring(f, o, n - 1)
  }

  lemma RingExact(f: Frame, o: Cell, shift: nat)
    ensures Distinct(Ring(f, o, shift))
    ensures forall c :: c in Ring(f, o, shift) <==> InGrid(f, c) && Distance(o, c) == shift
  {
    var cells := Ring(f, o, shift);
    ColumnsExact(o.x - shift, o.x + shift + 1, o.y - shift, o.y + shift + 1, OnRing(f, o, shift));
    hide Columns, InGrid;
    forall c
      ensures c in cells <==> InGrid(f, c) && Distance(o, c) == shift
    {
      assert OnRing(f, o, shift)(c) <==>
        InGrid(f, c) && !(o.x - shift < c.x < o.x + shift && o.y - shift < c.y < o.y + shift);
      assert c in cells <==>
        o.x - shift <= c.x < o.x + shift + 1 && o.y - shift <= c.y < o.y + shift + 1 && OnRing(f, o, shift)(c);
    }
  }

  /** The first n rings hold exactly the cells of the grid closer than n to the origin, each once. */
  lemma {:induction false} RingsExact(f: Frame, o: Cell, n: nat)
    ensures Distinct(Rings(f, o, n))
    ensures forall c :: c in Rings(f, o, n) <==> InGrid(f, c) && Distance(o, c) < n
  {
    hide Ring, InGrid, Distance, Distinct;
    if 0 < n {
      RingsExact(f, o, n - 1);
      RingExact(f, o, n - 1);
      DistinctConcat(Rings(f, o, n - 1), Ring(f, o, n - 1));
    } else {
      NoneDistinct<Cell>();
    }
  }

  lemma NoneDistinct<T>()
    ensures Distinct<T>([])
  {
  }

  // ---------- Areas ----------

  ghost predicate ShapesOk(areas: seq<GridArea>) {
    forall i :: 0 <= i < |areas| ==> ShapeOk(areas[i].shape)
  }

  /** The areas registered in a cell, in the order in which they were added. */
  function Covering(f: Frame, areas: seq<GridArea>, c: Cell): seq<GridArea>
    requires FrameOk(f)
  {
    if areas == [] then []
    else
      var a := areas[|areas| - 1];
      Covering(f, areas[..|areas| - 1], c) + if Covers(f, a.shape, c) then [a] else []
  }

  /** The contents of the cells, one after the other. */
  function Listing(f: Frame, areas: seq<GridArea>, cells: seq<Cell>): seq<GridArea>
    requires FrameOk(f)
  {
    if cells == [] then []
    else Listing(f, areas, cells[..|cells| - 1]) + Covering(f, areas, cells[|cells| - 1])
  }

  lemma {:induction false} CoveringExact(f: Frame, areas: seq<GridArea>, c: Cell)
    requires FrameOk(f)
    ensures forall a :: a in Covering(f, areas, c) ==> a in areas && Covers(f, a.shape, c)
    ensures forall a :: a in areas && Covers(f, a.shape, c) ==> a in Covering(f, areas, c)
  {
    if areas != [] {
      CoveringExact(f, areas[..|areas| - 1], c);
      assert areas == areas[..|areas| - 1] + [areas[|areas| - 1]];
    }
  }

  /** The shape is registered in one of the cells. */
  ghost predicate Met(f: Frame, s: Shape, cells: seq<Cell>)
    requires FrameOk(f)
  {
    exists c :: c in cells && Covers(f, s, c)
  }

  lemma {:induction false} ListingExact(f: Frame, areas: seq<GridArea>, cells: seq<Cell>)
    requires FrameOk(f)
    ensures forall a :: a in Listing(f, areas, cells) ==> a in areas && Met(f, a.shape, cells)
    ensures forall a :: a in areas && Met(f, a.shape, cells) ==> a in Listing(f, areas, cells)
  {
    hide Covers, Covering;
    if cells != [] {
      var before, c := cells[..|cells| - 1], cells[|cells| - 1];
      ListingExact(f, areas, before);
      CoveringExact(f, areas, c);
      assert cells == before + [c];
      forall s: Shape
        ensures Met(f, s, cells) <==> Met(f, s, before) || Covers(f, s, c)
      {
        assert c in cells;
      }
    }
  }

  lemma ButLast<T>(s: seq<T>, t: seq<T>)
    requires t != []
    ensures (s + t)[..|s + t| - 1] == s + t[..|t| - 1] && (s + t)[|s + t| - 1] == t[|t| - 1]
  {
  }

  lemma {:induction false} ListingConcat(f: Frame, areas: seq<GridArea>, cells: seq<Cell>, more: seq<Cell>)
    requires FrameOk(f)
    ensures Listing(f, areas, cells + more) == Listing(f, areas, cells) + Listing(f, areas, more)
  {
    if more == [] {
      assert cells + more == cells;
    } else {
      hide Covering;
      ListingConcat(f, areas, cells, more[..|more| - 1]);
      ButLast(cells, more);
    }
  }

  // ---------- Picking ----------

  /** What a marking scan hands on: the first occurrence of every area that is wanted. */
  function Picked(list: seq<GridArea>, want: GridArea -> bool): seq<GridArea> {
    if list == [] then []
    else
      var a, before := list[|list| - 1], list[..|list| - 1];
      Picked(before, want) + if a !in before && want(a) then [a] else []
  }

  lemma {:induction false} PickedExact(list: seq<GridArea>, want: GridArea -> bool)
    ensures Distinct(Picked(list, want))
    ensures forall a :: a in Picked(list, want) <==> a in list && want(a)
  {
    if list != [] {
      var before := list[..|list| - 1];
      PickedExact(before, want);
      assert list == before + [list[|list| - 1]];
    }
  }

  lemma {:induction false} PickedPrefix(list: seq<GridArea>, more: seq<GridArea>, want: GridArea -> bool)
    ensures Picked(list, want) <= Picked(list + more, want)
  {
    if more == [] {
      assert list + more == list;
    } else {
      PickedPrefix(list, more[..|more| - 1], want);
      assert (list + more)[..|list + more| - 1] == list + more[..|more| - 1];
    }
  }

  /** A functor was called on the areas of `order`, in this order, until it returned false. */
  ghost predicate Reports(order: seq<GridArea>, func: GridArea -> bool, ok: bool, calls: seq<GridArea>) {
    && calls <= order
    && (forall i :: 0 <= i < |calls| - 1 ==> func(calls[i]))
    && (ok ==> calls == order && forall i :: 0 <= i < |calls| ==> func(calls[i]))
    && (!ok ==> calls != [] && !func(calls[|calls| - 1]))
  }

  lemma PickedFromCells(f: Frame, areas: seq<GridArea>, cells: seq<Cell>, want: GridArea -> bool)
    requires FrameOk(f)
    ensures Distinct(Picked(Listing(f, areas, cells), want))
    ensures forall a :: a in Picked(Listing(f, areas, cells), want) <==> a in areas && Met(f, a.shape, cells) && want(a)
  {
    hide Met;
    PickedExact(Listing(f, areas, cells), want);
    ListingExact(f, areas, cells);
  }

  // ---------- The queries against a full scan ----------

  /** The cells between those of the two corners of the rectangle. */
  function Spanned(f: Frame, e: Extent): seq<Cell>
    requires FrameOk(f)
  {
    var lo, hi := CellOf(f, e.lo.x, e.lo.y), CellOf(f, e.hi.x, e.hi.y);
    Columns(lo.x, hi.x + 1, lo.y, hi.y + 1, Inside(f))
  }

  function Touches(e: Extent): GridArea -> bool {
    (a: GridArea) => Overlaps(e, GetExtent(a.shape))
  }

  /** The rectangle is not inverted, seen through the grid. */
  predicate SpansCells(f: Frame, e: Extent)
    requires FrameOk(f)
  {
    var lo, hi := CellOf(f, e.lo.x, e.lo.y), CellOf(f, e.hi.x, e.hi.y);
    lo.x <= hi.x && lo.y <= hi.y
  }

  /** The rectangle query picks each area that a scan over all areas would select exactly once, and no
      other, if the rectangle spans any cell; otherwise it picks none. */
  lemma ExtentQueryIsFullScan(f: Frame, areas: seq<GridArea>, e: Extent)
    requires FrameOk(f) && ShapesOk(areas)
    ensures var picked := Picked(Listing(f, areas, Spanned(f, e)), Touches(e));
            && Distinct(picked)
            && forall a :: a in picked <==> SpansCells(f, e) && a in areas && Overlaps(e, GetExtent(a.shape))
  {
    hide SpansCells, Spanned, Met, Overlaps, GetExtent, Listing, Picked, Distinct, ShapeOk;
    PickedFromCells(f, areas, Spanned(f, e), Touches(e));
    forall a | a in areas
      ensures Met(f, a.shape, Spanned(f, e)) ==> SpansCells(f, e)
      ensures SpansCells(f, e) && Overlaps(e, GetExtent(a.shape)) ==> Met(f, a.shape, Spanned(f, e))
    {
      var i :| 0 <= i < |areas| && areas[i] == a;
      SpannedMeets(f, a.shape, e);
    }
  }

  lemma SpannedMeets(f: Frame, s: Shape, e: Extent)
    requires FrameOk(f) && ShapeOk(s)
    ensures Met(f, s, Spanned(f, e)) ==> SpansCells(f, e)
    ensures SpansCells(f, e) && Overlaps(e, GetExtent(s)) ==> Met(f, s, Spanned(f, e))
  {
    hide Covers, CellOf, Overlaps, GetExtent, ShapeOk, Columns;
    var lo, hi := CellOf(f, e.lo.x, e.lo.y), CellOf(f, e.hi.x, e.hi.y);
    ColumnsExact(lo.x, hi.x + 1, lo.y, hi.y + 1, Inside(f));
    if SpansCells(f, e) && Overlaps(e, GetExtent(s)) {
      OverlapMeets(f, s, e);
      var c :| Covers(f, s, c) && lo.x <= c.x <= hi.x && lo.y <= c.y <= hi.y;
      assert c in Spanned(f, e);
    }
  }

  /** A well-formed rectangle always spans cells. */
  lemma OrderedExtentSpansCells(f: Frame, e: Extent)
    requires FrameOk(f) && e.lo.x <= e.hi.x && e.lo.y <= e.hi.y
    ensures SpansCells(f, e)
  {
    ToGridIsMonotone(e.lo.x, e.hi.x, f.minX, f.sizeX);
    ToGridIsMonotone(e.lo.y, e.hi.y, f.minY, f.sizeY);
  }

  /** `shiftLimit` of the radius query: radius 0 means the whole grid. */
  function ShiftLimit(f: Frame, radius: real): int {
    if radius == 0.0 then (if f.sizeX < f.sizeY then f.sizeY else f.sizeX) else Ceil(radius / CELL_SIZE)
  }

  function Around(f: Frame, pos: Vector, radius: real): seq<Cell>
    requires FrameOk(f)
  {
    var o, k := CellOf(f, pos.x, pos.y), ShiftLimit(f, radius);
    Columns(o.x - k, o.x + k + 1, o.y - k, o.y + k + 1, Inside(f))
  }

  function Near(pos: Vector, radius: real): GridArea -> bool {
    (a: GridArea) => DistSq(a.shape.center, pos) <= radius * radius || radius * radius == 0.0
  }

  /** The radius query picks exactly what a full scan over the centres would, each area once. */
  lemma RadiusQueryIsFullScan(f: Frame, areas: seq<GridArea>, pos: Vector, radius: real)
    requires FrameOk(f) && ShapesOk(areas) && 0.0 <= radius
    ensures var picked := Picked(Listing(f, areas, Around(f, pos, radius)), Near(pos, radius));
            && Distinct(picked)
            && forall a :: a in picked <==>
                 a in areas && (radius == 0.0 || DistSq(a.shape.center, pos) <= radius * radius)
  {
    hide Around, Met, DistSq, Listing, Picked, Distinct, ShapeOk;
    PickedFromCells(f, areas, Around(f, pos, radius), Near(pos, radius));
    PositiveSquare(radius);
    forall a | a in areas && (radius == 0.0 || DistSq(a.shape.center, pos) <= radius * radius)
      ensures Met(f, a.shape, Around(f, pos, radius))
    {
      var i :| 0 <= i < |areas| && areas[i] == a;
      AroundMeets(f, a.shape, pos, radius);
    }
  }

  lemma AroundExact(f: Frame, pos: Vector, radius: real)
    requires FrameOk(f)
    ensures forall c :: c in Around(f, pos, radius) <==>
              InGrid(f, c) && Distance(CellOf(f, pos.x, pos.y), c) <= ShiftLimit(f, radius)
  {
    hide ShiftLimit, CellOf, Columns, InGrid, Distinct;
    var o, k := CellOf(f, pos.x, pos.y), ShiftLimit(f, radius);
    ColumnsExact(o.x - k, o.x + k + 1, o.y - k, o.y + k + 1, Inside(f));
  }

  lemma AroundMeets(f: Frame, s: Shape, pos: Vector, radius: real)
    requires FrameOk(f) && ShapeOk(s) && 0.0 <= radius
    requires radius == 0.0 || DistSq(s.center, pos) <= radius * radius
    ensures Met(f, s, Around(f, pos, radius))
  {
    hide Covers, Around, DistSq;
    var c := CellOf(f, s.center.x, s.center.y);
    CoversItsPoints(f, s, s.center.x, s.center.y);
    AroundExact(f, pos, radius);
    if radius != 0.0 {
      WithinRadius(s.center, pos, radius);
      CellsWithin(f, s.center.x, s.center.y, pos, radius);
    }
    assert c in Around(f, pos, radius);
  }

  lemma PositiveSquare(r: real)
    ensures r * r == 0.0 <==> r == 0.0
  {
    SquareIsZero(r, r * r);
  }

  lemma SquareIsZero(r: real, s: real)
    requires s == r * r
    ensures s == 0.0 <==> r == 0.0
  {
    if r < 0.0 {
      ProductIsPositive(-r, -r, s);
    } else if r != 0.0 {
      ProductIsPositive(r, r, s);
    }
  }

  lemma ProductIsPositive(a: real, b: real, s: real)
    requires 0.0 < a && 0.0 < b && s == a * b
    ensures 0.0 < s
  {
  }

  /** A point within the radius along both axes lies at most `Ceil(radius / 300)` cells away. */
  lemma CellsWithin(f: Frame, x: real, y: real, pos: Vector, radius: real)
    requires FrameOk(f) && 0.0 <= radius
    requires -radius <= x - pos.x <= radius && -radius <= y - pos.y <= radius
    ensures Distance(CellOf(f, pos.x, pos.y), CellOf(f, x, y)) <= Ceil(radius / CELL_SIZE)
  {
    var k := Ceil(radius / CELL_SIZE);
    ToGridIsLipschitz(x, pos.x, f.minX, f.sizeX, k);
    ToGridIsLipschitz(y, pos.y, f.minY, f.sizeY, k);
  }

  lemma NoneAround(f: Frame, pos: Vector, radius: real)
    requires FrameOk(f) && ShiftLimit(f, radius) < 0
    ensures Around(f, pos, radius) == []
  {
  }

  /** A negative radius is squared all the same: from -300 downwards nothing is visited; above that, only
      the cell of the position is. */
  lemma NegativeRadius(f: Frame, areas: seq<GridArea>, pos: Vector, radius: real)
    requires FrameOk(f) && radius < 0.0
    ensures radius <= -CELL_SIZE ==> Around(f, pos, radius) == []
    ensures -CELL_SIZE < radius ==>
              forall a :: a in Picked(Listing(f, areas, Around(f, pos, radius)), Near(pos, radius)) <==>
                a in areas && Covers(f, a.shape, CellOf(f, pos.x, pos.y))
                && DistSq(a.shape.center, pos) <= radius * radius
  {
    hide Around, Covers, DistSq, Listing, Picked, CellOf;
    var cells, o, k := Around(f, pos, radius), CellOf(f, pos.x, pos.y), ShiftLimit(f, radius);
    AroundExact(f, pos, radius);
    assert k == if -CELL_SIZE < radius then 0 else k;
    if -CELL_SIZE < radius {
      assert forall c :: c in cells <==> c == o;
      PickedFromCells(f, areas, cells, Near(pos, radius));
      PositiveSquare(radius);
      forall a: GridArea
        ensures Met(f, a.shape, cells) <==> Covers(f, a.shape, o)
      {
        assert o in cells;
      }
    } else {
      assert k < 0;
      NoneAround(f, pos, radius);
    }
  }

  // ---------- The point query ----------

  /** The highest area so far and its height, which starts at the lowest height considered. */
  datatype Best = Best(use: GridArea?, useZ: real)

  const LOWEST_Z := -99999999.9
  const REACH_ABOVE := 5.0

  /** An area whose surface at the position is neither above its reach nor too far below. */
  predicate Candidate(a: GridArea, pos: Vector, beneathLimit: real) {
    Beneath(a.shape, pos) && pos.z - beneathLimit <= GetZ(a.shape, pos.x, pos.y) <= pos.z + REACH_ABOVE
  }

  /** The scan of toolsnav_mesh.cpp:113-159 over a list of areas. */
  function Highest(list: seq<GridArea>, pos: Vector, beneathLimit: real): Best {
    if list == [] then Best(null, LOWEST_Z)
    else
      var b, a := Highest(list[..|list| - 1], pos, beneathLimit), list[|list| - 1];
      if Candidate(a, pos, beneathLimit) && GetZ(a.shape, pos.x, pos.y) > b.useZ
      then Best(a, GetZ(a.shape, pos.x, pos.y)) else b
  }

  /** The scan finds the first of the highest candidates above the lowest height. */
  lemma {:induction false} HighestIsFirstHighest(list: seq<GridArea>, pos: Vector, beneathLimit: real)
    ensures var b := Highest(list, pos, beneathLimit);
            && LOWEST_Z <= b.useZ
            && (forall a :: a in list && Candidate(a, pos, beneathLimit) ==> GetZ(a.shape, pos.x, pos.y) <= b.useZ)
            && (b.use == null ==> b.useZ == LOWEST_Z)
            && (b.use != null ==>
                  exists k :: 0 <= k < |list| && list[k] == b.use && IsFirstAt(list, k, pos, beneathLimit, b.useZ))
  {
    if list != [] {
      var n := |list| - 1;
      HighestIsFirstHighest(list[..n], pos, beneathLimit);
      assert list == list[..n] + [list[n]];
      var b, c := Highest(list, pos, beneathLimit), Highest(list[..n], pos, beneathLimit);
      if b.use != null {
        if b == c {
          var k :| 0 <= k < n && list[..n][k] == b.use && IsFirstAt(list[..n], k, pos, beneathLimit, b.useZ);
          assert IsFirstAt(list, k, pos, beneathLimit, b.useZ);
        } else {
          assert IsFirstAt(list, n, pos, beneathLimit, b.useZ);
        }
      }
    }
  }

  ghost predicate IsFirstAt(list: seq<GridArea>, k: nat, pos: Vector, beneathLimit: real, z: real)
    requires k < |list|
  {
    && Candidate(list[k], pos, beneathLimit) && GetZ(list[k].shape, pos.x, pos.y) == z && LOWEST_Z < z
    && forall i :: 0 <= i < k && Candidate(list[i], pos, beneathLimit) ==> GetZ(list[i].shape, pos.x, pos.y) < z
  }

  lemma NothingCovers(f: Frame, c: Cell)
    requires FrameOk(f)
    ensures Covering(f, [], c) == []
  {
  }

  lemma LastCovering(f: Frame, areas: seq<GridArea>, c: Cell)
    requires FrameOk(f) && areas != []
    ensures var a, cell, rest := areas[|areas| - 1], Covering(f, areas, c), Covering(f, areas[..|areas| - 1], c);
            if Covers(f, a.shape, c) then cell == rest + [a] && cell[..|cell| - 1] == rest else cell == rest
  {
    hide Covers;
    var rest := Covering(f, areas[..|areas| - 1], c);
    assert rest + [] == rest;
  }

  /** One cell is enough: the scan over it gives the same answer as a scan over all areas, ties included. */
  lemma {:induction false} PointQueryIsFullScan(f: Frame, areas: seq<GridArea>, pos: Vector, beneathLimit: real)
    requires FrameOk(f)
    ensures Highest(Covering(f, areas, CellOf(f, pos.x, pos.y)), pos, beneathLimit) == Highest(areas, pos, beneathLimit)
  {
    hide Covering, Covers, CellOf;
    if areas != [] {
      var a, c := areas[|areas| - 1], CellOf(f, pos.x, pos.y);
      PointQueryIsFullScan(f, areas[..|areas| - 1], pos, beneathLimit);
      if Beneath(a.shape, pos) {
        CoversItsPoints(f, a.shape, pos.x, pos.y);
      }
      LastCovering(f, areas, c);
    } else {
      NothingCovers(f, CellOf(f, pos.x, pos.y));
    }
  }

  // ---------- The nearest area ----------

  /** How far a position is from an area, as the ring search measures it. */
  function AreaDistSq(a: GridArea, source: Vector, pos: Vector): real {
    DistSq(ClosestPoint(a.shape, source), pos)
  }

  /** The outcome of a scan for the nearest area that is not blocked: the first of the nearest ones closer
      than the limit, or null and the limit. */
  ghost predicate NearestOf(list: seq<GridArea>, blocked: GridArea -> bool, source: Vector, pos: Vector,
                            limitSq: real, close: GridArea?, closeDistSq: real)
  {
    && (forall a :: a in list && !blocked(a) ==> closeDistSq <= AreaDistSq(a, source, pos))
    && (close == null ==> closeDistSq == limitSq)
    && (close != null ==>
          && closeDistSq < limitSq && close in list && !blocked(close)
          && closeDistSq == AreaDistSq(close, source, pos))
  }

  /** The first place where the answer occurs is before that of any other area as close. */
  ghost predicate FirstOf(list: seq<GridArea>, blocked: GridArea -> bool, source: Vector, pos: Vector, close: GridArea) {
    exists k :: 0 <= k < |list| && list[k] == close &&
      forall i :: 0 <= i < k && !blocked(list[i]) ==> AreaDistSq(close, source, pos) < AreaDistSq(list[i], source, pos)
  }

  /** Some area of a list is strictly nearer than everything before, and than the limit. */
  ghost predicate Improved(before: seq<GridArea>, now: seq<GridArea>, blocked: GridArea -> bool, pos: Vector, limitSq: real) {
    exists a :: a in now && !blocked(a) && AreaDistSq(a, pos, pos) < limitSq &&
      forall b :: b in before && !blocked(b) ==> AreaDistSq(a, pos, pos) < AreaDistSq(b, pos, pos)
  }

  /** The search goes on to ring r: it has found nothing yet and `maxDist` allows it, or the ring before has
      given a nearer area. */
  ghost predicate GoesOn(f: Frame, areas: seq<GridArea>, o: Cell, blocked: GridArea -> bool, pos: Vector, maxDist: real, r: int)
    requires FrameOk(f) && 1 <= r
  {
    || (r <= Ceil(maxDist / CELL_SIZE)
        && forall a :: a in Listing(f, areas, Rings(f, o, r)) && !blocked(a) ==> maxDist * maxDist <= AreaDistSq(a, pos, pos))
    || Improved(Listing(f, areas, Rings(f, o, r - 1)), Listing(f, areas, Rings(f, o, r)), blocked, pos, maxDist * maxDist)
  }

  /** The outcome of a ring search: nearest among the areas registered closer than n cells to the origin. The
      search has gone on through all of these rings; n is one more than the ring after the one that gave the
      answer, or what `maxDist` allows when there is none. */
  ghost predicate RingAnswer(f: Frame, areas: seq<GridArea>, o: Cell, pos: Vector, maxDist: real, blocked: GridArea -> bool,
                             close: GridArea?, closeDistSq: real, n: nat)
    requires FrameOk(f)
  {
    && NearestOf(Listing(f, areas, Rings(f, o, n)), blocked, pos, pos, maxDist * maxDist, close, closeDistSq)
    && (forall r :: 1 <= r < n ==> GoesOn(f, areas, o, blocked, pos, maxDist, r))
    && if close == null then n == if maxDist <= -CELL_SIZE then 0 else Ceil(maxDist / CELL_SIZE) + 1
       else
         && FirstOf(Listing(f, areas, Rings(f, o, n)), blocked, pos, pos, close)
         && 2 <= n && close in Listing(f, areas, Rings(f, o, n - 1))
         && close !in Listing(f, areas, Rings(f, o, n - 2))
  }

  /** An area closer than r has one of its cells at most `Ceil(r / 300)` away from the position. */
  lemma NearAreaIsInReach(f: Frame, a: GridArea, source: Vector, pos: Vector, r: real)
    requires FrameOk(f) && ShapeOk(a.shape) && 0.0 <= r && source.x == pos.x && source.y == pos.y
    requires AreaDistSq(a, source, pos) <= r * r
    ensures exists c :: InGrid(f, c) && Covers(f, a.shape, c)
                        && Distance(CellOf(f, pos.x, pos.y), c) <= Ceil(r / CELL_SIZE)
  {
    var p := ClosestPoint(a.shape, source);
    WithinRadius(p, pos, r);
    CellsWithin(f, p.x, p.y, pos, r);
    CoversItsPoints(f, a.shape, p.x, p.y);
    assert InGrid(f, CellOf(f, p.x, p.y));
  }

  lemma ReachIsListed(f: Frame, areas: seq<GridArea>, source: Vector, pos: Vector, r: real, n: nat, a: GridArea)
    requires FrameOk(f) && ShapesOk(areas) && 0.0 <= r && source.x == pos.x && source.y == pos.y
    requires Ceil(r / CELL_SIZE) < n && a in areas && AreaDistSq(a, source, pos) <= r * r
    ensures a in Listing(f, areas, Rings(f, CellOf(f, pos.x, pos.y), n))
  {
    hide CellOf, Covers, AreaDistSq, Rings, Listing, ShapeOk, Ceil;
    var o := CellOf(f, pos.x, pos.y);
    RingsExact(f, o, n);
    ListingExact(f, areas, Rings(f, o, n));
    var i :| 0 <= i < |areas| && areas[i] == a;
    NearAreaIsInReach(f, a, source, pos, r);
    var c :| InGrid(f, c) && Covers(f, a.shape, c) && Distance(o, c) <= Ceil(r / CELL_SIZE);
    assert c in Rings(f, o, n);
  }

  /** A search that found nothing within `Ceil(maxDist / 300)` rings is right for the whole mesh. */
  lemma NullMeansNoneInReach(f: Frame, areas: seq<GridArea>, blocked: GridArea -> bool, source: Vector, pos: Vector,
                             maxDist: real, n: nat)
    requires FrameOk(f) && ShapesOk(areas) && 0.0 <= maxDist && source.x == pos.x && source.y == pos.y
    requires n == Ceil(maxDist / CELL_SIZE) + 1
    requires NearestOf(Listing(f, areas, Rings(f, CellOf(f, pos.x, pos.y), n)), blocked, source, pos,
                       maxDist * maxDist, null, maxDist * maxDist)
    ensures forall a :: a in areas && !blocked(a) ==> maxDist * maxDist <= AreaDistSq(a, source, pos)
  {
    hide CellOf, AreaDistSq, Rings, Listing, ShapesOk;
    forall a | a in areas && !blocked(a)
      ensures maxDist * maxDist <= AreaDistSq(a, source, pos)
    {
      if AreaDistSq(a, source, pos) < maxDist * maxDist {
        ReachIsListed(f, areas, source, pos, maxDist, n, a);
      }
    }
  }

  /** A search that looked at n rings and found an area no further than n - 1 cell widths away has found a
      nearest area of the whole mesh. */
  lemma CloseAnswerIsGlobal(f: Frame, areas: seq<GridArea>, blocked: GridArea -> bool, source: Vector, pos: Vector,
                            limitSq: real, n: nat, close: GridArea)
    requires FrameOk(f) && ShapesOk(areas) && source.x == pos.x && source.y == pos.y && 1 <= n
    requires NearestOf(Listing(f, areas, Rings(f, CellOf(f, pos.x, pos.y), n)), blocked, source, pos,
                       limitSq, close, AreaDistSq(close, source, pos))
    requires AreaDistSq(close, source, pos) <= ((n - 1) as real * CELL_SIZE) * ((n - 1) as real * CELL_SIZE)
    ensures forall a :: a in areas && !blocked(a) ==> AreaDistSq(close, source, pos) <= AreaDistSq(a, source, pos)
  {
    hide CellOf, AreaDistSq, Rings, Listing, ShapesOk;
    var r := (n - 1) as real * CELL_SIZE;
    assert r / CELL_SIZE == (n - 1) as real;
    forall a | a in areas && !blocked(a)
      ensures AreaDistSq(close, source, pos) <= AreaDistSq(a, source, pos)
    {
      if AreaDistSq(a, source, pos) < AreaDistSq(close, source, pos) {
        ReachIsListed(f, areas, source, pos, r, n, a);
      }
    }
  }

  // ---------- When the ring search is a nearest search ----------

  /** The outcome of a ring search around a position, over a whole mesh. */
  ghost predicate IsAnswer(f: Frame, areas: seq<GridArea>, pos: Vector, maxDist: real, blocked: GridArea -> bool,
                           close: GridArea, closeDistSq: real, n: nat)
  {
    FrameOk(f) && ShapesOk(areas) && RingAnswer(f, areas, CellOf(f, pos.x, pos.y), pos, maxDist, blocked, close, closeDistSq, n)
  }

  ghost predicate IsNearest(areas: seq<GridArea>, pos: Vector, blocked: GridArea -> bool, closeDistSq: real) {
    forall a :: a in areas && !blocked(a) ==> closeDistSq <= AreaDistSq(a, pos, pos)
  }

  lemma WithinOneCellIsNearest(f: Frame, areas: seq<GridArea>, pos: Vector, maxDist: real, blocked: GridArea -> bool,
                               close: GridArea, closeDistSq: real, n: nat)
    requires 0.0 <= maxDist <= CELL_SIZE && IsAnswer(f, areas, pos, maxDist, blocked, close, closeDistSq, n)
    ensures IsNearest(areas, pos, blocked, closeDistSq)
  {
    hide AreaDistSq, Rings, Listing, FirstOf, ShapesOk, CellOf, GoesOn;
    var r := (n - 1) as real * CELL_SIZE;
    SquareGrows(maxDist, r);
    CloseAnswerIsGlobal(f, areas, blocked, pos, pos, maxDist * maxDist, n, close);
  }

  lemma SquareGrows(x: real, y: real)
    requires 0.0 <= x <= y
    ensures x * x <= y * y
  {
  }

  /** How far `maxDist` exceeds a cell, cut down to a third, and to 30. */
  function Margin(maxDist: real): (t: real)
    ensures CELL_SIZE < maxDist ==> 0.0 < t <= 30.0 && CELL_SIZE + 2.0 * t < maxDist
  {
    Min((maxDist - CELL_SIZE) / 3.0, 30.0)
  }

  function Flat(x0: real, x1: real, z: real): Shape
    requires x0 < x1
  {
    Shape(Vector(x0, 0.0, z), Vector(x1, 100.0, z), z, z, 1.0 / (x1 - x0), 0.01, Vector((x0 + x1) / 2.0, 50.0, z))
  }

  /** An area straight below the position, a little further away than the length of a cell. */
  function NearShape(t: real): Shape
    requires 0.0 < t <= 30.0
  {
    Flat(0.0, CELL_SIZE - t / 2.0, -CELL_SIZE - 2.0 * t)
  }

  /** An area at the height of the position, nearer than the first one but two cells away. */
  function FarShape(t: real): Shape
    requires 0.0 < t <= 30.0
  {
    Flat(2.0 * CELL_SIZE + t / 2.0, 800.0, 0.0)
  }

  function Between(t: real): Vector {
    Vector(CELL_SIZE - t / 2.0, 50.0, 0.0)
  }

  const THREE_CELLS := Frame(0.0, 0.0, 3, 1)

  lemma FlatZ(s: Shape, z: real, x: real, y: real)
    requires s.nw.z == z && s.se.z == z && s.neZ == z && s.swZ == z
    ensures GetZ(s, x, y) == z
  {
    var u, v := Share(x - s.nw.x, s.invDx), Share(y - s.nw.y, s.invDy);
    assert s.neZ - s.nw.z == 0.0 && s.se.z - s.swZ == 0.0;
    assert u * 0.0 == 0.0 && v * 0.0 == 0.0;
  }

  lemma ShapeDistances(t: real, near: GridArea, far: GridArea)
    requires 0.0 < t <= 30.0 && near.shape == NearShape(t) && far.shape == FarShape(t)
    ensures ShapeOk(near.shape) && ShapeOk(far.shape)
    ensures AreaDistSq(near, Between(t), Between(t)) == (CELL_SIZE + 2.0 * t) * (CELL_SIZE + 2.0 * t)
    ensures AreaDistSq(far, Between(t), Between(t)) == (CELL_SIZE + t) * (CELL_SIZE + t)
  {
    hide GetZ, DistSq;
    var pos := Between(t);
    FlatZ(near.shape, -CELL_SIZE - 2.0 * t, pos.x, pos.y);
    FlatZ(far.shape, 0.0, 2.0 * CELL_SIZE + t / 2.0, pos.y);
    OneAxis(Vector(pos.x, pos.y, -CELL_SIZE - 2.0 * t), pos, CELL_SIZE + 2.0 * t);
    OneAxis(Vector(2.0 * CELL_SIZE + t / 2.0, pos.y, 0.0), pos, CELL_SIZE + t);
  }

  /** Points that differ along x, or in height, by d. */
  lemma OneAxis(p: Vector, q: Vector, d: real)
    requires p.y == q.y && ((p.x - q.x == d && p.z == q.z) || (p.x == q.x && q.z - p.z == d))
    ensures DistSq(p, q) == d * d
  {
    assert -d * -d == d * d;
  }

  lemma TwoDistances(maxDist: real, near: GridArea, far: GridArea)
    requires CELL_SIZE < maxDist
    requires near.shape == NearShape(Margin(maxDist)) && far.shape == FarShape(Margin(maxDist))
    ensures var pos := Between(Margin(maxDist));
            AreaDistSq(far, pos, pos) < AreaDistSq(near, pos, pos) < maxDist * maxDist
    ensures ShapeOk(near.shape) && ShapeOk(far.shape)
  {
    hide AreaDistSq;
    var t := Margin(maxDist);
    ShapeDistances(t, near, far);
    StrictSquares(CELL_SIZE + t, CELL_SIZE + 2.0 * t);
    StrictSquares(CELL_SIZE + 2.0 * t, maxDist);
  }

  function NoneBlocked(): GridArea -> bool {
    _ => false
  }

  /** In the mesh of these two areas every ring search finds the one below, and misses the nearer one. */
  lemma TwoAreas(maxDist: real, near: GridArea, far: GridArea, areas: seq<GridArea>)
    requires CELL_SIZE < maxDist && areas == [near, far]
    requires near.shape == NearShape(Margin(maxDist)) && far.shape == FarShape(Margin(maxDist))
    ensures var pos := Between(Margin(maxDist));
            && IsAnswer(THREE_CELLS, areas, pos, maxDist, NoneBlocked(), near, AreaDistSq(near, pos, pos), 2)
            && !IsNearest(areas, pos, NoneBlocked(), AreaDistSq(near, pos, pos))
            && (forall close, d, n {:trigger IsAnswer(THREE_CELLS, areas, pos, maxDist, NoneBlocked(), close, d, n)} ::
                  IsAnswer(THREE_CELLS, areas, pos, maxDist, NoneBlocked(), close, d, n) ==> close == near)
  {
    hide AreaDistSq, Rings, Listing, CellOf, ShapeOk, RingAnswer, Margin, NearShape, FarShape, Between;
    var t, f, pos := Margin(maxDist), THREE_CELLS, Between(Margin(maxDist));
    TwoDistances(maxDist, near, far);
    TwoListings(t, near, far, areas);
    AnswersOnlyOne(f, areas, CellOf(f, pos.x, pos.y), pos, maxDist, NoneBlocked(), near);
    assert far in areas;
    forall close, d, n | IsAnswer(f, areas, pos, maxDist, NoneBlocked(), close, d, n)
      ensures close == near
    {
      OnlyOneAnswers(f, areas, CellOf(f, pos.x, pos.y), pos, maxDist, NoneBlocked(), near, close, d, n);
    }
  }

  lemma OnlyOneAnswers(f: Frame, areas: seq<GridArea>, o: Cell, pos: Vector, maxDist: real, blocked: GridArea -> bool,
                       near: GridArea, close: GridArea, closeDistSq: real, n: nat)
    requires FrameOk(f) && !blocked(near) && AreaDistSq(near, pos, pos) < maxDist * maxDist
    requires OnlyLists(near, Listing(f, areas, Rings(f, o, 1))) && OnlyLists(near, Listing(f, areas, Rings(f, o, 2)))
    requires RingAnswer(f, areas, o, pos, maxDist, blocked, close, closeDistSq, n)
    ensures close == near
  {
    hide AreaDistSq, Rings, Listing, NearestOf, FirstOf;
    assert 3 <= n ==> GoesOn(f, areas, o, blocked, pos, maxDist, 2);
  }

  lemma AnswersOnlyOne(f: Frame, areas: seq<GridArea>, o: Cell, pos: Vector, maxDist: real, blocked: GridArea -> bool, near: GridArea)
    requires FrameOk(f) && !blocked(near) && AreaDistSq(near, pos, pos) < maxDist * maxDist
    requires Listing(f, areas, Rings(f, o, 0)) == []
    requires OnlyLists(near, Listing(f, areas, Rings(f, o, 1))) && OnlyLists(near, Listing(f, areas, Rings(f, o, 2)))
    ensures RingAnswer(f, areas, o, pos, maxDist, blocked, near, AreaDistSq(near, pos, pos), 2)
  {
    hide AreaDistSq, Rings, Listing;
    var one, two := Listing(f, areas, Rings(f, o, 1)), Listing(f, areas, Rings(f, o, 2));
    assert two[0] in two && two[0] == near;
    assert FirstOf(two, blocked, pos, pos, near);
    assert Improved([], one, blocked, pos, maxDist * maxDist);
    assert GoesOn(f, areas, o, blocked, pos, maxDist, 1);
  }

  ghost predicate OnlyLists(near: GridArea, list: seq<GridArea>) {
    near in list && forall a :: a in list ==> a == near
  }

  lemma StrictSquares(x: real, y: real)
    requires 0.0 < x < y
    ensures x * x < y * y
  {
  }

  lemma TwoListings(t: real, near: GridArea, far: GridArea, areas: seq<GridArea>)
    requires 0.0 < t <= 30.0 && near.shape == NearShape(t) && far.shape == FarShape(t) && areas == [near, far]
    ensures var f := THREE_CELLS;
            var o := CellOf(f, Between(t).x, Between(t).y);
            && Listing(f, areas, Rings(f, o, 0)) == []
            && OnlyLists(near, Listing(f, areas, Rings(f, o, 1))) && OnlyLists(near, Listing(f, areas, Rings(f, o, 2)))
  {
    var f := THREE_CELLS;
    var o := CellOf(f, Between(t).x, Between(t).y);
    TwoCovers(t);
    ListsOnlyNear(f, areas, o, near, far, 1);
    ListsOnlyNear(f, areas, o, near, far, 2);
    NoListing(f, areas, o);
  }

  lemma ListsOnlyNear(f: Frame, areas: seq<GridArea>, o: Cell, near: GridArea, far: GridArea, n: nat)
    requires FrameOk(f) && areas == [near, far] && InGrid(f, o) && 1 <= n <= 2 && o == Cell(0, 0)
    requires forall c :: Covers(f, near.shape, c) <==> c == Cell(0, 0)
    requires forall c :: Covers(f, far.shape, c) <==> c == Cell(2, 0)
    ensures OnlyLists(near, Listing(f, areas, Rings(f, o, n)))
  {
    hide Rings, Listing, Covers;
    RingsExact(f, o, n);
    ListingExact(f, areas, Rings(f, o, n));
    assert o in Rings(f, o, n) && Cell(2, 0) !in Rings(f, o, n);
    assert near in areas;
  }

  lemma NoListing(f: Frame, areas: seq<GridArea>, o: Cell)
    requires FrameOk(f)
    ensures Listing(f, areas, Rings(f, o, 0)) == []
  {
  }

  /** The first area lies in the cell of the position only, the second one two cells on. */
  lemma TwoCovers(t: real)
    requires 0.0 < t <= 30.0
    ensures CellOf(THREE_CELLS, Between(t).x, Between(t).y) == Cell(0, 0)
    ensures forall c :: Covers(THREE_CELLS, NearShape(t), c) <==> c == Cell(0, 0)
    ensures forall c :: Covers(THREE_CELLS, FarShape(t), c) <==> c == Cell(2, 0)
  {
    InCell(0.0, 0);
    InCell(50.0, 0);
    InCell(100.0, 0);
    InCell(CELL_SIZE - t / 2.0, 0);
    InCell(2.0 * CELL_SIZE + t / 2.0, 2);
    InCell(800.0, 2);
  }

  lemma InCell(w: real, i: int)
    requires 0 <= i && i as real * CELL_SIZE <= w < (i + 1) as real * CELL_SIZE
    ensures Trunc((w - 0.0) / CELL_SIZE) == i
  {
  }

  /** Over all meshes and positions, every answer of the ring search is a nearest area of the whole mesh if and
      only if `maxDist` does not exceed the length of a cell. The two areas make up the mesh that shows it. */
  lemma NearestIffWithinOneCell(maxDist: real, near: GridArea, far: GridArea)
    requires 0.0 <= maxDist
    requires CELL_SIZE < maxDist ==> near.shape == NearShape(Margin(maxDist)) && far.shape == FarShape(Margin(maxDist))
    ensures (forall f, areas, pos, blocked, close, closeDistSq, n
               {:trigger IsAnswer(f, areas, pos, maxDist, blocked, close, closeDistSq, n)} ::
               IsAnswer(f, areas, pos, maxDist, blocked, close, closeDistSq, n) ==>
                 IsNearest(areas, pos, blocked, closeDistSq))
            <==> maxDist <= CELL_SIZE
  {
    if maxDist <= CELL_SIZE {
      hide IsAnswer, IsNearest;
      forall f, areas, pos, blocked, close, closeDistSq, n
        | IsAnswer(f, areas, pos, maxDist, blocked, close, closeDistSq, n)
        ensures IsNearest(areas, pos, blocked, closeDistSq)
      {
        WithinOneCellIsNearest(f, areas, pos, maxDist, blocked, close, closeDistSq, n);
      }
    } else {
      hide IsAnswer, IsNearest, AreaDistSq;
      TwoAreas(maxDist, near, far, [near, far]);
    }
  }
}
