/** The shapes of nav areas and the map from world coordinates to grid cells
    (extension/sourcesdk/nav.h:143-189; extension/sourcesdk/nav_area.cpp:18-32, 95-102, 261-302;
    extension/toolsnav_mesh.h:419-449). Coordinates are real numbers. */
module GridGeometry {

  datatype Vector = Vector(x: real, y: real, z: real)

  datatype Extent = Extent(lo: Vector, hi: Vector)

  /** The corners of an area, the heights of the other two, the stored inverse side lengths (zero for an
      area without width or depth), and the stored centre. */
  datatype Shape = Shape(nw: Vector, se: Vector, neZ: real, swZ: real, invDx: real, invDy: real, center: Vector)

  /** Corners are ordered and the centre lies between them. */
  ghost predicate ShapeOk(s: Shape) {
    && s.nw.x <= s.se.x && s.nw.y <= s.se.y
    && s.nw.x <= s.center.x <= s.se.x && s.nw.y <= s.center.y <= s.se.y
  }

  function Min(a: real, b: real): real {
    if a < b then a else b
  }

  function Max(a: real, b: real): real {
    if a < b then b else a
  }

  /** `CNavArea::GetExtent`: the z range spans all four corners. */
  function GetExtent(s: Shape): (e: Extent)
    ensures e.lo.z <= e.hi.z
    ensures e.lo.z <= s.neZ <= e.hi.z && e.lo.z <= s.swZ <= e.hi.z
  {
    Extent(Vector(s.nw.x, s.nw.y, Min(Min(Min(s.nw.z, s.se.z), s.neZ), s.swZ)),
           Vector(s.se.x, s.se.y, Max(Max(Max(s.se.z, s.nw.z), s.neZ), s.swZ)))
  }

  /** `Extent::IsOverlapping`. */
  predicate Overlaps(e: Extent, o: Extent) {
    && e.lo.x <= o.hi.x && e.hi.x >= o.lo.x
    && e.lo.y <= o.hi.y && e.hi.y >= o.lo.y
    && e.lo.z <= o.hi.z && e.hi.z >= o.lo.z
  }

  /** `CNavArea::IsOverlapping` without tolerance: the area lies above or below the point. */
  predicate Beneath(s: Shape, pos: Vector) {
    s.nw.x <= pos.x <= s.se.x && s.nw.y <= pos.y <= s.se.y
  }

  function Clamp01(u: real): (r: real)
    ensures 0.0 <= r <= 1.0
    ensures 0.0 <= u <= 1.0 ==> r == u
  {
    if u < 0.0 then 0.0 else if u >= 1.0 then 1.0 else u
  }

  /** Which share of a side a way of d along it is, if this is the inverse of its length. */
  function Share(d: real, inv: real): (t: real)
    ensures 0.0 <= t <= 1.0
  {
    Clamp01(d * inv)
  }

  /** On the straight line from a to b, t of the way. */
  function Mix(a: real, b: real, t: real): real {
    a + t * (b - a)
  }

  /** `CNavArea::GetZ`. */
  function GetZ(s: Shape, x: real, y: real): real {
    if s.invDx == 0.0 || s.invDy == 0.0 then s.neZ
    else
      var u, v := Share(x - s.nw.x, s.invDx), Share(y - s.nw.y, s.invDy);
      var northZ, southZ := Mix(s.nw.z, s.neZ, u), Mix(s.swZ, s.se.z, u);
      Mix(northZ, southZ, v)
  }

  /** `CNavArea::GetClosestPointOnArea`. */
  function ClosestPoint(s: Shape, pos: Vector): (p: Vector)
    ensures ShapeOk(s) ==> Beneath(s, p)
  {
    var x, y := Min(Max(pos.x, s.nw.x), s.se.x), Min(Max(pos.y, s.nw.y), s.se.y);
    Vector(x, y, GetZ(s, x, y))
  }

  /** The closest point in the plane: no point above or below the area is closer, and it lies on the surface. */
  lemma ClosestIsClosest(s: Shape, pos: Vector, q: Vector)
    requires ShapeOk(s) && Beneath(s, q)
    ensures var p := ClosestPoint(s, pos);
            && p.z == GetZ(s, p.x, p.y)
            && Square(pos.x - p.x) + Square(pos.y - p.y) <= Square(pos.x - q.x) + Square(pos.y - q.y)
  {
    hide GetZ, Square;
    SquaresGrow(pos.x - ClosestPoint(s, pos).x, pos.x - q.x);
    SquaresGrow(pos.y - ClosestPoint(s, pos).y, pos.y - q.y);
  }

  function Square(d: real): real {
    d * d
  }

  lemma SquaresGrow(a: real, b: real)
    ensures 0.0 <= a <= b || b <= a <= 0.0 ==> Square(a) <= Square(b)
  {
    if 0.0 <= a <= b {
      assert a * a <= a * b <= b * b;
    } else if b <= a <= 0.0 {
      assert -a * -a <= -a * -b <= -b * -b;
    }
  }

  predicate InBox(e: Extent, p: Vector) {
    e.lo.x <= p.x <= e.hi.x && e.lo.y <= p.y <= e.hi.y && e.lo.z <= p.z <= e.hi.z
  }

  /** The extent of an area is the least box with all four corners in it. */
  lemma ExtentIsLeast(s: Shape, box: Extent)
    requires ShapeOk(s)
    ensures (forall p :: InBox(GetExtent(s), p) ==> InBox(box, p)) <==>
              && InBox(box, s.nw) && InBox(box, Vector(s.se.x, s.nw.y, s.neZ))
              && InBox(box, Vector(s.nw.x, s.se.y, s.swZ)) && InBox(box, s.se)
  {
    var e := GetExtent(s);
    if forall p :: InBox(e, p) ==> InBox(box, p) {
      assert InBox(e, s.nw) && InBox(e, Vector(s.se.x, s.nw.y, s.neZ));
      assert InBox(e, Vector(s.nw.x, s.se.y, s.swZ)) && InBox(e, s.se);
    }
  }

  /** Boxes overlap if and only if they have a point in common. */
  lemma OverlapIsCommonPoint(e: Extent, o: Extent)
    requires InBox(e, e.lo) && InBox(o, o.lo)
    ensures Overlaps(e, o) <==> exists p :: InBox(e, p) && InBox(o, p)
  {
    if Overlaps(e, o) {
      assert InBox(e, Vector(Max(e.lo.x, o.lo.x), Max(e.lo.y, o.lo.y), Max(e.lo.z, o.lo.z)));
    }
  }

  // ---------- The height of an area ----------

  /** The stored inverses are those of the sides, which are not empty. */
  ghost predicate HasSides(s: Shape) {
    && s.nw.x < s.se.x && s.nw.y < s.se.y
    && s.invDx * (s.se.x - s.nw.x) == 1.0 && s.invDy * (s.se.y - s.nw.y) == 1.0
  }

  /** At each corner the surface has the height of that corner. */
  lemma CornerHeights(s: Shape)
    requires HasSides(s)
    ensures GetZ(s, s.nw.x, s.nw.y) == s.nw.z && GetZ(s, s.se.x, s.nw.y) == s.neZ
    ensures GetZ(s, s.nw.x, s.se.y) == s.swZ && GetZ(s, s.se.x, s.se.y) == s.se.z
  {
    hide Share;
    SharesOfSides(s, s.nw.x, s.nw.y);
  }

  /** Along each of the two axes the surface is a straight line between the opposite sides. */
  lemma HeightIsAffine(s: Shape, x: real, y: real)
    requires HasSides(s)
    ensures s.nw.x <= x <= s.se.x ==>
              (GetZ(s, x, y) - GetZ(s, s.nw.x, y)) * (s.se.x - s.nw.x)
                == (GetZ(s, s.se.x, y) - GetZ(s, s.nw.x, y)) * (x - s.nw.x)
    ensures s.nw.y <= y <= s.se.y ==>
              (GetZ(s, x, y) - GetZ(s, x, s.nw.y)) * (s.se.y - s.nw.y)
                == (GetZ(s, x, s.se.y) - GetZ(s, x, s.nw.y)) * (y - s.nw.y)
  {
    hide Mix, Share;
    SharesOfSides(s, x, y);
    var u, v := Share(x - s.nw.x, s.invDx), Share(y - s.nw.y, s.invDy);
    MixesSwap(s.nw.z, s.neZ, s.swZ, s.se.z, u, v);
    MixesSwap(s.nw.z, s.neZ, s.swZ, s.se.z, 0.0, v);
    MixesSwap(s.nw.z, s.neZ, s.swZ, s.se.z, 1.0, v);
    if s.nw.x <= x <= s.se.x {
      MixIsAffine(Mix(s.nw.z, s.swZ, v), Mix(s.neZ, s.se.z, v), u, s.se.x - s.nw.x, x - s.nw.x);
    }
    if s.nw.y <= y <= s.se.y {
      MixIsAffine(Mix(s.nw.z, s.neZ, u), Mix(s.swZ, s.se.z, u), v, s.se.y - s.nw.y, y - s.nw.y);
    }
  }

  lemma SharesOfSides(s: Shape, x: real, y: real)
    requires HasSides(s)
    ensures s.invDx != 0.0 && s.invDy != 0.0
    ensures Share(s.nw.x - s.nw.x, s.invDx) == 0.0 && Share(s.se.x - s.nw.x, s.invDx) == 1.0
    ensures Share(s.nw.y - s.nw.y, s.invDy) == 0.0 && Share(s.se.y - s.nw.y, s.invDy) == 1.0
    ensures Share(x - s.nw.x, s.invDx) * (s.se.x - s.nw.x) == Min(Max(x, s.nw.x), s.se.x) - s.nw.x
    ensures Share(y - s.nw.y, s.invDy) * (s.se.y - s.nw.y) == Min(Max(y, s.nw.y), s.se.y) - s.nw.y
    ensures Share(x - s.nw.x, s.invDx) == Share(Min(Max(x, s.nw.x), s.se.x) - s.nw.x, s.invDx)
    ensures Share(y - s.nw.y, s.invDy) == Share(Min(Max(y, s.nw.y), s.se.y) - s.nw.y, s.invDy)
  {
    hide Share;
    ShareOfSide(x - s.nw.x, s.invDx, s.se.x - s.nw.x);
    ShareOfSide(y - s.nw.y, s.invDy, s.se.y - s.nw.y);
    ShareOfSide(0.0, s.invDx, s.se.x - s.nw.x);
    ShareOfSide(0.0, s.invDy, s.se.y - s.nw.y);
    ShareOfSide(s.se.x - s.nw.x, s.invDx, s.se.x - s.nw.x);
    ShareOfSide(s.se.y - s.nw.y, s.invDy, s.se.y - s.nw.y);
  }

  lemma MixesSwap(nw: real, ne: real, sw: real, se: real, u: real, v: real)
    ensures Mix(Mix(nw, ne, u), Mix(sw, se, u), v) == Mix(Mix(nw, sw, v), Mix(ne, se, v), u)
  {
  }

  lemma MixIsAffine(a: real, b: real, t: real, side: real, d: real)
    requires t * side == d
    ensures (Mix(a, b, t) - Mix(a, b, 0.0)) * side == (Mix(a, b, 1.0) - Mix(a, b, 0.0)) * d
  {
    assert (t * (b - a)) * side == (b - a) * (t * side);
  }

  lemma MixIsBetween(a: real, b: real, t: real, lo: real, hi: real)
    requires 0.0 <= t <= 1.0 && lo <= a <= hi && lo <= b <= hi
    ensures lo <= Mix(a, b, t) <= hi
  {
    SignOfProduct(t, if a <= b then b - a else a - b);
    SignOfProduct(1.0 - t, if a <= b then b - a else a - b);
    assert (1.0 - t) * (b - a) == (b - a) - t * (b - a);
  }

  /** The share of a side, times the side, is the clamped way along it. */
  lemma ShareOfSide(d: real, inv: real, side: real)
    requires 0.0 < side && inv * side == 1.0
    ensures inv != 0.0 && Share(d, inv) * side == Min(Max(d, 0.0), side)
    ensures d <= 0.0 ==> Share(d, inv) == 0.0
    ensures side <= d ==> Share(d, inv) == 1.0
  {
    assert 0.0 < inv by {
      if inv <= 0.0 {
        SignOfProduct(-inv, side);
      }
    }
    assert d * inv * side == d * (inv * side);
    if d < 0.0 {
      SignOfProduct(-d, inv);
    } else {
      SignOfProduct(d, inv);
    }
    SignOfProduct(if d <= side then side - d else d - side, inv);
    assert (side - d) * inv == side * inv - d * inv;
    assert (d - side) * inv == d * inv - side * inv;
  }

  lemma SignOfProduct(a: real, b: real)
    requires 0.0 <= a && 0.0 <= b
    ensures 0.0 <= a * b && 0.0 >= -a * b && 0.0 >= a * -b
  {
  }

  /** Outside the area the height is that of the closest point. Everywhere it lies between the heights of the lowest
      and the highest corner. An area without width or depth is as high as one corner throughout. */
  lemma HeightIsClamped(s: Shape, x: real, y: real)
    ensures HasSides(s) ==> GetZ(s, x, y) == GetZ(s, Min(Max(x, s.nw.x), s.se.x), Min(Max(y, s.nw.y), s.se.y))
    ensures GetExtent(s).lo.z <= GetZ(s, x, y) <= GetExtent(s).hi.z
    ensures s.invDx == 0.0 || s.invDy == 0.0 ==> GetZ(s, x, y) == s.neZ
  {
    hide Mix, Share;
    if HasSides(s) {
      SharesOfSides(s, x, y);
    }
    var e, u, v := GetExtent(s), Share(x - s.nw.x, s.invDx), Share(y - s.nw.y, s.invDy);
    MixIsBetween(s.nw.z, s.neZ, u, e.lo.z, e.hi.z);
    MixIsBetween(s.swZ, s.se.z, u, e.lo.z, e.hi.z);
    MixIsBetween(Mix(s.nw.z, s.neZ, u), Mix(s.swZ, s.se.z, u), v, e.lo.z, e.hi.z);
  }

  function DistSq(a: Vector, b: Vector): (d: real)
    ensures 0.0 <= d
  {
    var dx, dy, dz := a.x - b.x, a.y - b.y, a.z - b.z;
    SquareIsPositive(dx);
    SquareIsPositive(dy);
    SquareIsPositive(dz);
    dx * dx + dy * dy + dz * dz
  }

  /** Distances along the axes add up in squares. */
  lemma Pythagoras(a: Vector, b: Vector)
    ensures DistSq(a, b) == DistSq(a, Vector(b.x, a.y, a.z)) + DistSq(a, Vector(a.x, b.y, a.z)) + DistSq(a, Vector(a.x, a.y, b.z))
    ensures DistSq(a, Vector(b.x, a.y, a.z)) == Square(b.x - a.x)
    ensures DistSq(a, Vector(a.x, b.y, a.z)) == Square(b.y - a.y)
    ensures DistSq(a, Vector(a.x, a.y, b.z)) == Square(b.z - a.z)
  {
    OppositeSquare(a.x - b.x);
    OppositeSquare(a.y - b.y);
    OppositeSquare(a.z - b.z);
  }

  lemma OppositeSquare(d: real)
    ensures Square(-d) == d * d
  {
  }

  lemma SquareIsPositive(x: real)
    ensures 0.0 <= x * x
  {
  }

  /** A point closer than r is closer than r along each axis. */
  lemma WithinRadius(a: Vector, b: Vector, r: real)
    requires 0.0 <= r && DistSq(a, b) <= r * r
    ensures -r <= a.x - b.x <= r && -r <= a.y - b.y <= r
  {
    SquareIsPositive(a.x - b.x);
    SquareIsPositive(a.y - b.y);
    SquareIsPositive(a.z - b.z);
    RootBound(a.x - b.x, r);
    RootBound(a.y - b.y, r);
  }

  lemma RootBound(x: real, r: real)
    requires 0.0 <= r
    ensures x * x <= r * r ==> -r <= x <= r
  {
    if r < x {
      assert r * r <= r * x < x * x;
    } else if x < -r {
      assert r * r <= r * -x < -x * -x == x * x;
    }
  }

  // ---------- Cells ----------

  const CELL_SIZE := 300.0

  /** Conversion to a machine integer truncates toward zero. */
  function Trunc(r: real): int {
    if 0.0 <= r then r.Floor else -(-r).Floor
  }

  function Ceil(r: real): (c: int)
    ensures c as real - 1.0 < r <= c as real
  {
    -(-r).Floor
  }

  /** `WorldToGridX` and `WorldToGridY`: every coordinate is clamped into the grid. */
  function ToGrid(w: real, min: real, size: int): (i: int)
    requires 1 <= size
    ensures 0 <= i < size
  {
    var i := Trunc((w - min) / CELL_SIZE);
    if i < 0 then 0 else if i >= size then size - 1 else i
  }

  /** A cell is 300 units long. The first one takes everything before it, and the last one everything after it. */
  lemma CellsAre300Long(w: real, min: real, size: int)
    requires 1 <= size
    ensures var i := ToGrid(w, min, size);
            && (0 < i ==> 300.0 * i as real <= w - min)
            && (i < size - 1 ==> w - min < 300.0 * (i + 1) as real)
  {
  }

  lemma ToGridIsMonotone(u: real, v: real, min: real, size: int)
    requires 1 <= size && u <= v
    ensures ToGrid(u, min, size) <= ToGrid(v, min, size)
  {
    TruncIsMonotone((u - min) / CELL_SIZE, (v - min) / CELL_SIZE, 0);
  }

  lemma TruncIsMonotone(u: real, v: real, k: int)
    ensures u <= v ==> Trunc(u) <= Trunc(v)
    ensures 0 <= k && v <= u + k as real ==> Trunc(v) <= Trunc(u) + k
  {
    assert (u + k as real).Floor == u.Floor + k;
    assert (v - k as real).Floor == v.Floor - k;
  }

  /** Coordinates at most k cells apart land at most k cells apart, clamped or not. */
  lemma ToGridIsLipschitz(u: real, v: real, min: real, size: int, k: int)
    requires 1 <= size && 0 <= k && -(k as real * CELL_SIZE) <= u - v <= k as real * CELL_SIZE
    ensures -k <= ToGrid(u, min, size) - ToGrid(v, min, size) <= k
  {
    TruncIsMonotone((u - min) / CELL_SIZE, (v - min) / CELL_SIZE, k);
    TruncIsMonotone((v - min) / CELL_SIZE, (u - min) / CELL_SIZE, k);
  }

  /** The placement of the grid in the world. */
  datatype Frame = Frame(minX: real, minY: real, sizeX: int, sizeY: int)

  ghost predicate FrameOk(f: Frame) {
    1 <= f.sizeX && 1 <= f.sizeY
  }

  datatype Cell = Cell(x: int, y: int)

  function CellOf(f: Frame, x: real, y: real): (c: Cell)
    requires FrameOk(f)
    ensures InGrid(f, c)
  {
    Cell(ToGrid(x, f.minX, f.sizeX), ToGrid(y, f.minY, f.sizeY))
  }

  predicate InGrid(f: Frame, c: Cell) {
    0 <= c.x < f.sizeX && 0 <= c.y < f.sizeY
  }

  /** The area is registered in this cell. */
  predicate Covers(f: Frame, s: Shape, c: Cell)
    requires FrameOk(f)
  {
    var lo, hi := CellOf(f, s.nw.x, s.nw.y), CellOf(f, s.se.x, s.se.y);
    lo.x <= c.x <= hi.x && lo.y <= c.y <= hi.y
  }

  /** An area is registered in the cell of every point beneath or above it. */
  lemma CoversItsPoints(f: Frame, s: Shape, x: real, y: real)
    requires FrameOk(f) && s.nw.x <= x <= s.se.x && s.nw.y <= y <= s.se.y
    ensures Covers(f, s, CellOf(f, x, y))
  {
    ToGridIsMonotone(s.nw.x, x, f.minX, f.sizeX);
    ToGridIsMonotone(x, s.se.x, f.minX, f.sizeX);
    ToGridIsMonotone(s.nw.y, y, f.minY, f.sizeY);
    ToGridIsMonotone(y, s.se.y, f.minY, f.sizeY);
  }

  /** The cells that a query rectangle spans meet the cells of every area that the rectangle overlaps. */
  lemma OverlapMeets(f: Frame, s: Shape, e: Extent)
    requires FrameOk(f) && ShapeOk(s) && Overlaps(e, GetExtent(s))
    requires var lo, hi := CellOf(f, e.lo.x, e.lo.y), CellOf(f, e.hi.x, e.hi.y); lo.x <= hi.x && lo.y <= hi.y
    ensures var lo, hi := CellOf(f, e.lo.x, e.lo.y), CellOf(f, e.hi.x, e.hi.y);
            exists c :: Covers(f, s, c) && lo.x <= c.x <= hi.x && lo.y <= c.y <= hi.y
  {
    ToGridIsMonotone(s.nw.x, e.hi.x, f.minX, f.sizeX);
    ToGridIsMonotone(e.lo.x, s.se.x, f.minX, f.sizeX);
    ToGridIsMonotone(s.nw.y, e.hi.y, f.minY, f.sizeY);
    ToGridIsMonotone(e.lo.y, s.se.y, f.minY, f.sizeY);
    CoversItsPoints(f, s, s.nw.x, s.nw.y);
    CoversItsPoints(f, s, s.se.x, s.se.y);
    var lo, nw := CellOf(f, e.lo.x, e.lo.y), CellOf(f, s.nw.x, s.nw.y);
    assert Covers(f, s, Cell(if lo.x < nw.x then nw.x else lo.x, if lo.y < nw.y then nw.y else lo.y));
  }
}
