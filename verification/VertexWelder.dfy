/** The grid-accelerated vertex welder behind computeWeld. */
module VertexWelder {
  import opened Vectors
  import opened Squares

  const GRID_RES: int := 32
  const FUZZY_EPSILON: real := 0.00001

  datatype Cell = Cell(x: int, y: int, z: int)

  /** The frame that maps the model into the unit cube, and the welding radius. */
  datatype Frame = Frame(offset: Vector3, scale: Vector3, radius: real)

  ghost predicate FrameOk(f: Frame) {
    f.scale.x > 0.0 && f.scale.y > 0.0 && f.scale.z > 0.0
  }

  // ---------- grid coordinates ----------

  function Clamp(i: int, lo: int, hi: int): int {
    if i < lo then lo else if i > hi then hi else i
  }

  function Axis(t: real): int {
    Clamp((t * 32.0).Floor, 0, GRID_RES - 1)
  }

  /** The unit interval has 32 cells, of which the first and the last take what lies beyond. */
  lemma AxisExactly(t: real, c: int)
    ensures Axis(t) == c
            <==> 0 <= c <= 31 && (c == 0 || c as real / 32.0 <= t) && (c == 31 || t < (c + 1) as real / 32.0)
  {
  }

  /** An ordinate in the frame's coordinates. */
  function Scaled(x: real, offset: real, scale: real): real {
    (x - offset) * scale
  }

  function ToGridCoords(f: Frame, v: Vector3): Cell {
    Cell(Axis(Scaled(v.x, f.offset.x, f.scale.x)),
         Axis(Scaled(v.y, f.offset.y, f.scale.y)),
         Axis(Scaled(v.z, f.offset.z, f.scale.z)))
  }

  function Displaced(v: Vector3, dx: int, dy: int, dz: int, radius: real): Vector3 {
    Add(v, Scale(Vector3(dx as real, dy as real, dz as real), radius))
  }

  /** The cell of one of the 27 points at distance 0 or radius along each axis. */
  ghost predicate IsNeighbor(f: Frame, v: Vector3, c: Cell) {
    exists dx, dy, dz :: -1 <= dx <= 1 && -1 <= dy <= 1 && -1 <= dz <= 1
      && c == ToGridCoords(f, Displaced(v, dx, dy, dz, f.radius))
  }

  function SquaredDistance(a: Vector3, b: Vector3): real {
    Square(a.x - b.x) + Square(a.y - b.y) + Square(a.z - b.z)
  }

  ghost predicate Within(a: Vector3, b: Vector3, radius: real) {
    SquaredDistance(a, b) <= Square(radius)
  }

  // ---------- the list of a cell ----------

  /** Indices among the first k new vertices that are listed in cell c, in ascending order. */
  ghost function Near(f: Frame, vertices: seq<Vector3>, c: Cell, k: nat): (list: seq<nat>)
    requires k <= |vertices|
    ensures forall i :: 0 <= i < |list| ==> list[i] < k
    ensures forall i, j :: 0 <= i < j < |list| ==> list[i] < list[j]
    ensures forall n :: n in list <==> 0 <= n < k && IsNeighbor(f, vertices[n], c)
  {
    if k == 0 then [] else
      Near(f, vertices, c, k - 1) + if IsNeighbor(f, vertices[k - 1], c) then [k - 1] else []
  }

  /** The nearest of some new vertices: the one with the lowest index when several are equally near. */
  ghost predicate IsNearest(vertices: seq<Vector3>, s: seq<nat>, v: Vector3, n: nat)
    requires forall i :: i in s ==> i < |vertices|
  {
    && n in s
    && forall i :: i in s ==>
         SquaredDistance(vertices[n], v) < SquaredDistance(vertices[i], v) ||
         (SquaredDistance(vertices[n], v) == SquaredDistance(vertices[i], v) && n <= i)
  }

  /** The nearest of all new vertices, found without a grid. */
  ghost predicate IsNearestOfAll(vertices: seq<Vector3>, v: Vector3, n: nat) {
    && n < |vertices|
    && forall i :: 0 <= i < |vertices| ==>
         SquaredDistance(vertices[n], v) < SquaredDistance(vertices[i], v) ||
         (SquaredDistance(vertices[n], v) == SquaredDistance(vertices[i], v) && n <= i)
  }

  /** The radius spans at most one grid cell along each axis. */
  ghost predicate RadiusFits(f: Frame) {
    && FrameOk(f)
    && Abs(f.radius) * f.scale.x * 32.0 <= 1.0
    && Abs(f.radius) * f.scale.y * 32.0 <= 1.0
    && Abs(f.radius) * f.scale.z * 32.0 <= 1.0
  }

  // ---------- a vertex within the radius is listed in the cell of the query ----------

  lemma WithinAxes(a: Vector3, b: Vector3, r: real)
    requires Within(a, b, r)
    ensures -Abs(r) <= a.x - b.x <= Abs(r) && -Abs(r) <= a.y - b.y <= Abs(r) && -Abs(r) <= a.z - b.z <= Abs(r)
  {
    hide Square;
    SquareSign(a.x - b.x);
    SquareSign(a.y - b.y);
    SquareSign(a.z - b.z);
    SquareBound(a.x - b.x, r);
    SquareBound(a.y - b.y, r);
    SquareBound(a.z - b.z, r);
  }

  lemma ScaledOrder(a: real, b: real, offset: real, scale: real)
    requires a <= b && scale > 0.0
    ensures Scaled(a, offset, scale) <= Scaled(b, offset, scale)
  {
    var d := b - a;
    assert d * scale >= 0.0;
  }

  lemma ScaledBetween(low: real, q: real, high: real, offset: real, scale: real)
    requires low <= q <= high && scale > 0.0 && (high - low) * scale * 32.0 <= 1.0
    ensures Axis(Scaled(q, offset, scale)) == Axis(Scaled(low, offset, scale)) ||
            Axis(Scaled(q, offset, scale)) == Axis(Scaled(high, offset, scale))
  {
    ScaledOrder(low, q, offset, scale);
    ScaledOrder(q, high, offset, scale);
    hide *;
  }

  /** Along one axis: the query's cell is that of the vertex or of one of its two displacements. */
  lemma AxisNeighbor(x: real, q: real, offset: real, scale: real, r: real) returns (d: int, p: real)
    requires scale > 0.0 && Abs(r) * scale * 32.0 <= 1.0 && -Abs(r) <= q - x <= Abs(r)
    ensures -1 <= d <= 1 && p == x + (d as real) * r
    ensures Axis(Scaled(q, offset, scale)) == Axis(Scaled(p, offset, scale))
  {
    hide Axis;
    hide Scaled;
    var a := Abs(r);
    var far := if q < x then x - a else x + a;
    if q < x {
      assert (x - far) * scale == a * scale;
      ScaledBetween(far, q, x, offset, scale);
    } else {
      assert (far - x) * scale == a * scale;
      ScaledBetween(x, q, far, offset, scale);
    }
    if Axis(Scaled(q, offset, scale)) == Axis(Scaled(x, offset, scale)) {
      d, p := 0, x;
      assert (0 as real) * r == 0.0;
    } else {
      d, p := if (q < x) == (r < 0.0) then 1 else -1, far;
      assert (d as real) * r == if q < x then -a else a;
    }
  }

  /** Whatever lies within the radius of the query is listed in the query's cell. */
  lemma WithinIsNeighbor(f: Frame, v: Vector3, q: Vector3)
    requires RadiusFits(f) && Within(v, q, f.radius)
    ensures IsNeighbor(f, v, ToGridCoords(f, q))
  {
    hide Axis;
    hide Scaled;
    WithinAxes(v, q, f.radius);
    hide Within;
    hide SquaredDistance;
    var dx, px := AxisNeighbor(v.x, q.x, f.offset.x, f.scale.x, f.radius);
    var dy, py := AxisNeighbor(v.y, q.y, f.offset.y, f.scale.y, f.radius);
    var dz, pz := AxisNeighbor(v.z, q.z, f.offset.z, f.scale.z, f.radius);
    assert Vector3(px, py, pz) == Displaced(v, dx, dy, dz, f.radius);
    hide Displaced;
    assert ToGridCoords(f, q) == ToGridCoords(f, Vector3(px, py, pz));
  }

  /** A vertex is always listed in its own cell. */
  lemma OwnCell(f: Frame, v: Vector3)
    ensures IsNeighbor(f, v, ToGridCoords(f, v))
  {
    assert Displaced(v, 0, 0, 0, f.radius) == v;
  }

  // ---------- the grid ----------

  type Grid = map<Cell, seq<nat>>

  /** A cell nothing was stored in has an empty list. */
  function Lookup(grid: Grid, c: Cell): seq<nat> {
    if c in grid then grid[c] else []
  }

  /** The grid lists every new vertex in the cells around it, and nowhere else. */
  ghost predicate GridOk(f: Frame, vertices: seq<Vector3>, grid: Grid) {
    forall c :: Lookup(grid, c) == Near(f, vertices, c, |vertices|)
  }

  lemma {:induction false} NearPrefix(f: Frame, vertices: seq<Vector3>, v: Vector3, c: Cell, k: nat)
    requires k <= |vertices|
    ensures Near(f, vertices + [v], c, k) == Near(f, vertices, c, k)
  {
    if k > 0 {
      NearPrefix(f, vertices, v, c, k - 1);
    }
  }

  /** The cells in which a new vertex is to be listed. */
  method CellsAround(f: Frame, v: Vector3) returns (cells: set<Cell>)
    ensures forall c :: c in cells <==> IsNeighbor(f, v, c)
  {
    hide ToGridCoords;
    hide Displaced;
    cells := {};
    for dx := -1 to 2
      invariant forall c :: c in cells <==> IsNeighborBefore(f, v, c, dx, -1, -1)
    {
      for dy := -1 to 2
        invariant forall c :: c in cells <==> IsNeighborBefore(f, v, c, dx, dy, -1)
      {
        for dz := -1 to 2
          invariant forall c :: c in cells <==> IsNeighborBefore(f, v, c, dx, dy, dz)
        {
          cells := cells + {ToGridCoords(f, Displaced(v, dx, dy, dz, f.radius))};
        }
        NextRow(f, v, dx, dy);
      }
    }
  }

  /** The cell of a displacement that comes before (dx, dy, dz) in the order of the loops. */
  ghost predicate IsNeighborBefore(f: Frame, v: Vector3, c: Cell, dx: int, dy: int, dz: int) {
    exists a, b, e :: -1 <= a <= 1 && -1 <= b <= 1 && -1 <= e <= 1 && Before(a, b, e, dx, dy, dz)
      && c == ToGridCoords(f, Displaced(v, a, b, e, f.radius))
  }

  ghost predicate Before(a: int, b: int, e: int, dx: int, dy: int, dz: int) {
    a < dx || (a == dx && (b < dy || (b == dy && e < dz)))
  }

  lemma NextRow(f: Frame, v: Vector3, dx: int, dy: int)
    ensures forall c :: IsNeighborBefore(f, v, c, dx, dy, 2) <==> IsNeighborBefore(f, v, c, dx, dy + 1, -1)
  {
    hide ToGridCoords;
    hide Displaced;
  }

  lemma ListReplaced(grid: Grid, c: Cell, list: seq<nat>)
    ensures forall d :: Lookup(grid[c := list], d) == if d == c then list else Lookup(grid, d)
  {
  }

  /** Appends the index n to the lists of all cells around v. */
  method AddToGrid(f: Frame, grid0: Grid, vertices: seq<Vector3>, v: Vector3) returns (grid: Grid)
    requires GridOk(f, vertices, grid0)
    ensures GridOk(f, vertices + [v], grid)
  {
    hide Near;
    hide IsNeighbor;
    hide Lookup;
    var n := |vertices|;
    var neighbors := CellsAround(f, v);
    var left := neighbors;
    grid := grid0;
    while left != {}
      invariant left <= neighbors
      invariant forall c :: Lookup(grid, c) == Lookup(grid0, c) + if c in neighbors && c !in left then [n] else []
      decreases |left|
    {
      var c :| c in left;
      ListReplaced(grid, c, Lookup(grid, c) + [n]);
      grid := grid[c := Lookup(grid, c) + [n]];
      left := left - {c};
    }
    forall c ensures Lookup(grid, c) == Near(f, vertices + [v], c, n + 1) {
      NearLast(f, vertices, v, c);
    }
  }

  lemma NearLast(f: Frame, vertices: seq<Vector3>, v: Vector3, c: Cell)
    ensures Near(f, vertices + [v], c, |vertices| + 1) ==
      Near(f, vertices, c, |vertices|) + if IsNeighbor(f, v, c) then [|vertices|] else []
  {
    NearPrefix(f, vertices, v, c, |vertices|);
  }

  /** Scans an ascending list for the nearest vertex; found is false when the list is empty. */
  method Closest(vertices: seq<Vector3>, list: seq<nat>, v: Vector3)
    returns (found: bool, closestIndex: nat, distanceSquared: real)
    requires forall i :: 0 <= i < |list| ==> list[i] < |vertices|
    requires forall i, j :: 0 <= i < j < |list| ==> list[i] < list[j]
    ensures found <==> list != []
    ensures found ==> closestIndex < |vertices| && distanceSquared == SquaredDistance(vertices[closestIndex], v)
    ensures found ==> IsNearest(vertices, list, v, closestIndex)
  {
    hide SquaredDistance;
    found, closestIndex, distanceSquared := false, 0, 0.0;
    for i := 0 to |list|
      invariant found <==> i > 0
      invariant found ==>
                  closestIndex in list[..i] && closestIndex < |vertices|
                  && distanceSquared == SquaredDistance(vertices[closestIndex], v)
      invariant found ==> forall k :: 0 <= k < i ==>
        distanceSquared < SquaredDistance(vertices[list[k]], v)
        || (distanceSquared == SquaredDistance(vertices[list[k]], v) && closestIndex <= list[k])
    {
      var d := SquaredDistance(vertices[list[i]], v);
      assert list[..i + 1] == list[..i] + [list[i]];
      if !found || d < distanceSquared {
        assert found ==> forall k :: 0 <= k < i ==> d < SquaredDistance(vertices[list[k]], v);
        found, distanceSquared, closestIndex := true, d, list[i];
      } else {
        var c :| 0 <= c < i && list[..i][c] == closestIndex;
        assert list[c] < list[i];
      }
    }
    assert list[..|list|] == list;
  }

  /** Some vertex listed in the query's cell lies within the radius. */
  ghost predicate HasNear(f: Frame, vertices: seq<Vector3>, v: Vector3) {
    exists n :: n in Near(f, vertices, ToGridCoords(f, v), |vertices|) && Within(vertices[n], v, f.radius)
  }

  /** What getIndex answers: the nearest listed vertex if it lies within the radius, else a new one. */
  ghost predicate IsIndex(f: Frame, vertices: seq<Vector3>, v: Vector3, vertices': seq<Vector3>, index: nat) {
    if HasNear(f, vertices, v)
    then vertices' == vertices && IsNearest(vertices, Near(f, vertices, ToGridCoords(f, v), |vertices|), v, index) &&
         index < |vertices| && Within(vertices[index], v, f.radius)
    else vertices' == vertices + [v] && index == |vertices|
  }

  lemma NearestDecides(f: Frame, vertices: seq<Vector3>, v: Vector3, n: nat)
    requires IsNearest(vertices, Near(f, vertices, ToGridCoords(f, v), |vertices|), v, n)
    ensures n < |vertices| && (HasNear(f, vertices, v) <==> Within(vertices[n], v, f.radius))
  {
  }

  lemma EmptyListHasNothing(f: Frame, vertices: seq<Vector3>, v: Vector3)
    requires Near(f, vertices, ToGridCoords(f, v), |vertices|) == []
    ensures !HasNear(f, vertices, v)
  {
  }

  // ---------- against brute force ----------

  /** With a radius of at most a cell, the answer is the nearest of all new vertices, if within the radius. */
  lemma IndexIsBruteForce(f: Frame, vertices: seq<Vector3>, v: Vector3, vertices': seq<Vector3>, index: nat, best: nat)
    requires RadiusFits(f) && IsIndex(f, vertices, v, vertices', index)
    requires IsNearestOfAll(vertices, v, best)
    ensures Within(vertices[best], v, f.radius) ==> vertices' == vertices && index == best
    ensures !Within(vertices[best], v, f.radius) ==> vertices' == vertices + [v] && index == |vertices|
  {
    if Within(vertices[best], v, f.radius) {
      WithinIsNeighbor(f, vertices[best], v);
      assert best in Near(f, vertices, ToGridCoords(f, v), |vertices|);
    } else {
      assert forall n :: 0 <= n < |vertices| ==> !Within(vertices[n], v, f.radius);
    }
  }

  /** The new vertices are pairwise farther apart than the radius. */
  ghost predicate Separated(f: Frame, vertices: seq<Vector3>) {
    forall i, j :: 0 <= i < j < |vertices| ==> !Within(vertices[i], vertices[j], f.radius)
  }

  lemma IndexKeepsSeparated(f: Frame, vertices: seq<Vector3>, v: Vector3, vertices': seq<Vector3>, index: nat)
    requires RadiusFits(f) && Separated(f, vertices) && IsIndex(f, vertices, v, vertices', index)
    ensures Separated(f, vertices')
  {
    if !HasNear(f, vertices, v) {
      forall i | 0 <= i < |vertices| ensures !Within(vertices[i], v, f.radius) {
        if Within(vertices[i], v, f.radius) {
          WithinIsNeighbor(f, vertices[i], v);
        }
      }
    }
  }

  // ---------- what two passes achieve ----------

  /** The query finds a vertex now and, since lists only grow, ever after. */
  lemma HasNearStays(f: Frame, vertices: seq<Vector3>, q: Vector3, v: Vector3, vertices': seq<Vector3>, index: nat)
    requires HasNear(f, vertices, q) && IsIndex(f, vertices, v, vertices', index)
    ensures HasNear(f, vertices', q)
  {
    if vertices' != vertices {
      var c := ToGridCoords(f, q);
      var n :| n in Near(f, vertices, c, |vertices|) && Within(vertices[n], q, f.radius);
      NearLast(f, vertices, v, c);
      assert n in Near(f, vertices', c, |vertices'|) && Within(vertices'[n], q, f.radius);
    }
  }

  lemma IndexedHasNear(f: Frame, vertices: seq<Vector3>, v: Vector3, vertices': seq<Vector3>, index: nat)
    requires IsIndex(f, vertices, v, vertices', index)
    ensures HasNear(f, vertices', v)
  {
    if !HasNear(f, vertices, v) {
      ListedInOwnCell(f, vertices', |vertices|);
    }
  }

  lemma ListedInOwnCell(f: Frame, vertices: seq<Vector3>, k: nat)
    requires k < |vertices|
    ensures k in Near(f, vertices, ToGridCoords(f, vertices[k]), |vertices|)
    ensures Within(vertices[k], vertices[k], f.radius) && HasNear(f, vertices, vertices[k])
  {
    OwnCell(f, vertices[k]);
  }

  lemma ZeroDistance(a: Vector3, b: Vector3)
    requires SquaredDistance(a, b) <= 0.0
    ensures a == b
  {
    hide Square;
    SquareSign(a.x - b.x);
    SquareSign(a.y - b.y);
    SquareSign(a.z - b.z);
  }

  ghost predicate NoTwins(vertices: seq<Vector3>) {
    forall i, j :: 0 <= i < j < |vertices| ==> vertices[i] != vertices[j]
  }

  lemma IndexKeepsNoTwins(f: Frame, vertices: seq<Vector3>, v: Vector3, vertices': seq<Vector3>, index: nat)
    requires NoTwins(vertices) && IsIndex(f, vertices, v, vertices', index)
    ensures NoTwins(vertices')
  {
    if !HasNear(f, vertices, v) {
      forall i | 0 <= i < |vertices| ensures vertices[i] != v {
        if vertices[i] == v {
          ListedInOwnCell(f, vertices, i);
        }
      }
    }
  }

  /** Asking for the place of a new vertex yields that vertex. */
  lemma OwnIndex(f: Frame, vertices: seq<Vector3>, k: nat, vertices': seq<Vector3>, index: nat)
    requires NoTwins(vertices) && k < |vertices| && IsIndex(f, vertices, vertices[k], vertices', index)
    ensures vertices' == vertices && index == k
  {
    ListedInOwnCell(f, vertices, k);
    hide *;
    ZeroDistance(vertices[index], vertices[k]);
  }

  /** The new vertices after k old ones have been looked up in turn. */
  ghost function Primed(f: Frame, old_: seq<Vector3>, k: nat): seq<Vector3>
    requires k <= |old_|
  {
    if k == 0 then []
    else
      var vertices := Primed(f, old_, k - 1);
      if HasNear(f, vertices, old_[k - 1]) then vertices else vertices + [old_[k - 1]]
  }

  lemma PrimedStep(f: Frame, old_: seq<Vector3>, k: nat, vertices': seq<Vector3>, index: nat)
    requires k < |old_| && IsIndex(f, Primed(f, old_, k), old_[k], vertices', index)
    ensures vertices' == Primed(f, old_, k + 1)
  {
    hide HasNear;
    hide IsNearest;
    hide Near;
    hide Within;
  }

  /** Each new vertex is one of the first n old ones. */
  ghost predicate FromOld(old_: seq<Vector3>, vertices: seq<Vector3>, n: nat)
    requires n <= |old_|
  {
    forall k :: 0 <= k < |vertices| ==> vertices[k] in old_[..n]
  }

  /** A frame whose unit cube holds the given points. */
  ghost predicate Fits(f: Frame, points: seq<Vector3>) {
    && FrameOk(f)
    && forall i :: 0 <= i < |points| ==> InUnitCube(f, points[i])
  }

  ghost predicate InUnitCube(f: Frame, v: Vector3) {
    && 0.0 <= Scaled(v.x, f.offset.x, f.scale.x) <= 1.0
    && 0.0 <= Scaled(v.y, f.offset.y, f.scale.y) <= 1.0
    && 0.0 <= Scaled(v.z, f.offset.z, f.scale.z) <= 1.0
  }

  function Min(a: real, b: real): real {
    if a < b then a else b
  }

  function Max(a: real, b: real): real {
    if a < b then b else a
  }

  function FuzzyEqZero(a: real): bool {
    a == 0.0 || Abs(a) <= FUZZY_EPSILON * (Abs(a) + 1.0)
  }

  function AxisScale(extent: real): real {
    if FuzzyEqZero(extent) then 1.0 else 1.0 / extent
  }

  /** An extent of about 0.00001 or less, whether positive or negative, counts as none. */
  lemma AxisScaleIs(extent: real)
    ensures AxisScale(extent) == if -1.0 <= 99_999.0 * extent <= 1.0 then 1.0 else 1.0 / extent
  {
  }

  lemma AxisInRange(x: real, lo: real, hi: real)
    requires lo <= x <= hi
    ensures AxisScale(hi - lo) > 0.0 && 0.0 <= Scaled(x, lo, AxisScale(hi - lo)) <= 1.0
  {
    var extent := hi - lo;
    if FuzzyEqZero(extent) {
      assert extent <= 1.0;
      assert Scaled(x, lo, 1.0) == x - lo;
    } else {
      UnitFraction(x - lo, extent);
    }
  }

  lemma UnitFraction(part: real, whole: real)
    requires 0.0 <= part <= whole && whole > 0.0
    ensures 1.0 / whole > 0.0 && 0.0 <= part * (1.0 / whole) <= 1.0
  {
    var s := 1.0 / whole;
    assert whole * s == 1.0;
    assert (whole - part) * s >= 0.0;
  }

  /** The least and the greatest ordinates of some points along each axis; zero without points. */
  ghost predicate BoxOf(points: seq<Vector3>, low: Vector3, high: Vector3) {
    if points == [] then low == high == Vector3(0.0, 0.0, 0.0)
    else
      && (forall k :: 0 <= k < |points| ==> low.x <= points[k].x <= high.x)
      && (forall k :: 0 <= k < |points| ==> low.y <= points[k].y <= high.y)
      && (forall k :: 0 <= k < |points| ==> low.z <= points[k].z <= high.z)
      && (exists k :: 0 <= k < |points| && points[k].x == low.x)
      && (exists k :: 0 <= k < |points| && points[k].y == low.y)
      && (exists k :: 0 <= k < |points| && points[k].z == low.z)
      && (exists k :: 0 <= k < |points| && points[k].x == high.x)
      && (exists k :: 0 <= k < |points| && points[k].y == high.y)
      && (exists k :: 0 <= k < |points| && points[k].z == high.z)
  }

  lemma BoxIsDetermined(points: seq<Vector3>, low: Vector3, high: Vector3, low': Vector3, high': Vector3)
    requires BoxOf(points, low, high) && BoxOf(points, low', high')
    ensures low == low' && high == high'
  {
  }

  lemma NextInBox(points: seq<Vector3>, v: Vector3, low: Vector3, high: Vector3)
    requires points != [] && BoxOf(points, low, high)
    ensures BoxOf(points + [v], Vector3(Min(low.x, v.x), Min(low.y, v.y), Min(low.z, v.z)),
                  Vector3(Max(high.x, v.x), Max(high.y, v.y), Max(high.z, v.z)))
  {
    var all, n := points + [v], |points|;
    assert forall k :: 0 <= k < n ==> all[k] == points[k];
    assert all[n] == v;
    var a :| 0 <= a < n && points[a].x == low.x;
    var b :| 0 <= b < n && points[b].y == low.y;
    var c :| 0 <= c < n && points[c].z == low.z;
    var d :| 0 <= d < n && points[d].x == high.x;
    var e :| 0 <= e < n && points[e].y == high.y;
    var g :| 0 <= g < n && points[g].z == high.z;
    assert all[a].x == low.x && all[b].y == low.y && all[c].z == low.z;
    assert all[d].x == high.x && all[e].y == high.y && all[g].z == high.z;
  }

  lemma NoPointBox()
    ensures BoxOf([], Vector3(0.0, 0.0, 0.0), Vector3(0.0, 0.0, 0.0))
  {
  }

  lemma OnePointOnly(v: Vector3, low: Vector3, high: Vector3)
    requires BoxOf([v], low, high)
    ensures low == v && high == v
  {
    OnePointBox(v);
    BoxIsDetermined([v], low, high, v, v);
  }

  lemma SamePoint(v: Vector3)
    ensures Vector3(Min(v.x, v.x), Min(v.y, v.y), Min(v.z, v.z)) == v
    ensures Vector3(Max(v.x, v.x), Max(v.y, v.y), Max(v.z, v.z)) == v
  {
  }

  lemma OnePointBox(v: Vector3)
    ensures BoxOf([v], v, v)
  {
    assert [v][0] == v;
  }

  lemma InBox(points: seq<Vector3>, k: nat, low: Vector3, high: Vector3)
    requires BoxOf(points, low, high) && k < |points|
    ensures low.x <= points[k].x <= high.x && low.y <= points[k].y <= high.y && low.z <= points[k].z <= high.z
  {
  }

  /** The frame that maps a box into the unit cube; an axis without extent keeps its scale. */
  function FrameOf(low: Vector3, high: Vector3, radius: real): Frame {
    Frame(low, Vector3(AxisScale(high.x - low.x), AxisScale(high.y - low.y), AxisScale(high.z - low.z)), radius)
  }

  /** The frame of the box around some points. */
  ghost predicate FramesBox(points: seq<Vector3>, radius: real, f: Frame) {
    exists low, high :: BoxOf(points, low, high) && f == FrameOf(low, high, radius)
  }

  /** Every old vertex has been looked up among the new vertices of the first pass. */
  ghost predicate WeldsIn(f: Frame, old_: seq<Vector3>, toNew: seq<int>) {
    var vertices := Primed(f, old_, |old_|);
    && |toNew| == |old_|
    && forall i :: 0 <= i < |old_| ==>
         0 <= toNew[i] < |vertices| && IsIndex(f, vertices, old_[i], vertices, toNew[i])
  }

  /** What the welder makes of the vertices. */
  ghost predicate IsWeldingOf(old_: seq<Vector3>, radius: real, toNew: seq<int>) {
    exists f :: FramesBox(old_, radius, f) && WeldsIn(f, old_, toNew)
  }

  lemma WeldingFound(f: Frame, old_: seq<Vector3>, radius: real, toNew: seq<int>)
    requires FramesBox(old_, radius, f) && WeldsIn(f, old_, toNew)
    ensures IsWeldingOf(old_, radius, toNew)
  {
  }

  /** There is only one answer, and vertices at the same place get the same. */
  lemma WeldingIsDetermined(old_: seq<Vector3>, radius: real, toNew: seq<int>, other: seq<int>)
    requires IsWeldingOf(old_, radius, toNew) && IsWeldingOf(old_, radius, other)
    ensures toNew == other
    ensures forall i, j :: 0 <= i < |old_| && 0 <= j < |old_| && old_[i] == old_[j] ==> toNew[i] == toNew[j]
  {
    hide BoxOf;
    hide FrameOf;
    hide Primed;
    hide IsIndex;
    var f :| FramesBox(old_, radius, f) && WeldsIn(f, old_, toNew);
    var g :| FramesBox(old_, radius, g) && WeldsIn(g, old_, other);
    SameFrame(old_, radius, f, g);
    var vertices := Primed(f, old_, |old_|);
    forall i, j | 0 <= i < |old_| && 0 <= j < |old_| && old_[i] == old_[j]
      ensures toNew[i] == toNew[j] == other[j]
    {
      SameAnswer(f, vertices, old_[i], toNew[i], toNew[j]);
      SameAnswer(f, vertices, old_[i], toNew[i], other[j]);
    }
  }

  lemma SameFrame(points: seq<Vector3>, radius: real, f: Frame, g: Frame)
    requires FramesBox(points, radius, f) && FramesBox(points, radius, g)
    ensures f == g
  {
    hide BoxOf;
    hide FrameOf;
    var low, high :| BoxOf(points, low, high) && f == FrameOf(low, high, radius);
    var low', high' :| BoxOf(points, low', high') && g == FrameOf(low', high', radius);
    BoxIsDetermined(points, low, high, low', high');
  }

  lemma SameAnswer(f: Frame, vertices: seq<Vector3>, v: Vector3, m: nat, n: nat)
    requires IsIndex(f, vertices, v, vertices, m) && IsIndex(f, vertices, v, vertices, n)
    ensures m == n
  {
    hide Near;
    hide HasNear;
    hide Within;
    hide SquaredDistance;
  }

  lemma PointFits(low: Vector3, high: Vector3, radius: real, v: Vector3)
    requires low.x <= v.x <= high.x && low.y <= v.y <= high.y && low.z <= v.z <= high.z
    ensures FrameOk(FrameOf(low, high, radius)) && InUnitCube(FrameOf(low, high, radius), v)
  {
    AxisInRange(v.x, low.x, high.x);
    AxisInRange(v.y, low.y, high.y);
    AxisInRange(v.z, low.z, high.z);
    hide AxisScale;
    hide Scaled;
  }

  lemma BoxFits(points: seq<Vector3>, low: Vector3, high: Vector3, radius: real)
    requires BoxOf(points, low, high)
    ensures Fits(FrameOf(low, high, radius), points)
  {
    hide FrameOf;
    hide FrameOk;
    hide InUnitCube;
    hide BoxOf;
    forall k | 0 <= k < |points|
      ensures InUnitCube(FrameOf(low, high, radius), points[k])
    {
      InBox(points, k, low, high);
      PointFits(low, high, radius, points[k]);
    }
    BoxInOrder(points, low, high);
    PointFits(low, high, radius, low);
  }

  lemma BoxInOrder(points: seq<Vector3>, low: Vector3, high: Vector3)
    requires BoxOf(points, low, high)
    ensures low.x <= high.x && low.y <= high.y && low.z <= high.z
  {
    if points != [] {
      InBox(points, 0, low, high);
    }
  }

  class Welder {
    const oldVertexArray: seq<Vector3>
    const frame: Frame
    var grid: Grid
    var newVertexArray: seq<Vector3>
    var toNew: seq<int>
    var toOld: seq<int>

    ghost predicate Valid()
      reads this
    {
      GridOk(frame, newVertexArray, grid)
    }

    /** Computes the frame in which every ordinate lies in [0, 1]. */
    constructor (oldVertices: seq<Vector3>, radius: real)
      ensures oldVertexArray == oldVertices
      ensures FramesBox(oldVertices, radius, frame)
      ensures Fits(frame, oldVertices) && frame.radius == radius
      ensures Valid() && newVertexArray == []
    {
      hide BoxOf;
      hide Fits;
      var minBound, maxBound := Vector3(0.0, 0.0, 0.0), Vector3(0.0, 0.0, 0.0);
      NoPointBox();
      if oldVertices != [] {
        minBound, maxBound := oldVertices[0], oldVertices[0];
        OnePointBox(oldVertices[0]);
      }
      assert oldVertices[..0] == [] && (oldVertices != [] ==> oldVertices[..1] == [oldVertices[0]]);
      for i := 0 to |oldVertices|
        invariant BoxOf(if i == 0 && oldVertices != [] then oldVertices[..1] else oldVertices[..i], minBound, maxBound)
      {
        var v := oldVertices[i];
        if i == 0 {
          OnePointOnly(v, minBound, maxBound);
          SamePoint(v);
        } else {
          NextInBox(oldVertices[..i], v, minBound, maxBound);
          assert oldVertices[..i] + [v] == oldVertices[..i + 1];
        }
        minBound := Vector3(Min(minBound.x, v.x), Min(minBound.y, v.y), Min(minBound.z, v.z));
        maxBound := Vector3(Max(maxBound.x, v.x), Max(maxBound.y, v.y), Max(maxBound.z, v.z));
      }
      assert oldVertices[..|oldVertices|] == oldVertices;
      var extent := Sub(maxBound, minBound);
      var f := Frame(minBound, Vector3(AxisScale(extent.x), AxisScale(extent.y), AxisScale(extent.z)), radius);
      BoxFits(oldVertices, minBound, maxBound, radius);
      assert f == FrameOf(minBound, maxBound, radius);
      oldVertexArray, frame := oldVertices, f;
      grid, newVertexArray, toNew, toOld := map[], [], [], [];
    }

    /** Where a vertex is among the new ones, to which it is added if none is near. */
    method GetIndex(vertex: Vector3) returns (index: nat)
      requires Valid()
      modifies this`grid, this`newVertexArray
      ensures Valid()
      ensures IsIndex(frame, old(newVertexArray), vertex, newVertexArray, index)
    {
      hide Near;
      hide HasNear;
      hide SquaredDistance;
      hide Square;
      hide IsNearest;
      var list := Lookup(grid, ToGridCoords(frame, vertex));
      assert list == Near(frame, newVertexArray, ToGridCoords(frame, vertex), |newVertexArray|);
      var found, closestIndex, distanceSquared := Closest(newVertexArray, list, vertex);
      if found {
        NearestDecides(frame, newVertexArray, vertex, closestIndex);
      } else {
        EmptyListHasNothing(frame, newVertexArray, vertex);
      }
      if found && distanceSquared <= Square(frame.radius) {
        index := closestIndex;
      } else {
        // Nothing near
        index := |newVertexArray|;
        grid := AddToGrid(frame, grid, newVertexArray, vertex);
        newVertexArray := newVertexArray + [vertex];
      }
    }

    /** The first pass: the new vertices. */
    method Prime()
      requires Valid() && newVertexArray == []
      modifies this`grid, this`newVertexArray
      ensures Valid() && newVertexArray == Primed(frame, oldVertexArray, |oldVertexArray|)
      ensures NoTwins(newVertexArray)
      ensures FromOld(oldVertexArray, newVertexArray, |oldVertexArray|)
      ensures forall i :: 0 <= i < |oldVertexArray| ==> HasNear(frame, newVertexArray, oldVertexArray[i])
      ensures RadiusFits(frame) ==> Separated(frame, newVertexArray)
    {
      hide HasNear;
      hide IsIndex;
      hide GridOk;
      assert Primed(frame, oldVertexArray, 0) == [];
      hide Primed;
      for i := 0 to |oldVertexArray|
        invariant Valid() && newVertexArray == Primed(frame, oldVertexArray, i) && NoTwins(newVertexArray)
        invariant FromOld(oldVertexArray, newVertexArray, i)
        invariant forall k :: 0 <= k < i ==> HasNear(frame, newVertexArray, oldVertexArray[k])
        invariant RadiusFits(frame) ==> Separated(frame, newVertexArray)
      {
        ghost var before := newVertexArray;
        var index := GetIndex(oldVertexArray[i]);
        PrimedStep(frame, oldVertexArray, i, newVertexArray, index);
        IndexStep(frame, oldVertexArray, before, newVertexArray, i, index);
        forall k | 0 <= k < i ensures HasNear(frame, newVertexArray, oldVertexArray[k]) {
          HasNearStays(frame, before, oldVertexArray[k], oldVertexArray[i], newVertexArray, index);
        }
      }
    }

    /** Primes the new vertices, then snaps every old vertex to the nearest of them. */
    method Weld()
      requires Valid() && newVertexArray == []
      modifies this
      ensures Valid()
      ensures newVertexArray == Primed(frame, oldVertexArray, |oldVertexArray|)
      ensures |toNew| == |oldVertexArray| && |toOld| == |newVertexArray|
      ensures forall oi :: 0 <= oi < |toNew| ==>
                0 <= toNew[oi] < |newVertexArray| && Within(newVertexArray[toNew[oi]], oldVertexArray[oi], frame.radius)
      ensures WeldsIn(frame, oldVertexArray, toNew)
      ensures forall n :: 0 <= n < |toOld| ==> IsLastOf(toNew, toOld[n], n)
      ensures NoTwins(newVertexArray) && FromOld(oldVertexArray, newVertexArray, |oldVertexArray|)
      ensures forall oi :: 0 <= oi < |toNew| && oldVertexArray[oi] in newVertexArray ==>
                newVertexArray[toNew[oi]] == oldVertexArray[oi]
      ensures RadiusFits(frame) ==> Separated(frame, newVertexArray)
      ensures RadiusFits(frame) ==> forall oi :: 0 <= oi < |toNew| ==>
                IsNearestOfAll(newVertexArray, oldVertexArray[oi], toNew[oi])
    {
      hide HasNear;
      hide IsIndex;
      hide GridOk;
      hide LastOnes;
      hide IsLastOf;
      hide NoTwins;
      hide Separated;
      hide Within;
      hide IsNearestOfAll;
      hide Primed;
      newVertexArray := [];
      Prime();
      ghost var vertices := newVertexArray;
      toNew := seq(|oldVertexArray|, _ => 0);
      toOld := seq(|newVertexArray|, _ => 0);
      NoLastOnes(toOld);
      assert toNew[..0] == [];
      for oi := 0 to |oldVertexArray|
        invariant Valid() && newVertexArray == vertices
        invariant |toNew| == |oldVertexArray| && |toOld| == |vertices|
        invariant forall i :: 0 <= i < oi ==> 0 <= toNew[i] < |vertices|
        invariant forall i :: 0 <= i < oi ==> IsIndex(frame, vertices, oldVertexArray[i], vertices, toNew[i])
        invariant LastOnes(toNew[..oi], toOld)
      {
        var index := GetIndex(oldVertexArray[oi]);
        SnapStays(frame, vertices, oldVertexArray[oi], newVertexArray, index);
        ghost var before, beforeOld := toNew[..oi], toOld;
        toNew := toNew[oi := index];
        toOld := toOld[toNew[oi] := oi];
        assert toNew[..oi + 1] == before + [index];
        LastOfStep(before, index, beforeOld, toOld);
      }
      assert toNew[..|toNew|] == toNew;
      SnappedResult(frame, oldVertexArray, vertices, toNew, toOld);
    }
  }

  lemma SnapStays(f: Frame, vertices: seq<Vector3>, v: Vector3, vertices': seq<Vector3>, index: nat)
    requires HasNear(f, vertices, v) && IsIndex(f, vertices, v, vertices', index)
    ensures vertices' == vertices && index < |vertices|
  {
  }

  /** What it means that every old vertex was looked up among the finished new ones. */
  lemma SnappedResult(f: Frame, old_: seq<Vector3>, vertices: seq<Vector3>, toNew: seq<int>, toOld: seq<int>)
    requires NoTwins(vertices) && FromOld(old_, vertices, |old_|) && |toNew| == |old_| && |toOld| == |vertices|
    requires forall i :: 0 <= i < |old_| ==> HasNear(f, vertices, old_[i])
    requires forall i :: 0 <= i < |toNew| ==> 0 <= toNew[i] < |vertices|
    requires forall i :: 0 <= i < |toNew| ==> IsIndex(f, vertices, old_[i], vertices, toNew[i])
    requires LastOnes(toNew, toOld)
    ensures forall oi :: 0 <= oi < |toNew| ==> Within(vertices[toNew[oi]], old_[oi], f.radius)
    ensures forall n :: 0 <= n < |toOld| ==> IsLastOf(toNew, toOld[n], n)
    ensures forall oi :: 0 <= oi < |toNew| && old_[oi] in vertices ==> vertices[toNew[oi]] == old_[oi]
    ensures RadiusFits(f) ==> forall oi :: 0 <= oi < |toNew| ==> IsNearestOfAll(vertices, old_[oi], toNew[oi])
  {
    hide Near;
    hide NoTwins;
    hide IsNearest;
    hide IsNearestOfAll;
    hide SquaredDistance;
    hide RadiusFits;
    hide HasNear;
    assert forall oi :: 0 <= oi < |toNew| ==> Within(vertices[toNew[oi]], old_[oi], f.radius);
    hide IsIndex;
    hide Within;
    forall oi | 0 <= oi < |toNew| && old_[oi] in vertices ensures vertices[toNew[oi]] == old_[oi] {
      var k :| 0 <= k < |vertices| && vertices[k] == old_[oi];
      OwnIndex(f, vertices, k, vertices, toNew[oi]);
    }
    forall n | 0 <= n < |toOld| ensures IsLastOf(toNew, toOld[n], n) {
      var i := SourceOf(old_, vertices, n);
      OwnIndex(f, vertices, n, vertices, toNew[i]);
      assert toNew[i] == n;
    }
    if RadiusFits(f) {
      forall oi | 0 <= oi < |toNew| ensures IsNearestOfAll(vertices, old_[oi], toNew[oi]) {
        NearestListedIsNearest(f, vertices, old_[oi], toNew[oi]);
      }
    }
  }

  lemma SourceOf(old_: seq<Vector3>, vertices: seq<Vector3>, n: nat) returns (i: nat)
    requires FromOld(old_, vertices, |old_|) && n < |vertices|
    ensures i < |old_| && old_[i] == vertices[n]
  {
    assert vertices[n] in old_[..|old_|];
    i :| i < |old_| && old_[i] == vertices[n];
  }

  lemma NearestListedIsNearest(f: Frame, vertices: seq<Vector3>, v: Vector3, n: nat)
    requires RadiusFits(f) && HasNear(f, vertices, v) && IsIndex(f, vertices, v, vertices, n)
    ensures IsNearestOfAll(vertices, v, n)
  {
    hide SquaredDistance;
    forall i: nat | i < |vertices|
      ensures SquaredDistance(vertices[n], v) < SquaredDistance(vertices[i], v) ||
              (SquaredDistance(vertices[n], v) == SquaredDistance(vertices[i], v) && n <= i) {
      if Within(vertices[i], v, f.radius) {
        WithinIsNeighbor(f, vertices[i], v);
        assert i in Near(f, vertices, ToGridCoords(f, v), |vertices|);
      }
    }
  }

  lemma IndexStep(f: Frame, old_: seq<Vector3>, vertices: seq<Vector3>, vertices': seq<Vector3>, i: nat, index: nat)
    requires i < |old_| && FromOld(old_, vertices, i) && NoTwins(vertices)
             && IsIndex(f, vertices, old_[i], vertices', index)
    ensures FromOld(old_, vertices', i + 1) && NoTwins(vertices') && HasNear(f, vertices', old_[i])
    ensures RadiusFits(f) && Separated(f, vertices) ==> Separated(f, vertices')
  {
    IndexKeepsNoTwins(f, vertices, old_[i], vertices', index);
    IndexedHasNear(f, vertices, old_[i], vertices', index);
    if RadiusFits(f) && Separated(f, vertices) {
      IndexKeepsSeparated(f, vertices, old_[i], vertices', index);
    }
    assert old_[..i + 1] == old_[..i] + [old_[i]];
  }

  /** i is the last position that is sent to n. */
  ghost predicate IsLastOf(toNew: seq<int>, i: int, n: int) {
    && 0 <= i < |toNew| && toNew[i] == n
    && forall k :: i < k < |toNew| ==> toNew[k] != n
  }

  /** toOld names the last position sent to each index that is used. */
  ghost predicate LastOnes(toNew: seq<int>, toOld: seq<int>) {
    forall i :: 0 <= i < |toNew| ==> 0 <= toNew[i] < |toOld| && IsLastOf(toNew, toOld[toNew[i]], toNew[i])
  }

  lemma NoLastOnes(toOld: seq<int>)
    ensures LastOnes([], toOld)
  {
  }

  lemma LastOfStep(before: seq<int>, index: nat, toOld: seq<int>, toOld': seq<int>)
    requires index < |toOld| && toOld' == toOld[index := |before|] && LastOnes(before, toOld)
    ensures LastOnes(before + [index], toOld')
  {
    var after := before + [index];
    forall i | 0 <= i < |after| ensures 0 <= after[i] < |toOld'| && IsLastOf(after, toOld'[after[i]], after[i]) {
      if i < |before| && before[i] != index {
        assert IsLastOf(before, toOld[before[i]], before[i]);
      }
    }
  }
}
