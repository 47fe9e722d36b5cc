/** Cutting a polygon by a plane, and what the cut keeps. */
module ConvexPolygons {
  import opened Options
  import opened Squares
  import opened Vectors

  /** The points p with normal . p == distance. */
  datatype Plane = Plane(normal: Vector3, distance: real)

  datatype Line = Line(point: Vector3, direction: Vector3)

  const ORIGIN := Vector3(0.0, 0.0, 0.0)

  /** How far a point lies over a plane, in lengths of the normal. */
  function Height(plane: Plane, p: Vector3): real {
    Dot(plane.normal, p) - plane.distance
  }

  predicate HalfSpaceContains(plane: Plane, p: Vector3) {
    Dot(plane.normal, p) >= plane.distance
  }

  function LineThrough(a: Vector3, b: Vector3): Line {
    Line(a, Sub(b, a))
  }

  /** Where a line meets a plane; None stands for the point at infinity. */
  function Intersection(line: Line, plane: Plane): Option<Vector3> {
    var rate := Dot(line.direction, plane.normal);
    if rate == 0.0 then None
    else
      var t := -(-plane.distance + Dot(line.point, plane.normal)) / rate;
      Some(Add(line.point, Scale(line.direction, t)))
  }

  // ---------- points of a segment ----------

  /** The point a fraction t of the way from a to b. */
  function Mix(a: Vector3, b: Vector3, t: real): Vector3 {
    Add(a, Scale(Sub(b, a), t))
  }

  /** The fraction at which a segment meets a plane that separates its ends. */
  function Fraction(plane: Plane, a: Vector3, b: Vector3): real
    requires Height(plane, a) != Height(plane, b)
  {
    Height(plane, a) / (Height(plane, a) - Height(plane, b))
  }

  function Affine(x: real, y: real, t: real): real {
    x + (y - x) * t
  }

  lemma HeightOfMix(plane: Plane, a: Vector3, b: Vector3, t: real)
    ensures Height(plane, Mix(a, b, t)) == Affine(Height(plane, a), Height(plane, b), t)
  {
    DotOfMix(plane.normal, a, b, t);
    var x, y := Dot(plane.normal, a), Dot(plane.normal, b);
    assert Height(plane, b) - Height(plane, a) == y - x;
  }

  lemma DotOfMix(n: Vector3, a: Vector3, b: Vector3, t: real)
    ensures Dot(n, Mix(a, b, t)) == Affine(Dot(n, a), Dot(n, b), t)
  {
    ScaledBy(n.x, a.x, b.x, t);
    ScaledBy(n.y, a.y, b.y, t);
    ScaledBy(n.z, a.z, b.z, t);
    SumOfAffine(n.x * a.x, n.x * b.x, n.y * a.y, n.y * b.y, n.z * a.z, n.z * b.z, t);
  }

  lemma SumOfAffine(a: real, b: real, c: real, d: real, e: real, f: real, t: real)
    ensures Affine(a, b, t) + Affine(c, d, t) + Affine(e, f, t) == Affine(a + c + e, b + d + f, t)
  {
    Distribute(b - a, d - c, f - e, t);
    assert b + d + f - (a + c + e) == (b - a) + (d - c) + (f - e);
  }

  lemma ScaledBy(n: real, a: real, b: real, t: real)
    ensures n * (a + (b - a) * t) == Affine(n * a, n * b, t)
  {
  }

  /** The intersection with the line through two separated points is the mix at Fraction. */
  lemma IntersectionIsMix(plane: Plane, a: Vector3, b: Vector3)
    requires Height(plane, a) != Height(plane, b)
    ensures Intersection(LineThrough(a, b), plane) == Some(Mix(a, b, Fraction(plane, a, b)))
  {
    var line := LineThrough(a, b);
    var rate, n := Dot(line.direction, plane.normal), plane.normal;
    var p, q := Height(plane, a), Height(plane, b);
    assert rate == q - p by {
      assert (b.x - a.x) * n.x == n.x * b.x - n.x * a.x;
      assert (b.y - a.y) * n.y == n.y * b.y - n.y * a.y;
      assert (b.z - a.z) * n.z == n.z * b.z - n.z * a.z;
    }
    assert -plane.distance + Dot(a, n) == p;
    Negated(p, p - q);
  }

  lemma Negated(x: real, y: real)
    requires y != 0.0
    ensures -x / -y == x / y
  {
  }

  /** The normalisation of a line's direction does not move its intersection. */
  lemma DirectionLengthIsIrrelevant(point: Vector3, direction: Vector3, plane: Plane, s: real)
    requires s != 0.0
    ensures Intersection(Line(point, Scale(direction, s)), plane) == Intersection(Line(point, direction), plane)
  {
    var scaled, n := Scale(direction, s), plane.normal;
    var rate := Dot(direction, n);
    assert Dot(scaled, n) == rate * s by {
      SwapScale(direction.x, s, n.x);
      SwapScale(direction.y, s, n.y);
      SwapScale(direction.z, s, n.z);
      Distribute(direction.x * n.x, direction.y * n.y, direction.z * n.z, s);
    }
    if rate == 0.0 {
      assert Dot(scaled, n) == 0.0;
    } else {
      var w, m := -(-plane.distance + Dot(point, n)), Dot(scaled, n);
      ScaledQuotient(w, rate, m, s, direction.x);
      ScaledQuotient(w, rate, m, s, direction.y);
      ScaledQuotient(w, rate, m, s, direction.z);
      assert Intersection(Line(point, scaled), plane) == Some(Add(point, Scale(scaled, w / m)));
      assert Intersection(Line(point, direction), plane) == Some(Add(point, Scale(direction, w / rate)));
      assert Scale(scaled, w / m) == Scale(direction, w / rate);
    }
  }

  lemma SwapScale(d: real, s: real, n: real)
    ensures d * s * n == d * n * s
  {
  }

  lemma Distribute(x: real, y: real, z: real, s: real)
    ensures (x + y + z) * s == x * s + y * s + z * s
  {
  }

  lemma ScaledQuotient(w: real, rate: real, m: real, s: real, d: real)
    requires rate != 0.0 && s != 0.0 && m == rate * s
    ensures m != 0.0 && (d * s) * (w / m) == d * (w / rate)
  {
    assert m / s == rate;
    var q, r := w / m, w / rate;
    assert q * m == w && r * rate == w;
    assert (q * s) * rate == r * rate;
    Cancel(q * s, r, rate);
    assert (d * s) * q == d * (q * s);
  }

  lemma Cancel(x: real, y: real, z: real)
    requires x * z == y * z && z != 0.0
    ensures x == y
  {
    assert x == (x * z) / z && y == (y * z) / z;
  }

  // ---------- what a cut delivers ----------

  /** The vertex after vertex i around the polygon. */
  function Next(v: seq<Vector3>, i: nat): (j: nat)
    requires i < |v|
    ensures j < |v|
  {
    if i + 1 < |v| then i + 1 else 0
  }

  predicate Switches(plane: Plane, v: seq<Vector3>, i: nat)
    requires i < |v|
  {
    HalfSpaceContains(plane, v[i]) != HalfSpaceContains(plane, v[Next(v, i)])
  }

  /** Where the edge from vertex i crosses the plane. */
  function Meet(plane: Plane, v: seq<Vector3>, i: nat): Vector3
    requires i < |v| && Switches(plane, v, i)
  {
    var j := Next(v, i);
    Mix(v[i], v[j], Fraction(plane, v[i], v[j]))
  }

  /** The point where the line through the ends of a crossing edge meets the plane is finite. */
  lemma CrossingIsFinite(plane: Plane, v: seq<Vector3>, i: nat)
    requires i < |v| && Switches(plane, v, i)
    ensures Intersection(LineThrough(v[i], v[Next(v, i)]), plane) == Some(Meet(plane, v, i))
  {
    IntersectionIsMix(plane, v[i], v[Next(v, i)]);
  }

  /** The crossing points of the first k edges. */
  function Meets(plane: Plane, v: seq<Vector3>, k: nat): seq<Vector3>
    requires k <= |v|
  {
    if k == 0 then []
    else WithMeet(plane, v, k - 1, Meets(plane, v, k - 1))
  }

  /** A list with vertex i added where that lies on the given side. */
  function WithOwn(plane: Plane, v: seq<Vector3>, side: bool, i: nat, list: seq<Vector3>): seq<Vector3>
    requires i < |v|
  {
    if HalfSpaceContains(plane, v[i]) == side then list + [v[i]] else list
  }

  /** A list with the crossing of the edge from vertex i added, if there is one. */
  function WithMeet(plane: Plane, v: seq<Vector3>, i: nat, list: seq<Vector3>): seq<Vector3>
    requires i < |v|
  {
    if Switches(plane, v, i) then list + [Meet(plane, v, i)] else list
  }

  /** The part of the first k edges on one side: their starting points there, and the crossings. */
  function Clip(plane: Plane, v: seq<Vector3>, side: bool, k: nat): seq<Vector3>
    requires k <= |v|
  {
    if k == 0 then []
    else WithMeet(plane, v, k - 1, WithOwn(plane, v, side, k - 1, Clip(plane, v, side, k - 1)))
  }

  /** The last crossing among the first k edges that leaves the upper side, or enters it. */
  function LastMeet(plane: Plane, v: seq<Vector3>, leaving: bool, k: nat, start: Vector3): Vector3
    requires k <= |v|
  {
    if k == 0 then start
    else if Switches(plane, v, k - 1) && HalfSpaceContains(plane, v[k - 1]) == leaving then Meet(plane, v, k - 1)
    else LastMeet(plane, v, leaving, k - 1, start)
  }

  const FUZZY_EPSILON: real := 0.00001

  predicate FuzzyGe(a: real, b: real) {
    a > b - FUZZY_EPSILON * (Abs(a) + 1.0)
  }

  /** Just below zero a height still counts as none. */
  lemma FuzzyExactly(h: real)
    ensures FuzzyGe(h, 0.0) <==> 99_999.0 * h > -1.0
  {
  }

  /** What lies over the plane or in it goes to one part, and what lies below it to the other. */
  ghost predicate Divided(plane: Plane, v: seq<Vector3>, above: seq<Vector3>, below: seq<Vector3>) {
    forall i :: 0 <= i < |v| ==> DividedAt(plane.normal, plane.distance, v[i], above, below)
  }

  ghost predicate DividedAt(n: Vector3, d: real, p: Vector3, above: seq<Vector3>, below: seq<Vector3>) {
    if n.x * p.x + n.y * p.y + n.z * p.z >= d then p in above else p in below
  }

  lemma ClipDivides(plane: Plane, v: seq<Vector3>)
    ensures Divided(plane, v, Clip(plane, v, true, |v|), Clip(plane, v, false, |v|))
  {
    hide Clip;
    hide DividedAt;
    forall i | 0 <= i < |v|
      ensures DividedAt(plane.normal, plane.distance, v[i], Clip(plane, v, true, |v|), Clip(plane, v, false, |v|))
    {
      ClipOwn(plane, v, i, |v|);
      SideIs(plane, v[i], Clip(plane, v, true, |v|), Clip(plane, v, false, |v|));
    }
  }

  lemma SideIs(plane: Plane, p: Vector3, above: seq<Vector3>, below: seq<Vector3>)
    requires if HalfSpaceContains(plane, p) then p in above else p in below
    ensures DividedAt(plane.normal, plane.distance, p, above, below)
  {
  }

  lemma {:induction false} ClipOwn(plane: Plane, v: seq<Vector3>, i: nat, k: nat)
    requires i < k <= |v|
    ensures v[i] in Clip(plane, v, HalfSpaceContains(plane, v[i]), k)
  {
    hide *;
    if i < k - 1 {
      ClipOwn(plane, v, i, k - 1);
    }
    ClipGrows(plane, v, HalfSpaceContains(plane, v[i]), k - 1, v[i]);
  }

  lemma ClipGrows(plane: Plane, v: seq<Vector3>, side: bool, k: nat, p: Vector3)
    requires k < |v| && (p in Clip(plane, v, side, k) || (p == v[k] && HalfSpaceContains(plane, p) == side))
    ensures p in Clip(plane, v, side, k + 1)
  {
    hide HalfSpaceContains;
    hide Meet;
  }

  lemma NoEdges(plane: Plane, v: seq<Vector3>, start: Vector3, stop: Vector3)
    requires v != []
    ensures WithOwn(plane, v, true, 0, Clip(plane, v, true, 0)) == if HalfSpaceContains(plane, v[0]) then [v[0]] else []
    ensures WithOwn(plane, v, false, 0, Clip(plane, v, false, 0)) == if HalfSpaceContains(plane, v[0]) then []
                                                                     else [v[0]]
    ensures LastMeet(plane, v, true, 0, stop) == stop && LastMeet(plane, v, false, 0, start) == start
    ensures |Meets(plane, v, 0)| == 0
  {
    hide HalfSpaceContains;
  }

  /** What the edge from vertex i to vertex j adds. */
  lemma NextEdge(plane: Plane, v: seq<Vector3>, i: nat, j: nat, start: Vector3, stop: Vector3)
    requires i < |v| && j == if i + 1 < |v| then i + 1 else 0
    ensures j == Next(v, i)
            && (Switches(plane, v, i) <==> HalfSpaceContains(plane, v[i]) != HalfSpaceContains(plane, v[j]))
    ensures Clip(plane, v, true, i + 1) ==
            WithOwn(plane, v, true, i, Clip(plane, v, true, i)) + if Switches(plane, v, i) then [Meet(plane, v, i)]
                                                                  else []
    ensures Clip(plane, v, false, i + 1) ==
            WithOwn(plane, v, false, i, Clip(plane, v, false, i)) + if Switches(plane, v, i) then [Meet(plane, v, i)]
                                                                    else []
    ensures LastMeet(plane, v, true, i + 1, stop) ==
            if Switches(plane, v, i) && HalfSpaceContains(plane, v[i]) then Meet(plane, v, i)
            else LastMeet(plane, v, true, i, stop)
    ensures LastMeet(plane, v, false, i + 1, start) ==
            if Switches(plane, v, i) && !HalfSpaceContains(plane, v[i]) then Meet(plane, v, i)
            else LastMeet(plane, v, false, i, start)
    ensures |Meets(plane, v, i + 1)| == |Meets(plane, v, i)| + if Switches(plane, v, i) then 1 else 0
  {
    hide HalfSpaceContains;
    hide Meet;
    hide WithOwn;
  }

  lemma OwnAdded(plane: Plane, v: seq<Vector3>, i: nat, above: seq<Vector3>, below: seq<Vector3>)
    requires i < |v|
    ensures WithOwn(plane, v, true, i, above) == if HalfSpaceContains(plane, v[i]) then above + [v[i]] else above
    ensures WithOwn(plane, v, false, i, below) == if HalfSpaceContains(plane, v[i]) then below else below + [v[i]]
  {
    hide HalfSpaceContains;
  }

  class DirectedEdge {
    var start: Vector3
    var stop: Vector3
  }

  class ConvexPolygon {
    var vertex: seq<Vector3>

    constructor (v: seq<Vector3>)
      ensures vertex == v
    {
      vertex := v;
    }

    /** Switched sides between vertices i and j: adds the point in between that lies in the plane. */
    method AddCrossing(plane: Plane, i: nat, j: nat, lastAbove: bool, above: ConvexPolygon, below: ConvexPolygon,
                       newEdge: DirectedEdge)
      requires i < |vertex| && j == Next(vertex, i) && Switches(plane, vertex, i)
      requires above != this && below != this && above != below
      modifies above, below, newEdge
      ensures above.vertex == old(above.vertex) + [Meet(plane, vertex, i)]
      ensures below.vertex == old(below.vertex) + [Meet(plane, vertex, i)]
      ensures newEdge.stop == if lastAbove then Meet(plane, vertex, i) else old(newEdge.stop)
      ensures newEdge.start == if lastAbove then old(newEdge.start) else Meet(plane, vertex, i)
    {
      CrossingIsFinite(plane, vertex, i);
      hide *;
      var interp := Intersection(LineThrough(vertex[i], vertex[j]), plane).value;
      above.vertex := above.vertex + [interp];
      below.vertex := below.vertex + [interp];
      if lastAbove {
        newEdge.stop := interp;
      } else {
        newEdge.start := interp;
      }
    }

    /** Cuts the polygon at the plane. Whether its area is negligible and whether it is parallel
        to the plane depend on square roots and come in as arguments; the area of fewer than
        three vertices is zero. */
    method Cut(plane: Plane, isEmpty: bool, isParallel: bool, above: ConvexPolygon, below: ConvexPolygon,
               newEdge: DirectedEdge) returns (ghost count: nat)
      requires |vertex| < 3 ==> isEmpty
      requires above != this && below != this && above != below
      modifies above, below, newEdge
      ensures isEmpty ==> above.vertex == [] && below.vertex == []
      ensures !isEmpty && isParallel ==>
                var n, p := plane.normal, vertex[0];
                if 99_999.0 * (n.x * p.x + n.y * p.y + n.z * p.z - plane.distance) > -1.0 then
                  above.vertex == vertex && below.vertex == []
                else above.vertex == [] && below.vertex == vertex
      ensures isEmpty || isParallel ==> unchanged(newEdge)
      ensures !isEmpty && !isParallel ==>
                && above.vertex == Clip(plane, vertex, true, |vertex|)
                && below.vertex == Clip(plane, vertex, false, |vertex|)
                && newEdge.stop == LastMeet(plane, vertex, true, |vertex|, old(newEdge.stop))
                && newEdge.start == LastMeet(plane, vertex, false, |vertex|, old(newEdge.start))
                && count == |Meets(plane, vertex, |vertex|)|
      ensures !isEmpty && !isParallel ==>
                Divided(plane, vertex, above.vertex, below.vertex)
    {
      above.vertex := [];
      below.vertex := [];
      count := 0;
      if isEmpty {
        return;
      }
      if isParallel {
        var r := Dot(plane.normal, vertex[0]) + -plane.distance;
        FuzzyExactly(r);
        if FuzzyGe(r, 0.0) {
          above.vertex := vertex;
        } else {
          below.vertex := vertex;
        }
        return;
      }
      ClipDivides(plane, vertex);
      hide *;
      count := CutAcross(plane, above, below, newEdge);
    }

    /** Follows the edge from vertex i to vertex j. */
    method CutEdge(plane: Plane, i: nat, j: nat, lastAbove: bool, above: ConvexPolygon, below: ConvexPolygon,
                   newEdge: DirectedEdge, ghost start: Vector3, ghost stop: Vector3)
      returns (isAbove: bool, ghost crossed: nat)
      requires i < |vertex| && j == (if i + 1 < |vertex| then i + 1 else 0)
      requires above != this && below != this && above != below
      requires lastAbove == HalfSpaceContains(plane, vertex[i])
      requires above.vertex == WithOwn(plane, vertex, true, i, Clip(plane, vertex, true, i))
      requires below.vertex == WithOwn(plane, vertex, false, i, Clip(plane, vertex, false, i))
      requires newEdge.stop == LastMeet(plane, vertex, true, i, stop)
      requires newEdge.start == LastMeet(plane, vertex, false, i, start)
      modifies above, below, newEdge
      ensures isAbove == HalfSpaceContains(plane, vertex[j])
      ensures above.vertex == Clip(plane, vertex, true, i + 1) && below.vertex == Clip(plane, vertex, false, i + 1)
      ensures newEdge.stop == LastMeet(plane, vertex, true, i + 1, stop)
      ensures newEdge.start == LastMeet(plane, vertex, false, i + 1, start)
      ensures crossed == |Meets(plane, vertex, i + 1)| - |Meets(plane, vertex, i)|
    {
      hide *;
      NextEdge(plane, vertex, i, j, start, stop);
      isAbove, crossed := HalfSpaceContains(plane, vertex[j]), 0;
      if lastAbove != isAbove {
        AddCrossing(plane, i, j, lastAbove, above, below, newEdge);
        crossed := 1;
      }
    }

    /** Goes around the polygon and divides it where it crosses the plane. */
    method CutAcross(plane: Plane, above: ConvexPolygon, below: ConvexPolygon, newEdge: DirectedEdge)
      returns (ghost count: nat)
      requires vertex != [] && above.vertex == [] && below.vertex == []
      requires above != this && below != this && above != below
      modifies above, below, newEdge
      ensures above.vertex == Clip(plane, vertex, true, |vertex|)
      ensures below.vertex == Clip(plane, vertex, false, |vertex|)
      ensures newEdge.stop == LastMeet(plane, vertex, true, |vertex|, old(newEdge.stop))
      ensures newEdge.start == LastMeet(plane, vertex, false, |vertex|, old(newEdge.start))
      ensures count == |Meets(plane, vertex, |vertex|)|
    {
      hide *;
      count := 0;
      ghost var start, stop := newEdge.start, newEdge.stop;
      NoEdges(plane, vertex, start, stop);
      var length := |vertex|;
      var lastAbove := HalfSpaceContains(plane, vertex[0]);
      if lastAbove {
        above.vertex := above.vertex + [vertex[0]];
      } else {
        below.vertex := below.vertex + [vertex[0]];
      }
      ghost var crossed;
      for v := 1 to length
        invariant lastAbove == HalfSpaceContains(plane, vertex[v - 1])
        invariant unchanged(this)
        invariant above.vertex == WithOwn(plane, vertex, true, v - 1, Clip(plane, vertex, true, v - 1))
        invariant below.vertex == WithOwn(plane, vertex, false, v - 1, Clip(plane, vertex, false, v - 1))
        invariant newEdge.stop == LastMeet(plane, vertex, true, v - 1, stop)
        invariant newEdge.start == LastMeet(plane, vertex, false, v - 1, start)
        invariant count == |Meets(plane, vertex, v - 1)|
      {
        lastAbove, crossed := CutEdge(plane, v - 1, v, lastAbove, above, below, newEdge, start, stop);
        count := count + crossed;
        OwnAdded(plane, vertex, v, above.vertex, below.vertex);
        if lastAbove {
          above.vertex := above.vertex + [vertex[v]];
        } else {
          below.vertex := below.vertex + [vertex[v]];
        }
      }
      lastAbove, crossed := CutEdge(plane, length - 1, 0, lastAbove, above, below, newEdge, start, stop);
      count := count + crossed;
    }
  }

  // ---------- an example ----------

  /** The plane x + 2 y + 3 z == 2. */
  const SLOPE := Plane(Vector3(1.0, 2.0, 3.0), 2.0)

  /** A triangle of which the first vertex lies below it. */
  const TRIANGLE: seq<Vector3> := [Vector3(0.0, 0.0, 0.0), Vector3(4.0, 0.0, 0.0), Vector3(0.0, 1.0, 1.0)]

  lemma TriangleSides()
    ensures !HalfSpaceContains(SLOPE, TRIANGLE[0]) && HalfSpaceContains(SLOPE, TRIANGLE[1])
    ensures HalfSpaceContains(SLOPE, TRIANGLE[2])
    ensures Meet(SLOPE, TRIANGLE, 0) == Vector3(2.0, 0.0, 0.0) && Meet(SLOPE, TRIANGLE, 2) == Vector3(0.0, 0.4, 0.4)
  {
  }

  lemma TriangleIsCut(start: Vector3, stop: Vector3)
    ensures Clip(SLOPE, TRIANGLE, true, 3)
         == [Vector3(2.0, 0.0, 0.0), Vector3(4.0, 0.0, 0.0), Vector3(0.0, 1.0, 1.0), Vector3(0.0, 0.4, 0.4)]
    ensures Clip(SLOPE, TRIANGLE, false, 3) == [Vector3(0.0, 0.0, 0.0), Vector3(2.0, 0.0, 0.0), Vector3(0.0, 0.4, 0.4)]
    ensures LastMeet(SLOPE, TRIANGLE, false, 3, start) == Vector3(2.0, 0.0, 0.0)
    ensures LastMeet(SLOPE, TRIANGLE, true, 3, stop) == Vector3(0.0, 0.4, 0.4)
  {
    TriangleSides();
    hide HalfSpaceContains;
    hide Meet;
    NoEdges(SLOPE, TRIANGLE, start, stop);
    NextEdge(SLOPE, TRIANGLE, 0, 1, start, stop);
    NextEdge(SLOPE, TRIANGLE, 1, 2, start, stop);
    NextEdge(SLOPE, TRIANGLE, 2, 0, start, stop);
  }

  lemma ThreeCorners()
    ensures |TRIANGLE| == 3
  {
  }

  /** The corner below is cut off; the new edge runs from where the polygon rises to where it sinks. */
  method CutTriangle() returns (above: seq<Vector3>, below: seq<Vector3>, start: Vector3, stop: Vector3)
    ensures above == [Vector3(2.0, 0.0, 0.0), Vector3(4.0, 0.0, 0.0), Vector3(0.0, 1.0, 1.0), Vector3(0.0, 0.4, 0.4)]
    ensures below == [Vector3(0.0, 0.0, 0.0), Vector3(2.0, 0.0, 0.0), Vector3(0.0, 0.4, 0.4)]
    ensures start == Vector3(2.0, 0.0, 0.0) && stop == Vector3(0.0, 0.4, 0.4)
  {
    ThreeCorners();
    hide *;
    var polygon := new ConvexPolygon(TRIANGLE);
    var upper := new ConvexPolygon([]);
    var lower := new ConvexPolygon([]);
    var newEdge := new DirectedEdge;
    TriangleIsCut(newEdge.start, newEdge.stop);
    ghost var count := polygon.Cut(SLOPE, false, false, upper, lower, newEdge);
    return upper.vertex, lower.vertex, newEdge.start, newEdge.stop;
  }
}
