/** Cutting a convex polygon: two crossings at most, convex parts, one shared new edge. */
module ConvexPolygonShape {
  import opened Squares
  import opened Vectors
  import opened ConvexPolygons
  import opened ConvexPolygonTheorems

  /** Positive when a, b, c turn counter-clockwise seen from the tip of m. */
  function Orient(m: Vector3, a: Vector3, b: Vector3, c: Vector3): real {
    Dot(m, Cross(Sub(b, a), Sub(c, a)))
  }

  // ---------- four points of a plane ----------

  /** The combination a x - b y + c z of three vectors. */
  function Combination(a: Vector3, b: Vector3, c: Vector3, x: real, y: real, z: real): Vector3 {
    Vector3(a.x * x - b.x * y + c.x * z, a.y * x - b.y * y + c.y * z, a.z * x - b.z * y + c.z * z)
  }

  lemma DotOfCombination(m: Vector3, a: Vector3, b: Vector3, c: Vector3, x: real, y: real, z: real)
    ensures Dot(m, Combination(a, b, c, x, y, z)) == Dot(m, a) * x - Dot(m, b) * y + Dot(m, c) * z
  {
  }

  lemma DotOfScale(m: Vector3, a: Vector3, x: real)
    ensures Dot(m, Scale(a, x)) == Dot(m, a) * x
  {
    assert m.x * (a.x * x) == m.x * a.x * x && m.y * (a.y * x) == m.y * a.y * x && m.z * (a.z * x) == m.z * a.z * x;
  }

  function Triple(p: Vector3, q: Vector3, r: Vector3): real {
    Dot(p, Cross(q, r))
  }

  /** A product of ordinates of p, q and r. */
  function Monomial(p: real, q: real, r: real): real {
    p * q * r
  }

  lemma MinorTimes(a: real, b: real, c: real, d: real, m: real, x: real)
    requires m == a * b - c * d
    ensures m * x == Monomial(x, a, b) - Monomial(x, c, d)
    ensures m * x == Monomial(a, x, b) - Monomial(c, x, d)
    ensures m * x == Monomial(a, b, x) - Monomial(c, d, x)
  {
  }

  lemma MinorsOfP(q: Vector3, r: Vector3, x: real)
    ensures Cross(q, r).x * x == Monomial(x, q.y, r.z) - Monomial(x, q.z, r.y)
    ensures Cross(q, r).y * x == Monomial(x, q.z, r.x) - Monomial(x, q.x, r.z)
    ensures Cross(q, r).z * x == Monomial(x, q.x, r.y) - Monomial(x, q.y, r.x)
  {
    hide Monomial;
    MinorTimes(q.y, r.z, q.z, r.y, Cross(q, r).x, x);
    MinorTimes(q.z, r.x, q.x, r.z, Cross(q, r).y, x);
    MinorTimes(q.x, r.y, q.y, r.x, Cross(q, r).z, x);
  }

  lemma MinorsOfQ(p: Vector3, r: Vector3, x: real)
    ensures Cross(p, r).x * x == Monomial(p.y, x, r.z) - Monomial(p.z, x, r.y)
    ensures Cross(p, r).y * x == Monomial(p.z, x, r.x) - Monomial(p.x, x, r.z)
    ensures Cross(p, r).z * x == Monomial(p.x, x, r.y) - Monomial(p.y, x, r.x)
  {
    hide Monomial;
    MinorTimes(p.y, r.z, p.z, r.y, Cross(p, r).x, x);
    MinorTimes(p.z, r.x, p.x, r.z, Cross(p, r).y, x);
    MinorTimes(p.x, r.y, p.y, r.x, Cross(p, r).z, x);
  }

  lemma MinorsOfR(p: Vector3, q: Vector3, x: real)
    ensures Cross(p, q).x * x == Monomial(p.y, q.z, x) - Monomial(p.z, q.y, x)
    ensures Cross(p, q).y * x == Monomial(p.z, q.x, x) - Monomial(p.x, q.z, x)
    ensures Cross(p, q).z * x == Monomial(p.x, q.y, x) - Monomial(p.y, q.x, x)
  {
    hide Monomial;
    MinorTimes(p.y, q.z, p.z, q.y, Cross(p, q).x, x);
    MinorTimes(p.z, q.x, p.x, q.z, Cross(p, q).y, x);
    MinorTimes(p.x, q.y, p.y, q.x, Cross(p, q).z, x);
  }

  /** Expanding a determinant along a column, and along a wrong one. */
  lemma MinorsX(p: Vector3, q: Vector3, r: Vector3)
    ensures Combination(Cross(q, r), Cross(p, r), Cross(p, q), p.x, q.x, r.x) == Vector3(Triple(p, q, r), 0.0, 0.0)
  {
    hide Cross;
    hide Triple;
    hide Monomial;
    MinorsOfP(q, r, p.x);
    MinorsOfQ(p, r, q.x);
    MinorsOfR(p, q, r.x);
    TripleTerms(p, q, r);
  }

  lemma MinorsY(p: Vector3, q: Vector3, r: Vector3)
    ensures Combination(Cross(q, r), Cross(p, r), Cross(p, q), p.y, q.y, r.y) == Vector3(0.0, Triple(p, q, r), 0.0)
  {
    hide Cross;
    hide Triple;
    hide Monomial;
    MinorsOfP(q, r, p.y);
    MinorsOfQ(p, r, q.y);
    MinorsOfR(p, q, r.y);
    TripleTerms(p, q, r);
  }

  lemma MinorsZ(p: Vector3, q: Vector3, r: Vector3)
    ensures Combination(Cross(q, r), Cross(p, r), Cross(p, q), p.z, q.z, r.z) == Vector3(0.0, 0.0, Triple(p, q, r))
  {
    hide Cross;
    hide Triple;
    hide Monomial;
    MinorsOfP(q, r, p.z);
    MinorsOfQ(p, r, q.z);
    MinorsOfR(p, q, r.z);
    TripleTerms(p, q, r);
  }

  lemma TripleTerms(p: Vector3, q: Vector3, r: Vector3)
    ensures Triple(p, q, r) == Monomial(p.x, q.y, r.z) - Monomial(p.x, q.z, r.y) + Monomial(p.y, q.z, r.x)
                             - Monomial(p.y, q.x, r.z) + Monomial(p.z, q.x, r.y) - Monomial(p.z, q.y, r.x)
  {
    hide Cross;
    hide Monomial;
    MinorsOfP(q, r, p.x);
    MinorsOfP(q, r, p.y);
    MinorsOfP(q, r, p.z);
  }

  /** Cramer's rule: any four vectors of space are dependent. */
  lemma FourVectors(m: Vector3, p: Vector3, q: Vector3, r: Vector3)
    ensures Combination(p, q, r, Triple(m, q, r), Triple(m, p, r), Triple(m, p, q)) == Scale(m, Triple(p, q, r))
  {
    MinorsX(p, q, r);
    MinorsY(p, q, r);
    MinorsZ(p, q, r);
    var a, b, c, t := Cross(q, r), Cross(p, r), Cross(p, q), Triple(p, q, r);
    DotOfCombination(m, a, b, c, p.x, q.x, r.x);
    DotOfCombination(m, a, b, c, p.y, q.y, r.y);
    DotOfCombination(m, a, b, c, p.z, q.z, r.z);
    assert Dot(m, Vector3(t, 0.0, 0.0)) == m.x * t;
    assert Dot(m, Vector3(0.0, t, 0.0)) == m.y * t;
    assert Dot(m, Vector3(0.0, 0.0, t)) == m.z * t;
  }

  /** Three vectors perpendicular to a non-zero one span no volume. */
  lemma NoVolume(m: Vector3, p: Vector3, q: Vector3, r: Vector3)
    requires Dot(m, p) == 0.0 && Dot(m, q) == 0.0 && Dot(m, r) == 0.0 && m != ORIGIN
    ensures Triple(p, q, r) == 0.0
  {
    var t := Triple(p, q, r);
    FourVectors(m, p, q, r);
    DotOfCombination(m, p, q, r, Triple(m, q, r), Triple(m, p, r), Triple(m, p, q));
    DotOfScale(m, m, t);
    assert m.x != 0.0 || m.y != 0.0 || m.z != 0.0;
    var mm := Dot(m, m);
    SumOfSquares(m);
  }

  lemma SumOfSquares(m: Vector3)
    requires m.x != 0.0 || m.y != 0.0 || m.z != 0.0
    ensures Dot(m, m) > 0.0
  {
    assert Dot(m, m) == Square(m.x) + Square(m.y) + Square(m.z);
    SquareSign(m.x);
    SquareSign(m.y);
    SquareSign(m.z);
    hide *;
  }

  /** The heights of four points in a plane balance over the two diagonals. */
  lemma DiagonalsBalance(plane: Plane, m: Vector3, a: Vector3, b: Vector3, c: Vector3, d: Vector3)
    requires Dot(m, a) == Dot(m, b) == Dot(m, c) == Dot(m, d) && m != ORIGIN
    ensures Orient(m, b, c, d) * Height(plane, a) + Orient(m, a, b, d) * Height(plane, c)
         == Orient(m, a, c, d) * Height(plane, b) + Orient(m, a, b, c) * Height(plane, d)
  {
    var p, q, r, n := Sub(b, a), Sub(c, a), Sub(d, a), plane.normal;
    DotOfSub(m, b, a);
    DotOfSub(m, c, a);
    DotOfSub(m, d, a);
    NoVolume(m, p, q, r);
    FourVectors(m, p, q, r);
    var x, y, z := Triple(m, q, r), Triple(m, p, r), Triple(m, p, q);
    DotOfCombination(n, p, q, r, x, y, z);
    assert Combination(p, q, r, x, y, z) == ORIGIN;
    assert Dot(n, p) * x - Dot(n, q) * y + Dot(n, r) * z == 0.0;
    DotOfSub(n, b, a);
    DotOfSub(n, c, a);
    DotOfSub(n, d, a);
  }

  lemma DotOfSub(n: Vector3, a: Vector3, b: Vector3)
    ensures Dot(n, Sub(a, b)) == Dot(n, a) - Dot(n, b)
  {
    assert n.x * (a.x - b.x) == n.x * a.x - n.x * b.x;
    assert n.y * (a.y - b.y) == n.y * a.y - n.y * b.y;
    assert n.z * (a.z - b.z) == n.z * a.z - n.z * b.z;
  }

  // ---------- at most two crossings ----------

  /** The vertices lie in a plane with normal m and turn counter-clockwise, all triples of them. */
  ghost predicate StrictlyConvex(m: Vector3, v: seq<Vector3>) {
    && (forall i, j :: 0 <= i < |v| && 0 <= j < |v| ==> Dot(m, v[i]) == Dot(m, v[j]))
    && (forall i, j, k :: 0 <= i < j < k < |v| ==> Orient(m, v[i], v[j], v[k]) > 0.0)
  }

  /** Each of the first three crossings shows a vertex on the other side than the one before. */
  lemma {:induction false} Alternation(plane: Plane, v: seq<Vector3>, k: nat) returns (q: nat, r: nat, s: nat)
    requires 0 < k <= |v|
    ensures var c, first := |Meets(plane, v, k - 1)|, HalfSpaceContains(plane, v[0]);
      && (c >= 1 ==> 0 < q < k && HalfSpaceContains(plane, v[q]) != first)
      && (c >= 2 ==> q < r < k && HalfSpaceContains(plane, v[r]) == first)
      && (c >= 3 ==> r < s < k && HalfSpaceContains(plane, v[s]) != first)
  {
    hide HalfSpaceContains;
    hide Meet;
    if k == 1 {
      q, r, s := 0, 0, 0;
    } else {
      q, r, s := Alternation(plane, v, k - 1);
      CrossingsParity(plane, v, k - 1);
      if Switches(plane, v, k - 2) {
        match |Meets(plane, v, k - 2)| {
          case 0 => q := k - 1;
          case 1 => r := k - 1;
          case 2 => s := k - 1;
          case _ =>
        }
      }
    }
  }

  /** A quadrilateral whose corners lie on alternating sides has no diagonal point in common. */
  lemma NoAlternation(plane: Plane, m: Vector3, v: seq<Vector3>, q: nat, r: nat, s: nat)
    requires StrictlyConvex(m, v) && 0 < q < r < s < |v|
    ensures !(HalfSpaceContains(plane, v[0]) == HalfSpaceContains(plane, v[r])
              != HalfSpaceContains(plane, v[q]) == HalfSpaceContains(plane, v[s]))
  {
    var a, b, c, d := v[0], v[q], v[r], v[s];
    var x, y, z, w := Orient(m, b, c, d), Orient(m, a, b, d), Orient(m, a, c, d), Orient(m, a, b, c);
    assert x > 0.0 && y > 0.0 && z > 0.0 && w > 0.0;
    assert m != ORIGIN by {
    }
    DiagonalsBalance(plane, m, a, b, c, d);
  }

  lemma AtMostTwo(plane: Plane, m: Vector3, v: seq<Vector3>)
    requires v != [] && StrictlyConvex(m, v)
    ensures |Meets(plane, v, |v|)| == 0 || |Meets(plane, v, |v|)| == 2
  {
    hide *;
    LastEdgeAddsOne(plane, v);
    CrossingsParity(plane, v, |v|);
    var q, r, s := Alternation(plane, v, |v|);
    if |Meets(plane, v, |v|)| > 2 {
      NoAlternation(plane, m, v, q, r, s);
    }
  }

  lemma LastEdgeAddsOne(plane: Plane, v: seq<Vector3>)
    requires v != []
    ensures |Meets(plane, v, |v|)| <= |Meets(plane, v, |v| - 1)| + 1
  {
    hide HalfSpaceContains;
    hide Meet;
  }

  /** A convex polygon meets a plane in no edge or in two, and its oriented area is conserved. */
  lemma ConvexCut(plane: Plane, m: Vector3, v: seq<Vector3>)
    requires v != [] && StrictlyConvex(m, v)
    ensures |Meets(plane, v, |v|)| == 0 || |Meets(plane, v, |v|)| == 2
    ensures Add(Around(Clip(plane, v, true, |v|)), Around(Clip(plane, v, false, |v|))) == Around(v)
  {
    hide *;
    AtMostTwo(plane, m, v);
    CutConservesArea(plane, v);
  }

  // ---------- the parts are convex ----------

  /** No three vertices in their order turn clockwise. */
  ghost predicate Convex(m: Vector3, v: seq<Vector3>) {
    forall i, j, k :: 0 <= i < j < k < |v| ==> Orient(m, v[i], v[j], v[k]) >= 0.0
  }

  /** A place on the boundary: an edge and how far along it. */
  datatype Place = Place(edge: nat, part: real)

  ghost predicate OnBoundary(v: seq<Vector3>, e: Place) {
    e.edge < |v| && 0.0 <= e.part <= 1.0
  }

  ghost predicate InOrder(a: Place, b: Place) {
    a.edge < b.edge || (a.edge == b.edge && a.part <= b.part)
  }

  ghost function PointAt(v: seq<Vector3>, e: Place): Vector3
    requires OnBoundary(v, e)
  {
    Mix(v[e.edge], v[Next(v, e.edge)], e.part)
  }

  ghost function PlacesWithOwn(plane: Plane, v: seq<Vector3>, side: bool, i: nat, list: seq<Place>): seq<Place>
    requires i < |v|
  {
    if HalfSpaceContains(plane, v[i]) == side then list + [Place(i, 0.0)] else list
  }

  ghost function PlacesWithMeet(plane: Plane, v: seq<Vector3>, i: nat, list: seq<Place>): seq<Place>
    requires i < |v|
  {
    if Switches(plane, v, i) then list + [Place(i, Fraction(plane, v[i], v[Next(v, i)]))] else list
  }

  ghost function ClipPlaces(plane: Plane, v: seq<Vector3>, side: bool, k: nat): seq<Place>
    requires k <= |v|
  {
    if k == 0 then []
    else PlacesWithMeet(plane, v, k - 1, PlacesWithOwn(plane, v, side, k - 1, ClipPlaces(plane, v, side, k - 1)))
  }

  /** The points are those of the places, which are in order and none of them after a given one. */
  ghost predicate PlacesOf(v: seq<Vector3>, points: seq<Vector3>, places: seq<Place>, end: Place) {
    && |places| == |points|
    && (forall i :: 0 <= i < |places| ==>
          OnBoundary(v, places[i]) && InOrder(places[i], end) && points[i] == PointAt(v, places[i]))
    && (forall i, j :: 0 <= i < j < |places| ==> InOrder(places[i], places[j]))
  }

  lemma PlacesLater(v: seq<Vector3>, points: seq<Vector3>, places: seq<Place>, end: Place, later: Place)
    requires PlacesOf(v, points, places, end) && InOrder(end, later)
    ensures PlacesOf(v, points, places, later)
  {
    hide PointAt;
  }

  lemma MeetFollows(plane: Plane, v: seq<Vector3>, i: nat, points: seq<Vector3>, places: seq<Place>)
    requires i < |v| && PlacesOf(v, points, places, Place(i, 0.0))
    ensures PlacesOf(v, WithMeet(plane, v, i, points), PlacesWithMeet(plane, v, i, places), Place(i + 1, 0.0))
  {
    if Switches(plane, v, i) {
      MeetLies(plane, v, i);
      var e := Place(i, Fraction(plane, v[i], v[Next(v, i)]));
      assert Meet(plane, v, i) == PointAt(v, e) && OnBoundary(v, e) && InOrder(Place(i, 0.0), e);
      hide PlacesOf;
      hide Fraction;
      hide PointAt;
      hide Meet;
      PlacesLater(v, points + [Meet(plane, v, i)], places + [e], e, Place(i + 1, 0.0));
    } else {
      PlacesLater(v, points, places, Place(i, 0.0), Place(i + 1, 0.0));
    }
  }

  /** The vertices of a part are places on the boundary, in the order of the boundary. */
  lemma {:induction false} ClipFollowsBoundary(plane: Plane, v: seq<Vector3>, side: bool, k: nat)
    requires k <= |v|
    ensures PlacesOf(v, Clip(plane, v, side, k), ClipPlaces(plane, v, side, k), Place(k, 0.0))
  {
    if k > 0 {
      var i := k - 1;
      ClipFollowsBoundary(plane, v, side, i);
      hide PlacesOf;
      hide WithOwn;
      hide WithMeet;
      hide PlacesWithOwn;
      hide PlacesWithMeet;
      var points, places := Clip(plane, v, side, i), ClipPlaces(plane, v, side, i);
      MeetFollows(plane, v, i, WithOwn(plane, v, side, i, points), PlacesWithOwn(plane, v, side, i, places));
    }
  }

  lemma OrientTurns(m: Vector3, a: Vector3, b: Vector3, c: Vector3)
    ensures Orient(m, a, b, c) == Orient(m, b, c, a) == Orient(m, c, a, b)
    ensures Orient(m, a, a, c) == 0.0
  {
    ZeroSides(m, a, b, c);
    ZeroSides(m, b, c, a);
    ZeroSides(m, c, a, b);
  }

  lemma ZeroSides(m: Vector3, a: Vector3, b: Vector3, c: Vector3)
    ensures Orient(m, a, a, c) == 0.0 && Orient(m, a, c, a) == 0.0 && Orient(m, a, c, c) == 0.0
  {
  }

  /** The orientation is affine in a point of a segment. */
  lemma OrientOfMix(m: Vector3, a: Vector3, b: Vector3, t: real, p: Vector3, q: Vector3)
    ensures Orient(m, p, q, Mix(a, b, t)) == Affine(Orient(m, p, q, a), Orient(m, p, q, b), t)
  {
    var u, c, d := Sub(q, p), Sub(a, p), Sub(b, p);
    MixShifts(a.x, b.x, p.x, t);
    MixShifts(a.y, b.y, p.y, t);
    MixShifts(a.z, b.z, p.z, t);
    assert Sub(Mix(a, b, t), p) == Mix(c, d, t);
    CrossOfMix(u, c, d, t);
    hide Cross;
    DotOfMix(m, Cross(u, c), Cross(u, d), t);
  }

  lemma MixShifts(a: real, b: real, p: real, t: real)
    ensures (a + (b - a) * t) - p == (a - p) + ((b - p) - (a - p)) * t
  {
  }

  lemma CrossOfMix(u: Vector3, a: Vector3, b: Vector3, t: real)
    ensures Cross(u, Mix(a, b, t)) == Mix(Cross(u, a), Cross(u, b), t)
  {
  }

  /** A triple with its last point on a segment does not turn clockwise if it does not at either end. */
  lemma MixedTriple(m: Vector3, p: Vector3, q: Vector3, a: Vector3, b: Vector3, t: real)
    requires Orient(m, p, q, a) >= 0.0 && Orient(m, p, q, b) >= 0.0 && 0.0 <= t <= 1.0
    ensures Orient(m, p, q, Mix(a, b, t)) >= 0.0
  {
    OrientOfMix(m, a, b, t, p, q);
    AffineSign(Orient(m, p, q, a), Orient(m, p, q, b), t);
  }

  lemma AffineSign(x: real, y: real, t: real)
    requires x >= 0.0 && y >= 0.0 && 0.0 <= t <= 1.0
    ensures Affine(x, y, t) >= 0.0
  {
    var u := 1.0 - t;
    assert x * u >= 0.0 && y * t >= 0.0;
    assert Affine(x, y, t) == x * u + y * t;
  }

  /** Two points of one segment in order, seen from a third point. */
  lemma SameSegment(m: Vector3, a: Vector3, b: Vector3, s: real, t: real, c: Vector3)
    requires Orient(m, c, a, b) >= 0.0 && s <= t
    ensures Orient(m, c, Mix(a, b, s), Mix(a, b, t)) >= 0.0
  {
    var p, o := Mix(a, b, s), Orient(m, c, a, b);
    OrientOfMix(m, a, b, t, c, p);
    OrientOfMix(m, a, b, s, a, c);
    OrientOfMix(m, a, b, s, b, c);
    OrientTurns(m, a, c, p);
    OrientTurns(m, b, c, p);
    OrientTurns(m, c, a, b);
    ZeroSides(m, a, b, c);
    ZeroSides(m, b, a, c);
    OrientSwaps(m, a, c, b);
    hide Orient;
    assert Orient(m, c, p, a) == Orient(m, a, c, p);
    assert Orient(m, c, p, b) == Orient(m, b, c, p);
    assert Orient(m, c, p, a) == Affine(0.0, -o, s);
    assert Orient(m, c, p, b) == Affine(o, 0.0, s);
    hide Affine;
    AffineDifference(o, s, t);
  }

  lemma OrientSwaps(m: Vector3, a: Vector3, b: Vector3, c: Vector3)
    ensures Orient(m, a, b, c) == -Orient(m, a, c, b)
  {
    ZeroSides(m, a, b, c);
    ZeroSides(m, b, c, a);
  }

  lemma AffineDifference(o: real, s: real, t: real)
    requires o >= 0.0 && s <= t
    ensures Affine(Affine(0.0, -o, s), Affine(o, 0.0, s), t) >= 0.0
  {
    assert Affine(Affine(0.0, -o, s), Affine(o, 0.0, s), t) == o * (t - s);
  }

  /** Three vertices in order, the last one possibly the first vertex again. */
  lemma VertexTriple(m: Vector3, v: seq<Vector3>, i: nat, j: nat, k: nat)
    requires Convex(m, v) && i <= j <= k <= |v| && i < |v| && j < |v|
    ensures Orient(m, v[i], v[j], if k < |v| then v[k] else v[0]) >= 0.0
  {
    var c := if k < |v| then v[k] else v[0];
    ZeroSides(m, v[i], v[j], c);
    ZeroSides(m, v[i], c, v[j]);
    OrientTurns(m, v[0], v[i], v[j]);
    hide Orient;
  }

  /** The endpoint of an edge after its start, as a number that is |v| where the boundary closes. */
  lemma NextVertex(v: seq<Vector3>, i: nat)
    requires i < |v|
    ensures v[Next(v, i)] == if i + 1 < |v| then v[i + 1] else v[0]
  {
  }

  /** Two vertices in order and a place on a later edge. */
  lemma VertexVertexPlace(m: Vector3, v: seq<Vector3>, i: nat, j: nat, c: Place)
    requires Convex(m, v) && OnBoundary(v, c) && i <= j <= c.edge
    ensures Orient(m, v[i], v[j], PointAt(v, c)) >= 0.0
  {
    VertexTriple(m, v, i, j, c.edge);
    VertexTriple(m, v, i, j, c.edge + 1);
    NextVertex(v, c.edge);
    hide Orient;
    hide Mix;
    MixedTriple(m, v[i], v[j], v[c.edge], v[Next(v, c.edge)], c.part);
  }

  /** A vertex and places on two later edges. */
  lemma VertexPlacePlace(m: Vector3, v: seq<Vector3>, i: nat, b: Place, c: Place)
    requires Convex(m, v) && OnBoundary(v, b) && OnBoundary(v, c) && i <= b.edge && InOrder(b, c)
    ensures Orient(m, v[i], PointAt(v, b), PointAt(v, c)) >= 0.0
  {
    var j := b.edge;
    var p, q, x, y := v[j], v[Next(v, j)], PointAt(v, b), PointAt(v, c);
    if j == c.edge {
      VertexTriple(m, v, i, j, j + 1);
      NextVertex(v, j);
      hide Orient;
      hide Mix;
      SameSegment(m, p, q, b.part, c.part, v[i]);
    } else {
      VertexVertexPlace(m, v, i, j, c);
      VertexVertexPlace(m, v, i, j + 1, c);
      OrientTurns(m, v[i], p, y);
      OrientTurns(m, v[i], q, y);
      OrientTurns(m, v[i], x, y);
      hide Orient;
      hide Mix;
      MixedTriple(m, y, v[i], p, q, b.part);
    }
  }

  /** Places in order do not turn clockwise. */
  lemma PlaceTriple(m: Vector3, v: seq<Vector3>, a: Place, b: Place, c: Place)
    requires Convex(m, v) && OnBoundary(v, a) && OnBoundary(v, b) && OnBoundary(v, c)
    requires InOrder(a, b) && InOrder(b, c)
    ensures Orient(m, PointAt(v, a), PointAt(v, b), PointAt(v, c)) >= 0.0
  {
    var i := a.edge;
    var p, q, w, x, y := v[i], v[Next(v, i)], PointAt(v, a), PointAt(v, b), PointAt(v, c);
    if i < b.edge {
      VertexPlacePlace(m, v, i, b, c);
      VertexPlacePlace(m, v, i + 1, b, c);
      OrientTurns(m, p, x, y);
      OrientTurns(m, q, x, y);
      OrientTurns(m, w, x, y);
      hide Orient;
      hide Mix;
      MixedTriple(m, x, y, p, q, a.part);
    } else if i < c.edge {
      VertexVertexPlace(m, v, i, i + 1, c);
      OrientTurns(m, p, q, y);
      OrientTurns(m, w, x, y);
      hide Orient;
      hide Mix;
      SameSegment(m, p, q, a.part, b.part, y);
    } else {
      OrientOfMix(m, p, q, c.part, w, x);
      Collinear(m, p, q, a.part, b.part);
      hide Orient;
      hide Mix;
      assert Affine(0.0, 0.0, c.part) == 0.0;
    }
  }

  lemma Collinear(m: Vector3, a: Vector3, b: Vector3, s: real, t: real)
    ensures Orient(m, Mix(a, b, s), Mix(a, b, t), a) == 0.0
    ensures Orient(m, Mix(a, b, s), Mix(a, b, t), b) == 0.0
  {
    ZeroSides(m, a, b, b);
    ZeroSides(m, b, a, a);
    ZeroAlong(m, a, b, s, t, a);
    ZeroAlong(m, a, b, s, t, b);
  }

  lemma ZeroAlong(m: Vector3, a: Vector3, b: Vector3, s: real, t: real, c: Vector3)
    requires Orient(m, c, a, b) == 0.0 && Orient(m, c, a, a) == 0.0 && Orient(m, c, b, b) == 0.0
    ensures Orient(m, Mix(a, b, s), Mix(a, b, t), c) == 0.0
  {
    var p, q := Mix(a, b, s), Mix(a, b, t);
    OrientTurns(m, p, q, c);
    OrientTurns(m, a, c, p);
    OrientTurns(m, b, c, p);
    OrientSwaps(m, c, a, b);
    OrientTurns(m, a, c, b);
    OrientTurns(m, a, c, a);
    OrientTurns(m, b, c, a);
    OrientTurns(m, b, c, b);
    OrientOfMix(m, a, b, t, c, p);
    OrientOfMix(m, a, b, s, a, c);
    OrientOfMix(m, a, b, s, b, c);
    hide Orient;
    assert Orient(m, a, c, b) == Orient(m, c, b, a) == 0.0;
    assert Orient(m, a, c, a) == Orient(m, c, a, a) == 0.0;
    assert Affine(0.0, 0.0, s) == 0.0 && Affine(0.0, 0.0, t) == 0.0;
  }

  /** Both parts of a convex polygon are convex. */
  lemma PartsAreConvex(plane: Plane, m: Vector3, v: seq<Vector3>, side: bool)
    requires Convex(m, v)
    ensures Convex(m, Clip(plane, v, side, |v|))
  {
    var points, places := Clip(plane, v, side, |v|), ClipPlaces(plane, v, side, |v|);
    ClipFollowsBoundary(plane, v, side, |v|);
    hide Orient;
    hide Clip;
    hide ClipPlaces;
    hide PointAt;
    forall i, j, k | 0 <= i < j < k < |points|
      ensures Orient(m, points[i], points[j], points[k]) >= 0.0
    {
      PlaceTriple(m, v, places[i], places[j], places[k]);
    }
  }

  // ---------- the new edge ----------

  ghost predicate HasEdge(s: seq<Vector3>, a: Vector3, b: Vector3) {
    exists i :: 0 <= i < |s| && s[i] == a && s[Next(s, i)] == b
  }

  ghost predicate Consecutive(s: seq<Vector3>, a: Vector3, b: Vector3) {
    exists i :: 0 <= i < |s| - 1 && s[i] == a && s[i + 1] == b
  }

  lemma ConsecutiveAppend(s: seq<Vector3>, a: Vector3, b: Vector3, t: seq<Vector3>)
    requires Consecutive(s, a, b)
    ensures Consecutive(s + t, a, b)
  {
    var i :| 0 <= i < |s| - 1 && s[i] == a && s[i + 1] == b;
    assert (s + t)[i] == a && (s + t)[i + 1] == b;
  }

  lemma ConsecutiveEnd(s: seq<Vector3>, b: Vector3, t: seq<Vector3>)
    requires s != []
    ensures Consecutive(s + [b] + t, Last(s), b)
  {
    var w := s + [b] + t;
    assert w[|s| - 1] == Last(s) && w[|s| - 1 + 1] == b;
  }

  lemma ConsecutiveIsEdge(s: seq<Vector3>, a: Vector3, b: Vector3)
    requires Consecutive(s, a, b)
    ensures HasEdge(s, a, b)
  {
    var i :| 0 <= i < |s| - 1 && s[i] == a && s[i + 1] == b;
    assert s[Next(s, i)] == b;
  }

  lemma LastToFirst(s: seq<Vector3>)
    requires s != []
    ensures HasEdge(s, Last(s), s[0])
  {
    assert s[Next(s, |s| - 1)] == s[0];
  }

  /** The part on the side of the first vertex goes straight from the first crossing to the second. */
  lemma {:induction false} FirstSideJoins(plane: Plane, v: seq<Vector3>, k: nat)
    requires 0 < k <= |v| && |Meets(plane, v, k - 1)| >= 2
    ensures var m := Meets(plane, v, k - 1);
      Consecutive(Trace(plane, v, HalfSpaceContains(plane, v[0]), k), m[0], m[1])
  {
    hide HalfSpaceContains;
    hide Meet;
    hide Consecutive;
    var f := HalfSpaceContains(plane, v[0]);
    var m, s := Meets(plane, v, k - 2), Trace(plane, v, f, k - 1);
    CrossingsParity(plane, v, k - 1);
    TraceEnds(plane, v, f, k - 1);
    if |m| >= 2 {
      FirstSideJoins(plane, v, k - 1);
      var t := Trace(plane, v, f, k)[|s|..];
      ConsecutiveAppend(s, m[0], m[1], t);
      assert Trace(plane, v, f, k) == s + t;
    } else {
      assert |m| == 1 && Switches(plane, v, k - 2);
      ConsecutiveEnd(s, Meet(plane, v, k - 2), [v[k - 1]]);
    }
  }

  /** With one or two crossings, the first leaves the side of the first vertex and the second enters it. */
  lemma {:induction false} MeetsByDirection(plane: Plane, v: seq<Vector3>, k: nat, a: Vector3, b: Vector3)
    requires k <= |v| && v != []
    ensures var m, f := Meets(plane, v, k), HalfSpaceContains(plane, v[0]);
      && (|m| == 1 || |m| == 2 ==> LastMeet(plane, v, f, k, a) == m[0])
      && (|m| == 2 ==> LastMeet(plane, v, !f, k, b) == m[1])
  {
    hide HalfSpaceContains;
    hide Meet;
    if k > 0 {
      MeetsByDirection(plane, v, k - 1, a, b);
      CrossingsParity(plane, v, k);
    }
  }

  lemma JoinedAtClose(plane: Plane, v: seq<Vector3>)
    requires v != [] && |Meets(plane, v, |v|)| == 2
    ensures var m, f := Meets(plane, v, |v|), HalfSpaceContains(plane, v[0]);
      HasEdge(Clip(plane, v, f, |v|), m[0], m[1]) && HasEdge(Clip(plane, v, !f, |v|), m[1], m[0])
  {
    hide HalfSpaceContains;
    hide Meet;
    hide Consecutive;
    hide HasEdge;
    var n, f := |v|, HalfSpaceContains(plane, v[0]);
    var m := Meets(plane, v, n);
    var s, o := Clip(plane, v, f, n), Clip(plane, v, !f, n);
    CrossingsParity(plane, v, n);
    TraceEnds(plane, v, f, n);
    TraceEnds(plane, v, !f, n);
    if Switches(plane, v, n - 1) {
      ConsecutiveEnd(Trace(plane, v, f, n), m[1], []);
      assert s == Trace(plane, v, f, n) + [m[1]] + [];
    } else {
      FirstSideJoins(plane, v, n);
    }
    ConsecutiveIsEdge(s, m[0], m[1]);
    LastToFirst(o);
  }

  /** When the plane is crossed twice, the new edge from its start to its stop belongs to the part below, and
      the part above has it the other way round. */
  lemma NewEdgeIsShared(plane: Plane, v: seq<Vector3>, start0: Vector3, stop0: Vector3)
    requires v != [] && |Meets(plane, v, |v|)| == 2
    ensures var start, stop := LastMeet(plane, v, false, |v|, start0), LastMeet(plane, v, true, |v|, stop0);
      HasEdge(Clip(plane, v, true, |v|), stop, start) && HasEdge(Clip(plane, v, false, |v|), start, stop)
  {
    JoinedAtClose(plane, v);
    if HalfSpaceContains(plane, v[0]) {
      MeetsByDirection(plane, v, |v|, stop0, start0);
    } else {
      MeetsByDirection(plane, v, |v|, start0, stop0);
    }
  }
}
