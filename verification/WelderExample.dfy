/** Five vertices and a radius that spans more than one cell of the grid. */
module WelderExample {
  import opened Vectors
  import opened Squares
  import opened VertexWelder

  const ORIGIN := Vector3(0.0, 0.0, 0.0)
  const CORNER := Vector3(10.0, 20.0, 40.0)

  /** As far from the origin as the radius, and a little farther. */
  const ON_RADIUS := Vector3(0.3, 0.4, 1.2)
  const BEYOND := Vector3(0.3, 0.4, 1.21)

  /** Nearer to the origin, but in a cell between those of the origin and of its displacements. */
  const BETWEEN := Vector3(1.0, 0.0, 0.0)

  const RADIUS := 1.3
  const OLD := [ORIGIN, CORNER, ON_RADIUS, BEYOND, BETWEEN]
  const NEW := [ORIGIN, CORNER, BEYOND, BETWEEN]
  const FRAME := Frame(ORIGIN, Vector3(0.1, 0.05, 0.025), RADIUS)

  lemma BoxIs()
    ensures FramesBox(OLD, RADIUS, FRAME)
  {
    assert OLD[0] == ORIGIN && OLD[1] == CORNER;
    assert AxisScale(10.0) == 0.1 && AxisScale(20.0) == 0.05 && AxisScale(40.0) == 0.025;
    assert BoxOf(OLD, ORIGIN, CORNER) && FrameOf(ORIGIN, CORNER, RADIUS) == FRAME;
  }

  // ---------- cells and distances ----------

  lemma CellsAre()
    ensures ToGridCoords(FRAME, ORIGIN) == Cell(0, 0, 0) && ToGridCoords(FRAME, CORNER) == Cell(31, 31, 31)
    ensures ToGridCoords(FRAME, ON_RADIUS) == Cell(0, 0, 0) && ToGridCoords(FRAME, BEYOND) == Cell(0, 0, 0)
    ensures ToGridCoords(FRAME, BETWEEN) == Cell(3, 0, 0)
  {
  }

  /** The three cells of a vertex along the first axis. */
  lemma NotListed(v: Vector3, c: Cell)
    requires Axis(Scaled(v.x - RADIUS, 0.0, 0.1)) != c.x
    requires Axis(Scaled(v.x, 0.0, 0.1)) != c.x && Axis(Scaled(v.x + RADIUS, 0.0, 0.1)) != c.x
    ensures !IsNeighbor(FRAME, v, c)
  {
    forall dx, dy, dz | -1 <= dx <= 1 && -1 <= dy <= 1 && -1 <= dz <= 1
      ensures c != ToGridCoords(FRAME, Displaced(v, dx, dy, dz, RADIUS))
    {
      Along(v, dx, dy, dz);
    }
    hide ToGridCoords;
    hide Displaced;
  }

  lemma Along(v: Vector3, dx: int, dy: int, dz: int)
    requires -1 <= dx <= 1
    ensures Displaced(v, dx, dy, dz, RADIUS).x == if dx == -1 then v.x - RADIUS else if dx == 0 then v.x
                                                                                     else v.x + RADIUS
    ensures ToGridCoords(FRAME, v).x == Axis(Scaled(v.x, 0.0, 0.1))
  {
  }

  lemma OriginIsMissed()
    ensures !IsNeighbor(FRAME, ORIGIN, Cell(31, 31, 31)) && !IsNeighbor(FRAME, ORIGIN, Cell(3, 0, 0))
  {
    NotListed(ORIGIN, Cell(31, 31, 31));
    NotListed(ORIGIN, Cell(3, 0, 0));
  }

  lemma DistancesAre()
    ensures SquaredDistance(ORIGIN, ON_RADIUS) == Square(RADIUS) && Square(RADIUS) == 1.69
    ensures SquaredDistance(ORIGIN, BEYOND) == 1.7141 && SquaredDistance(BEYOND, ON_RADIUS) == 0.0001
    ensures SquaredDistance(BEYOND, BETWEEN) == 2.1141 && SquaredDistance(BETWEEN, ON_RADIUS) == 2.09
    ensures SquaredDistance(CORNER, ON_RADIUS) > 80.0 && SquaredDistance(CORNER, BEYOND) > 80.0
    ensures SquaredDistance(CORNER, BETWEEN) > 80.0 && SquaredDistance(ORIGIN, BETWEEN) == 1.0
  {
  }

  lemma NothingNear(vertices: seq<Vector3>, v: Vector3)
    requires forall n :: 0 <= n < |vertices| ==>
               !Within(vertices[n], v, RADIUS) || !IsNeighbor(FRAME, vertices[n], ToGridCoords(FRAME, v))
    ensures !HasNear(FRAME, vertices, v)
  {
    hide IsNeighbor;
    hide Within;
    hide ToGridCoords;
  }

  lemma SomethingNear(vertices: seq<Vector3>, v: Vector3, n: nat)
    requires n < |vertices| && Within(vertices[n], v, RADIUS) && IsNeighbor(FRAME, vertices[n], ToGridCoords(FRAME, v))
    ensures HasNear(FRAME, vertices, v)
  {
    hide IsNeighbor;
    hide Within;
    hide ToGridCoords;
  }

  lemma NextPrimed(k: nat, vertices: seq<Vector3>)
    requires k < 5 && Primed(FRAME, OLD, k) == vertices
    ensures Primed(FRAME, OLD, k + 1) == if HasNear(FRAME, vertices, OLD[k]) then vertices else vertices + [OLD[k]]
  {
    hide HasNear;
  }

  /** The first pass keeps all but the third vertex. */
  lemma NewVertices()
    ensures Primed(FRAME, OLD, 5) == NEW
  {
    CellsAre();
    DistancesAre();
    OriginIsMissed();
    OwnCell(FRAME, ORIGIN);
    hide SquaredDistance;
    hide ToGridCoords;
    hide IsNeighbor;
    hide HasNear;
    assert Primed(FRAME, OLD, 0) == [];
    hide Primed;
    NothingNear([], ORIGIN);
    NextPrimed(0, []);
    NothingNear([ORIGIN], CORNER);
    NextPrimed(1, [ORIGIN]);
    var two := [ORIGIN, CORNER];
    SomethingNear(two, ON_RADIUS, 0);
    NextPrimed(2, two);
    NothingNear(two, BEYOND);
    NextPrimed(3, two);
    var three := [ORIGIN, CORNER, BEYOND];
    NothingNear(three, BETWEEN);
    NextPrimed(4, three);
  }

  lemma NewDiffer()
    ensures NoTwins(NEW)
  {
  }

  lemma Finds(k: nat, index: nat)
    requires k < 4 && IsIndex(FRAME, NEW, NEW[k], NEW, index)
    ensures index == k
  {
    NewDiffer();
    OwnIndex(FRAME, NEW, k, NEW, index);
  }

  /** In the second pass the third vertex finds one that is nearer than the origin. */
  lemma FindsBeyond(index: nat)
    requires IsIndex(FRAME, NEW, ON_RADIUS, NEW, index)
    ensures index == 2
  {
    CellsAre();
    DistancesAre();
    OwnCell(FRAME, BEYOND);
    hide SquaredDistance;
    hide ToGridCoords;
    hide IsNeighbor;
    SomethingNear(NEW, ON_RADIUS, 2);
    assert 2 in Near(FRAME, NEW, ToGridCoords(FRAME, ON_RADIUS), |NEW|);
    assert NEW[2] == BEYOND && NEW[0] == ORIGIN && NEW[1] == CORNER && NEW[3] == BETWEEN;
  }

  lemma SnappedTo(toNew: seq<int>)
    requires WeldsIn(FRAME, OLD, toNew)
    ensures toNew == [0, 1, 2, 2, 3]
  {
    NewVertices();
    hide Primed;
    hide IsIndex;
    assert OLD[0] == NEW[0] && OLD[1] == NEW[1] && OLD[2] == ON_RADIUS && OLD[3] == NEW[2] && OLD[4] == NEW[3];
    Finds(0, toNew[0]);
    Finds(1, toNew[1]);
    FindsBeyond(toNew[2]);
    Finds(2, toNew[3]);
    Finds(3, toNew[4]);
  }

  lemma LastsAre(toNew: seq<int>, toOld: seq<int>)
    requires toNew == [0, 1, 2, 2, 3] && |toOld| == 4 && forall n :: 0 <= n < 4 ==> IsLastOf(toNew, toOld[n], n)
    ensures toOld == [0, 1, 3, 4]
  {
    assert toNew[0] == 0 && toNew[1] == 1 && toNew[2] == 2 && toNew[3] == 2 && toNew[4] == 3;
    assert IsLastOf(toNew, toOld[0], 0) && IsLastOf(toNew, toOld[1], 1);
    assert IsLastOf(toNew, toOld[2], 2) && IsLastOf(toNew, toOld[3], 3);
  }

  method WeldFive() returns (newVertices: seq<Vector3>, toNew: seq<int>, toOld: seq<int>)
    ensures newVertices == [ORIGIN, CORNER, BEYOND, BETWEEN] && toNew == [0, 1, 2, 2, 3] && toOld == [0, 1, 3, 4]
  {
    BoxIs();
    NewVertices();
    hide FramesBox;
    hide Primed;
    hide WeldsIn;
    hide IsIndex;
    hide IsLastOf;
    hide Within;
    hide NoTwins;
    hide FromOld;
    hide RadiusFits;
    hide Fits;
    hide GridOk;
    var welder := new Welder(OLD, RADIUS);
    SameFrame(OLD, RADIUS, welder.frame, FRAME);
    welder.Weld();
    newVertices, toNew, toOld := welder.newVertexArray, welder.toNew, welder.toOld;
    SnappedTo(toNew);
    LastsAre(toNew, toOld);
  }
}
