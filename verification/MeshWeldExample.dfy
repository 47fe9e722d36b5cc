/** Two triangles with vertices of their own, two of which are at the same places: the seam is closed. */
module MeshWeldExample {
  import opened MeshTopology
  import opened MeshAdjacency
  import opened MeshWelding
  import opened MeshWeldAdjacency
  import Vectors
  import VertexWelder

  /** The triangles 0 1 2 and 3 4 5; vertex 3 is where 1 is, and 4 where 0 is. */
  const PLACES := [Vectors.Vector3(0.0, 0.0, 0.0), Vectors.Vector3(10.0, 0.0, 0.0), Vectors.Vector3(0.0, 10.0, 0.0),
                   Vectors.Vector3(10.0, 0.0, 0.0), Vectors.Vector3(0.0, 0.0, 0.0), Vectors.Vector3(0.0, 0.0, 10.0)]

  const FACES := [Face([0, 1, 2], [0, 1, 2]), Face([3, 4, 5], [3, 4, 5])]
  const EDGES := [Edge(0, 1, 0, NONE), Edge(1, 2, 0, NONE), Edge(2, 0, 0, NONE),
                  Edge(3, 4, 1, NONE), Edge(4, 5, 1, NONE), Edge(5, 3, 1, NONE)]

  lemma FirstIsClosed()
    ensures Closed(FACES[0], EDGES)
  {
    var face := Face([0, 1, 2], [0, 1, 2]);
    assert Directed(0, EDGES) == (0, 1) && Directed(1, EDGES) == (1, 2) && Directed(2, EDGES) == (2, 0);
    hide Directed;
    hide EDGES;
    ClosedFromReferences(face, EDGES);
  }

  lemma SecondIsClosed()
    ensures Closed(FACES[1], EDGES)
  {
    var face := Face([3, 4, 5], [3, 4, 5]);
    assert Directed(3, EDGES) == (3, 4) && Directed(4, EDGES) == (4, 5) && Directed(5, EDGES) == (5, 3);
    hide Directed;
    hide EDGES;
    ClosedFromReferences(face, EDGES);
  }

  lemma SlotsAgreeHere()
    ensures SlotsAgree(FACES, EDGES)
  {
    var edges := EDGES;
    assert edges[0].forward == 0 && edges[1].forward == 0 && edges[2].forward == 0;
    assert edges[3].forward == 1 && edges[4].forward == 1 && edges[5].forward == 1;
    hide EDGES;
    assert forall f :: 0 <= f < 2 ==> FaceShape(FACES[f]);
    forall f, i | 0 <= f < 2 && 0 <= i < 3 && FACES[f].edgeIndex[i] != NONE
      ensures 0 <= IndexOf(FACES[f].edgeIndex[i]) < |EDGES| && SideIs(FACES[f].edgeIndex[i], EDGES, f)
    {
      assert FACES[f].edgeIndex[i] == 3 * f + i;
    }
  }

  lemma SidesListedHere()
    ensures SidesListed(FACES, EDGES)
  {
    var edges := EDGES;
    assert forall e :: 0 <= e < 6 ==> edges[e].backward == NONE && edges[e].forward == e / 3;
    hide EDGES;
    assert FACES[0].edgeIndex[0] == 0 && FACES[0].edgeIndex[1] == 1 && FACES[0].edgeIndex[2] == 2;
    assert FACES[1].edgeIndex[0] == 3 && FACES[1].edgeIndex[1] == 4 && FACES[1].edgeIndex[2] == 5;
  }

  lemma TrianglesAreLinked()
    ensures Linked(FACES, EDGES) && AnyFace(EDGES) && EndsIn(EDGES, 6) && CornersIn(FACES, 6)
  {
    FirstIsClosed();
    SecondIsClosed();
    SlotsAgreeHere();
    SidesListedHere();
    hide Closed;
    hide SlotsAgree;
    hide SidesListed;
  }

  // ---------- where the vertices go ----------

  lemma FarApart(a: Vectors.Vector3, b: Vectors.Vector3)
    requires CommonPoint(a, b, 1.0)
    ensures -2.0 <= a.x - b.x <= 2.0 && -2.0 <= a.y - b.y <= 2.0 && -2.0 <= a.z - b.z <= 2.0
  {
    var p :| VertexWelder.Within(p, a, 1.0) && VertexWelder.Within(p, b, 1.0);
    VertexWelder.WithinAxes(p, a, 1.0);
    VertexWelder.WithinAxes(p, b, 1.0);
    hide VertexWelder.Within;
  }

  /** Each vertex goes to a vertex at its place. */
  lemma GoesNear(v: nat, w: nat)
    requires v < 6 && w < 6 && CommonPoint(PLACES[v], PLACES[w], 1.0)
    ensures PLACES[v] == PLACES[w]
    ensures v == w || (v == 0 && w == 4) || (v == 4 && w == 0) || (v == 1 && w == 3) || (v == 3 && w == 1)
  {
    FarApart(PLACES[v], PLACES[w]);
    hide CommonPoint;
  }

  /** The last of the vertices at its place. */
  lemma CanonicalIs(canonical: seq<int>, toNew: seq<int>)
    requires IsCanonical(canonical, toNew) && |canonical| == 6
    requires forall v :: 0 <= v < 6 ==>
               0 <= canonical[v] < 6 && CommonPoint(PLACES[v], PLACES[canonical[v]], 1.0)
    requires forall v, w :: 0 <= v < 6 && 0 <= w < 6 && PLACES[v] == PLACES[w] ==> canonical[v] == canonical[w]
    ensures canonical == [4, 3, 2, 3, 4, 5]
  {
    forall v | 0 <= v < 6
      ensures canonical[v] >= v
      ensures canonical[v] == v || (v == 0 && canonical[v] == 4) || (v == 1 && canonical[v] == 3)
    {
      CanonicalProperties(canonical, toNew, v, v);
      GoesNear(v, canonical[v]);
    }
    hide CommonPoint;
    hide IsCanonical;
    assert PLACES[0] == PLACES[4] && PLACES[1] == PLACES[3];
  }

  // ---------- the seam ----------

  const SEAM := multiset{HalfEdge(4, 3, 0), HalfEdge(3, 2, 0), HalfEdge(2, 4, 0),
                         HalfEdge(3, 4, 1), HalfEdge(4, 5, 1), HalfEdge(5, 3, 1)}

  lemma MovedAre()
    requires EndsIn(EDGES, 6)
    ensures MovedEdges(EDGES, [4, 3, 2, 3, 4, 5])
         == [Edge(4, 3, 0, NONE), Edge(3, 2, 0, NONE), Edge(2, 4, 0, NONE),
             Edge(3, 4, 1, NONE), Edge(4, 5, 1, NONE), Edge(5, 3, 1, NONE)]
  {
  }

  lemma OneSide(edges: seq<Edge>, u: int, v: int, f: int)
    requires f != NONE
    ensures Sides(edges + [Edge(u, v, f, NONE)]) == Sides(edges) + multiset{HalfEdge(u, v, f)}
  {
    SidesLast(edges, Edge(u, v, f, NONE));
    hide Sides;
  }

  lemma ThreeSides(edges: seq<Edge>, a: int, b: int, c: int, d: int, f: int)
    requires f != NONE
    ensures Sides(edges + [Edge(a, b, f, NONE), Edge(b, c, f, NONE), Edge(c, d, f, NONE)])
         == Sides(edges) + multiset{HalfEdge(a, b, f), HalfEdge(b, c, f), HalfEdge(c, d, f)}
  {
    hide Sides;
    var x, y, z := Edge(a, b, f, NONE), Edge(b, c, f, NONE), Edge(c, d, f, NONE);
    OneSide(edges, a, b, f);
    OneSide(edges + [x], b, c, f);
    OneSide(edges + [x] + [y], c, d, f);
    assert edges + [x] + [y] + [z] == edges + [x, y, z];
  }

  lemma MovedSides()
    requires EndsIn(EDGES, 6)
    ensures Sides(MovedEdges(EDGES, [4, 3, 2, 3, 4, 5])) == SEAM
  {
    MovedAre();
    hide MovedEdges;
    hide EDGES;
    var first := [Edge(4, 3, 0, NONE), Edge(3, 2, 0, NONE), Edge(2, 4, 0, NONE)];
    var second := [Edge(3, 4, 1, NONE), Edge(4, 5, 1, NONE), Edge(5, 3, 1, NONE)];
    assert Sides([]) == multiset{} && [] + first == first;
    hide Sides;
    ThreeSides([], 4, 3, 2, 4, 0);
    ThreeSides(first, 3, 4, 5, 3, 1);
    assert MovedEdges(EDGES, [4, 3, 2, 3, 4, 5]) == first + second;
  }

  lemma {:induction false} SideOfSome(edges: seq<Edge>, h: HalfEdge) returns (e: nat)
    requires h in Sides(edges)
    ensures e < |edges| && h in EdgeSides(edges[e])
  {
    var n := |edges| - 1;
    if h in EdgeSides(edges[n]) {
      e := n;
    } else {
      e := SideOfSome(edges[..n], h);
    }
  }

  lemma {:induction false} SomeSide(edges: seq<Edge>, e: nat, h: HalfEdge)
    requires e < |edges| && h in EdgeSides(edges[e])
    ensures h in Sides(edges)
  {
    hide EdgeSides;
    if e < |edges| - 1 {
      SomeSide(edges[..|edges| - 1], e, h);
    }
  }

  /** An interior edge among these sides is the seam. */
  lemma InteriorIsSeam(edges: seq<Edge>, e: nat)
    requires Sides(edges) == SEAM && e < |edges| && !edges[e].Boundary()
    ensures edges[e] == Edge(4, 3, 0, 1) || edges[e] == Edge(3, 4, 1, 0)
  {
    var x := edges[e];
    SomeSide(edges, e, HalfEdge(x.start, x.end, x.forward));
    SomeSide(edges, e, HalfEdge(x.end, x.start, x.backward));
    hide Sides;
  }

  /** Two open edges with the two sides along the seam could be joined. */
  lemma OpenSeam(x: Edge, y: Edge)
    requires HalfEdge(4, 3, 0) in EdgeSides(x) && HalfEdge(3, 4, 1) in EdgeSides(y) && x.Boundary() && y.Boundary()
    ensures x != y && CouldJoin(x, y) && CouldJoin(y, x)
  {
  }

  lemma OpenBehind(edges: seq<Edge>, e: nat)
    requires BoundaryLast(edges) && e < |edges| && !edges[e].Boundary()
    ensures !edges[0].Boundary()
  {
  }

  lemma SeamIsClosed(edges: seq<Edge>)
    requires Sides(edges) == SEAM && NothingToJoin(edges) && BoundaryLast(edges)
    ensures edges != [] && (edges[0] == Edge(4, 3, 0, 1) || edges[0] == Edge(3, 4, 1, 0))
  {
    hide Sides;
    hide EdgeSides;
    hide CouldJoin;
    hide BoundaryLast;
    var d := SideOfSome(edges, HalfEdge(4, 3, 0));
    var e := SideOfSome(edges, HalfEdge(3, 4, 1));
    if !edges[d].Boundary() {
      OpenBehind(edges, d);
    } else {
      if edges[e].Boundary() {
        OpenSeam(edges[d], edges[e]);
      }
      OpenBehind(edges, e);
    }
    InteriorIsSeam(edges, 0);
  }

  lemma CornersAre(faces: seq<Face>, edges: seq<Edge>, moved: seq<Face>, before: seq<Edge>, canonical: seq<int>)
    requires AreMoved(FACES, moved, canonical) && canonical == [4, 3, 2, 3, 4, 5]
    requires SameArrows(moved, before, faces, edges)
    ensures |faces| == 2 && faces[0].vertexIndex == [4, 3, 2] && faces[1].vertexIndex == [3, 4, 5]
  {
    assert IsMoved(FACES[0], moved[0], canonical) && IsMoved(FACES[1], moved[1], canonical);
    assert SameFaceArrows(moved[0], before, faces[0], edges) && SameFaceArrows(moved[1], before, faces[1], edges);
    hide Directed;
  }

  /** The two triangles share their seam afterwards, whichever way its edge points. */
  method WeldTriangles() returns (mesh: Mesh)
    ensures |mesh.faceArray| == 2
    ensures mesh.faceArray[0].vertexIndex == [4, 3, 2] && mesh.faceArray[1].vertexIndex == [3, 4, 5]
    ensures mesh.edgeArray != []
    ensures mesh.edgeArray[0] == Edge(4, 3, 0, 1) || mesh.edgeArray[0] == Edge(3, 4, 1, 0)
    ensures Sides(mesh.edgeArray) == SEAM
  {
    TrianglesAreLinked();
    MovedSides();
    mesh := new Mesh();
    mesh.faceArray, mesh.edgeArray := FACES, EDGES;
    hide Linked;
    hide Consistent;
    hide VertexLists;
    hide NothingToJoin;
    hide BoundaryLast;
    hide IsCanonical;
    hide CommonPoint;
    hide Sides;
    hide MovedEdges;
    hide AreMoved;
    hide SameArrows;
    hide VertexWelder.IsWeldingOf;
    ghost var canonical, toNew, moved := WeldAdjacency(mesh, PLACES, 1.0);
    CanonicalIs(canonical, toNew);
    SeamIsClosed(mesh.edgeArray);
    CornersAre(mesh.faceArray, mesh.edgeArray, moved, MovedEdges(EDGES, canonical), canonical);
  }
}
