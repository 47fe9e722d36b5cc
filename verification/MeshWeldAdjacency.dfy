/** weldAdjacency: moving a mesh onto its welded vertices and closing the seams. */
module MeshWeldAdjacency {
  import opened MeshTopology
  import opened MeshAdjacency
  import opened MeshWelding
  import MeshTheorems
  import Vectors
  import VertexWelder

  // ---------- canonical vertices ----------

  /** canonical sends each vertex to the last one that is welded to the same new vertex. */
  ghost predicate IsCanonical(canonical: seq<int>, toNew: seq<int>) {
    && |canonical| == |toNew|
    && forall v :: 0 <= v < |canonical| ==> 0 <= toNew[v] && VertexWelder.IsLastOf(toNew, canonical[v], toNew[v])
  }

  /** Canonical vertices stay where they are, and vertices share one exactly when welded together. */
  lemma CanonicalProperties(canonical: seq<int>, toNew: seq<int>, v: int, w: int)
    requires IsCanonical(canonical, toNew) && 0 <= v < |canonical| && 0 <= w < |canonical|
    ensures 0 <= canonical[v] < |canonical| && canonical[canonical[v]] == canonical[v]
    ensures canonical[v] >= v
    ensures canonical[v] == canonical[w] <==> toNew[v] == toNew[w]
  {
    assert VertexWelder.IsLastOf(toNew, canonical[v], toNew[v]);
    assert VertexWelder.IsLastOf(toNew, canonical[w], toNew[w]);
    var c := canonical[v];
    assert VertexWelder.IsLastOf(toNew, canonical[c], toNew[c]);
  }

  /** The vertices welded together lie within the radius of one point. */
  ghost predicate CommonPoint(a: Vectors.Vector3, b: Vectors.Vector3, radius: real) {
    exists p: Vectors.Vector3 :: VertexWelder.Within(p, a, radius) && VertexWelder.Within(p, b, radius)
  }

  /** Vertices at the same place are welded together. */
  lemma SamePlace(geometry: seq<Vectors.Vector3>, radius: real, canonical: seq<int>, toNew: seq<int>)
    requires VertexWelder.IsWeldingOf(geometry, radius, toNew) && |toNew| == |geometry|
    requires IsCanonical(canonical, toNew)
    ensures forall v, w :: 0 <= v < |geometry| && 0 <= w < |geometry| && geometry[v] == geometry[w] ==>
              canonical[v] == canonical[w]
  {
    VertexWelder.WeldingIsDetermined(geometry, radius, toNew, toNew);
    hide *;
    forall v, w | 0 <= v < |geometry| && 0 <= w < |geometry| && geometry[v] == geometry[w]
      ensures canonical[v] == canonical[w]
    {
      CanonicalLength(canonical, toNew);
      CanonicalProperties(canonical, toNew, v, w);
    }
  }

  lemma CanonicalLength(canonical: seq<int>, toNew: seq<int>)
    requires IsCanonical(canonical, toNew)
    ensures |canonical| == |toNew|
  {
  }

  /** Round trip through toNew and toOld. */
  method Canonical(geometry: seq<Vectors.Vector3>, radius: real) returns (canonical: seq<int>, ghost toNew: seq<int>)
    ensures |canonical| == |geometry| && IsCanonical(canonical, toNew)
    ensures VertexWelder.IsWeldingOf(geometry, radius, toNew)
    ensures forall v :: 0 <= v < |canonical| ==>
              0 <= canonical[v] < |canonical| && CommonPoint(geometry[v], geometry[canonical[v]], radius)
    ensures forall v, w :: 0 <= v < |geometry| && 0 <= w < |geometry| && geometry[v] == geometry[w] ==>
              canonical[v] == canonical[w]
  {
    hide VertexWelder.WeldsIn;
    hide VertexWelder.FramesBox;
    hide VertexWelder.IsWeldingOf;
    hide VertexWelder.Primed;
    hide VertexWelder.IsLastOf;
    hide VertexWelder.Within;
    hide VertexWelder.NoTwins;
    hide VertexWelder.FromOld;
    hide VertexWelder.RadiusFits;
    hide VertexWelder.Fits;
    hide VertexWelder.GridOk;
    var welder := new VertexWelder.Welder(geometry, radius);
    welder.Weld();
    toNew := welder.toNew;
    VertexWelder.WeldingFound(welder.frame, geometry, radius, toNew);
    canonical := [];
    for v := 0 to |geometry|
      invariant |canonical| == v
      invariant forall w :: 0 <= w < v ==> canonical[w] == welder.toOld[welder.toNew[w]]
    {
      canonical := canonical + [welder.toOld[welder.toNew[v]]];
    }
    forall v | 0 <= v < |canonical|
      ensures 0 <= canonical[v] < |canonical| && CommonPoint(geometry[v], geometry[canonical[v]], radius)
      ensures 0 <= toNew[v] && VertexWelder.IsLastOf(toNew, canonical[v], toNew[v])
    {
      var n := toNew[v];
      assert VertexWelder.IsLastOf(toNew, welder.toOld[n], n);
      LastIsSent(toNew, canonical[v], n);
      assert VertexWelder.Within(welder.newVertexArray[n], geometry[v], radius);
      assert VertexWelder.Within(welder.newVertexArray[toNew[canonical[v]]], geometry[canonical[v]], radius);
    }
    SamePlace(geometry, radius, canonical, toNew);
  }

  lemma LastIsSent(toNew: seq<int>, i: int, n: int)
    requires VertexWelder.IsLastOf(toNew, i, n)
    ensures 0 <= i < |toNew| && toNew[i] == n
  {
  }

  /** Two vertices at the same place: the second is canonical for both, not the first. */
  method CanonicalOfTwins(p: Vectors.Vector3, radius: real) returns (canonical: seq<int>)
    ensures canonical == [1, 1]
  {
    hide VertexWelder.IsWeldingOf;
    ghost var toNew;
    canonical, toNew := Canonical([p, p], radius);
    CanonicalProperties(canonical, toNew, 1, 0);
  }

  // ---------- moving a mesh ----------

  ghost predicate IsMap(c: seq<int>) {
    forall v :: 0 <= v < |c| ==> 0 <= c[v] < |c|
  }

  ghost predicate EndsIn(edges: seq<Edge>, n: nat) {
    forall e :: 0 <= e < |edges| ==> 0 <= edges[e].start < n && 0 <= edges[e].end < n
  }

  ghost predicate CornersIn(faces: seq<Face>, n: nat) {
    forall f, i :: 0 <= f < |faces| && 0 <= i < |faces[f].vertexIndex| ==> 0 <= faces[f].vertexIndex[i] < n
  }

  function Moved(e: Edge, c: seq<int>): Edge
    requires 0 <= e.start < |c| && 0 <= e.end < |c|
  {
    e.(start := c[e.start], end := c[e.end])
  }

  ghost function MovedEdges(edges: seq<Edge>, c: seq<int>): (r: seq<Edge>)
    requires EndsIn(edges, |c|)
    ensures |r| == |edges|
  {
    seq(|edges|, e requires 0 <= e < |edges| => Moved(edges[e], c))
  }

  /** face' is the face with its corners moved. */
  ghost predicate IsMoved(face: Face, face': Face, c: seq<int>) {
    && FaceShape(face) && FaceShape(face')
    && face'.edgeIndex == face.edgeIndex
    && forall i :: 0 <= i < 3 ==> 0 <= face.vertexIndex[i] < |c| && face'.vertexIndex[i] == c[face.vertexIndex[i]]
  }

  ghost predicate AreMoved(faces: seq<Face>, faces': seq<Face>, c: seq<int>) {
    |faces'| == |faces| && forall f :: 0 <= f < |faces| ==> IsMoved(faces[f], faces'[f], c)
  }

  function MovedArrow(a: Arrow, c: seq<int>): Arrow
    requires 0 <= a.0 < |c| && 0 <= a.1 < |c|
  {
    (c[a.0], c[a.1])
  }

  ghost predicate ArrowIn(a: Arrow, n: nat) {
    0 <= a.0 < n && 0 <= a.1 < n
  }

  /** Equal bags of three arrows are still equal when their ends are moved. */
  lemma ThreeArrowsMoved(p: Arrow, q: Arrow, r: Arrow, x: Arrow, y: Arrow, z: Arrow, c: seq<int>)
    requires multiset{p, q, r} == multiset{x, y, z}
    requires ArrowIn(x, |c|) && ArrowIn(y, |c|) && ArrowIn(z, |c|)
    ensures ArrowIn(p, |c|) && ArrowIn(q, |c|) && ArrowIn(r, |c|)
    ensures multiset{MovedArrow(p, c), MovedArrow(q, c), MovedArrow(r, c)}
              == multiset{MovedArrow(x, c), MovedArrow(y, c), MovedArrow(z, c)}
  {
    hide MovedArrow;
    ThreeInSomeOrder(p, q, r, x, y, z);
    ThreeReordered(MovedArrow(p, c), MovedArrow(q, c), MovedArrow(r, c), MovedArrow(x, c), MovedArrow(y, c),
                   MovedArrow(z, c));
  }

  /** A reference leads along the moved arrow. */
  lemma MovedReference(edges: seq<Edge>, c: seq<int>, e: int)
    requires EndsIn(edges, |c|) && 0 <= IndexOf(e) < |edges|
    ensures ArrowIn(Directed(e, edges), |c|)
    ensures Directed(e, MovedEdges(edges, c)) == MovedArrow(Directed(e, edges), c)
  {
  }

  lemma MovedClosed(face: Face, face': Face, edges: seq<Edge>, c: seq<int>)
    requires Closed(face, edges) && IsMoved(face, face', c) && EndsIn(edges, |c|)
    ensures Closed(face', MovedEdges(edges, c))
  {
    ClosedReferences(face, edges);
    var e, v := face.edgeIndex, face.vertexIndex;
    MovedReference(edges, c, e[0]);
    MovedReference(edges, c, e[1]);
    MovedReference(edges, c, e[2]);
    hide Directed;
    hide MovedArrow;
    hide Corners;
    hide Closed;
    hide ArrowIn;
    ThreeArrowsMoved((v[0], v[1]), (v[1], v[2]), (v[2], v[0]), Directed(e[0], edges), Directed(e[1], edges),
                     Directed(e[2], edges), c);
    ClosedFromReferences(face', MovedEdges(edges, c));
  }

  lemma MovedAllClosed(faces: seq<Face>, faces': seq<Face>, edges: seq<Edge>, c: seq<int>)
    requires AllClosed(faces, edges) && AreMoved(faces, faces', c) && EndsIn(edges, |c|)
    ensures AllClosed(faces', MovedEdges(edges, c))
  {
    hide Closed;
    hide IsMoved;
    hide MovedEdges;
    forall f | 0 <= f < |faces'|
      ensures Closed(faces'[f], MovedEdges(edges, c))
    {
      MovedClosed(faces[f], faces'[f], edges, c);
    }
  }

  lemma MovedAgree(faces: seq<Face>, faces': seq<Face>, edges: seq<Edge>, c: seq<int>)
    requires SlotsAgree(faces, edges) && AreMoved(faces, faces', c) && EndsIn(edges, |c|)
    ensures SlotsAgree(faces', MovedEdges(edges, c))
  {
    forall f | 0 <= f < |faces'|
      ensures FaceShape(faces'[f]) && faces'[f].edgeIndex == faces[f].edgeIndex
    {
      assert IsMoved(faces[f], faces'[f], c);
    }
    hide IsMoved;
  }

  lemma MovedLinked(faces: seq<Face>, faces': seq<Face>, edges: seq<Edge>, c: seq<int>)
    requires Linked(faces, edges) && AreMoved(faces, faces', c) && EndsIn(edges, |c|)
    ensures Linked(faces', MovedEdges(edges, c))
  {
    hide AllClosed;
    hide SlotsAgree;
    hide SidesListed;
    hide AreMoved;
    hide EndsIn;
    hide MovedEdges;
    MovedAllClosed(faces, faces', edges, c);
    MovedAgree(faces, faces', edges, c);
    MovedListed(faces, faces', edges, c);
  }

  lemma MovedListed(faces: seq<Face>, faces': seq<Face>, edges: seq<Edge>, c: seq<int>)
    requires SidesListed(faces, edges) && AreMoved(faces, faces', c) && EndsIn(edges, |c|)
    ensures SidesListed(faces', MovedEdges(edges, c))
  {
    var edges' := MovedEdges(edges, c);
    forall e | 0 <= e < |edges'|
      ensures edges'[e].forward != NONE ==>
                0 <= edges'[e].forward < |faces'| && e in faces'[edges'[e].forward].edgeIndex
      ensures edges'[e].backward != NONE ==>
                0 <= edges'[e].backward < |faces'| && Flip(e) in faces'[edges'[e].backward].edgeIndex
    {
      assert edges[e] == edges[e];
      if edges[e].forward != NONE {
        assert IsMoved(faces[edges[e].forward], faces'[edges[e].forward], c);
      }
      if edges[e].backward != NONE {
        assert IsMoved(faces[edges[e].backward], faces'[edges[e].backward], c);
      }
    }
  }

  // ---------- rebuilding the vertices ----------

  /** The first k faces, each once for every corner at v. */
  ghost function FacesAt(faces: seq<Face>, v: int, k: nat): seq<int>
    requires k <= |faces| && FaceShapes(faces)
  {
    if k == 0 then [] else FacesAt(faces, v, k - 1) + CornersAt(faces[k - 1], k - 1, v, 3)
  }

  ghost function CornersAt(face: Face, f: int, v: int, j: nat): seq<int>
    requires FaceShape(face) && j <= 3
  {
    if j == 0 then [] else CornersAt(face, f, v, j - 1) + if face.vertexIndex[j - 1] == v then [f] else []
  }

  lemma {:induction false} FacesAtMembers(faces: seq<Face>, v: int, k: nat)
    requires k <= |faces| && FaceShapes(faces)
    ensures forall f :: f in FacesAt(faces, v, k) <==> 0 <= f < k && v in faces[f].vertexIndex
  {
    if k > 0 {
      FacesAtMembers(faces, v, k - 1);
      CornersAtMembers(faces[k - 1], k - 1, v);
    }
  }

  lemma CornersAtMembers(face: Face, f: int, v: int)
    requires FaceShape(face)
    ensures forall g :: g in CornersAt(face, f, v, 3) <==> g == f && v in face.vertexIndex
  {
    var c := face.vertexIndex;
    assert v in c <==> v == c[0] || v == c[1] || v == c[2];
    assert CornersAt(face, f, v, 1) == if c[0] == v then [f] else [];
    assert CornersAt(face, f, v, 2) == CornersAt(face, f, v, 1) + if c[1] == v then [f] else [];
  }

  /** The second loop: edges get their new ends and are listed there. */
  method MoveEdges(mesh: Mesh, c: seq<int>) returns (hasBoundaryEdges: bool)
    requires IsMap(c) && EndsIn(mesh.edgeArray, |c|) && mesh.vertexArray == seq(|c|, _ => Vertex([], []))
    modifies mesh`edgeArray, mesh`vertexArray
    ensures mesh.edgeArray == MovedEdges(old(mesh.edgeArray), c)
    ensures |mesh.vertexArray| == |c|
    ensures forall v :: 0 <= v < |c| ==>
              mesh.vertexArray[v] == Vertex(EdgesFrom(mesh.edgeArray, v, |mesh.edgeArray|), [])
    ensures hasBoundaryEdges <==> exists e :: 0 <= e < |mesh.edgeArray| && mesh.edgeArray[e].Boundary()
  {
    hide EdgesFrom;
    ghost var edges, moved := mesh.edgeArray, MovedEdges(mesh.edgeArray, c);
    NoEdgesFrom(moved);
    hasBoundaryEdges := false;
    for e := 0 to |mesh.edgeArray|
      invariant |mesh.edgeArray| == |edges| && |mesh.vertexArray| == |c|
      invariant forall d :: 0 <= d < e ==> mesh.edgeArray[d] == moved[d]
      invariant forall d :: e <= d < |edges| ==> mesh.edgeArray[d] == edges[d]
      invariant forall v :: 0 <= v < |c| ==> mesh.vertexArray[v] == Vertex(EdgesFrom(moved, v, e), [])
      invariant hasBoundaryEdges <==> exists d :: 0 <= d < e && moved[d].Boundary()
    {
      var edge := mesh.edgeArray[e];
      var v0, v1 := c[edge.start], c[edge.end];
      mesh.edgeArray := mesh.edgeArray[e := edge.(start := v0, end := v1)];
      ghost var vertices := mesh.vertexArray;
      mesh.vertexArray :=
        mesh.vertexArray[v0 := mesh.vertexArray[v0].(edgeIndex := mesh.vertexArray[v0].edgeIndex + [e])];
      mesh.vertexArray :=
        mesh.vertexArray[v1 := mesh.vertexArray[v1].(edgeIndex := mesh.vertexArray[v1].edgeIndex + [Flip(e)])];
      hasBoundaryEdges := hasBoundaryEdges || mesh.edgeArray[e].Boundary();
      assert moved[e] == mesh.edgeArray[e];
      forall v | 0 <= v < |c| ensures mesh.vertexArray[v] == Vertex(EdgesFrom(moved, v, e + 1), []) {
        EdgesFromStep(moved, v, e);
        assert vertices[v] == Vertex(EdgesFrom(moved, v, e), []);
      }
    }
    assert mesh.edgeArray == moved;
  }

  lemma NoEdgesFrom(edges: seq<Edge>)
    ensures forall v :: EdgesFrom(edges, v, 0) == []
  {
  }

  lemma EdgesFromStep(edges: seq<Edge>, v: int, k: nat)
    requires k < |edges|
    ensures EdgesFrom(edges, v, k + 1) ==
      EdgesFrom(edges, v, k) + (if edges[k].start == v then [k] else []) + (if edges[k].end == v then [Flip(k)] else [])
  {
  }

  /** The third loop: faces get their new corners and are listed there. */
  method MoveFaces(mesh: Mesh, c: seq<int>)
    requires IsMap(c) && CornersIn(mesh.faceArray, |c|) && FaceShapes(mesh.faceArray) && |mesh.vertexArray| == |c|
    requires forall v :: 0 <= v < |c| ==> mesh.vertexArray[v].faceIndex == []
    modifies mesh`faceArray, mesh`vertexArray
    ensures AreMoved(old(mesh.faceArray), mesh.faceArray, c) && FaceShapes(mesh.faceArray)
    ensures |mesh.vertexArray| == |c|
    ensures forall v :: 0 <= v < |c| ==>
      mesh.vertexArray[v] == Vertex(old(mesh.vertexArray[v].edgeIndex), FacesAt(mesh.faceArray, v, |mesh.faceArray|))
  {
    ghost var faces, vertices := mesh.faceArray, mesh.vertexArray;
    ghost var moved := seq(|faces|, f requires 0 <= f < |faces| => MovedFace(faces[f], c));
    assert FaceShapes(moved);
    for f := 0 to |mesh.faceArray|
      invariant |mesh.faceArray| == |faces| && |mesh.vertexArray| == |c|
      invariant forall g :: 0 <= g < f ==> mesh.faceArray[g] == moved[g]
      invariant forall g :: f <= g < |faces| ==> mesh.faceArray[g] == faces[g]
      invariant forall v :: 0 <= v < |c| ==> mesh.vertexArray[v] == Vertex(vertices[v].edgeIndex, FacesAt(moved, v, f))
    {
      MoveFace(mesh, c, f, moved, vertices);
    }
    assert mesh.faceArray == moved;
  }

  ghost function MovedFace(face: Face, c: seq<int>): (r: Face)
    requires FaceShape(face) && forall i :: 0 <= i < 3 ==> 0 <= face.vertexIndex[i] < |c|
    ensures FaceShape(r) && IsMoved(face, r, c)
  {
    Face([c[face.vertexIndex[0]], c[face.vertexIndex[1]], c[face.vertexIndex[2]]], face.edgeIndex)
  }

  method MoveFace(mesh: Mesh, c: seq<int>, f: nat, ghost moved: seq<Face>, ghost vertices: seq<Vertex>)
    requires IsMap(c) && FaceShapes(moved) && |vertices| == |c| == |mesh.vertexArray| && f < |moved| == |mesh.faceArray|
    requires IsMoved(mesh.faceArray[f], moved[f], c)
    requires forall v :: 0 <= v < |c| ==> mesh.vertexArray[v] == Vertex(vertices[v].edgeIndex, FacesAt(moved, v, f))
    modifies mesh`faceArray, mesh`vertexArray
    ensures mesh.faceArray == old(mesh.faceArray)[f := moved[f]]
    ensures |mesh.vertexArray| == |c|
    ensures forall v :: 0 <= v < |c| ==> mesh.vertexArray[v] == Vertex(vertices[v].edgeIndex, FacesAt(moved, v, f + 1))
  {
    ghost var face0 := mesh.faceArray[f];
    for i := 0 to 3
      invariant |mesh.faceArray| == old(|mesh.faceArray|) && |mesh.vertexArray| == |c|
      invariant forall g :: 0 <= g < |mesh.faceArray| && g != f ==> mesh.faceArray[g] == old(mesh.faceArray[g])
      invariant FaceShape(mesh.faceArray[f]) && mesh.faceArray[f].edgeIndex == moved[f].edgeIndex
      invariant forall k :: 0 <= k < i ==> mesh.faceArray[f].vertexIndex[k] == moved[f].vertexIndex[k]
      invariant forall k :: i <= k < 3 ==> mesh.faceArray[f].vertexIndex[k] == face0.vertexIndex[k]
      invariant forall v :: 0 <= v < |c| ==>
        mesh.vertexArray[v] == Vertex(vertices[v].edgeIndex, FacesAt(moved, v, f) + CornersAt(moved[f], f, v, i))
    {
      var face := mesh.faceArray[f];
      var v := c[face.vertexIndex[i]];
      mesh.faceArray := mesh.faceArray[f := face.(vertexIndex := face.vertexIndex[i := v])];
      // The vertex lists the face
      mesh.vertexArray := mesh.vertexArray[v := mesh.vertexArray[v].(faceIndex := mesh.vertexArray[v].faceIndex + [f])];
    }
    assert mesh.faceArray[f].vertexIndex == moved[f].vertexIndex;
  }

  /** What the moved mesh and its rebuilt vertices have in common with a computed adjacency. */
  lemma MovedVertexLists(faces: seq<Face>, edges: seq<Edge>, vertices: seq<Vertex>, n: nat)
    requires FaceShapes(faces) && EndsIn(edges, n) && CornersIn(faces, n) && |vertices| == n
    requires forall v :: 0 <= v < n ==> vertices[v] == Vertex(EdgesFrom(edges, v, |edges|), FacesAt(faces, v, |faces|))
    ensures VertexLists(faces, edges, vertices)
  {
    forall v | 0 <= v < |vertices| ensures VertexListsAt(faces, edges, vertices[v], v) {
      MeshTheorems.EdgesFromMembers(edges, v, |edges|);
      FacesAtMembers(faces, v, |faces|);
    }
  }

  lemma MovedInRange(faces: seq<Face>, faces': seq<Face>, edges: seq<Edge>, c: seq<int>)
    requires IsMap(c) && EndsIn(edges, |c|) && AreMoved(faces, faces', c)
    ensures EndsIn(MovedEdges(edges, c), |c|) && CornersIn(faces', |c|)
    ensures AnyFace(edges) ==> AnyFace(MovedEdges(edges, c))
  {
    forall f, i | 0 <= f < |faces'| && 0 <= i < |faces'[f].vertexIndex| ensures 0 <= faces'[f].vertexIndex[i] < |c| {
      assert IsMoved(faces[f], faces'[f], c);
    }
  }

  /**
   * Moves a linked mesh onto canonical vertices.  The old vertex lists are thrown away; the new
   * ones, the faces and the edges agree again, and no two open edges are left that could be joined.
   */
  method WeldAdjacency(mesh: Mesh, originalGeometry: seq<Vectors.Vector3>, radius: real)
    returns (ghost canonical: seq<int>, ghost toNew: seq<int>, ghost moved: seq<Face>)
    requires Linked(mesh.faceArray, mesh.edgeArray) && AnyFace(mesh.edgeArray) && |mesh.edgeArray| <= MAX_INT
    requires EndsIn(mesh.edgeArray, |originalGeometry|) && CornersIn(mesh.faceArray, |originalGeometry|)
    modifies mesh
    ensures |canonical| == |originalGeometry| && IsCanonical(canonical, toNew)
    ensures VertexWelder.IsWeldingOf(originalGeometry, radius, toNew)
    ensures forall v :: 0 <= v < |canonical| ==>
      0 <= canonical[v] < |canonical| && CommonPoint(originalGeometry[v], originalGeometry[canonical[v]], radius)
    ensures forall v, w :: 0 <= v < |canonical| && 0 <= w < |canonical| ==>
              originalGeometry[v] == originalGeometry[w] ==> canonical[v] == canonical[w]
    ensures AreMoved(old(mesh.faceArray), moved, canonical)
    ensures SameArrows(moved, MovedEdges(old(mesh.edgeArray), canonical), mesh.faceArray, mesh.edgeArray)
    ensures Sides(mesh.edgeArray) == Sides(MovedEdges(old(mesh.edgeArray), canonical))
    ensures Linked(mesh.faceArray, mesh.edgeArray)
    ensures VertexLists(mesh.faceArray, mesh.edgeArray, mesh.vertexArray)
    ensures Consistent(mesh.faceArray, mesh.edgeArray, mesh.vertexArray)
    ensures NothingToJoin(mesh.edgeArray) && BoundaryLast(mesh.edgeArray)
  {
    hide *;
    var c;
    c, toNew := Canonical(originalGeometry, radius);
    canonical := c;
    MapFromCanonical(c);
    ghost var faces, edges := mesh.faceArray, mesh.edgeArray;
    LinkedInRange(faces, edges);
    mesh.vertexArray := seq(|originalGeometry|, _ => Vertex([], []));
    var hasBoundaryEdges := MoveEdges(mesh, c);
    MoveFaces(mesh, c);
    moved := mesh.faceArray;
    MovedLinked(faces, moved, edges, c);
    MovedInRange(faces, moved, edges, c);
    MovedVertexLists(mesh.faceArray, mesh.edgeArray, mesh.vertexArray, |c|);
    if hasBoundaryEdges {
      // Moved together, open edges may match
      WeldBoundaryEdges(mesh);
    } else {
      NothingOpen(mesh.edgeArray);
      ArrowsUnchanged(moved, mesh.edgeArray);
    }
    LinkedIsConsistent(mesh.faceArray, mesh.edgeArray, mesh.vertexArray);
  }

  lemma MapFromCanonical(c: seq<int>)
    requires forall v :: 0 <= v < |c| ==> 0 <= c[v] < |c|
    ensures IsMap(c)
  {
  }

  lemma NothingOpen(edges: seq<Edge>)
    requires !exists e :: 0 <= e < |edges| && edges[e].Boundary()
    ensures NothingToJoin(edges) && BoundaryLast(edges)
  {
  }

  lemma ArrowsUnchanged(faces: seq<Face>, edges: seq<Edge>)
    requires Linked(faces, edges)
    ensures SameArrows(faces, edges, faces, edges)
  {
    forall f | 0 <= f < |faces| ensures SameFaceArrows(faces[f], edges, faces[f], edges) {
      assert Closed(faces[f], edges);
      ClosedReferences(faces[f], edges);
    }
  }
}
