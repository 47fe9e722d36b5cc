/** What follows from the contract of computeAdjacency. */
module MeshTheorems {
  import opened Integers
  import opened MeshTopology
  import opened MeshAdjacency
  import opened MeshPairing
  import opened MeshEdgeTables
  import opened Vectors

  // ---------- debugCheckConsistency passes ----------

  lemma {:induction false} EdgesFromMembers(edges: seq<Edge>, v: int, k: nat)
    requires k <= |edges|
    ensures forall e :: e in EdgesFrom(edges, v, k) <==> 0 <= IndexOf(e) < k && Directed(e, edges).0 == v
  {
    if k > 0 {
      EdgesFromMembers(edges, v, k - 1);
      forall e ensures e in EdgesFrom(edges, v, k) <==> 0 <= IndexOf(e) < k && Directed(e, edges).0 == v {
        assert e in EdgesFrom(edges, v, k) <==>
          e in EdgesFrom(edges, v, k - 1) || (e == k - 1 && edges[k - 1].start == v)
          || (e == Flip(k - 1) && edges[k - 1].end == v);
        assert IndexOf(e) == k - 1 <==> e == k - 1 || e == Flip(k - 1);
      }
    }
  }

  lemma {:induction false} FacesAroundMembers(indexArray: seq<int>, v: int, k: nat)
    requires k <= |indexArray|
    ensures forall f ::
              f in FacesAround(indexArray, v, k) <==> exists q :: 0 <= q < k && q / 3 == f && indexArray[q] == v
  {
    if k > 0 {
      FacesAroundMembers(indexArray, v, k - 1);
      forall f
        ensures f in FacesAround(indexArray, v, k) <==> exists q :: 0 <= q < k && q / 3 == f && indexArray[q] == v
      {
        if f in FacesAround(indexArray, v, k) && f !in FacesAround(indexArray, v, k - 1) {
          assert (k - 1) / 3 == f && indexArray[k - 1] == v;
        }
      }
    }
  }

  lemma CornerOfFace(indexArray: seq<int>, f: int, v: int)
    requires |indexArray| % 3 == 0
    ensures (exists q :: 0 <= q < |indexArray| && q / 3 == f && indexArray[q] == v) <==>
            0 <= f < |indexArray| / 3 && v in FaceOf(indexArray, f).vertexIndex
  {
    if 0 <= f < |indexArray| / 3 && v in FaceOf(indexArray, f).vertexIndex {
      var j :| 0 <= j < 3 && FaceOf(indexArray, f).vertexIndex[j] == v;
      assert (3 * f + j) / 3 == f && indexArray[3 * f + j] == v;
    }
    if q :| 0 <= q < |indexArray| && q / 3 == f && indexArray[q] == v {
      assert q == 3 * f + q % 3;
      assert FaceOf(indexArray, f).vertexIndex[q % 3] == v;
    }
  }

  lemma AdjacencyVertexLists(faces: seq<Face>, edges: seq<Edge>, vertices: seq<Vertex>, indexArray: seq<int>,
                             numVertices: nat)
    requires IsAdjacencyOf(faces, edges, vertices, indexArray, numVertices) && IndexArrayOk(indexArray, numVertices)
    ensures VertexLists(faces, edges, vertices)
  {
    hide Linked;
    hide FaceOf;
    forall v | 0 <= v < |vertices| ensures VertexListsAt(faces, edges, vertices[v], v) {
      assert vertices[v] == Vertex(EdgesFrom(edges, v, |edges|), FacesAround(indexArray, v, |indexArray|));
      EdgesFromMembers(edges, v, |edges|);
      FacesAroundMembers(indexArray, v, |indexArray|);
      forall f ensures f in vertices[v].faceIndex <==> 0 <= f < |faces| && v in faces[f].vertexIndex {
        CornerOfFace(indexArray, f, v);
      }
    }
    forall f, i | 0 <= f < |faces| && 0 <= i < |faces[f].vertexIndex|
      ensures 0 <= faces[f].vertexIndex[i] < |vertices|
    {
      CornersInRange(indexArray, numVertices, f);
      assert faces[f].vertexIndex == FaceOf(indexArray, f).vertexIndex;
    }
  }

  lemma CornersInRange(indexArray: seq<int>, numVertices: nat, f: nat)
    requires IndexArrayOk(indexArray, numVertices) && f < |indexArray| / 3
    ensures 3 * f + 2 < |indexArray| && |FaceOf(indexArray, f).vertexIndex| == 3
    ensures forall i :: 0 <= i < 3 ==> 0 <= FaceOf(indexArray, f).vertexIndex[i] < numVertices
  {
  }

  /** Every assertion of debugCheckConsistency holds of the computed adjacency. */
  lemma AdjacencyIsConsistent(faces: seq<Face>, edges: seq<Edge>, vertices: seq<Vertex>, indexArray: seq<int>,
                              numVertices: nat)
    requires IsAdjacencyOf(faces, edges, vertices, indexArray, numVertices) && IndexArrayOk(indexArray, numVertices)
    ensures Consistent(faces, edges, vertices)
  {
    hide *;
    AdjacencyVertexLists(faces, edges, vertices, indexArray, numVertices);
    AdjacencyParts(faces, edges, vertices, indexArray, numVertices);
    LinkedIsConsistent(faces, edges, vertices);
  }

  lemma AdjacencyParts(faces: seq<Face>, edges: seq<Edge>, vertices: seq<Vertex>, indexArray: seq<int>,
                       numVertices: nat)
    requires IsAdjacencyOf(faces, edges, vertices, indexArray, numVertices)
    ensures Linked(faces, edges)
    ensures |indexArray| == 3 * |faces| && Sides(edges) == TriangleSides(indexArray, |faces|)
    ensures EdgesPaired(edges, numVertices)
  {
  }

  // ---------- half-edge conservation ----------

  /** How often the triangle list runs from u to v. */
  ghost function Runs(indexArray: seq<int>, u: int, v: int): nat
    requires |indexArray| % 3 == 0
  {
    Arrows(TriangleSides(indexArray, |indexArray| / 3))[(u, v)]
  }

  /** The number of edges between u and v, and of those among them that stay open. */
  ghost function EdgesBetween(edges: seq<Edge>, u: int, v: int): nat {
    CountEdges(edges, u, v, true, true) + OpenBetween(edges, u, v)
  }

  ghost function OpenBetween(edges: seq<Edge>, u: int, v: int): nat {
    CountEdges(edges, u, v, true, false) + CountEdges(edges, u, v, false, true)
  }

  /**
   * Where the list runs p times from u to v and q times back, exactly max(p, q) edges result, of
   * which |p - q| are boundary edges.
   */
  lemma EdgesPerVertexPair(faces: seq<Face>, edges: seq<Edge>, vertices: seq<Vertex>, indexArray: seq<int>,
                           numVertices: nat, u: int, v: int)
    requires IsAdjacencyOf(faces, edges, vertices, indexArray, numVertices) && u < v
    ensures EdgesBetween(edges, u, v) == Max(Runs(indexArray, u, v), Runs(indexArray, v, u))
    ensures OpenBetween(edges, u, v)
              == Max(Runs(indexArray, u, v), Runs(indexArray, v, u))
                 - Min(Runs(indexArray, u, v), Runs(indexArray, v, u))
  {
    hide *;
    RunsAreArrows(faces, edges, vertices, indexArray, numVertices, u, v);
    RunsAreArrows(faces, edges, vertices, indexArray, numVertices, v, u);
    PairedCounts(edges, numVertices, u, v);
  }

  lemma RunsAreArrows(faces: seq<Face>, edges: seq<Edge>, vertices: seq<Vertex>, indexArray: seq<int>, numVertices: nat,
                      u: int, v: int)
    requires IsAdjacencyOf(faces, edges, vertices, indexArray, numVertices)
    ensures |indexArray| % 3 == 0 && EdgesPaired(edges, numVertices)
    ensures Runs(indexArray, u, v) == Arrows(Sides(edges))[(u, v)]
  {
    hide Arrows;
    hide Sides;
    hide TriangleSides;
    hide EdgesPaired;
    AdjacencyParts(faces, edges, vertices, indexArray, numVertices);
  }

  lemma PairedCounts(edges: seq<Edge>, numVertices: nat, u: int, v: int)
    requires EdgesPaired(edges, numVertices) && u < v
    ensures var p, q := Arrows(Sides(edges))[(u, v)], Arrows(Sides(edges))[(v, u)];
      EdgesBetween(edges, u, v) == Max(p, q) && OpenBetween(edges, u, v) == Max(p, q) - Min(p, q)
  {
    hide Arrows;
    hide Sides;
    hide CountEdges;
    PairedInRange(edges, numVertices);
    hide EdgesPaired;
    ArrowsCounted(edges, u, v);
    OpenOneWay(edges, numVertices, u, v);
  }

  lemma OpenOneWay(edges: seq<Edge>, numVertices: nat, u: int, v: int)
    requires EdgesPaired(edges, numVertices)
    ensures CountEdges(edges, u, v, true, false) == 0 || CountEdges(edges, u, v, false, true) == 0
  {
    if CountEdges(edges, u, v, true, false) > 0 && CountEdges(edges, u, v, false, true) > 0 {
      var d := CountedExists(edges, u, v, true, false);
      var e := CountedExists(edges, u, v, false, true);
    }
  }

  /** Three sides a face: each interior edge takes two of them, each boundary edge one. */
  lemma SidesPerFace(faces: seq<Face>, edges: seq<Edge>, vertices: seq<Vertex>, indexArray: seq<int>, numVertices: nat)
    requires IsAdjacencyOf(faces, edges, vertices, indexArray, numVertices)
    ensures 3 * |faces| == 2 * |Interior(edges)| + |Open(edges)|
  {
    AdjacencyParts(faces, edges, vertices, indexArray, numVertices);
    SidesSize(edges);
    TriangleSidesSize(indexArray, |faces|);
  }

  // ---------- degenerate faces ----------

  /** The second reference runs back along the first, and the third is a loop where they meet. */
  ghost predicate ThereAndBack(face: Face, edges: seq<Edge>)
    requires FaceShape(face) && forall i :: 0 <= i < 3 ==> 0 <= IndexOf(face.edgeIndex[i]) < |edges|
  {
    var p, q, r := Directed(face.edgeIndex[0], edges), Directed(face.edgeIndex[1], edges),
                   Directed(face.edgeIndex[2], edges);
    p.0 != p.1 && q == (p.1, p.0) && r == (p.1, p.1)
  }

  /** The ordering step makes a cycle of every closed face except those that go there and back. */
  lemma OrderedCycleExactly(face: Face, edges: seq<Edge>)
    requires Closed(face, edges)
    ensures forall i :: 0 <= i < 3 ==> 0 <= IndexOf(face.edgeIndex[i]) < |edges|
    ensures Closed(Ordered(face, edges), edges)
    ensures Cycle(Ordered(face, edges), edges) <==> !ThereAndBack(face, edges)
  {
    ClosedReferences(face, edges);
    OrderedIsClosed(face, edges);
    var e, v := face.edgeIndex, face.vertexIndex;
    ThreeArrowsExactly(Directed(e[0], edges), Directed(e[1], edges), Directed(e[2], edges), v[0], v[1], v[2]);
  }

  lemma ThreeArrowsExactly(p: Arrow, q: Arrow, r: Arrow, u: int, v: int, w: int)
    requires multiset{p, q, r} == multiset{(u, v), (v, w), (w, u)}
    ensures p.1 == q.0 ==> ((q.1 == r.0 && r.1 == p.0) <==> !(p.0 != p.1 && q == (p.1, p.0) && r == (p.1, p.1)))
    ensures p.1 != q.0 ==> p.1 == r.0 && r.1 == q.0 && q.1 == p.0
  {
    ThreeInSomeOrder(p, q, r, (u, v), (v, w), (w, u));
  }

  /** The references with the second and the third exchanged. */
  function Exchanged(face: Face): Face
    requires |face.edgeIndex| == 3
  {
    face.(edgeIndex := [face.edgeIndex[0], face.edgeIndex[2], face.edgeIndex[1]])
  }

  /** Where the ordering step leaves such a face as it is, exchanging would have made a cycle of it: every closed face
      has an order in which it runs around. */
  lemma ExchangedRunsAround(face: Face, edges: seq<Edge>)
    requires Closed(face, edges)
    ensures forall i :: 0 <= i < 3 ==> 0 <= IndexOf(face.edgeIndex[i]) < |edges|
    ensures ThereAndBack(face, edges) ==>
              Ordered(face, edges) == face && Closed(Exchanged(face), edges) && Cycle(Exchanged(face), edges)
  {
    ClosedReferences(face, edges);
    if ThereAndBack(face, edges) {
      var e := face.edgeIndex;
      assert multiset{Directed(e[0], edges), Directed(e[1], edges), Directed(e[2], edges)}
          == multiset{Directed(e[0], edges), Directed(e[2], edges), Directed(e[1], edges)};
      ClosedFromReferences(Exchanged(face), edges);
    }
  }

  /** The one triangle 1 1 0: its sides in the table. */
  lemma DegenerateTable()
    ensures SideTable([1, 1, 0], 1, 2) == [[TableEdge(1, [Flip(0), 0])], [TableEdge(1, [Flip(0)])]]
  {
    var list, empty: EdgeArray, one := [1, 1, 0], [], TableEdge(1, [Flip(0)]);
    assert list[3 * 1 - 3..3 * 1] == list;
    var t0 := SideTable(list, 0, 2);
    assert t0 == [empty, empty] && SideTable(list, 1, 2) == AddSides(t0, list, 0, 3);
    hide SideTable;
    SidesStep(t0, list, 0, 0);
    SidesStep(t0, list, 0, 1);
    SidesStep(t0, list, 0, 2);
    hide AddSides;
    InsertedAt(empty, 0, 1, Flip(0));
    assert AddSide(t0, 1, 1, 0) == t0[1 := [one]] == [empty, [one]];
    assert AddSide([empty, [one]], 1, 0, 0) == [[one], [one]];
    InsertedAt([one], 0, 1, 0);
    hide Inserted;
    var both := one.(faceIndexArray := [Flip(0)] + [0]);
    assert both == TableEdge(1, [Flip(0), 0]) && [one][0 := both] == [both];
    assert AddSide([[one], [one]], 0, 1, 0) == [[both], [one]];
  }

  lemma DegenerateKeys()
    ensures Keys(SideTable([1, 1, 0], 1, 2)) == [Key(0, 1, [Flip(0), 0]), Key(1, 1, [Flip(0)])]
  {
    DegenerateTable();
    hide SideTable;
    var t := [[TableEdge(1, [Flip(0), 0])], [TableEdge(1, [Flip(0)])]];
    KeysOfPrefix(t, 0);
    KeysOfPrefix(t, 1);
    assert t[..0] == [] && t[..2] == t;
  }

  /** Its side from 0 to 1 and the one back share an edge, and are assigned in this order, before the loop. */
  lemma DegeneratePairing(faceNormal: seq<Vector3>)
    ensures PairedMesh([1, 1, 0], faceNormal, 2)
         == Paired([Face([1, 1, 0], [0, Flip(0), Flip(1)])], [Edge(0, 1, 0, 0), Edge(1, 1, NONE, 0)])
  {
    DegenerateKeys();
    hide SideTable;
    hide Keys;
    var face := Face([1, 1, 0], [NONE, NONE, NONE]);
    var keys := [Key(0, 1, [Flip(0), 0]), Key(1, 1, [Flip(0)])];
    var p0 := Paired([face], []);
    assert seq(1, f requires 0 <= f < 1 => FaceOf([1, 1, 0], f)) == [face];
    // The side from 0 to 1, and its mate
    var others := [Flip(0)];
    assert [Flip(0), 0][..1] == others && Mate(others, 0, faceNormal, 0) == 0;
    var start := Paired([face], [Edge(0, 1, NONE, NONE)]);
    var a := SideAttached(start, 0);
    assert face.edgeIndex[0 := 0] == [0, NONE, NONE];
    assert a.faces == [Face([1, 1, 0], [0, NONE, NONE])] && a.edges == [Edge(0, 1, 0, NONE)];
    var b := SideAttached(a, Flip(0));
    assert [0, NONE, NONE][1 := Flip(0)] == [0, Flip(0), NONE];
    assert b.faces == [Face([1, 1, 0], [0, Flip(0), NONE])] && b.edges == [Edge(0, 1, 0, 0)];
    assert p0.edges + [Edge(0, 1, NONE, NONE)] == start.edges && FastRemoved(others, 0) == [];
    assert PairStep(p0, 0, 1, [Flip(0), 0], faceNormal) == (b, []);
    assert PairAll(p0, 0, 1, [Flip(0), 0], faceNormal) == b;
    // The loop
    var c := SideAttached(Paired(b.faces, b.edges + [Edge(1, 1, NONE, NONE)]), Flip(0));
    assert [0, Flip(0), NONE][2 := Flip(1)] == [0, Flip(0), Flip(1)];
    assert c.faces == [Face([1, 1, 0], [0, Flip(0), Flip(1)])] && c.edges == [Edge(0, 1, 0, 0), Edge(1, 1, NONE, 0)];
    assert [Flip(0)][..0] == [] && Mate([], Flip(0), faceNormal, 0) == -1;
    assert PairStep(b, 1, 1, [Flip(0)], faceNormal) == (c, []);
    assert PairAll(b, 1, 1, [Flip(0)], faceNormal) == c;
    assert keys[1..] == [Key(1, 1, [Flip(0)])] && keys[1..][1..] == [];
    assert PairKeys(p0, keys, faceNormal) == PairKeys(b, keys[1..], faceNormal) == PairKeys(c, [], faceNormal) == c;
  }

  /** Its boundary edge is the last one already. */
  lemma DegenerateMoved()
    ensures var temp := [Edge(0, 1, 0, 0), Edge(1, 1, NONE, 0)];
      && Interior(temp) + Reversed(Open(temp)) == temp && NewIndex(temp, 0) == 0 && NewIndex(temp, 1) == 1
  {
    var temp := [Edge(0, 1, 0, 0), Edge(1, 1, NONE, 0)];
    assert temp[..1] == [temp[0]] && temp[..0] == [];
    assert Interior(temp[..1]) == [temp[0]] && Open(temp[..1]) == [];
    assert Interior(temp) == [temp[0]] && Open(temp) == [temp[1]] && Reversed(Open(temp)) == [temp[1]];
  }

  lemma DegenerateOrdered()
    ensures var face, temp := Face([1, 1, 0], [0, Flip(0), Flip(1)]), [Edge(0, 1, 0, 0), Edge(1, 1, NONE, 0)];
      && InOrder(NewFace(face, temp), temp) == face
      && TwoCornersEqual(face) && SlotsInRange(face, temp) && !Cycle(face, temp)
  {
    DegenerateMoved();
    hide Interior;
    hide Open;
    hide Reversed;
    hide NewIndex;
    var face, temp := Face([1, 1, 0], [0, Flip(0), Flip(1)]), [Edge(0, 1, 0, 0), Edge(1, 1, NONE, 0)];
    assert NewFace(face, temp) == face;
    assert Directed(0, temp) == (0, 1) && Directed(Flip(0), temp) == (1, 0) && Directed(Flip(1), temp) == (1, 1);
  }

  /** Faces with exactly two equal corners need not run around: the triangle 1 1 0 alone does not, whatever its
      normal. */
  lemma DegenerateFaceWithoutCycle(faceNormal: seq<Vector3>)
    ensures var r := AdjacencyOf([1, 1, 0], faceNormal, 2);
      && r == Paired([Face([1, 1, 0], [0, Flip(0), Flip(1)])], [Edge(0, 1, 0, 0), Edge(1, 1, NONE, 0)])
      && TwoCornersEqual(r.faces[0]) && SlotsInRange(r.faces[0], r.edges) && !Cycle(r.faces[0], r.edges)
  {
    DegeneratePairing(faceNormal);
    DegenerateMoved();
    DegenerateOrdered();
    hide PairedMesh;
    hide Interior;
    hide Open;
    hide Reversed;
    hide NewFace;
    hide InOrder;
    hide Cycle;
  }

  /** A run of computeAdjacency on that triangle. */
  method DegenerateRun(faceNormal: seq<Vector3>) returns (mesh: Mesh)
    requires |faceNormal| == 1
    ensures |mesh.faceArray| == 1 && FaceShape(mesh.faceArray[0]) && SlotsInRange(mesh.faceArray[0], mesh.edgeArray)
    ensures NONE !in mesh.faceArray[0].edgeIndex && !Cycle(mesh.faceArray[0], mesh.edgeArray)
  {
    mesh := new Mesh();
    DegenerateFaceWithoutCycle(faceNormal);
    hide AdjacencyOf;
    mesh.ComputeAdjacency(faceNormal, [1, 1, 0], 2);
  }
}
