/** computeAdjacency: from a list of triangles to faces, edges and vertices that refer to each other. */
module MeshAdjacency {
  import opened MeshTopology
  import opened MeshEdgeTables
  import opened MeshPairing
  import opened Vectors

  // ---------- the triangle list ----------

  ghost predicate IndexArrayOk(indexArray: seq<int>, numVertices: nat) {
    && |indexArray| % 3 == 0
    && |indexArray| <= MAX_INT
    && forall q :: 0 <= q < |indexArray| ==> 0 <= indexArray[q] < numVertices
  }

  /** The first j sides of a face with corners v. */
  ghost function FaceSides(v: seq<int>, f: int, j: nat): multiset<HalfEdge>
    requires |v| == 3 && j <= 3
  {
    if j == 0 then multiset{} else FaceSides(v, f, j - 1) + multiset{HalfEdge(v[j - 1], v[NEXT_INDEX[j - 1]], f)}
  }

  /** All sides of the first k triangles. */
  ghost function TriangleSides(indexArray: seq<int>, k: nat): multiset<HalfEdge>
    requires 3 * k <= |indexArray|
  {
    if k == 0 then multiset{} else
      TriangleSides(indexArray, k - 1) + FaceSides(FaceOf(indexArray, k - 1).vertexIndex, k - 1, 3)
  }

  /** The faces around vertex v that the first k corners give, in the order of the list. */
  ghost function FacesAround(indexArray: seq<int>, v: int, k: nat): seq<int>
    requires k <= |indexArray|
  {
    if k == 0 then [] else
      FacesAround(indexArray, v, k - 1) + if indexArray[k - 1] == v then [(k - 1) / 3] else []
  }

  lemma FacesAroundStep(indexArray: seq<int>, v: int, k: nat)
    requires k < |indexArray|
    ensures FacesAround(indexArray, v, k + 1)
              == FacesAround(indexArray, v, k) + if indexArray[k] == v then [k / 3] else []
  {
  }

  ghost predicate AreTriangles(faces: seq<Face>, indexArray: seq<int>) {
    && |indexArray| % 3 == 0
    && |faces| == |indexArray| / 3
    && forall f :: 0 <= f < |faces| ==> faces[f] == FaceOf(indexArray, f)
  }

  lemma FaceSidesTally(face: Face, g: int, f: int, a: Arrow)
    requires FaceShape(face)
    ensures FaceSides(face.vertexIndex, g, 3)[HalfEdge(a.0, a.1, f)] == if f == g then Corners(face)[a] else 0
    ensures |FaceSides(face.vertexIndex, g, 3)| == 3
    ensures forall h :: h in FaceSides(face.vertexIndex, g, 3) ==> h.f == g
  {
    var v := face.vertexIndex;
    var sides := multiset{HalfEdge(v[0], v[1], g), HalfEdge(v[1], v[2], g), HalfEdge(v[2], v[0], g)};
    assert FaceSides(v, g, 1) == multiset{HalfEdge(v[0], v[1], g)};
    assert FaceSides(v, g, 2) == FaceSides(v, g, 1) + multiset{HalfEdge(v[1], v[2], g)};
    assert FaceSides(v, g, 3) == sides;
  }

  /** The list gives face f the three sides between its corners, and nothing to later faces. */
  lemma {:induction false} TriangleSidesTally(indexArray: seq<int>, k: nat, f: nat, a: Arrow)
    requires 3 * k <= |indexArray| && 3 * f + 2 < |indexArray|
    ensures TriangleSides(indexArray, k)[HalfEdge(a.0, a.1, f)]
              == if f < k then Corners(FaceOf(indexArray, f))[a] else 0
  {
    hide Corners;
    hide FaceSides;
    if k > 0 {
      TriangleSidesTally(indexArray, k - 1, f, a);
      FaceSidesTally(FaceOf(indexArray, k - 1), k - 1, f, a);
    }
  }

  lemma {:induction false} TriangleSidesSize(indexArray: seq<int>, k: nat)
    requires 3 * k <= |indexArray|
    ensures |TriangleSides(indexArray, k)| == 3 * k
    ensures forall h :: h in TriangleSides(indexArray, k) ==> 0 <= h.f < k
  {
    if k > 0 {
      TriangleSidesSize(indexArray, k - 1);
      FaceSidesTally(FaceOf(indexArray, k - 1), k - 1, 0, (0, 0));
    }
  }

  lemma BuildingStart(faces: seq<Face>, indexArray: seq<int>)
    requires AreTriangles(faces, indexArray)
    ensures Building(faces, [], TriangleSides(indexArray, |faces|))
  {
    var all := TriangleSides(indexArray, |faces|);
    forall f, a: Arrow | 0 <= f < |faces|
      ensures Sides([])[HalfEdge(a.0, a.1, f)] + all[HalfEdge(a.0, a.1, f)] == Corners(faces[f])[a] {
      TriangleSidesTally(indexArray, |faces|, f, a);
    }
    TriangleSidesSize(indexArray, |faces|);
    NoSlots(faces);
  }

  lemma NoSlots(faces: seq<Face>)
    requires FaceShapes(faces)
    requires forall f :: 0 <= f < |faces| ==> faces[f].edgeIndex == [NONE, NONE, NONE]
    ensures SlotsAgree(faces, []) && SlotsCounted(faces, []) && SidesListed(faces, [])
  {
    assert SlotArrow(NONE, []) == multiset{};
  }

  lemma NoKeys()
    ensures Pending([]) == multiset{}
  {
  }

  const UNSET_FACE := Face([0, 0, 0], [0, 0, 0])

  /** Adds the side of face f from i0 to i1 to the table, lower vertex first. */
  method InsertSide(edgeTable: MeshEdgeTable, i0: int, i1: int, f: nat, numVertices: nat)
    requires 0 <= i0 < numVertices && 0 <= i1 < numVertices
    requires |edgeTable.table| == numVertices && TableOk(edgeTable.table, numVertices)
    modifies edgeTable
    ensures edgeTable.table == AddSide(old(edgeTable.table), i0, i1, f)
    ensures |edgeTable.table| == numVertices && TableOk(edgeTable.table, numVertices)
    ensures Pending(Keys(edgeTable.table)) == old(Pending(Keys(edgeTable.table))) + multiset{HalfEdge(i0, i1, f)}
  {
    hide Pending;
    hide Keys;
    hide Inserted;
    ghost var table := edgeTable.table;
    if i0 < i1 {
      edgeTable.Insert(i0, i1, f);
      InsertedRowOk(i0, table[i0], i1, f, numVertices);
      InsertPending(table, i0, i1, f);
    } else {
      edgeTable.Insert(i1, i0, Flip(f));
      InsertedRowOk(i1, table[i1], i0, Flip(f), numVertices);
      InsertPending(table, i1, i0, Flip(f));
    }
  }

  lemma SidesStep(table: seq<EdgeArray>, corners: seq<int>, f: int, j: nat)
    requires |corners| == 3 && j < 3
    ensures AddSides(table, corners, f, 0) == table
    ensures AddSides(table, corners, f, j + 1)
              == AddSide(AddSides(table, corners, f, j), corners[j], corners[NEXT_INDEX[j]], f)
  {
    hide AddSide;
  }

  method InsertSides(edgeTable: MeshEdgeTable, indexArray: seq<int>, q: nat, f: nat, numVertices: nat,
                     ghost corners: seq<int>)
    requires q + 2 < |indexArray| && corners == indexArray[q..q + 3]
    requires forall j :: q <= j < q + 3 ==> 0 <= indexArray[j] < numVertices
    requires |edgeTable.table| == numVertices && TableOk(edgeTable.table, numVertices)
    modifies edgeTable
    ensures edgeTable.table == AddSides(old(edgeTable.table), corners, f, 3)
    ensures |edgeTable.table| == numVertices && TableOk(edgeTable.table, numVertices)
    ensures Pending(Keys(edgeTable.table)) == old(Pending(Keys(edgeTable.table))) + FaceSides(corners, f, 3)
  {
    hide Pending;
    hide Keys;
    hide TableOk;
    hide AddSide;
    hide AddSides;
    ghost var before, table := Pending(Keys(edgeTable.table)), edgeTable.table;
    SidesStep(table, corners, f, 0);
    for j := 0 to 3
      invariant |edgeTable.table| == numVertices && TableOk(edgeTable.table, numVertices)
      invariant Pending(Keys(edgeTable.table)) == before + FaceSides(corners, f, j)
      invariant edgeTable.table == AddSides(table, corners, f, j)
    {
      SidesStep(table, corners, f, j);
      assert corners[j] == indexArray[q + j] && corners[NEXT_INDEX[j]] == indexArray[q + NEXT_INDEX[j]];
      InsertSide(edgeTable, indexArray[q + j], indexArray[q + NEXT_INDEX[j]], f, numVertices);
    }
  }

  lemma TableStarts(indexArray: seq<int>, numVertices: nat)
    ensures SideTable(indexArray, 0, numVertices) == seq(numVertices, _ => [])
  {
  }

  lemma TableGrows(indexArray: seq<int>, f: nat, numVertices: nat)
    requires 3 * f + 3 <= |indexArray|
    ensures SideTable(indexArray, f + 1, numVertices)
         == AddSides(SideTable(indexArray, f, numVertices), indexArray[3 * f..3 * f + 3], f, 3)
  {
    hide AddSides;
  }

  class Mesh {
    var faceArray: seq<Face>
    var edgeArray: seq<Edge>
    var vertexArray: seq<Vertex>

    constructor ()
      ensures faceArray == [] && edgeArray == [] && vertexArray == []
    {
      faceArray, edgeArray, vertexArray := [], [], [];
    }

    /** Writes the corners of triangle f and its back pointers. */
    method ConstructFace(indexArray: seq<int>, q: nat, f: nat)
      requires IndexArrayOk(indexArray, |vertexArray|) && q == 3 * f && q < |indexArray|
      requires f < |faceArray| && FaceShape(faceArray[f])
      requires forall v :: 0 <= v < |vertexArray| ==> vertexArray[v] == Vertex([], FacesAround(indexArray, v, q))
      modifies this`faceArray, this`vertexArray
      ensures faceArray == old(faceArray)[f := FaceOf(indexArray, f)]
      ensures |vertexArray| == old(|vertexArray|)
      ensures forall v :: 0 <= v < |vertexArray| ==> vertexArray[v] == Vertex([], FacesAround(indexArray, v, q + 3))
    {
      hide FacesAround;
      ghost var n := |vertexArray|;
      ghost var face0 := FaceOf(indexArray, f);
      for j := 0 to 3
        invariant |vertexArray| == n && |faceArray| == old(|faceArray|) && FaceShape(faceArray[f])
        invariant forall i :: 0 <= i < j ==>
                    faceArray[f].vertexIndex[i] == face0.vertexIndex[i] && faceArray[f].edgeIndex[i] == NONE
        invariant forall g :: 0 <= g < |faceArray| && g != f ==> faceArray[g] == old(faceArray[g])
        invariant forall v :: 0 <= v < n ==> vertexArray[v] == Vertex([], FacesAround(indexArray, v, q + j))
      {
        ghost var vertices := vertexArray;
        var v := indexArray[q + j];
        var face := faceArray[f];
        faceArray := faceArray[f := Face(face.vertexIndex[j := v], face.edgeIndex[j := NONE])];
        vertexArray := vertexArray[v := vertexArray[v].(faceIndex := vertexArray[v].faceIndex + [f])];
        forall w | 0 <= w < n ensures vertexArray[w] == Vertex([], FacesAround(indexArray, w, q + j + 1)) {
          FacesAroundStep(indexArray, w, q + j);
          assert vertices[w] == Vertex([], FacesAround(indexArray, w, q + j));
        }
      }
      assert faceArray[f] == face0;
    }

    /** The first pass: faces without edges, back pointers to faces, and the table of sides. */
    method BuildFaces(indexArray: seq<int>, numVertices: nat) returns (edgeTable: MeshEdgeTable)
      requires IndexArrayOk(indexArray, numVertices)
      modifies this
      ensures fresh(edgeTable)
      ensures AreTriangles(faceArray, indexArray) && edgeArray == []
      ensures |vertexArray| == numVertices
      ensures forall v :: 0 <= v < numVertices ==>
                vertexArray[v] == Vertex([], FacesAround(indexArray, v, |indexArray|))
      ensures edgeTable.table == SideTable(indexArray, |indexArray| / 3, numVertices)
      ensures TableOk(edgeTable.table, numVertices)
      ensures Pending(Keys(edgeTable.table)) == TriangleSides(indexArray, |faceArray|)
    {
      hide Pending;
      hide Keys;
      hide TableOk;
      hide FaceSides;
      hide AddSides;
      hide SideTable;
      TableStarts(indexArray, numVertices);
      edgeArray := [];
      faceArray := seq(|indexArray| / 3, _ => UNSET_FACE);
      vertexArray := seq(numVertices, _ => Vertex([], []));
      edgeTable := new MeshEdgeTable(numVertices);
      EmptyTable(numVertices, numVertices);
      NoKeys();
      var q, f := 0, 0;
      while q < |indexArray|
        invariant q == 3 * f && f <= |faceArray| && |faceArray| == |indexArray| / 3
        invariant fresh(edgeTable) && edgeArray == []
        invariant forall g :: 0 <= g < |faceArray| ==> FaceShape(faceArray[g])
        invariant forall g :: 0 <= g < f ==> faceArray[g] == FaceOf(indexArray, g)
        invariant |vertexArray| == numVertices
        invariant forall v :: 0 <= v < numVertices ==> vertexArray[v] == Vertex([], FacesAround(indexArray, v, q))
        invariant |edgeTable.table| == numVertices && TableOk(edgeTable.table, numVertices)
        invariant Pending(Keys(edgeTable.table)) == TriangleSides(indexArray, f)
        invariant edgeTable.table == SideTable(indexArray, f, numVertices)
      {
        ConstructFace(indexArray, q, f);
        assert indexArray[q..q + 3] == FaceOf(indexArray, f).vertexIndex;
        InsertSides(edgeTable, indexArray, q, f, numVertices, indexArray[q..q + 3]);
        TableGrows(indexArray, f, numVertices);
        q, f := q + 3, f + 1;
      }
    }

    /** Stores an edge reference in the first free slot of a face; there always is one. */
    method AssignEdgeIndex(f: nat, e: int) returns (ghost slot: nat)
      requires f < |faceArray| && FaceShape(faceArray[f]) && NONE in faceArray[f].edgeIndex
      modifies this`faceArray
      ensures slot < 3 && old(faceArray[f].edgeIndex[slot]) == NONE
      ensures forall i :: 0 <= i < slot ==> old(faceArray[f].edgeIndex[i]) != NONE
      ensures faceArray == old(faceArray)[f := WithSlot(old(faceArray[f]), slot, e)]
      ensures faceArray[f] == WithReference(old(faceArray[f]), e)
    {
      for i := 0 to 3
        invariant faceArray == old(faceArray)
        invariant forall k :: 0 <= k < i ==> faceArray[f].edgeIndex[k] != NONE
      {
        if faceArray[f].edgeIndex[i] == NONE {
          faceArray := faceArray[f := WithSlot(faceArray[f], i, e)];
          return i;
        }
      }
      assert false;
    }

    /** Gives a face one side of the newest edge and the face a reference to it. */
    method Attach(tempEdgeArray: seq<Edge>, signed: int, ghost rest: multiset<HalfEdge>) returns (edges: seq<Edge>)
      requires tempEdgeArray != [] && |tempEdgeArray| <= MAX_INT
      requires var edge := tempEdgeArray[|tempEdgeArray| - 1];
        && Building(faceArray, tempEdgeArray, rest + multiset{Entry(edge.start, edge.end, signed)})
        && (if signed >= 0 then edge.forward == NONE else edge.backward == NONE)
      modifies this`faceArray
      ensures var e := |tempEdgeArray| - 1;
        && edges == tempEdgeArray[e := WithSide(tempEdgeArray[e], signed >= 0, IndexOf(signed))]
        && Building(faceArray, edges, rest)
      ensures Paired(faceArray, edges) == SideAttached(Paired(old(faceArray), tempEdgeArray), signed)
      ensures SameCorners(old(faceArray), faceArray)
    {
      hide Building;
      hide WithReference;
      var e := |tempEdgeArray| - 1;
      var edge := tempEdgeArray[e];
      ghost var faces0, h := faceArray, Entry(edge.start, edge.end, signed);
      ghost var pending := rest + multiset{h};
      PendingMeansFreeSlot(faceArray, tempEdgeArray, pending, h);
      BuildingShapes(faceArray, tempEdgeArray, pending);
      ghost var slot;
      if signed >= 0 {
        edge := edge.(forward := signed);
        slot := AssignEdgeIndex(signed, e);
      } else {
        edge := edge.(backward := Flip(signed));
        slot := AssignEdgeIndex(Flip(signed), Flip(e));
      }
      edges := tempEdgeArray[e := edge];
      AttachKeepsBuilding(faces0, tempEdgeArray, pending, signed >= 0, h.f, slot,
                          SignedIndex(signed >= 0, e), (h.u, h.v), faceArray, edges, rest);
    }

    /** Takes the last side off the list, makes an edge for it and, when there is one, for its mate. */
    method PairOne(i0: int, i1: int, faces: seq<int>, faceNormal: seq<Vector3>, tempEdgeArray: seq<Edge>,
                   ghost rest: multiset<HalfEdge>)
      returns (left: seq<int>, edges: seq<Edge>)
      requires faces != [] && |faceNormal| == |faceArray|
      requires Building(faceArray, tempEdgeArray, Entries(i0, i1, faces) + rest)
      requires |tempEdgeArray| < MAX_INT
      modifies this`faceArray
      ensures Building(faceArray, edges, Entries(i0, i1, left) + rest)
      ensures SameCorners(old(faceArray), faceArray)
      ensures |left| < |faces| && forall i :: 0 <= i < |left| ==> left[i] in faces
      ensures |edges| == |tempEdgeArray| + 1 && edges[..|tempEdgeArray|] == tempEdgeArray
      ensures IsPairing(edges[|tempEdgeArray|], i0, i1, faces)
      ensures (Paired(faceArray, edges), left)
                == PairStep(Paired(old(faceArray), tempEdgeArray), i0, i1, faces, faceNormal)
    {
      hide Building;
      hide Entries;
      hide SideAttached;
      var f0 := faces[|faces| - 1];
      var faceIndexArray := faces[..|faces| - 1];
      ghost var pending := Entries(i0, i1, faceIndexArray) + rest;
      PopEntries(i0, i1, faces, rest);
      PendingFaces(faceArray, tempEdgeArray, i0, i1, faces, rest);
      var found, m := FindMate(faceIndexArray, f0, faceNormal);
      BlankEdgeKeepsBuilding(faceArray, tempEdgeArray, pending + multiset{Entry(i0, i1, f0)}, i0, i1);
      edges := Attach(tempEdgeArray + [Edge(i0, i1, NONE, NONE)], f0, pending);
      left := faceIndexArray;
      if found {
        var f1 := faceIndexArray[m];
        left := FastRemoved(faceIndexArray, m);
        RemoveEntries(i0, i1, faceIndexArray, m, rest);
        edges := Attach(edges, f1, Entries(i0, i1, left) + rest);
      }
    }

    /** Turns all sides between one pair of vertices into edges. */
    method PairSides(i0: int, i1: int, faces: seq<int>, faceNormal: seq<Vector3>, tempEdgeArray: seq<Edge>,
                     ghost rest: multiset<HalfEdge>)
      returns (edges: seq<Edge>)
      requires |faceNormal| == |faceArray|
      requires Building(faceArray, tempEdgeArray, Entries(i0, i1, faces) + rest)
      requires |tempEdgeArray| + |faces| <= MAX_INT
      requires i0 == i1 ==> forall i :: 0 <= i < |faces| ==> faces[i] < 0
      modifies this`faceArray
      ensures Building(faceArray, edges, rest)
      ensures SameCorners(old(faceArray), faceArray)
      ensures |tempEdgeArray| <= |edges| <= |tempEdgeArray| + |faces| && edges[..|tempEdgeArray|] == tempEdgeArray
      ensures PairedUp(edges[|tempEdgeArray|..], i0, i1)
      ensures Paired(faceArray, edges) == PairAll(Paired(old(faceArray), tempEdgeArray), i0, i1, faces, faceNormal)
    {
      hide Building;
      hide Entries;
      hide PairStep;
      hide PairAll;
      var faceIndexArray := faces;
      edges := tempEdgeArray;
      ghost var n := |tempEdgeArray|;
      while |faceIndexArray| > 0
        invariant Building(faceArray, edges, Entries(i0, i1, faceIndexArray) + rest)
        invariant SameCorners(old(faceArray), faceArray)
        invariant n <= |edges| && |edges| + |faceIndexArray| <= n + |faces| && edges[..n] == tempEdgeArray
        invariant i0 == i1 ==> forall i :: 0 <= i < |faceIndexArray| ==> faceIndexArray[i] < 0
        invariant PairedUp(edges[n..], i0, i1)
        invariant PairAll(Paired(faceArray, edges), i0, i1, faceIndexArray, faceNormal)
               == PairAll(Paired(old(faceArray), tempEdgeArray), i0, i1, faces, faceNormal)
        invariant forall e :: n <= e < |edges| && edges[e].Boundary() ==>
                    OnlySign(faceIndexArray, edges[e].backward == NONE)
        decreases |faceIndexArray|
      {
        ghost var before, list := edges, faceIndexArray;
        PairAllStep(Paired(faceArray, edges), i0, i1, list, faceNormal);
        faceIndexArray, edges := PairOne(i0, i1, faceIndexArray, faceNormal, edges, rest);
        PairedUpStep(before[n..], edges[|before|], i0, i1, list);
        assert edges[n..] == before[n..] + [edges[|before|]];
      }
      NoEntries(i0, i1, rest);
      PairAllStep(Paired(faceArray, edges), i0, i1, [], faceNormal);
    }

    /** Visits every vertex pair of the table and turns its sides into edges. */
    method PairEdges(edgeTable: MeshEdgeTable, faceNormal: seq<Vector3>, ghost numVertices: nat)
      returns (tempEdgeArray: seq<Edge>)
      requires TableOk(edgeTable.table, numVertices) && |faceNormal| == |faceArray|
      requires Building(faceArray, [], Pending(Keys(edgeTable.table)))
      requires |Pending(Keys(edgeTable.table))| <= MAX_INT
      modifies this`faceArray
      ensures Building(faceArray, tempEdgeArray, multiset{})
      ensures SameCorners(old(faceArray), faceArray)
      ensures EdgesPaired(tempEdgeArray, numVertices)
      ensures |tempEdgeArray| <= |Pending(Keys(edgeTable.table))|
      ensures Paired(faceArray, tempEdgeArray)
                == PairKeys(Paired(old(faceArray), []), Keys(edgeTable.table), faceNormal)
    {
      hide PairAll;
      hide PairKeys;
      hide Building;
      hide Entries;
      hide Keys;
      hide Pending;
      hide TableOk;
      ghost var keys := Keys(edgeTable.table);
      ghost var k := 0;
      KeysOfTable(edgeTable.table, numVertices);
      var cur := new Iterator(edgeTable);
      tempEdgeArray := [];
      assert keys[0..] == keys;
      while !cur.end
        invariant cur.Valid() && fresh(cur) && cur.rows == edgeTable.table
        invariant k <= |keys| && (if cur.end then k == |keys| else cur.Position() == k)
        invariant Building(faceArray, tempEdgeArray, Pending(keys[k..]))
        invariant SameCorners(old(faceArray), faceArray)
        invariant |tempEdgeArray| + |Pending(keys[k..])| <= |Pending(keys)|
        invariant EdgesPaired(tempEdgeArray, numVertices) && NoneOf(tempEdgeArray, keys[k..])
        invariant PairKeys(Paired(faceArray, tempEdgeArray), keys[k..], faceNormal)
               == PairKeys(Paired(old(faceArray), []), keys, faceNormal)
        decreases |keys| - k
      {
        PairKeysStep(Paired(faceArray, tempEdgeArray), keys, k, faceNormal);
        KeyAt(cur.rows, cur.i0, cur.p);
        ghost var key, rest := keys[k], keys[k + 1..];
        NextPending(keys, k);
        ghost var before := tempEdgeArray;
        tempEdgeArray := PairSides(cur.i0, cur.I1(), cur.FaceIndex(), faceNormal, tempEdgeArray, Pending(rest));
        cur.Advance();
        k := k + 1;
      }
      assert keys[k..] == [];
      NoKeys();
      PairKeysStep(Paired(faceArray, tempEdgeArray), keys, k, faceNormal);
    }

    /** Copies the edges over with the boundary edges at the end, in reverse. */
    method MoveBoundaryLast(tempEdgeArray: seq<Edge>) returns (newIndex: array<int>, ghost oldIndex: seq<int>)
      requires |tempEdgeArray| <= MAX_INT
      modifies this`edgeArray
      ensures fresh(newIndex)
      ensures edgeArray == Interior(tempEdgeArray) + Reversed(Open(tempEdgeArray))
      ensures IsRenumbering(tempEdgeArray, edgeArray, newIndex[..], oldIndex)
      ensures forall e :: 0 <= e < |tempEdgeArray| ==> newIndex[e] == NewIndex(tempEdgeArray, e)
    {
      hide HalfMoved;
      hide NewIndex;
      var n := |tempEdgeArray|;
      newIndex := new int[n];
      var i, j := 0, n - 1;
      oldIndex := seq(n, _ => 0);
      edgeArray := seq(n, _ => Edge(0, 0, -1, -1));
      HalfMovedStart(tempEdgeArray, edgeArray, newIndex[..], oldIndex);
      for e := 0 to n
        invariant 0 <= i && j < n && i + (n - 1 - j) == e && |edgeArray| == |oldIndex| == n
        invariant HalfMoved(tempEdgeArray, e, edgeArray, newIndex[..], oldIndex, i, j)
        invariant forall d :: 0 <= d < e ==> newIndex[d] == NewIndex(tempEdgeArray, d)
      {
        NextPlace(tempEdgeArray, e, edgeArray, newIndex[..], oldIndex, i, j);
        ghost var k, index := if tempEdgeArray[e].Boundary() then j else i, newIndex[..];
        HalfMovedStep(tempEdgeArray, e, edgeArray, index, oldIndex, i, j);
        if tempEdgeArray[e].Boundary() {
          newIndex[e] := j;
          j := j - 1;
        } else {
          newIndex[e] := i;
          i := i + 1;
        }
        edgeArray := edgeArray[newIndex[e] := tempEdgeArray[e]];
        oldIndex := oldIndex[newIndex[e] := e];
        assert newIndex[..] == index[e := k];
      }
      assert i == j + 1;
      HalfMovedEnd(tempEdgeArray, edgeArray, newIndex[..], oldIndex, i, j);
    }

    /** Sends every edge reference of the faces through the map, twiddling negative ones. */
    method RenumberFaces(newIndex: array<int>)
      requires AllInRange(faceArray, newIndex.Length)
      modifies this`faceArray
      ensures |faceArray| == old(|faceArray|)
      ensures forall f :: 0 <= f < |faceArray| ==> FaceRenumbered(old(faceArray[f]), faceArray[f], newIndex[..])
    {
      ghost var before := faceArray;
      for f := 0 to |faceArray|
        invariant |faceArray| == |before| && newIndex[..] == old(newIndex[..])
        invariant forall g :: 0 <= g < f ==> FaceRenumbered(before[g], faceArray[g], newIndex[..])
        invariant forall g :: f <= g < |before| ==> faceArray[g] == before[g]
      {
        for q := 0 to 3
          invariant |faceArray| == |before| && newIndex[..] == old(newIndex[..])
          invariant forall g :: 0 <= g < f ==> FaceRenumbered(before[g], faceArray[g], newIndex[..])
          invariant forall g :: f < g < |before| ==> faceArray[g] == before[g]
          invariant FaceShape(faceArray[f]) && faceArray[f].vertexIndex == before[f].vertexIndex
          invariant forall i :: 0 <= i < q ==>
                      faceArray[f].edgeIndex[i] == Renumbered(before[f].edgeIndex[i], newIndex[..])
          invariant forall i :: q <= i < 3 ==> faceArray[f].edgeIndex[i] == before[f].edgeIndex[i]
        {
          var e := faceArray[f].edgeIndex[q];
          if e < 0 {
            faceArray := faceArray[f := WithSlot(faceArray[f], q, Flip(newIndex[Flip(e)]))];
          } else {
            faceArray := faceArray[f := WithSlot(faceArray[f], q, newIndex[e])];
          }
        }
      }
    }

    /** Puts the references of each face in order: the first stays, the others may change places. */
    method OrderFaces()
      requires AllInRange(faceArray, |edgeArray|)
      modifies this`faceArray
      ensures |faceArray| == old(|faceArray|)
      ensures forall f :: 0 <= f < |faceArray| ==> faceArray[f] == Ordered(old(faceArray[f]), edgeArray)
    {
      ghost var before := faceArray;
      for f := 0 to |faceArray|
        invariant |faceArray| == |before|
        invariant forall g :: 0 <= g < f ==> faceArray[g] == Ordered(before[g], edgeArray)
        invariant forall g :: f <= g < |before| ==> faceArray[g] == before[g]
      {
        var face := faceArray[f];
        var e0, e1, e2 := face.edgeIndex[0], face.edgeIndex[1], face.edgeIndex[2];
        var e0End := if e0 < 0 then edgeArray[Flip(e0)].start else edgeArray[e0].end;
        var e1Begin := if e1 < 0 then edgeArray[Flip(e1)].end else edgeArray[e1].start;
        if e0End != e1Begin {
          assert [e0, e2, e1] == face.edgeIndex[1 := e2][2 := e1];
          faceArray := faceArray[f := face.(edgeIndex := face.edgeIndex[1 := e2][2 := e1])];
        }
      }
    }

    /** Lists every edge at the vertex it starts from and, inverted, at the vertex it ends in. */
    method FillVertexEdges()
      requires forall e :: 0 <= e < |edgeArray| ==>
                 0 <= edgeArray[e].start < |vertexArray| && 0 <= edgeArray[e].end < |vertexArray|
      requires forall v :: 0 <= v < |vertexArray| ==> vertexArray[v].edgeIndex == []
      modifies this`vertexArray
      ensures |vertexArray| == old(|vertexArray|)
      ensures forall v :: 0 <= v < |vertexArray| ==>
        vertexArray[v] == Vertex(EdgesFrom(edgeArray, v, |edgeArray|), old(vertexArray[v].faceIndex))
    {
      for e := 0 to |edgeArray|
        invariant |vertexArray| == old(|vertexArray|)
        invariant forall v :: 0 <= v < |vertexArray| ==>
                    vertexArray[v] == Vertex(EdgesFrom(edgeArray, v, e), old(vertexArray[v].faceIndex))
      {
        var edge := edgeArray[e];
        vertexArray :=
          vertexArray[edge.start := vertexArray[edge.start].(edgeIndex := vertexArray[edge.start].edgeIndex + [e])];
        vertexArray :=
          vertexArray[edge.end := vertexArray[edge.end].(edgeIndex := vertexArray[edge.end].edgeIndex + [Flip(e)])];
      }
    }

    /**
     * Faces, edges and vertices of a triangle list.  The unit face normals, which only decide
     * which of several matching faces shares an edge, are an input.
     */
    method ComputeAdjacency(faceNormal: seq<Vector3>, indexArray: seq<int>, numVertices: nat)
      requires IndexArrayOk(indexArray, numVertices) && |faceNormal| == |indexArray| / 3
      modifies this
      ensures IsAdjacencyOf(faceArray, edgeArray, vertexArray, indexArray, numVertices)
      ensures Paired(faceArray, edgeArray) == AdjacencyOf(indexArray, faceNormal, numVertices)
    {
      hide *;
      var edgeTable := BuildFaces(indexArray, numVertices);
      ghost var triangles := faceArray;
      BuildingStart(faceArray, indexArray);
      TrianglesCount(faceArray, indexArray, numVertices);
      var tempEdgeArray := PairEdges(edgeTable, faceNormal, numVertices);
      ghost var paired := faceArray;
      AfterPairing(triangles, paired, tempEdgeArray, indexArray);
      TrianglesPaired(triangles, paired, tempEdgeArray, indexArray, faceNormal, numVertices);
      var newIndex, oldIndex := MoveBoundaryLast(tempEdgeArray);
      AfterMoving(tempEdgeArray, edgeArray, newIndex[..], oldIndex, numVertices);
      RenumberFaces(newIndex);
      ghost var renumbered := faceArray;
      AfterRenumbering(paired, renumbered, tempEdgeArray, edgeArray, newIndex[..], oldIndex, indexArray);
      OrderFaces();
      AfterOrdering(renumbered, faceArray, edgeArray, indexArray);
      FillVertexEdges();
      AdjacencyDone(faceArray, edgeArray, vertexArray, indexArray, numVertices);
      AdjacencyComputed(indexArray, faceNormal, numVertices, paired, tempEdgeArray, newIndex[..], renumbered, faceArray,
                        edgeArray);
    }
  }

  lemma PairAllStep(p: Paired, i0: int, i1: int, list: seq<int>, faceNormal: seq<Vector3>)
    ensures PairAll(p, i0, i1, list, faceNormal) ==
            if list == [] then p
            else PairAll(PairStep(p, i0, i1, list, faceNormal).0, i0, i1, PairStep(p, i0, i1, list, faceNormal).1,
                         faceNormal)
  {
    hide PairStep;
  }

  lemma PairKeysStep(p: Paired, keys: seq<Key>, k: nat, faceNormal: seq<Vector3>)
    requires k <= |keys|
    ensures PairKeys(p, keys[k..], faceNormal) ==
            if k == |keys| then p
            else PairKeys(PairAll(p, keys[k].i0, keys[k].i1, keys[k].faces, faceNormal), keys[k + 1..], faceNormal)
  {
    hide PairAll;
    if k < |keys| {
      assert keys[k..][0] == keys[k] && keys[k..][1..] == keys[k + 1..];
    }
  }

  /** Every face is linked to its edges and has the corners the list gives it. */
  ghost predicate LinkedTriangles(faces: seq<Face>, edges: seq<Edge>, indexArray: seq<int>) {
    && Linked(faces, edges)
    && |indexArray| % 3 == 0 && |faces| == |indexArray| / 3
    && forall f :: 0 <= f < |faces| ==> faces[f].vertexIndex == FaceOf(indexArray, f).vertexIndex
  }

  lemma TrianglesCount(faces: seq<Face>, indexArray: seq<int>, numVertices: nat)
    requires AreTriangles(faces, indexArray) && IndexArrayOk(indexArray, numVertices)
    ensures |faces| == |indexArray| / 3 && 3 * |faces| <= |indexArray|
    ensures |TriangleSides(indexArray, |faces|)| <= MAX_INT
  {
    TriangleSidesSize(indexArray, |faces|);
  }

  lemma AfterPairing(triangles: seq<Face>, faces: seq<Face>, edges: seq<Edge>, indexArray: seq<int>)
    requires AreTriangles(triangles, indexArray) && SameCorners(triangles, faces)
    requires Building(faces, edges, multiset{})
    ensures LinkedTriangles(faces, edges, indexArray) && AllInRange(faces, |edges|)
    ensures 3 * |faces| <= |indexArray| && Sides(edges) == TriangleSides(indexArray, |faces|)
  {
    BuildingDone(faces, edges);
    LinkedInRange(faces, edges);
    SidesAreTriangles(faces, edges, indexArray);
  }

  lemma AfterMoving(edges: seq<Edge>, edges': seq<Edge>, newIndex: seq<int>, oldIndex: seq<int>, numVertices: nat)
    requires EdgesPaired(edges, numVertices) && IsRenumbering(edges, edges', newIndex, oldIndex)
    requires edges' == Interior(edges) + Reversed(Open(edges))
    ensures |newIndex| == |edges| == |edges'|
    ensures EdgesPaired(edges', numVertices) && BoundaryLast(edges') && Sides(edges') == Sides(edges)
    ensures forall e :: 0 <= e < |edges'| ==> 0 <= edges'[e].start < numVertices && 0 <= edges'[e].end < numVertices
  {
    EdgesOfRenumbering(edges, edges', newIndex, oldIndex, numVertices);
    InteriorFirst(edges);
  }

  lemma AfterRenumbering(faces: seq<Face>, faces': seq<Face>, edges: seq<Edge>, edges': seq<Edge>,
                         newIndex: seq<int>, oldIndex: seq<int>, indexArray: seq<int>)
    requires LinkedTriangles(faces, edges, indexArray) && IsRenumbering(edges, edges', newIndex, oldIndex)
    requires |faces'| == |faces| && forall f :: 0 <= f < |faces| ==> FaceRenumbered(faces[f], faces'[f], newIndex)
    ensures LinkedTriangles(faces', edges', indexArray) && AllInRange(faces', |edges'|)
  {
    RenumberedLinked(faces, faces', edges, edges', newIndex, oldIndex);
    LinkedInRange(faces', edges');
  }

  lemma AfterOrdering(faces: seq<Face>, faces': seq<Face>, edges: seq<Edge>, indexArray: seq<int>)
    requires LinkedTriangles(faces, edges, indexArray) && AllInRange(faces, |edges|)
    requires |faces'| == |faces| && forall f :: 0 <= f < |faces| ==> faces'[f] == Ordered(faces[f], edges)
    ensures LinkedTriangles(faces', edges, indexArray)
    ensures forall f :: 0 <= f < |faces'| ==> RunsAround(faces'[f], edges)
  {
    OrderedLinked(faces, faces', edges);
    hide Ordered;
    hide Closed;
    hide RunsAround;
    forall f | 0 <= f < |faces'| ensures RunsAround(faces'[f], edges) {
      assert Closed(faces[f], edges);
      OrderedRunsAround(faces[f], edges);
    }
  }

  lemma OrderedRunsAround(face: Face, edges: seq<Edge>)
    requires Closed(face, edges)
    ensures 0 <= IndexOf(face.edgeIndex[0]) < |edges| && 0 <= IndexOf(face.edgeIndex[1]) < |edges|
    ensures RunsAround(Ordered(face, edges), edges)
  {
    OrderedIsClosed(face, edges);
    assert Ordered(face, edges).vertexIndex == face.vertexIndex;
  }

  lemma TrianglesPaired(triangles: seq<Face>, faces: seq<Face>, edges: seq<Edge>, indexArray: seq<int>,
                        faceNormal: seq<Vector3>, numVertices: nat)
    requires AreTriangles(triangles, indexArray)
    requires Paired(faces, edges)
          == PairKeys(Paired(triangles, []), Keys(SideTable(indexArray, |indexArray| / 3, numVertices)), faceNormal)
    ensures Paired(faces, edges) == PairedMesh(indexArray, faceNormal, numVertices)
  {
    hide FaceOf;
    hide PairKeys;
    hide Keys;
    hide SideTable;
    var n := |indexArray| / 3;
    assert triangles == seq(n, f requires 0 <= f < n => FaceOf(indexArray, f));
  }

  /** The last steps give exactly the faces and edges of AdjacencyOf. */
  lemma AdjacencyComputed(indexArray: seq<int>, faceNormal: seq<Vector3>, numVertices: nat, faces: seq<Face>,
                          temp: seq<Edge>,
                          newIndex: seq<int>, renumbered: seq<Face>, faces': seq<Face>, edges: seq<Edge>)
    requires Paired(faces, temp) == PairedMesh(indexArray, faceNormal, numVertices)
    requires edges == Interior(temp) + Reversed(Open(temp))
    requires |newIndex| == |temp| && forall e :: 0 <= e < |temp| ==> newIndex[e] == NewIndex(temp, e)
    requires |renumbered| == |faces| && forall f :: 0 <= f < |faces| ==>
               FaceRenumbered(faces[f], renumbered[f], newIndex)
    requires AllInRange(renumbered, |edges|)
    requires |faces'| == |renumbered| && forall f :: 0 <= f < |renumbered| ==>
               faces'[f] == Ordered(renumbered[f], edges)
    ensures Paired(faces', edges) == AdjacencyOf(indexArray, faceNormal, numVertices)
  {
    hide PairedMesh;
    hide NewIndex;
    hide Ordered;
    forall f | 0 <= f < |faces'|
      ensures faces'[f] == InOrder(NewFace(faces[f], temp), edges)
    {
      assert FaceRenumbered(faces[f], renumbered[f], newIndex);
      assert renumbered[f].edgeIndex == NewFace(faces[f], temp).edgeIndex;
      assert renumbered[f] == NewFace(faces[f], temp);
    }
  }

  lemma AdjacencyDone(faces: seq<Face>, edges: seq<Edge>, vertices: seq<Vertex>, indexArray: seq<int>, numVertices: nat)
    requires LinkedTriangles(faces, edges, indexArray)
    requires forall f :: 0 <= f < |faces| ==> RunsAround(faces[f], edges)
    requires 3 * |faces| <= |indexArray| && Sides(edges) == TriangleSides(indexArray, |faces|)
    requires EdgesPaired(edges, numVertices) && BoundaryLast(edges)
    requires |vertices| == numVertices
    requires forall v :: 0 <= v < numVertices ==>
               vertices[v] == Vertex(EdgesFrom(edges, v, |edges|), FacesAround(indexArray, v, |indexArray|))
    ensures IsAdjacencyOf(faces, edges, vertices, indexArray, numVertices)
  {
  }

  /** What computeAdjacency delivers for a triangle list. */
  ghost predicate IsAdjacencyOf(faces: seq<Face>, edges: seq<Edge>, vertices: seq<Vertex>, indexArray: seq<int>,
                                numVertices: nat) {
    && |indexArray| % 3 == 0
    && |faces| == |indexArray| / 3
    // Each face keeps its corners and refers to exactly its three sides; these run around it
    && Linked(faces, edges)
    && (forall f :: 0 <= f < |faces| ==> faces[f].vertexIndex == FaceOf(indexArray, f).vertexIndex)
    && (forall f :: 0 <= f < |faces| ==> RunsAround(faces[f], edges))
    // No side is lost or made up, and no two open edges could still be joined
    && Sides(edges) == TriangleSides(indexArray, |faces|)
    && EdgesPaired(edges, numVertices)
    && BoundaryLast(edges)
    // The lists at the vertices
    && |vertices| == numVertices
    && (forall v :: 0 <= v < numVertices ==>
          vertices[v] == Vertex(EdgesFrom(edges, v, |edges|), FacesAround(indexArray, v, |indexArray|)))
  }

  ghost predicate RunsAround(face: Face, edges: seq<Edge>) {
    && FaceShape(face) && SlotsInRange(face, edges) && NONE !in face.edgeIndex
    && (!TwoCornersEqual(face) ==> Cycle(face, edges))
  }

  ghost predicate AllInRange(faces: seq<Face>, n: nat) {
    && FaceShapes(faces)
    && forall f, q :: 0 <= f < |faces| && 0 <= q < 3 ==> 0 <= IndexOf(faces[f].edgeIndex[q]) < n
  }

  lemma LinkedInRange(faces: seq<Face>, edges: seq<Edge>)
    requires Linked(faces, edges)
    ensures AllInRange(faces, |edges|)
  {
    assert FaceShapes(faces);
    forall f, q | 0 <= f < |faces| && 0 <= q < 3 ensures 0 <= IndexOf(faces[f].edgeIndex[q]) < |edges| {
      assert Closed(faces[f], edges);
      ClosedReferences(faces[f], edges);
    }
  }

  lemma PairedInRange(edges: seq<Edge>, numVertices: nat)
    requires EdgesPaired(edges, numVertices)
    ensures forall e :: 0 <= e < |edges| ==> 0 <= edges[e].start <= edges[e].end < numVertices
  {
  }

  lemma EdgesOfRenumbering(edges: seq<Edge>, edges': seq<Edge>, newIndex: seq<int>, oldIndex: seq<int>,
                           numVertices: nat)
    requires EdgesPaired(edges, numVertices) && IsRenumbering(edges, edges', newIndex, oldIndex)
    ensures EdgesPaired(edges', numVertices)
  {
    assert forall e :: 0 <= e < |edges'| ==> edges'[e] == edges[oldIndex[e]];
    forall d, e | 0 <= d < |edges'| && 0 <= e < |edges'| ensures SameOpening(edges'[d], edges'[e]) {
      assert SameOpening(edges[oldIndex[d]], edges[oldIndex[e]]);
    }
  }

  lemma {:induction false} SidesHaveFaces(faces: seq<Face>, edges: seq<Edge>, h: HalfEdge)
    requires h in Sides(edges)
    requires forall e {:trigger edges[e]} :: 0 <= e < |edges| ==>
      && (edges[e].forward != NONE ==> 0 <= edges[e].forward < |faces|)
      && (edges[e].backward != NONE ==> 0 <= edges[e].backward < |faces|)
    ensures 0 <= h.f < |faces|
  {
    if h in Sides(edges[..|edges| - 1]) {
      SidesHaveFaces(faces, edges[..|edges| - 1], h);
    }
  }

  /** The edges hold the sides of the triangles, each as often as the list does. */
  lemma SidesAreTriangles(faces: seq<Face>, edges: seq<Edge>, indexArray: seq<int>)
    requires Building(faces, edges, multiset{}) && |indexArray| % 3 == 0 && |faces| == |indexArray| / 3
    requires forall f :: 0 <= f < |faces| ==> faces[f].vertexIndex == FaceOf(indexArray, f).vertexIndex
    ensures Sides(edges) == TriangleSides(indexArray, |faces|)
  {
    var k := |faces|;
    forall h: HalfEdge ensures Sides(edges)[h] == TriangleSides(indexArray, k)[h] {
      SideCount(faces, edges, indexArray, h);
    }
  }

  lemma SideCount(faces: seq<Face>, edges: seq<Edge>, indexArray: seq<int>, h: HalfEdge)
    requires Building(faces, edges, multiset{}) && |indexArray| % 3 == 0 && |faces| == |indexArray| / 3
    requires forall f :: 0 <= f < |faces| ==> faces[f].vertexIndex == FaceOf(indexArray, f).vertexIndex
    ensures Sides(edges)[h] == TriangleSides(indexArray, |faces|)[h]
  {
    if 0 <= h.f < |faces| {
      TriangleSidesTally(indexArray, |faces|, h.f, (h.u, h.v));
      SideTally(faces, edges, multiset{}, h.f, (h.u, h.v));
      SlotTally(faces, edges, h.f, (h.u, h.v));
    } else {
      if h in Sides(edges) {
        SidesHaveFaces(faces, edges, h);
      }
      TriangleSidesSize(indexArray, |faces|);
    }
  }

  /** What the copying loop has written before edge e: i edges in front, the places behind j. */
  ghost predicate Placed(temp: seq<Edge>, e: nat, edges: seq<Edge>, i: int, j: int) {
    && e <= |temp| == |edges|
    && 0 <= i && j < |temp| && i + (|temp| - 1 - j) == e
    && edges[..i] == Interior(temp[..e])
    && edges[j + 1..] == Reversed(Open(temp[..e]))
  }

  /** Edge k of the result is written. */
  ghost predicate Taken(k: int, i: int, j: int, n: int) {
    0 <= k < i || j < k < n
  }

  /** The maps between old and new numbers, as far as the copying loop has come. */
  ghost predicate Mapped(temp: seq<Edge>, e: nat, edges: seq<Edge>, newIndex: seq<int>, oldIndex: seq<int>, i: int,
                         j: int) {
    var n := |temp|;
    && |edges| == |newIndex| == |oldIndex| == n && e <= n && 0 <= i <= j + 1 <= n
    && (forall d :: 0 <= d < e ==>
          Taken(newIndex[d], i, j, n) && edges[newIndex[d]] == temp[d] && oldIndex[newIndex[d]] == d)
    && (forall k :: Taken(k, i, j, n) ==> 0 <= oldIndex[k] < e && newIndex[oldIndex[k]] == k)
  }

  ghost predicate HalfMoved(temp: seq<Edge>, e: nat, edges: seq<Edge>, newIndex: seq<int>, oldIndex: seq<int>, i: int,
                            j: int) {
    Placed(temp, e, edges, i, j) && Mapped(temp, e, edges, newIndex, oldIndex, i, j)
  }

  lemma HalfMovedStart(temp: seq<Edge>, edges: seq<Edge>, newIndex: seq<int>, oldIndex: seq<int>)
    requires |edges| == |newIndex| == |oldIndex| == |temp|
    ensures HalfMoved(temp, 0, edges, newIndex, oldIndex, 0, |temp| - 1)
  {
    assert temp[..0] == [];
  }

  lemma NextPlace(temp: seq<Edge>, e: nat, edges: seq<Edge>, newIndex: seq<int>, oldIndex: seq<int>, i: int, j: int)
    requires HalfMoved(temp, e, edges, newIndex, oldIndex, i, j) && e < |temp|
    ensures NewIndex(temp, e) == if temp[e].Boundary() then j else i
  {
    assert |edges[..i]| == i && |edges[j + 1..]| == |temp| - 1 - j;
  }

  lemma PlacedStep(temp: seq<Edge>, e: nat, edges: seq<Edge>, i: int, j: int)
    requires Placed(temp, e, edges, i, j) && e < |temp|
    ensures temp[e].Boundary() ==> Placed(temp, e + 1, edges[j := temp[e]], i, j - 1)
    ensures !temp[e].Boundary() ==> Placed(temp, e + 1, edges[i := temp[e]], i + 1, j)
  {
    var done, x := temp[..e], temp[e];
    assert temp[..e + 1] == done + [x];
    PartitionPush(done, x);
    hide Interior;
    hide Open;
    hide Reversed;
    if x.Boundary() {
      var edges' := edges[j := x];
      assert edges'[j..] == [x] + edges[j + 1..];
      assert edges'[..i] == edges[..i];
    } else {
      var edges' := edges[i := x];
      assert edges'[..i + 1] == edges[..i] + [x];
      assert edges'[j + 1..] == edges[j + 1..];
    }
  }

  lemma PartitionPush(edges: seq<Edge>, x: Edge)
    ensures x.Boundary() ==>
              Interior(edges + [x]) == Interior(edges) && Reversed(Open(edges + [x])) == [x] + Reversed(Open(edges))
    ensures !x.Boundary() ==> Interior(edges + [x]) == Interior(edges) + [x] && Open(edges + [x]) == Open(edges)
  {
    assert (edges + [x])[..|edges|] == edges;
    if x.Boundary() {
      assert Open(edges + [x]) == Open(edges) + [x];
    }
  }

  lemma MappedStep(temp: seq<Edge>, e: nat, edges: seq<Edge>, newIndex: seq<int>, oldIndex: seq<int>, i: int, j: int,
                   k: int, i': int, j': int)
    requires Mapped(temp, e, edges, newIndex, oldIndex, i, j) && e < |temp| && i <= j
    requires (k == j && i' == i && j' == j - 1) || (k == i && i' == i + 1 && j' == j)
    ensures Mapped(temp, e + 1, edges[k := temp[e]], newIndex[e := k], oldIndex[k := e], i', j')
  {
    var n := |temp|;
    assert forall x :: Taken(x, i', j', n) <==> Taken(x, i, j, n) || x == k;
  }

  lemma HalfMovedStep(temp: seq<Edge>, e: nat, edges: seq<Edge>, newIndex: seq<int>, oldIndex: seq<int>, i: int, j: int)
    requires HalfMoved(temp, e, edges, newIndex, oldIndex, i, j) && e < |temp|
    ensures var open := temp[e].Boundary();
      var k := if open then j else i;
      && 0 <= k < |edges| == |newIndex| == |oldIndex|
      && HalfMoved(temp, e + 1, edges[k := temp[e]], newIndex[e := k], oldIndex[k := e],
                   if open then i else i + 1, if open then j - 1 else j)
  {
    PlacedStep(temp, e, edges, i, j);
    if temp[e].Boundary() {
      MappedStep(temp, e, edges, newIndex, oldIndex, i, j, j, i, j - 1);
    } else {
      MappedStep(temp, e, edges, newIndex, oldIndex, i, j, i, i + 1, j);
    }
  }

  lemma HalfMovedEnd(temp: seq<Edge>, edges: seq<Edge>, newIndex: seq<int>, oldIndex: seq<int>, i: int, j: int)
    requires HalfMoved(temp, |temp|, edges, newIndex, oldIndex, i, j) && |temp| <= MAX_INT
    ensures edges == Interior(temp) + Reversed(Open(temp))
    ensures IsRenumbering(temp, edges, newIndex, oldIndex)
  {
    PlacedEnd(temp, edges, i, j);
    assert forall k :: 0 <= k < |temp| ==> Taken(k, i, j, |temp|);
  }

  lemma PlacedEnd(temp: seq<Edge>, edges: seq<Edge>, i: int, j: int)
    requires Placed(temp, |temp|, edges, i, j)
    ensures edges == Interior(temp) + Reversed(Open(temp))
  {
    hide Interior;
    hide Open;
    hide Reversed;
    assert temp[..|temp|] == temp;
    assert i == j + 1;
    assert edges == edges[..i] + edges[j + 1..];
  }

  /** The signed references, among the first k edges, that leave vertex v. */
  ghost function EdgesFrom(edges: seq<Edge>, v: int, k: nat): seq<int>
    requires k <= |edges|
  {
    if k == 0 then [] else
      EdgesFrom(edges, v, k - 1)
      + (if edges[k - 1].start == v then [k - 1] else [])
      + (if edges[k - 1].end == v then [Flip(k - 1)] else [])
  }

  /** The edges between any two vertices are paired as far as possible. */
  ghost predicate EdgesPaired(edges: seq<Edge>, numVertices: nat) {
    && (forall e {:trigger edges[e]} :: 0 <= e < |edges| ==>
         && 0 <= edges[e].start <= edges[e].end < numVertices
         && (edges[e].forward != NONE || edges[e].backward != NONE)
         && (edges[e].start == edges[e].end ==> edges[e].forward == NONE))
    && (forall d, e :: 0 <= d < |edges| && 0 <= e < |edges| ==> SameOpening(edges[d], edges[e]))
  }

  /** Two open edges between the same vertices miss the same side. */
  ghost predicate SameOpening(d: Edge, e: Edge) {
    d.start == e.start && d.end == e.end && d.Boundary() && e.Boundary() ==>
      (d.backward == NONE <==> e.backward == NONE)
  }

  ghost predicate Between(e: Edge, k: Key) {
    e.start == k.i0 && e.end == k.i1
  }

  ghost predicate NoneOf(edges: seq<Edge>, keys: seq<Key>) {
    forall e, k :: 0 <= e < |edges| && 0 <= k < |keys| ==> !Between(edges[e], keys[k])
  }

  lemma NextPending(keys: seq<Key>, k: nat)
    requires k < |keys|
    ensures Pending(keys[k..]) == Entries(keys[k].i0, keys[k].i1, keys[k].faces) + Pending(keys[k + 1..])
    ensures |Pending(keys[k..])| == |keys[k].faces| + |Pending(keys[k + 1..])|
  {
    assert keys[k..][0] == keys[k] && keys[k..][1..] == keys[k + 1..];
    EntriesSize(keys[k].i0, keys[k].i1, keys[k].faces);
  }

  lemma BuildingShapes(faces: seq<Face>, edges: seq<Edge>, pending: multiset<HalfEdge>)
    requires Building(faces, edges, pending)
    ensures FaceShapes(faces)
  {
  }

  ghost predicate SameCorners(faces: seq<Face>, faces': seq<Face>) {
    && |faces| == |faces'|
    && forall f :: 0 <= f < |faces| ==> faces'[f].vertexIndex == faces[f].vertexIndex
  }

  /** The sides of the list all point the same way, forward or not. */
  ghost predicate OnlySign(faces: seq<int>, forward: bool) {
    forall i :: 0 <= i < |faces| ==> (faces[i] >= 0 <==> forward)
  }

  /** An edge made for the last side of the list: it stays open only if all sides point that way. */
  ghost predicate IsPairing(e: Edge, i0: int, i1: int, faces: seq<int>)
    requires faces != []
  {
    && e.start == i0 && e.end == i1
    && (e.forward == NONE || e.forward >= 0) && (e.backward == NONE || e.backward >= 0)
    && (e.forward != NONE || e.backward != NONE)
    && (e.Boundary() ==> OnlySign(faces, e.backward == NONE))
    && ((forall i :: 0 <= i < |faces| ==> faces[i] < 0) ==> e.forward == NONE)
  }

  /** Edges of one vertex pair, of which the open ones all miss the same side. */
  ghost predicate PairedUp(edges: seq<Edge>, i0: int, i1: int) {
    && (forall e :: 0 <= e < |edges| ==>
         && edges[e].start == i0 && edges[e].end == i1
         && (edges[e].forward != NONE || edges[e].backward != NONE)
         && (i0 == i1 ==> edges[e].forward == NONE))
    && (forall d, e :: 0 <= d < |edges| && 0 <= e < |edges| && edges[d].Boundary() && edges[e].Boundary() ==>
         (edges[d].backward == NONE <==> edges[e].backward == NONE))
  }

  lemma PairedUpStep(edges: seq<Edge>, e: Edge, i0: int, i1: int, faces: seq<int>)
    requires PairedUp(edges, i0, i1) && faces != [] && IsPairing(e, i0, i1, faces)
    requires forall d :: 0 <= d < |edges| && edges[d].Boundary() ==> OnlySign(faces, edges[d].backward == NONE)
    requires i0 == i1 ==> forall i :: 0 <= i < |faces| ==> faces[i] < 0
    ensures PairedUp(edges + [e], i0, i1)
    ensures forall d :: 0 <= d < |edges + [e]| && (edges + [e])[d].Boundary() ==>
              OnlySign(faces, (edges + [e])[d].backward == NONE)
  {
    forall d | 0 <= d < |edges| && edges[d].Boundary() && e.Boundary()
      ensures edges[d].backward == NONE <==> e.backward == NONE {
      assert OnlySign(faces, edges[d].backward == NONE);
      assert faces[0] >= 0 <==> edges[d].backward == NONE;
    }
  }

  lemma PopEntries(i0: int, i1: int, faces: seq<int>, rest: multiset<HalfEdge>)
    requires faces != []
    ensures Entries(i0, i1, faces) + rest
              == Entries(i0, i1, faces[..|faces| - 1]) + rest + multiset{Entry(i0, i1, faces[|faces| - 1])}
  {
  }

  lemma RemoveEntries(i0: int, i1: int, faces: seq<int>, i: nat, rest: multiset<HalfEdge>)
    requires i < |faces|
    ensures Entries(i0, i1, faces) + rest
              == Entries(i0, i1, FastRemoved(faces, i)) + rest + multiset{Entry(i0, i1, faces[i])}
    ensures forall k :: 0 <= k < |faces| - 1 ==> FastRemoved(faces, i)[k] in faces
  {
    FastRemovedEntries(i0, i1, faces, i);
  }

  lemma NoEntries(i0: int, i1: int, rest: multiset<HalfEdge>)
    ensures Entries(i0, i1, []) + rest == rest
  {
  }

  lemma PendingFaces(faces: seq<Face>, edges: seq<Edge>, i0: int, i1: int, list: seq<int>, rest: multiset<HalfEdge>)
    requires Building(faces, edges, Entries(i0, i1, list) + rest)
    ensures forall i :: 0 <= i < |list| ==> 0 <= IndexOf(list[i]) < |faces|
  {
    EntriesSize(i0, i1, list);
    forall i | 0 <= i < |list| ensures 0 <= IndexOf(list[i]) < |faces| {
      assert Entry(i0, i1, list[i]) in Entries(i0, i1, list) + rest;
    }
  }

  // ---------- pairing the sides of one vertex pair ----------

  ghost predicate FacesKnown(faces: seq<int>, faceNormal: seq<Vector3>) {
    forall i :: 0 <= i < |faces| ==> 0 <= IndexOf(faces[i]) < |faceNormal|
  }

  /** The oppositely directed face whose normal is closest to that of f0; the last one on ties. */
  method FindMate(faces: seq<int>, f0: int, faceNormal: seq<Vector3>) returns (found: bool, i1: nat)
    requires FacesKnown(faces, faceNormal) && 0 <= IndexOf(f0) < |faceNormal|
    ensures (if found then i1 else -1) == Mate(faces, f0, faceNormal, 0)
    ensures found <==> exists i :: 0 <= i < |faces| && Opposite(faces[i], f0)
    ensures found ==> i1 < |faces| && Opposite(faces[i1], f0)
    ensures found ==> forall i :: 0 <= i < |faces| && Opposite(faces[i], f0) ==>
      Dot(NormalOf(faceNormal, faces[i]), NormalOf(faceNormal, f0))
        <= Dot(NormalOf(faceNormal, faces[i1]), NormalOf(faceNormal, f0))
    ensures found ==> forall i :: i1 < i < |faces| && Opposite(faces[i], f0) ==>
      Dot(NormalOf(faceNormal, faces[i]), NormalOf(faceNormal, f0))
        < Dot(NormalOf(faceNormal, faces[i1]), NormalOf(faceNormal, f0))
  {
    var n0 := NormalOf(faceNormal, f0);
    var ndotn := -2.0;
    found, i1 := false, 0;
    for i := |faces| downto 0
      invariant (if found then i1 else -1) == Mate(faces, f0, faceNormal, i)
      invariant found <==> exists k :: i <= k < |faces| && Opposite(faces[k], f0)
      invariant found ==>
                  i <= i1 < |faces| && Opposite(faces[i1], f0) && ndotn == Dot(NormalOf(faceNormal, faces[i1]), n0)
      invariant found ==> forall k :: i <= k < |faces| && Opposite(faces[k], f0) ==>
                  Dot(NormalOf(faceNormal, faces[k]), n0) <= ndotn
      invariant found ==> forall k :: i1 < k < |faces| && Opposite(faces[k], f0) ==>
                  Dot(NormalOf(faceNormal, faces[k]), n0) < ndotn
    {
      var f := faces[i];
      if Opposite(f, f0) {
        var d := Dot(NormalOf(faceNormal, f), n0);
        if !found || d > ndotn {
          ndotn, i1, found := d, i, true;
        }
      }
    }
  }

  lemma {:induction false} FastRemovedEntries(i0: int, i1: int, faces: seq<int>, i: nat)
    requires i < |faces|
    ensures Entries(i0, i1, faces) == Entries(i0, i1, FastRemoved(faces, i)) + multiset{Entry(i0, i1, faces[i])}
  {
    var last := |faces| - 1;
    EntriesReplace(i0, i1, faces[..last], i, faces[last]);
    assert Entries(i0, i1, faces) == Entries(i0, i1, faces[..last]) + multiset{Entry(i0, i1, faces[last])};
    hide Entries;
    if i < last {
      assert FastRemoved(faces, i) == faces[..last][i := faces[last]];
    } else {
      assert FastRemoved(faces, i) == faces[..last];
    }
  }

  lemma {:induction false} EntriesReplace(i0: int, i1: int, faces: seq<int>, i: nat, f: int)
    requires i <= |faces|
    ensures i < |faces| ==>
      Entries(i0, i1, faces) + multiset{Entry(i0, i1, f)}
        == Entries(i0, i1, faces[i := f]) + multiset{Entry(i0, i1, faces[i])}
  {
    if i < |faces| {
      var last, new_ := |faces| - 1, faces[i := f];
      assert Entries(i0, i1, faces) == Entries(i0, i1, faces[..last]) + multiset{Entry(i0, i1, faces[last])};
      assert Entries(i0, i1, new_) == Entries(i0, i1, new_[..last]) + multiset{Entry(i0, i1, new_[last])};
      hide Entries;
      if i < last {
        EntriesReplace(i0, i1, faces[..last], i, f);
        assert new_[..last] == faces[..last][i := f] && faces[..last][i] == faces[i];
      } else {
        assert new_[..last] == faces[..last];
      }
    }
  }

  lemma {:induction false} EntriesSize(i0: int, i1: int, faces: seq<int>)
    ensures |Entries(i0, i1, faces)| == |faces|
    ensures forall i :: 0 <= i < |faces| ==> Entry(i0, i1, faces[i]) in Entries(i0, i1, faces)
  {
    if faces != [] {
      EntriesSize(i0, i1, faces[..|faces| - 1]);
    }
  }
}
