/** Faces, edges and vertices of an indexed mesh, and what it means for the three to agree. */
module MeshTopology {

  /** Marks a face slot that holds no edge yet and an edge side that has no face (INT_MIN). */
  const NONE: int := -0x8000_0000
  const MAX_INT: int := 0x7fff_ffff

  /** One's complement of a signed index: reverses the direction of an edge reference. */
  function Flip(e: int): int {
    -e - 1
  }

  function IndexOf(e: int): int {
    if e >= 0 then e else Flip(e)
  }

  /** Three corners and three signed edge references. */
  datatype Face = Face(vertexIndex: seq<int>, edgeIndex: seq<int>)

  /**
   * vertexIndex[0] and vertexIndex[1] are start and end; faceIndex[0], the face that runs along
   * the edge forwards, is forward and faceIndex[1] is backward.
   */
  datatype Edge = Edge(start: int, end: int, forward: int, backward: int) {
    predicate Boundary() {
      forward == NONE || backward == NONE
    }
  }

  datatype Vertex = Vertex(edgeIndex: seq<int>, faceIndex: seq<int>)

  /** The directed side from u to v of face f. */
  datatype HalfEdge = HalfEdge(u: int, v: int, f: int)

  type Arrow = (int, int)

  // ---------- half-edges ----------

  function EdgeSides(e: Edge): multiset<HalfEdge> {
    (if e.forward == NONE then multiset{} else multiset{HalfEdge(e.start, e.end, e.forward)}) +
    (if e.backward == NONE then multiset{} else multiset{HalfEdge(e.end, e.start, e.backward)})
  }

  /** All half-edges the edges stand for. */
  function Sides(edges: seq<Edge>): multiset<HalfEdge> {
    if edges == [] then multiset{} else
      Sides(edges[..|edges| - 1]) + EdgeSides(edges[|edges| - 1])
  }

  /** The direction in which a face runs along the edge it refers to by e. */
  function Directed(e: int, edges: seq<Edge>): Arrow
    requires 0 <= IndexOf(e) < |edges|
  {
    if e >= 0 then (edges[e].start, edges[e].end) else (edges[Flip(e)].end, edges[Flip(e)].start)
  }

  ghost predicate FaceShape(face: Face) {
    |face.vertexIndex| == 3 && |face.edgeIndex| == 3
  }

  ghost predicate FaceShapes(faces: seq<Face>) {
    forall f :: 0 <= f < |faces| ==> FaceShape(faces[f])
  }

  function Corners(face: Face): multiset<Arrow>
    requires |face.vertexIndex| == 3
  {
    var v := face.vertexIndex;
    multiset{(v[0], v[1]), (v[1], v[2]), (v[2], v[0])}
  }

  function SlotArrow(e: int, edges: seq<Edge>): multiset<Arrow>
    requires e == NONE || 0 <= IndexOf(e) < |edges|
  {
    if e == NONE then multiset{} else multiset{Directed(e, edges)}
  }

  ghost predicate SlotInRange(e: int, edges: seq<Edge>) {
    e == NONE || 0 <= IndexOf(e) < |edges|
  }

  ghost predicate SlotsInRange(face: Face, edges: seq<Edge>)
    requires FaceShape(face)
  {
    forall i :: 0 <= i < 3 ==> SlotInRange(face.edgeIndex[i], edges)
  }

  function Slots(face: Face, edges: seq<Edge>): multiset<Arrow>
    requires FaceShape(face) && SlotsInRange(face, edges)
  {
    SlotArrow(face.edgeIndex[0], edges) + SlotArrow(face.edgeIndex[1], edges) + SlotArrow(face.edgeIndex[2], edges)
  }

  // ---------- agreement of faces and edges ----------

  /** The side of the edge that reference e stands for belongs to face f. */
  ghost predicate SideIs(e: int, edges: seq<Edge>, f: int)
    requires 0 <= IndexOf(e) < |edges|
  {
    if e >= 0 then edges[e].forward == f else edges[Flip(e)].backward == f
  }

  /** Every reference in a face is to the side of an edge that names that face. */
  ghost predicate SlotsAgree(faces: seq<Face>, edges: seq<Edge>) {
    && FaceShapes(faces)
    && forall f, i {:trigger faces[f].edgeIndex[i]} ::
         0 <= f < |faces| && 0 <= i < 3 && faces[f].edgeIndex[i] != NONE ==>
         0 <= IndexOf(faces[f].edgeIndex[i]) < |edges| && SideIs(faces[f].edgeIndex[i], edges, f)
  }

  /** Every face named by an edge refers back to that side of it. */
  ghost predicate SidesListed(faces: seq<Face>, edges: seq<Edge>) {
    forall e {:trigger edges[e]} :: 0 <= e < |edges| ==>
      && (edges[e].forward != NONE ==> 0 <= edges[e].forward < |faces| && e in faces[edges[e].forward].edgeIndex)
      && (edges[e].backward != NONE ==>
            0 <= edges[e].backward < |faces| && Flip(e) in faces[edges[e].backward].edgeIndex)
  }

  /** The arrows of a face's references are, with multiplicity, the sides the edges hold of it. */
  ghost predicate SlotsCounted(faces: seq<Face>, edges: seq<Edge>)
    requires SlotsAgree(faces, edges)
  {
    forall f, a: Arrow {:trigger Slots(faces[f], edges)[a]} :: 0 <= f < |faces| ==>
      Slots(faces[f], edges)[a] == Sides(edges)[HalfEdge(a.0, a.1, f)]
  }

  /** Each side of each face is either on an edge or still pending. */
  ghost predicate Accounted(faces: seq<Face>, edges: seq<Edge>, pending: multiset<HalfEdge>)
    requires FaceShapes(faces)
  {
    && (forall f, a: Arrow {:trigger Corners(faces[f])[a]} :: 0 <= f < |faces| ==>
         Sides(edges)[HalfEdge(a.0, a.1, f)] + pending[HalfEdge(a.0, a.1, f)] == Corners(faces[f])[a])
    && (forall h :: h in pending ==> 0 <= h.f < |faces|)
  }

  /** What holds between any two steps of building the edges. */
  ghost predicate Building(faces: seq<Face>, edges: seq<Edge>, pending: multiset<HalfEdge>) {
    && SlotsAgree(faces, edges)
    && SidesListed(faces, edges)
    && SlotsCounted(faces, edges)
    && Accounted(faces, edges, pending)
  }

  lemma SlotsOfFace(faces: seq<Face>, edges: seq<Edge>, f: int)
    requires SlotsAgree(faces, edges) && 0 <= f < |faces|
    ensures FaceShape(faces[f]) && SlotsInRange(faces[f], edges)
  {
  }

  // ---------- attaching a face to one side of the newest edge ----------

  function WithSide(e: Edge, forward: bool, f: int): Edge {
    if forward then e.(forward := f) else e.(backward := f)
  }

  function WithSlot(face: Face, i: nat, e: int): Face
    requires i < |face.edgeIndex|
  {
    face.(edgeIndex := face.edgeIndex[i := e])
  }

  function SignedIndex(forward: bool, e: int): int {
    if forward then e else Flip(e)
  }

  lemma SidesLast(edges: seq<Edge>, e: Edge)
    ensures Sides(edges + [e]) == Sides(edges) + EdgeSides(e)
  {
    assert (edges + [e])[..|edges|] == edges;
  }

  /** What is asked of a step that gives side `forward` of the last edge to face f, in slot i. */
  ghost predicate CanAttach(faces: seq<Face>, edges: seq<Edge>, pending: multiset<HalfEdge>, forward: bool, f: int,
                            i: nat) {
    && edges != []
    && var e := |edges| - 1;
    && e < MAX_INT
    && 0 <= f < |faces| && FaceShape(faces[f]) && i < 3 && faces[f].edgeIndex[i] == NONE
    && (if forward then edges[e].forward == NONE else edges[e].backward == NONE)
    && var a := Directed(SignedIndex(forward, e), edges);
    && HalfEdge(a.0, a.1, f) in pending
  }

  lemma AttachSides(edges: seq<Edge>, forward: bool, f: int)
    requires edges != [] && f >= 0
    requires if forward then edges[|edges| - 1].forward == NONE else edges[|edges| - 1].backward == NONE
    ensures var e := |edges| - 1;
      var a := Directed(SignedIndex(forward, e), edges);
      Sides(edges[e := WithSide(edges[e], forward, f)]) == Sides(edges) + multiset{HalfEdge(a.0, a.1, f)}
  {
    var e := |edges| - 1;
    assert edges[e := WithSide(edges[e], forward, f)][..e] == edges[..e];
  }

  /** Edges with the same ends give a face the same arrows. */
  ghost predicate SameEnds(edges: seq<Edge>, edges': seq<Edge>) {
    && |edges| <= |edges'|
    && forall e :: 0 <= e < |edges| ==> edges'[e].start == edges[e].start && edges'[e].end == edges[e].end
  }

  lemma SlotsSameEnds(face: Face, edges: seq<Edge>, edges': seq<Edge>)
    requires FaceShape(face) && SlotsInRange(face, edges) && SameEnds(edges, edges')
    ensures SlotsInRange(face, edges') && Slots(face, edges') == Slots(face, edges)
  {
    hide SlotArrow;
    hide SameEnds;
    forall i | 0 <= i < 3
      ensures SlotInRange(face.edgeIndex[i], edges')
              && SlotArrow(face.edgeIndex[i], edges') == SlotArrow(face.edgeIndex[i], edges)
    {
      SlotSameEnds(face.edgeIndex[i], edges, edges');
    }
  }

  lemma SlotSameEnds(e: int, edges: seq<Edge>, edges': seq<Edge>)
    requires SlotInRange(e, edges) && SameEnds(edges, edges')
    ensures SlotInRange(e, edges') && SlotArrow(e, edges') == SlotArrow(e, edges)
  {
  }

  lemma SlotsWithOneMore(face: Face, edges: seq<Edge>, i: nat, s: int)
    requires FaceShape(face) && SlotsInRange(face, edges) && i < 3 && face.edgeIndex[i] == NONE
    requires s != NONE && 0 <= IndexOf(s) < |edges|
    ensures var face' := WithSlot(face, i, s);
      FaceShape(face') && SlotsInRange(face', edges)
      && Slots(face', edges) == Slots(face, edges) + multiset{Directed(s, edges)}
  {
    var face' := WithSlot(face, i, s);
    forall j | 0 <= j < 3 ensures SlotInRange(face'.edgeIndex[j], edges) {
      assert SlotInRange(face.edgeIndex[j], edges);
    }
    assert SlotArrow(s, edges) == multiset{Directed(s, edges)};
    assert SlotArrow(NONE, edges) == multiset{};
  }

  /** One such step, written out. */
  ghost predicate Attached(faces: seq<Face>, edges: seq<Edge>, pending: multiset<HalfEdge>, forward: bool, f: int,
                           i: nat,
                           s: int, a: Arrow, faces': seq<Face>, edges': seq<Edge>, pending': multiset<HalfEdge>) {
    && CanAttach(faces, edges, pending, forward, f, i)
    && s == SignedIndex(forward, |edges| - 1)
    && a == Directed(s, edges)
    && faces' == faces[f := WithSlot(faces[f], i, s)]
    && edges' == edges[|edges| - 1 := WithSide(edges[|edges| - 1], forward, f)]
    && pending' == pending - multiset{HalfEdge(a.0, a.1, f)}
  }

  lemma AttachSlots(faces: seq<Face>, edges: seq<Edge>, pending: multiset<HalfEdge>, forward: bool, f: int, i: nat,
                    s: int, a: Arrow, faces': seq<Face>, edges': seq<Edge>, pending': multiset<HalfEdge>, g: int)
    requires SlotsAgree(faces, edges) && Attached(faces, edges, pending, forward, f, i, s, a, faces', edges', pending')
    requires 0 <= g < |faces|
    ensures FaceShape(faces'[g]) && SlotsInRange(faces'[g], edges') && FaceShape(faces[g])
            && SlotsInRange(faces[g], edges)
    ensures g != f ==> Slots(faces'[g], edges') == Slots(faces[g], edges)
    ensures g == f ==> Slots(faces'[g], edges') == Slots(faces[g], edges) + multiset{a}
  {
    hide Slots;
    hide SlotArrow;
    SlotsOfFace(faces, edges, g);
    SlotsSameEnds(faces[g], edges, edges');
    if g == f {
      SlotsWithOneMore(faces[f], edges', i, s);
    }
  }

  lemma AttachListed(faces: seq<Face>, edges: seq<Edge>, pending: multiset<HalfEdge>, forward: bool, f: int, i: nat,
                     s: int, a: Arrow, faces': seq<Face>, edges': seq<Edge>, pending': multiset<HalfEdge>)
    requires SidesListed(faces, edges) && Attached(faces, edges, pending, forward, f, i, s, a, faces', edges', pending')
    ensures SidesListed(faces', edges')
  {
    assert faces'[f].edgeIndex[i] == s;
    forall x, g | 0 <= g < |faces| && x in faces[g].edgeIndex && x != NONE ensures x in faces'[g].edgeIndex {
      var j :| 0 <= j < |faces[g].edgeIndex| && faces[g].edgeIndex[j] == x;
      assert faces'[g].edgeIndex[j] == x;
    }
  }

  lemma SlotTally(faces: seq<Face>, edges: seq<Edge>, g: int, b: Arrow)
    requires SlotsAgree(faces, edges) && SlotsCounted(faces, edges) && 0 <= g < |faces|
    ensures FaceShape(faces[g]) && SlotsInRange(faces[g], edges)
    ensures Slots(faces[g], edges)[b] == Sides(edges)[HalfEdge(b.0, b.1, g)]
  {
  }

  lemma AttachCounted(faces: seq<Face>, edges: seq<Edge>, pending: multiset<HalfEdge>, forward: bool, f: int, i: nat,
                      s: int, a: Arrow, faces': seq<Face>, edges': seq<Edge>, pending': multiset<HalfEdge>)
    requires SlotsAgree(faces, edges) && SlotsCounted(faces, edges) && SlotsAgree(faces', edges')
    requires Attached(faces, edges, pending, forward, f, i, s, a, faces', edges', pending')
    ensures SlotsCounted(faces', edges')
  {
    AttachSides(edges, forward, f);
    var all, all' := Sides(edges), Sides(edges');
    assert all' == all + multiset{HalfEdge(a.0, a.1, f)};
    forall g, b: Arrow | 0 <= g < |faces'|
      ensures Slots(faces'[g], edges')[b] == all'[HalfEdge(b.0, b.1, g)] {
      AttachSlots(faces, edges, pending, forward, f, i, s, a, faces', edges', pending', g);
      SlotTally(faces, edges, g, b);
      OneMoreSide(Slots(faces[g], edges), Slots(faces'[g], edges'), all, all', a, b, f, g);
    }
  }

  lemma OneMoreSide(used: multiset<Arrow>, used': multiset<Arrow>, all: multiset<HalfEdge>, all': multiset<HalfEdge>,
                    a: Arrow, b: Arrow, f: int, g: int)
    requires used[b] == all[HalfEdge(b.0, b.1, g)]
    requires all' == all + multiset{HalfEdge(a.0, a.1, f)}
    requires used' == if g == f then used + multiset{a} else used
    ensures used'[b] == all'[HalfEdge(b.0, b.1, g)]
  {
    assert HalfEdge(b.0, b.1, g) == HalfEdge(a.0, a.1, f) <==> g == f && b == a;
  }

  lemma AttachAccounted(faces: seq<Face>, edges: seq<Edge>, pending: multiset<HalfEdge>, forward: bool, f: int, i: nat,
                        s: int, a: Arrow, faces': seq<Face>, edges': seq<Edge>, pending': multiset<HalfEdge>)
    requires FaceShapes(faces) && Accounted(faces, edges, pending) && FaceShapes(faces')
    requires Attached(faces, edges, pending, forward, f, i, s, a, faces', edges', pending')
    ensures Accounted(faces', edges', pending')
  {
    AttachSides(edges, forward, f);
    var all, all' := Sides(edges), Sides(edges');
    assert all' == all + multiset{HalfEdge(a.0, a.1, f)};
    forall g, b: Arrow | 0 <= g < |faces'|
      ensures all'[HalfEdge(b.0, b.1, g)] + pending'[HalfEdge(b.0, b.1, g)] == Corners(faces'[g])[b] {
      assert Corners(faces'[g]) == Corners(faces[g]);
      assert all[HalfEdge(b.0, b.1, g)] + pending[HalfEdge(b.0, b.1, g)] == Corners(faces[g])[b];
    }
  }

  lemma AttachKeepsBuilding(faces: seq<Face>, edges: seq<Edge>, pending: multiset<HalfEdge>, forward: bool, f: int,
                            i: nat,
                            s: int, a: Arrow, faces': seq<Face>, edges': seq<Edge>, pending': multiset<HalfEdge>)
    requires Building(faces, edges, pending)
    requires Attached(faces, edges, pending, forward, f, i, s, a, faces', edges', pending')
    ensures Building(faces', edges', pending')
  {
    AttachListed(faces, edges, pending, forward, f, i, s, a, faces', edges', pending');
    AttachCounted(faces, edges, pending, forward, f, i, s, a, faces', edges', pending');
    AttachAccounted(faces, edges, pending, forward, f, i, s, a, faces', edges', pending');
  }

  /** A face with a pending side has a free slot: assignEdgeIndex never runs past its loop. */
  lemma PendingMeansFreeSlot(faces: seq<Face>, edges: seq<Edge>, pending: multiset<HalfEdge>, h: HalfEdge)
    requires Building(faces, edges, pending) && h in pending
    ensures 0 <= h.f < |faces| && NONE in faces[h.f].edgeIndex
  {
    var f := h.f;
    var face := faces[f];
    SlotsOfFace(faces, edges, f);
    var used, all := Slots(face, edges), Corners(face);
    forall a: Arrow ensures used[a] + pending[HalfEdge(a.0, a.1, f)] == all[a] {
      SideTally(faces, edges, pending, f, a);
    }
    SideTally(faces, edges, pending, f, (h.u, h.v));
    FewerMeansSmaller(used, all, (h.u, h.v));
    if NONE !in face.edgeIndex {
      ThreeSlots(face, edges);
    }
  }

  lemma ThreeSlots(face: Face, edges: seq<Edge>)
    requires FaceShape(face) && SlotsInRange(face, edges)
    ensures NONE in face.edgeIndex <==> |Slots(face, edges)| < 3
    ensures |Slots(face, edges)| <= 3 && |Corners(face)| == 3
  {
    SlotSize(face.edgeIndex[0], edges);
    SlotSize(face.edgeIndex[1], edges);
    SlotSize(face.edgeIndex[2], edges);
    hide SlotArrow;
    var e := face.edgeIndex;
    assert NONE in e <==> e[0] == NONE || e[1] == NONE || e[2] == NONE;
  }

  lemma SlotSize(e: int, edges: seq<Edge>)
    requires SlotInRange(e, edges)
    ensures |SlotArrow(e, edges)| == if e == NONE then 0 else 1
  {
  }

  lemma SideTally(faces: seq<Face>, edges: seq<Edge>, pending: multiset<HalfEdge>, f: int, a: Arrow)
    requires Building(faces, edges, pending) && 0 <= f < |faces|
    ensures FaceShape(faces[f]) && SlotsInRange(faces[f], edges)
    ensures Slots(faces[f], edges)[a] + pending[HalfEdge(a.0, a.1, f)] == Corners(faces[f])[a]
  {
    hide Slots;
    hide Corners;
    hide Sides;
    SlotTally(faces, edges, f, a);
    assert Sides(edges)[HalfEdge(a.0, a.1, f)] + pending[HalfEdge(a.0, a.1, f)] == Corners(faces[f])[a];
  }

  lemma FewerMeansSmaller<T(!new)>(small: multiset<T>, large: multiset<T>, x: T)
    requires forall y :: small[y] <= large[y]
    requires small[x] < large[x]
    ensures |small| < |large|
  {
    assert small <= large;
    assert large == small + (large - small);
    assert x in large - small;
  }

  /** When nothing is pending, every face has its three sides. */
  lemma NothingPending(faces: seq<Face>, edges: seq<Edge>, f: int)
    requires Building(faces, edges, multiset{}) && 0 <= f < |faces|
    ensures FaceShape(faces[f]) && SlotsInRange(faces[f], edges) && Slots(faces[f], edges) == Corners(faces[f])
    ensures NONE !in faces[f].edgeIndex
  {
    hide Slots;
    hide Corners;
    hide Sides;
    SlotsOfFace(faces, edges, f);
    var used, all := Slots(faces[f], edges), Corners(faces[f]);
    forall a: Arrow ensures used[a] == all[a] {
      SideTally(faces, edges, multiset{}, f, a);
    }
    assert used == all;
    ThreeSlots(faces[f], edges);
  }

  // ---------- starting a new edge ----------

  lemma SlotsWithMoreEdges(faces: seq<Face>, edges: seq<Edge>, e: Edge, f: int)
    requires SlotsAgree(faces, edges) && 0 <= f < |faces|
    ensures FaceShape(faces[f]) && SlotsInRange(faces[f], edges) && SlotsInRange(faces[f], edges + [e])
    ensures Slots(faces[f], edges + [e]) == Slots(faces[f], edges)
  {
    SlotsOfFace(faces, edges, f);
    SlotsSameEnds(faces[f], edges, edges + [e]);
  }

  lemma BlankEdgeKeepsBuilding(faces: seq<Face>, edges: seq<Edge>, pending: multiset<HalfEdge>, u: int, v: int)
    requires Building(faces, edges, pending)
    ensures Building(faces, edges + [Edge(u, v, NONE, NONE)], pending)
  {
    var e := Edge(u, v, NONE, NONE);
    var edges' := edges + [e];
    SidesLast(edges, e);
    assert Sides(edges') == Sides(edges);
    assert SlotsAgree(faces, edges');
    forall f, a: Arrow | 0 <= f < |faces|
      ensures Slots(faces[f], edges')[a] == Sides(edges')[HalfEdge(a.0, a.1, f)] {
      SlotsWithMoreEdges(faces, edges, e, f);
      SlotTally(faces, edges, f, a);
    }
  }

  // ---------- finished meshes ----------

  /** Every face refers to exactly the sides between its corners. */
  ghost predicate Closed(face: Face, edges: seq<Edge>) {
    && FaceShape(face) && SlotsInRange(face, edges)
    && NONE !in face.edgeIndex
    && Slots(face, edges) == Corners(face)
  }

  ghost predicate AllClosed(faces: seq<Face>, edges: seq<Edge>) {
    forall f :: 0 <= f < |faces| ==> Closed(faces[f], edges)
  }

  /** Faces and edges refer to each other completely. */
  ghost predicate Linked(faces: seq<Face>, edges: seq<Edge>) {
    && SlotsAgree(faces, edges)
    && SidesListed(faces, edges)
    && AllClosed(faces, edges)
  }

  lemma BuildingDone(faces: seq<Face>, edges: seq<Edge>)
    requires Building(faces, edges, multiset{})
    ensures Linked(faces, edges)
  {
    forall f | 0 <= f < |faces| ensures Closed(faces[f], edges) {
      NothingPending(faces, edges, f);
    }
  }

  // ---------- renumbering edges ----------

  ghost predicate IsRenumbering(edges: seq<Edge>, edges': seq<Edge>, newIndex: seq<int>, oldIndex: seq<int>) {
    && |edges| == |edges'| == |newIndex| == |oldIndex| <= MAX_INT
    && (forall e :: 0 <= e < |edges| ==>
          0 <= newIndex[e] < |edges| && edges'[newIndex[e]] == edges[e] && oldIndex[newIndex[e]] == e)
    && (forall e :: 0 <= e < |edges| ==> 0 <= oldIndex[e] < |edges| && newIndex[oldIndex[e]] == e)
  }

  /** A signed reference through the renumbering; the sign is kept. */
  function Renumbered(e: int, newIndex: seq<int>): int
    requires 0 <= IndexOf(e) < |newIndex|
  {
    if e < 0 then Flip(newIndex[Flip(e)]) else newIndex[e]
  }

  ghost predicate FaceRenumbered(face: Face, face': Face, newIndex: seq<int>) {
    && FaceShape(face) && FaceShape(face')
    && face'.vertexIndex == face.vertexIndex
    && forall i :: 0 <= i < 3 ==>
         0 <= IndexOf(face.edgeIndex[i]) < |newIndex| && face'.edgeIndex[i] == Renumbered(face.edgeIndex[i], newIndex)
  }

  lemma RenumberedClosed(face: Face, face': Face, edges: seq<Edge>, edges': seq<Edge>, newIndex: seq<int>,
                         oldIndex: seq<int>)
    requires Closed(face, edges) && IsRenumbering(edges, edges', newIndex, oldIndex)
             && FaceRenumbered(face, face', newIndex)
    ensures Closed(face', edges')
  {
    hide SlotArrow;
    hide IsRenumbering;
    forall i | 0 <= i < 3
      ensures SlotInRange(face'.edgeIndex[i], edges') && face'.edgeIndex[i] != NONE
      ensures SlotArrow(face'.edgeIndex[i], edges') == SlotArrow(face.edgeIndex[i], edges)
    {
      assert face.edgeIndex[i] in face.edgeIndex && SlotInRange(face.edgeIndex[i], edges);
      RenumberedSlot(face.edgeIndex[i], edges, edges', newIndex, oldIndex);
    }
    assert Slots(face', edges') == Slots(face, edges);
  }

  lemma RenumberedSlot(e: int, edges: seq<Edge>, edges': seq<Edge>, newIndex: seq<int>, oldIndex: seq<int>)
    requires e != NONE && SlotInRange(e, edges) && IsRenumbering(edges, edges', newIndex, oldIndex)
    requires 0 <= IndexOf(e) < |newIndex|
    ensures var e' := Renumbered(e, newIndex);
      SlotInRange(e', edges') && e' != NONE && SlotArrow(e', edges') == SlotArrow(e, edges)
  {
  }

  lemma RenumberedLinked(faces: seq<Face>, faces': seq<Face>, edges: seq<Edge>, edges': seq<Edge>, newIndex: seq<int>,
                         oldIndex: seq<int>)
    requires Linked(faces, edges) && IsRenumbering(edges, edges', newIndex, oldIndex)
    requires |faces| == |faces'| && forall f :: 0 <= f < |faces| ==> FaceRenumbered(faces[f], faces'[f], newIndex)
    ensures Linked(faces', edges')
  {
    forall f | 0 <= f < |faces| ensures Closed(faces'[f], edges') {
      assert Closed(faces[f], edges);
      RenumberedClosed(faces[f], faces'[f], edges, edges', newIndex, oldIndex);
    }
    hide Slots;
    hide Closed;
    RenumberedAgrees(faces, faces', edges, edges', newIndex, oldIndex);
    RenumberedListed(faces, faces', edges, edges', newIndex, oldIndex);
  }

  lemma RenumberedAgrees(faces: seq<Face>, faces': seq<Face>, edges: seq<Edge>, edges': seq<Edge>, newIndex: seq<int>,
                         oldIndex: seq<int>)
    requires SlotsAgree(faces, edges) && IsRenumbering(edges, edges', newIndex, oldIndex)
    requires |faces| == |faces'| && forall f :: 0 <= f < |faces| ==>
               FaceRenumbered(faces[f], faces'[f], newIndex) && NONE !in faces[f].edgeIndex
    ensures SlotsAgree(faces', edges')
  {
    forall f, i | 0 <= f < |faces'| && 0 <= i < 3
      ensures 0 <= IndexOf(faces'[f].edgeIndex[i]) < |edges'| && SideIs(faces'[f].edgeIndex[i], edges', f) {
      assert FaceRenumbered(faces[f], faces'[f], newIndex);
      assert faces[f].edgeIndex[i] in faces[f].edgeIndex;
    }
  }

  lemma RenumberedListed(faces: seq<Face>, faces': seq<Face>, edges: seq<Edge>, edges': seq<Edge>, newIndex: seq<int>,
                         oldIndex: seq<int>)
    requires SidesListed(faces, edges) && IsRenumbering(edges, edges', newIndex, oldIndex)
    requires |faces| == |faces'| && forall f :: 0 <= f < |faces| ==> FaceRenumbered(faces[f], faces'[f], newIndex)
    ensures SidesListed(faces', edges')
  {
    forall e | 0 <= e < |edges'|
      ensures edges'[e].forward != NONE ==>
                0 <= edges'[e].forward < |faces'| && e in faces'[edges'[e].forward].edgeIndex
      ensures edges'[e].backward != NONE ==>
                0 <= edges'[e].backward < |faces'| && Flip(e) in faces'[edges'[e].backward].edgeIndex
    {
      var d := oldIndex[e];
      assert edges'[e] == edges[d];
    }
  }

  // ---------- the order of the references in a face ----------

  /** The three references run around the face, each ending where the next one begins. */
  ghost predicate Cycle(face: Face, edges: seq<Edge>)
    requires FaceShape(face) && SlotsInRange(face, edges) && NONE !in face.edgeIndex
  {
    var e := face.edgeIndex;
    assert SlotInRange(e[0], edges) && SlotInRange(e[1], edges) && SlotInRange(e[2], edges);
    && Directed(e[0], edges).1 == Directed(e[1], edges).0
    && Directed(e[1], edges).1 == Directed(e[2], edges).0
    && Directed(e[2], edges).1 == Directed(e[0], edges).0
  }

  ghost predicate DistinctCorners(face: Face)
    requires FaceShape(face)
  {
    face.vertexIndex[0] != face.vertexIndex[1] && face.vertexIndex[1] != face.vertexIndex[2]
    && face.vertexIndex[2] != face.vertexIndex[0]
  }

  /** Exactly two of the three corners are the same vertex. */
  ghost predicate TwoCornersEqual(face: Face)
    requires FaceShape(face)
  {
    var v := face.vertexIndex;
    !DistinctCorners(face) && !(v[0] == v[1] == v[2])
  }

  /** The face with its second and third reference exchanged when the second does not continue the first. */
  function Ordered(face: Face, edges: seq<Edge>): Face
    requires FaceShape(face) && 0 <= IndexOf(face.edgeIndex[0]) < |edges| && 0 <= IndexOf(face.edgeIndex[1]) < |edges|
  {
    var e := face.edgeIndex;
    if Directed(e[0], edges).1 != Directed(e[1], edges).0 then face.(edgeIndex := [e[0], e[2], e[1]]) else face
  }

  ghost predicate TwoMatch<T(!new)>(q: T, r: T, y: T, z: T) {
    (q == y && r == z) || (q == z && r == y)
  }

  lemma TwoInSomeOrder<T(!new)>(p: T, q: T, r: T, y: T, z: T)
    requires multiset{p, q, r} == multiset{p, y, z}
    ensures TwoMatch(q, r, y, z)
  {
    assert multiset{q, r} == multiset{p, q, r} - multiset{p} == multiset{p, y, z} - multiset{p} == multiset{y, z};
    assert q in multiset{q, r};
    assert multiset{r} == multiset{q, r} - multiset{q};
    if q == y {
      assert multiset{z} == multiset{y, z} - multiset{y};
      assert r in multiset{z};
    } else {
      assert multiset{y} == multiset{y, z} - multiset{z};
      assert r in multiset{y};
    }
  }

  lemma ThreeInSomeOrder<T(!new)>(p: T, q: T, r: T, x: T, y: T, z: T)
    requires multiset{p, q, r} == multiset{x, y, z}
    ensures (p == x && TwoMatch(q, r, y, z)) || (p == y && TwoMatch(q, r, x, z)) || (p == z && TwoMatch(q, r, x, y))
  {
    assert p in multiset{p, q, r};
    if p == x {
      TwoInSomeOrder(p, q, r, y, z);
    } else if p == y {
      assert multiset{p, x, z} == multiset{x, y, z};
      TwoInSomeOrder(p, q, r, x, z);
    } else {
      assert multiset{p, x, y} == multiset{x, y, z};
      TwoInSomeOrder(p, q, r, x, y);
    }
  }

  lemma ThreeReordered<T(!new)>(p: T, q: T, r: T, x: T, y: T, z: T)
    requires (p == x && TwoMatch(q, r, y, z)) || (p == y && TwoMatch(q, r, x, z)) || (p == z && TwoMatch(q, r, x, y))
    ensures multiset{p, q, r} == multiset{x, y, z}
  {
  }

  lemma ThreeArrowsInOrder(p: Arrow, q: Arrow, r: Arrow, u: int, v: int, w: int)
    requires u != v && v != w && w != u
    requires multiset{p, q, r} == multiset{(u, v), (v, w), (w, u)}
    ensures p.1 == q.0 ==> q.1 == r.0 && r.1 == p.0
    ensures p.1 != q.0 ==> p.1 == r.0 && r.1 == q.0 && q.1 == p.0
  {
    ThreeInSomeOrder(p, q, r, (u, v), (v, w), (w, u));
  }

  /** A closed face in terms of its three references. */
  lemma ClosedReferences(face: Face, edges: seq<Edge>)
    requires Closed(face, edges)
    ensures forall i :: 0 <= i < 3 ==> face.edgeIndex[i] != NONE && 0 <= IndexOf(face.edgeIndex[i]) < |edges|
    ensures Corners(face)
              == multiset{Directed(face.edgeIndex[0], edges), Directed(face.edgeIndex[1], edges),
                          Directed(face.edgeIndex[2], edges)}
  {
    var e := face.edgeIndex;
    assert e[0] in e && e[1] in e && e[2] in e;
    assert SlotInRange(e[0], edges) && SlotInRange(e[1], edges) && SlotInRange(e[2], edges);
  }

  lemma ClosedFromReferences(face: Face, edges: seq<Edge>)
    requires FaceShape(face)
    requires forall i :: 0 <= i < 3 ==> face.edgeIndex[i] != NONE && 0 <= IndexOf(face.edgeIndex[i]) < |edges|
    requires Corners(face)
               == multiset{Directed(face.edgeIndex[0], edges), Directed(face.edgeIndex[1], edges),
                           Directed(face.edgeIndex[2], edges)}
    ensures Closed(face, edges)
  {
    hide Corners;
    hide Directed;
    hide IndexOf;
  }

  lemma OrderedIsClosed(face: Face, edges: seq<Edge>)
    requires Closed(face, edges)
    ensures 0 <= IndexOf(face.edgeIndex[0]) < |edges| && 0 <= IndexOf(face.edgeIndex[1]) < |edges|
    ensures Closed(Ordered(face, edges), edges)
    ensures !TwoCornersEqual(face) ==> Cycle(Ordered(face, edges), edges)
  {
    ClosedReferences(face, edges);
    OrderedArrows(face, edges);
    ClosedFromReferences(Ordered(face, edges), edges);
  }

  lemma OrderedArrows(face: Face, edges: seq<Edge>)
    requires FaceShape(face)
    requires forall i :: 0 <= i < 3 ==> face.edgeIndex[i] != NONE && 0 <= IndexOf(face.edgeIndex[i]) < |edges|
    requires Corners(face)
               == multiset{Directed(face.edgeIndex[0], edges), Directed(face.edgeIndex[1], edges),
                           Directed(face.edgeIndex[2], edges)}
    ensures var e := Ordered(face, edges).edgeIndex;
      && |e| == 3 && Ordered(face, edges).vertexIndex == face.vertexIndex
      && (forall i :: 0 <= i < 3 ==> e[i] != NONE && 0 <= IndexOf(e[i]) < |edges|)
      && Corners(face) == multiset{Directed(e[0], edges), Directed(e[1], edges), Directed(e[2], edges)}
      && (!TwoCornersEqual(face) ==>
           && Directed(e[0], edges).1 == Directed(e[1], edges).0
           && Directed(e[1], edges).1 == Directed(e[2], edges).0
           && Directed(e[2], edges).1 == Directed(e[0], edges).0)
  {
    var e, v := face.edgeIndex, face.vertexIndex;
    var p, q, r := Directed(e[0], edges), Directed(e[1], edges), Directed(e[2], edges);
    hide Directed;
    hide IndexOf;
    assert multiset{p, q, r} == multiset{p, r, q};
    if DistinctCorners(face) {
      ThreeArrowsInOrder(p, q, r, v[0], v[1], v[2]);
    } else if v[0] == v[1] == v[2] {
      ThreeInSomeOrder(p, q, r, (v[0], v[1]), (v[1], v[2]), (v[2], v[0]));
    }
  }

  lemma OrderedReferences(face: Face, edges: seq<Edge>)
    requires Closed(face, edges)
    ensures 0 <= IndexOf(face.edgeIndex[0]) < |edges| && 0 <= IndexOf(face.edgeIndex[1]) < |edges|
    ensures forall e :: e in face.edgeIndex <==> e in Ordered(face, edges).edgeIndex
  {
    OrderedIsClosed(face, edges);
    forall e ensures e in face.edgeIndex <==> e in Ordered(face, edges).edgeIndex {
      SameReferences(face.edgeIndex, Ordered(face, edges).edgeIndex, e);
    }
  }

  lemma OrderedLinked(faces: seq<Face>, faces': seq<Face>, edges: seq<Edge>)
    requires Linked(faces, edges) && |faces| == |faces'|
    requires forall f :: 0 <= f < |faces| ==>
      FaceShape(faces[f]) && 0 <= IndexOf(faces[f].edgeIndex[0]) < |edges|
      && 0 <= IndexOf(faces[f].edgeIndex[1]) < |edges| && faces'[f] == Ordered(faces[f], edges)
    ensures Linked(faces', edges)
  {
    forall f | 0 <= f < |faces| ensures Closed(faces'[f], edges) && SameReferenceSet(faces[f], faces'[f]) {
      assert Closed(faces[f], edges);
      OrderedIsClosed(faces[f], edges);
      OrderedReferences(faces[f], edges);
    }
    SameSetsLinked(faces, faces', edges);
  }

  ghost predicate SameReferenceSet(face: Face, face': Face) {
    forall e :: e in face.edgeIndex <==> e in face'.edgeIndex
  }

  lemma SameSetsLinked(faces: seq<Face>, faces': seq<Face>, edges: seq<Edge>)
    requires Linked(faces, edges) && |faces| == |faces'| && AllClosed(faces', edges)
    requires forall f :: 0 <= f < |faces| ==> SameReferenceSet(faces[f], faces'[f])
    ensures Linked(faces', edges)
  {
    ClosedShapes(faces', edges);
    hide *;
    SameSetsAgree(faces, faces', edges);
  }

  lemma ClosedShapes(faces: seq<Face>, edges: seq<Edge>)
    requires AllClosed(faces, edges)
    ensures FaceShapes(faces)
  {
    assert forall f :: 0 <= f < |faces| ==> Closed(faces[f], edges);
  }

  lemma SameSetsAgree(faces: seq<Face>, faces': seq<Face>, edges: seq<Edge>)
    requires SlotsAgree(faces, edges) && |faces| == |faces'| && FaceShapes(faces')
    requires forall f :: 0 <= f < |faces| ==> SameReferenceSet(faces[f], faces'[f])
    ensures SlotsAgree(faces', edges)
  {
    hide SideIs;
    hide IndexOf;
    forall f, i | 0 <= f < |faces'| && 0 <= i < 3 && faces'[f].edgeIndex[i] != NONE
      ensures 0 <= IndexOf(faces'[f].edgeIndex[i]) < |edges| && SideIs(faces'[f].edgeIndex[i], edges, f) {
      assert SameReferenceSet(faces[f], faces'[f]);
      assert faces'[f].edgeIndex[i] in faces[f].edgeIndex;
      var j :| 0 <= j < |faces[f].edgeIndex| && faces[f].edgeIndex[j] == faces'[f].edgeIndex[i];
    }
  }

  lemma SameReferences(a: seq<int>, b: seq<int>, e: int)
    requires |a| == 3 && |b| == 3 && b[0] == a[0] && (b == a || b == [a[0], a[2], a[1]])
    ensures e in a <==> e in b
  {
    if e in a {
      assert e == b[0] || e == b[1] || e == b[2];
    }
  }

  // ---------- interior edges first ----------

  function Interior(edges: seq<Edge>): seq<Edge> {
    if edges == [] then [] else
      Interior(edges[..|edges| - 1]) + if edges[|edges| - 1].Boundary() then [] else [edges[|edges| - 1]]
  }

  function Open(edges: seq<Edge>): seq<Edge> {
    if edges == [] then [] else
      Open(edges[..|edges| - 1]) + if edges[|edges| - 1].Boundary() then [edges[|edges| - 1]] else []
  }

  function Reversed<T>(s: seq<T>): (r: seq<T>)
    ensures |r| == |s|
  {
    if s == [] then [] else [s[|s| - 1]] + Reversed(s[..|s| - 1])
  }

  ghost predicate BoundaryLast(edges: seq<Edge>) {
    forall d, e :: 0 <= d < e < |edges| && edges[d].Boundary() ==> edges[e].Boundary()
  }

  lemma {:induction false} SidesAppend(a: seq<Edge>, b: seq<Edge>)
    ensures Sides(a + b) == Sides(a) + Sides(b)
  {
    hide EdgeSides;
    if b == [] {
      assert a + b == a;
    } else {
      SidesAppend(a, b[..|b| - 1]);
      assert (a + b)[..|a + b| - 1] == a + b[..|b| - 1];
    }
  }

  lemma {:induction false} SidesReversed(a: seq<Edge>)
    ensures Sides(Reversed(a)) == Sides(a)
  {
    hide EdgeSides;
    if a != [] {
      var last := a[|a| - 1];
      SidesReversed(a[..|a| - 1]);
      SidesAppend([last], Reversed(a[..|a| - 1]));
      assert [last][..0] == [];
    }
  }

  lemma {:induction false} SidesPartition(edges: seq<Edge>)
    ensures Sides(Interior(edges)) + Sides(Open(edges)) == Sides(edges)
    ensures |Interior(edges)| + |Open(edges)| == |edges|
  {
    hide EdgeSides;
    if edges != [] {
      var rest, last := edges[..|edges| - 1], edges[|edges| - 1];
      SidesPartition(rest);
      if last.Boundary() {
        assert Interior(edges) == Interior(rest) && Open(edges) == Open(rest) + [last];
        SidesLast(Open(rest), last);
      } else {
        assert Interior(edges) == Interior(rest) + [last] && Open(edges) == Open(rest);
        SidesLast(Interior(rest), last);
      }
    }
  }

  lemma {:induction false} PartitionMembers(edges: seq<Edge>)
    ensures forall e :: 0 <= e < |Interior(edges)| ==> !Interior(edges)[e].Boundary()
    ensures forall e :: 0 <= e < |Open(edges)| ==> Open(edges)[e].Boundary()
  {
    if edges != [] {
      PartitionMembers(edges[..|edges| - 1]);
    }
  }

  lemma {:induction false} ReversedMembers<T>(s: seq<T>)
    ensures forall i :: 0 <= i < |s| ==> Reversed(s)[i] in s
  {
    if s != [] {
      ReversedMembers(s[..|s| - 1]);
    }
  }

  lemma InteriorFirst(edges: seq<Edge>)
    ensures Sides(Interior(edges) + Reversed(Open(edges))) == Sides(edges)
    ensures BoundaryLast(Interior(edges) + Reversed(Open(edges)))
  {
    SidesPartition(edges);
    SidesReversed(Open(edges));
    SidesAppend(Interior(edges), Reversed(Open(edges)));
    PartitionMembers(edges);
    ReversedMembers(Open(edges));
  }

  // ---------- debugCheckConsistency ----------

  ghost predicate ContainsEdge(face: Face, e: int) {
    IndexOf(e) in face.edgeIndex || Flip(IndexOf(e)) in face.edgeIndex
  }

  ghost predicate VertexConsistent(faces: seq<Face>, edges: seq<Edge>, vertex: Vertex, v: int) {
    && (forall e :: e in vertex.edgeIndex ==>
          0 <= IndexOf(e) < |edges| && (edges[IndexOf(e)].start == v || edges[IndexOf(e)].end == v))
    && (forall f :: f in vertex.faceIndex ==> 0 <= f < |faces| && v in faces[f].vertexIndex)
  }

  ghost predicate InEdge(vertices: seq<Vertex>, v: int, e: int) {
    0 <= v < |vertices| && (e in vertices[v].edgeIndex || Flip(e) in vertices[v].edgeIndex)
  }

  ghost predicate InFace(vertices: seq<Vertex>, v: int, f: int) {
    0 <= v < |vertices| && f in vertices[v].faceIndex
  }

  ghost predicate EdgeConsistent(faces: seq<Face>, edge: Edge, vertices: seq<Vertex>, e: int) {
    && (edge.forward != NONE ==> 0 <= edge.forward < |faces| && ContainsEdge(faces[edge.forward], e))
    && (edge.backward != NONE ==> 0 <= edge.backward < |faces| && ContainsEdge(faces[edge.backward], e))
    && InEdge(vertices, edge.start, e) && InEdge(vertices, edge.end, e)
  }

  ghost predicate FaceConsistent(face: Face, edges: seq<Edge>, vertices: seq<Vertex>, f: int) {
    && FaceShape(face)
    && (forall i :: 0 <= i < 3 ==> 0 <= IndexOf(face.edgeIndex[i]) < |edges| && SideIs(face.edgeIndex[i], edges, f))
    && (forall i :: 0 <= i < 3 ==> InFace(vertices, face.vertexIndex[i], f))
  }

  /** The assertions of debugCheckConsistency, with every index they use in range. */
  ghost predicate Consistent(faces: seq<Face>, edges: seq<Edge>, vertices: seq<Vertex>) {
    && (forall v {:trigger vertices[v]} :: 0 <= v < |vertices| ==> VertexConsistent(faces, edges, vertices[v], v))
    && (forall e {:trigger edges[e]} :: 0 <= e < |edges| ==> EdgeConsistent(faces, edges[e], vertices, e))
    && (forall f {:trigger faces[f]} :: 0 <= f < |faces| ==> FaceConsistent(faces[f], edges, vertices, f))
  }

  /** The references at vertex v are exactly those that leave v; its faces are those with corner v. */
  ghost predicate VertexListsAt(faces: seq<Face>, edges: seq<Edge>, vertex: Vertex, v: int) {
    && (forall e :: e in vertex.edgeIndex <==> 0 <= IndexOf(e) < |edges| && Directed(e, edges).0 == v)
    && (forall f :: f in vertex.faceIndex <==> 0 <= f < |faces| && v in faces[f].vertexIndex)
  }

  ghost predicate VertexLists(faces: seq<Face>, edges: seq<Edge>, vertices: seq<Vertex>) {
    && (forall v {:trigger vertices[v]} :: 0 <= v < |vertices| ==> VertexListsAt(faces, edges, vertices[v], v))
    && (forall e {:trigger edges[e]} :: 0 <= e < |edges| ==>
          0 <= edges[e].start < |vertices| && 0 <= edges[e].end < |vertices|)
    && (forall f {:trigger faces[f]} :: 0 <= f < |faces| ==> forall i :: 0 <= i < |faces[f].vertexIndex| ==>
          0 <= faces[f].vertexIndex[i] < |vertices|)
  }

  lemma LinkedIsConsistent(faces: seq<Face>, edges: seq<Edge>, vertices: seq<Vertex>)
    requires Linked(faces, edges) && VertexLists(faces, edges, vertices)
    ensures Consistent(faces, edges, vertices)
  {
    hide Slots;
    hide Closed;
    hide VertexListsAt;
    hide VertexConsistent;
    hide EdgeConsistent;
    hide FaceConsistent;
    forall v | 0 <= v < |vertices| ensures VertexConsistent(faces, edges, vertices[v], v) {
      VertexListedConsistent(faces, edges, vertices, v);
    }
    forall e | 0 <= e < |edges| ensures EdgeConsistent(faces, edges[e], vertices, e) {
      EdgeLinkedConsistent(faces, edges, vertices, e);
    }
    forall f | 0 <= f < |faces| ensures FaceConsistent(faces[f], edges, vertices, f) {
      FaceLinkedConsistent(faces, edges, vertices, f);
    }
  }

  lemma VertexListedConsistent(faces: seq<Face>, edges: seq<Edge>, vertices: seq<Vertex>, v: int)
    requires VertexLists(faces, edges, vertices) && 0 <= v < |vertices|
    ensures VertexConsistent(faces, edges, vertices[v], v)
  {
    assert VertexListsAt(faces, edges, vertices[v], v);
  }

  lemma EdgeLinkedConsistent(faces: seq<Face>, edges: seq<Edge>, vertices: seq<Vertex>, e: int)
    requires SidesListed(faces, edges) && VertexLists(faces, edges, vertices) && 0 <= e < |edges|
    ensures EdgeConsistent(faces, edges[e], vertices, e)
  {
    assert VertexListsAt(faces, edges, vertices[edges[e].start], edges[e].start);
    assert VertexListsAt(faces, edges, vertices[edges[e].end], edges[e].end);
    assert Directed(e, edges).0 == edges[e].start && Directed(Flip(e), edges).0 == edges[e].end;
  }

  lemma FaceLinkedConsistent(faces: seq<Face>, edges: seq<Edge>, vertices: seq<Vertex>, f: int)
    requires Linked(faces, edges) && VertexLists(faces, edges, vertices) && 0 <= f < |faces|
    ensures FaceConsistent(faces[f], edges, vertices, f)
  {
    assert Closed(faces[f], edges);
    hide Slots;
    hide Corners;
    forall i | 0 <= i < 3
      ensures 0 <= IndexOf(faces[f].edgeIndex[i]) < |edges| && SideIs(faces[f].edgeIndex[i], edges, f)
      ensures InFace(vertices, faces[f].vertexIndex[i], f) {
      assert faces[f].edgeIndex[i] in faces[f].edgeIndex;
      var v := faces[f].vertexIndex[i];
      assert VertexListsAt(faces, edges, vertices[v], v);
    }
  }

  // ---------- counting edges ----------

  /** The multiset of arrows of half-edges, whatever face they belong to. */
  ghost function Arrows(m: multiset<HalfEdge>): multiset<Arrow>
    decreases |m|
  {
    if m == multiset{} then multiset{} else
      var h :| h in m;
      Arrows(m - multiset{h}) + multiset{(h.u, h.v)}
  }

  lemma {:induction false} ArrowsWithout(m: multiset<HalfEdge>, h: HalfEdge)
    requires h in m
    ensures Arrows(m) == Arrows(m - multiset{h}) + multiset{(h.u, h.v)}
    decreases |m|
  {
    var g := ArrowsPick(m);
    if g != h {
      hide Arrows;
      var mg, mh := m - multiset{g}, m - multiset{h};
      assert h in mg && g in mh && |mg| < |m| && |mh| < |m|;
      ArrowsWithout(mg, h);
      ArrowsWithout(mh, g);
      TakingTwo(m, g, h);
      AddingTwo(Arrows(mg - multiset{h}), (g.u, g.v), (h.u, h.v));
    }
  }

  lemma TakingTwo<T>(m: multiset<T>, x: T, y: T)
    requires x in m && y in m && x != y
    ensures m - multiset{x} - multiset{y} == m - multiset{y} - multiset{x}
  {
  }

  lemma AddingTwo<T>(m: multiset<T>, x: T, y: T)
    ensures m + multiset{x} + multiset{y} == m + multiset{y} + multiset{x}
  {
  }

  lemma ArrowsPick(m: multiset<HalfEdge>) returns (g: HalfEdge)
    requires m != multiset{}
    ensures g in m && Arrows(m) == Arrows(m - multiset{g}) + multiset{(g.u, g.v)}
  {
    g :| g in m && Arrows(m) == Arrows(m - multiset{g}) + multiset{(g.u, g.v)};
  }

  lemma ArrowsWith(m: multiset<HalfEdge>, h: HalfEdge)
    ensures Arrows(m + multiset{h}) == Arrows(m) + multiset{(h.u, h.v)}
  {
    ArrowsWithout(m + multiset{h}, h);
    assert m + multiset{h} - multiset{h} == m;
  }

  lemma ArrowsOfEdge(m: multiset<HalfEdge>, e: Edge)
    ensures Arrows(m + EdgeSides(e)) == Arrows(m)
      + (if e.forward == NONE then multiset{} else multiset{(e.start, e.end)})
      + (if e.backward == NONE then multiset{} else multiset{(e.end, e.start)})
  {
    hide Arrows;
    var f, b := HalfEdge(e.start, e.end, e.forward), HalfEdge(e.end, e.start, e.backward);
    if e.forward != NONE && e.backward != NONE {
      assert m + EdgeSides(e) == m + multiset{f} + multiset{b};
      ArrowsWith(m, f);
      ArrowsWith(m + multiset{f}, b);
    } else if e.forward != NONE {
      assert m + EdgeSides(e) == m + multiset{f};
      ArrowsWith(m, f);
    } else if e.backward != NONE {
      assert m + EdgeSides(e) == m + multiset{b};
      ArrowsWith(m, b);
    } else {
      assert m + EdgeSides(e) == m;
    }
  }

  /** How many edges run from u to v with the given sides present. */
  ghost function CountEdges(edges: seq<Edge>, u: int, v: int, forward: bool, backward: bool): nat {
    if edges == [] then 0 else
      var e := edges[|edges| - 1];
      CountEdges(edges[..|edges| - 1], u, v, forward, backward)
      + if e.start == u && e.end == v && (e.forward != NONE) == forward && (e.backward != NONE) == backward then 1
        else 0
  }

  lemma {:induction false} ArrowsCounted(edges: seq<Edge>, u: int, v: int)
    requires u < v && forall e :: 0 <= e < |edges| ==> edges[e].start <= edges[e].end
    ensures Arrows(Sides(edges))[(u, v)] == CountEdges(edges, u, v, true, true) + CountEdges(edges, u, v, true, false)
    ensures Arrows(Sides(edges))[(v, u)] == CountEdges(edges, u, v, true, true) + CountEdges(edges, u, v, false, true)
  {
    hide EdgeSides;
    if edges == [] {
      assert Arrows(multiset{}) == multiset{};
    } else {
      hide Arrows;
      ArrowsCounted(edges[..|edges| - 1], u, v);
      ArrowsOfEdge(Sides(edges[..|edges| - 1]), edges[|edges| - 1]);
      EdgeArrows(edges[|edges| - 1], u, v);
    }
  }

  lemma EdgeArrows(e: Edge, u: int, v: int)
    requires u < v && e.start <= e.end
    ensures (if e.forward == NONE then multiset{} else multiset{(e.start, e.end)})[(u, v)] ==
      if e.start == u && e.end == v && e.forward != NONE then 1 else 0
    ensures (if e.backward == NONE then multiset{} else multiset{(e.end, e.start)})[(u, v)] == 0
    ensures (if e.forward == NONE then multiset{} else multiset{(e.start, e.end)})[(v, u)] == 0
    ensures (if e.backward == NONE then multiset{} else multiset{(e.end, e.start)})[(v, u)] ==
      if e.start == u && e.end == v && e.backward != NONE then 1 else 0
  {
  }

  lemma {:induction false} CountedExists(edges: seq<Edge>, u: int, v: int, forward: bool, backward: bool)
    returns (e: int)
    requires CountEdges(edges, u, v, forward, backward) > 0
    ensures 0 <= e < |edges| && edges[e].start == u && edges[e].end == v
    ensures (edges[e].forward != NONE) == forward && (edges[e].backward != NONE) == backward
  {
    e := |edges| - 1;
    var x := edges[e];
    if !(x.start == u && x.end == v && (x.forward != NONE) == forward && (x.backward != NONE) == backward) {
      e := CountedExists(edges[..e], u, v, forward, backward);
    }
  }

  lemma {:induction false} SidesSize(edges: seq<Edge>)
    requires forall e :: 0 <= e < |edges| ==> edges[e].forward != NONE || edges[e].backward != NONE
    ensures |Sides(edges)| == 2 * |Interior(edges)| + |Open(edges)|
  {
    if edges != [] {
      SidesSize(edges[..|edges| - 1]);
    }
  }
}
