/** Three triangles, two of them back to back, and the faces, edges and vertices made of them. */
module MeshExample {
  import opened MeshTopology
  import opened MeshEdgeTables
  import opened MeshPairing
  import opened MeshAdjacency
  import opened MeshTheorems
  import opened Vectors

  /** The first and the second triangle run from 0 to 1, and the third, a reversed copy of the first, runs back. */
  const TRIANGLES := [0, 1, 2, 0, 1, 3, 1, 0, 2]

  /** The normal of the third triangle is closer to that of the first than to that of the second. */
  const NORMALS := [Vector3(0.0, 1.0, 1.0), Vector3(0.0, 0.0, 1.0), Vector3(0.0, 1.0, 0.0)]

  // ---------- the table of sides ----------

  /** A table in which only the first two vertices have rows. */
  function TwoRows(r0: EdgeArray, r1: EdgeArray): seq<EdgeArray> {
    [r0, r1, [], []]
  }

  /** One more entry in the row of vertex 0, or of vertex 1. */
  lemma NewEntry(r0: EdgeArray, r1: EdgeArray, i0: int, i1: int, f: int, lo: int, hi: int, signed: int, row: EdgeArray)
    requires if i0 < i1 then lo == i0 && hi == i1 && signed == f else lo == i1 && hi == i0 && signed == Flip(f)
    requires lo == 0 || lo == 1
    requires var r := if lo == 0 then r0 else r1;
      row == r + [TableEdge(hi, [signed])] && forall j :: 0 <= j < |r| ==> r[j].i1 != hi
    ensures AddSide(TwoRows(r0, r1), i0, i1, f) == if lo == 0 then TwoRows(row, r1) else TwoRows(r0, row)
  {
    hide Inserted;
    var r := if lo == 0 then r0 else r1;
    InsertedAt(r, |r|, hi, signed);
  }

  lemma OldEntry(r0: EdgeArray, r1: EdgeArray, i0: int, i1: int, f: int, p: nat, lo: int, hi: int, signed: int,
                 row: EdgeArray)
    requires if i0 < i1 then lo == i0 && hi == i1 && signed == f else lo == i1 && hi == i0 && signed == Flip(f)
    requires lo == 0 || lo == 1
    requires var r := if lo == 0 then r0 else r1;
      && p < |r| && r[p].i1 == hi && (forall j :: 0 <= j < p ==> r[j].i1 != hi)
      && row == r[p := TableEdge(hi, r[p].faceIndexArray + [signed])]
    ensures AddSide(TwoRows(r0, r1), i0, i1, f) == if lo == 0 then TwoRows(row, r1) else TwoRows(r0, row)
  {
    hide Inserted;
    var r := if lo == 0 then r0 else r1;
    InsertedAt(r, p, hi, signed);
    assert r[p].(faceIndexArray := r[p].faceIndexArray + [signed]) == TableEdge(hi, r[p].faceIndexArray + [signed]);
  }

  lemma ThreeSides(table: seq<EdgeArray>, corners: seq<int>, f: int)
    requires |corners| == 3
    ensures AddSides(table, corners, f, 3)
         == AddSide(AddSide(AddSide(table, corners[0], corners[1], f), corners[1], corners[2], f),
                    corners[2], corners[0], f)
  {
    hide AddSide;
    SidesStep(table, corners, f, 0);
    SidesStep(table, corners, f, 1);
    SidesStep(table, corners, f, 2);
  }

  const NO_SIDES := TwoRows([], [])
  const ONE_FACE := TwoRows([TableEdge(1, [0]), TableEdge(2, [-1])], [TableEdge(2, [0])])
  const TWO_FACES :=
    TwoRows([TableEdge(1, [0, 1]), TableEdge(2, [-1]), TableEdge(3, [-2])], [TableEdge(2, [0]), TableEdge(3, [1])])
  const ALL_SIDES :=
    TwoRows([TableEdge(1, [0, 1, -3]), TableEdge(2, [-1, 2]), TableEdge(3, [-2])],
            [TableEdge(2, [0, -3]), TableEdge(3, [1])])

  lemma FirstFace()
    ensures AddSides(NO_SIDES, [0, 1, 2], 0, 3) == ONE_FACE
  {
    ThreeSides(NO_SIDES, [0, 1, 2], 0);
    hide AddSides;
    hide AddSide;
    hide TwoRows;
    var a, b := [TableEdge(1, [0])], [TableEdge(2, [0])];
    NewEntry([], [], 0, 1, 0, 0, 1, 0, a);
    NewEntry(a, [], 1, 2, 0, 1, 2, 0, b);
    NewEntry(a, b, 2, 0, 0, 0, 2, -1, [TableEdge(1, [0]), TableEdge(2, [-1])]);
  }

  lemma SecondFace()
    ensures AddSides(ONE_FACE, [0, 1, 3], 1, 3) == TWO_FACES
  {
    ThreeSides(ONE_FACE, [0, 1, 3], 1);
    hide AddSides;
    hide AddSide;
    hide TwoRows;
    var r0, r1 := [TableEdge(1, [0]), TableEdge(2, [-1])], [TableEdge(2, [0])];
    var a, b := [TableEdge(1, [0, 1]), TableEdge(2, [-1])], [TableEdge(2, [0]), TableEdge(3, [1])];
    assert [0] + [1] == [0, 1];
    OldEntry(r0, r1, 0, 1, 1, 0, 0, 1, 1, a);
    NewEntry(a, r1, 1, 3, 1, 1, 3, 1, b);
    NewEntry(a, b, 3, 0, 1, 0, 3, -2, [TableEdge(1, [0, 1]), TableEdge(2, [-1]), TableEdge(3, [-2])]);
  }

  lemma ThirdFace()
    ensures AddSides(TWO_FACES, [1, 0, 2], 2, 3) == ALL_SIDES
  {
    ThreeSides(TWO_FACES, [1, 0, 2], 2);
    hide AddSides;
    hide AddSide;
    hide TwoRows;
    var r0, r1 := [TableEdge(1, [0, 1]), TableEdge(2, [-1]), TableEdge(3, [-2])],
                  [TableEdge(2, [0]), TableEdge(3, [1])];
    var a := [TableEdge(1, [0, 1, -3]), TableEdge(2, [-1]), TableEdge(3, [-2])];
    var b := [TableEdge(1, [0, 1, -3]), TableEdge(2, [-1, 2]), TableEdge(3, [-2])];
    assert [0, 1] + [-3] == [0, 1, -3] && [-1] + [2] == [-1, 2] && [0] + [-3] == [0, -3];
    OldEntry(r0, r1, 1, 0, 2, 0, 0, 1, -3, a);
    OldEntry(a, r1, 0, 2, 2, 1, 0, 2, 2, b);
    OldEntry(b, r1, 2, 1, 2, 0, 1, 2, -3, [TableEdge(2, [0, -3]), TableEdge(3, [1])]);
  }

  lemma TableIs()
    ensures SideTable(TRIANGLES, 3, 4) == ALL_SIDES
  {
    FirstFace();
    SecondFace();
    ThirdFace();
    hide AddSides;
    assert TRIANGLES[0..3] == [0, 1, 2] && TRIANGLES[3..6] == [0, 1, 3] && TRIANGLES[6..9] == [1, 0, 2];
    assert SideTable(TRIANGLES, 0, 4) == NO_SIDES;
    assert SideTable(TRIANGLES, 1, 4) == AddSides(SideTable(TRIANGLES, 0, 4), TRIANGLES[0..3], 0, 3);
    assert SideTable(TRIANGLES, 2, 4) == AddSides(SideTable(TRIANGLES, 1, 4), TRIANGLES[3..6], 1, 3);
    assert SideTable(TRIANGLES, 3, 4) == AddSides(SideTable(TRIANGLES, 2, 4), TRIANGLES[6..9], 2, 3);
  }

  const KEYS := [Key(0, 1, [0, 1, -3]), Key(0, 2, [-1, 2]), Key(0, 3, [-2]), Key(1, 2, [0, -3]), Key(1, 3, [1])]

  lemma KeysAre()
    ensures Keys(ALL_SIDES) == KEYS
  {
    var t := ALL_SIDES;
    KeysOfPrefix(t, 0);
    KeysOfPrefix(t, 1);
    KeysOfPrefix(t, 2);
    KeysOfPrefix(t, 3);
    assert t[..0] == [] && t[..4] == t;
    hide Keys;
    assert RowKeys(0, t[0]) == [Key(0, 1, [0, 1, -3]), Key(0, 2, [-1, 2]), Key(0, 3, [-2])];
    assert RowKeys(1, t[1]) == [Key(1, 2, [0, -3]), Key(1, 3, [1])];
  }

  // ---------- pairing ----------

  /** The three faces with the edge references they have so far. */
  function Faces(a: seq<int>, b: seq<int>, c: seq<int>): seq<Face> {
    [Face([0, 1, 2], a), Face([0, 1, 3], b), Face([1, 0, 2], c)]
  }

  /** A side gets the newest edge. */
  lemma Gets(p: Paired, f: int, face: Face, edges: seq<Edge>, e: Edge, faces: seq<Face>)
    requires p.edges == edges + [e] && 0 <= IndexOf(f) < |p.faces|
    requires face == WithReference(p.faces[IndexOf(f)], SignedIndex(f >= 0, |edges|))
    requires faces == p.faces[IndexOf(f) := face]
    ensures SideAttached(p, f) == Paired(faces, edges + [WithSide(e, f >= 0, IndexOf(f))])
  {
    hide WithReference;
    assert p.edges[|edges| := WithSide(e, f >= 0, IndexOf(f))] == edges + [WithSide(e, f >= 0, IndexOf(f))];
  }

  /** One side alone gets a boundary edge. */
  lemma Alone(p: Paired, i0: int, i1: int, f: int, faces: seq<Face>, edges: seq<Edge>)
    requires 0 <= IndexOf(f) < |p.faces|
    requires faces == p.faces[IndexOf(f) := WithReference(p.faces[IndexOf(f)], SignedIndex(f >= 0, |p.edges|))]
    requires edges == p.edges + [if f >= 0 then Edge(i0, i1, f, NONE) else Edge(i0, i1, NONE, Flip(f))]
    ensures PairAll(p, i0, i1, [f], NORMALS) == Paired(faces, edges)
  {
    Gets(Paired(p.faces, p.edges + [Edge(i0, i1, NONE, NONE)]), f,
         WithReference(p.faces[IndexOf(f)], SignedIndex(f >= 0, |p.edges|)), p.edges, Edge(i0, i1, NONE, NONE), faces);
    hide WithReference;
    hide SideAttached;
    assert [f][..0] == [] && Mate([], f, NORMALS, 0) == -1;
  }

  /** The last side and the mate it finds at place m share an edge; the others are left. */
  lemma Together(p: Paired, i0: int, i1: int, list: seq<int>, m: nat, left: seq<int>, middle: seq<Face>,
                 faces: seq<Face>, edges: seq<Edge>)
    requires |list| > 1 && m < |list| - 1 && Mate(list[..|list| - 1], list[|list| - 1], NORMALS, 0) == m
    requires left == FastRemoved(list[..|list| - 1], m)
    requires var f, g := list[|list| - 1], list[m];
      && 0 <= IndexOf(f) < |p.faces| && 0 <= IndexOf(g) < |p.faces|
      && middle == p.faces[IndexOf(f) := WithReference(p.faces[IndexOf(f)], SignedIndex(f >= 0, |p.edges|))]
      && faces == middle[IndexOf(g) := WithReference(middle[IndexOf(g)], SignedIndex(g >= 0, |p.edges|))]
      && edges == p.edges + [if f >= 0 then Edge(i0, i1, f, Flip(g)) else Edge(i0, i1, g, Flip(f))]
    ensures PairAll(p, i0, i1, list, NORMALS) == PairAll(Paired(faces, edges), i0, i1, left, NORMALS)
  {
    hide WithReference;
    hide Mate;
    hide FastRemoved;
    var f, g, e := list[|list| - 1], list[m], Edge(i0, i1, NONE, NONE);
    var start, one := Paired(p.faces, p.edges + [e]), WithSide(e, f >= 0, IndexOf(f));
    assert list[..|list| - 1][m] == g && Opposite(g, f);
    Gets(start, f, WithReference(p.faces[IndexOf(f)], SignedIndex(f >= 0, |p.edges|)), p.edges, e, middle);
    var first := SideAttached(start, f);
    Gets(first, g, WithReference(middle[IndexOf(g)], SignedIndex(g >= 0, |p.edges|)), p.edges, one, faces);
    hide SideAttached;
    assert PairStep(p, i0, i1, list, NORMALS) == (Paired(faces, edges), left);
    PairAllStep(p, i0, i1, list, NORMALS);
  }

  lemma MateStep(faces: seq<int>, f0: int, i: nat)
    requires i <= |faces|
    ensures Mate(faces, f0, NORMALS, i) ==
              if i == |faces| then -1
              else
                var m := Mate(faces, f0, NORMALS, i + 1);
                if Opposite(faces[i], f0)
                   && (m == -1 || Closeness(NORMALS, faces[i], f0) > Closeness(NORMALS, faces[m], f0)) then i else m
  {
    hide Closeness;
  }

  lemma Closer()
    ensures Closeness(NORMALS, 0, -3) == 1.0 && Closeness(NORMALS, 1, -3) == 0.0
  {
    assert NormalOf(NORMALS, 0) == Vector3(0.0, 1.0, 1.0) && NormalOf(NORMALS, 1) == Vector3(0.0, 0.0, 1.0);
    assert NormalOf(NORMALS, -3) == Vector3(0.0, 1.0, 0.0);
  }

  /** The third triangle goes with the first. */
  lemma Mates()
    ensures Mate([0, 1], -3, NORMALS, 0) == 0 && Mate([-1], 2, NORMALS, 0) == 0 && Mate([0], -3, NORMALS, 0) == 0
    ensures FastRemoved([0, 1], 0) == [1] && FastRemoved([-1], 0) == [] && FastRemoved([0], 0) == []
  {
    hide Mate;
    hide Closeness;
    Closer();
    MateStep([0, 1], -3, 2);
    MateStep([0, 1], -3, 1);
    MateStep([0, 1], -3, 0);
    MateStep([-1], 2, 1);
    MateStep([-1], 2, 0);
    MateStep([0], -3, 1);
    MateStep([0], -3, 0);
    assert [0, 1][0 := 1] == [1, 1] && [1, 1][..1] == [1];
  }

  const E0 := Edge(0, 1, 0, 2)
  const E1 := Edge(0, 1, 1, NONE)
  const E2 := Edge(0, 2, 2, 0)
  const E3 := Edge(0, 3, NONE, 1)
  const E4 := Edge(1, 2, 0, 2)
  const E5 := Edge(1, 3, 1, NONE)

  lemma PairsOfZero()
    ensures PairAll(Paired(Faces([NONE, NONE, NONE], [NONE, NONE, NONE], [NONE, NONE, NONE]), []), 0, 1, [0, 1, -3],
                    NORMALS)
         == Paired(Faces([0, NONE, NONE], [1, NONE, NONE], [-1, NONE, NONE]), [E0, E1])
    ensures PairAll(Paired(Faces([0, NONE, NONE], [1, NONE, NONE], [-1, NONE, NONE]), [E0, E1]), 0, 2, [-1, 2], NORMALS)
         == Paired(Faces([0, -3, NONE], [1, NONE, NONE], [-1, 2, NONE]), [E0, E1, E2])
    ensures PairAll(Paired(Faces([0, -3, NONE], [1, NONE, NONE], [-1, 2, NONE]), [E0, E1, E2]), 0, 3, [-2], NORMALS)
         == Paired(Faces([0, -3, NONE], [1, -4, NONE], [-1, 2, NONE]), [E0, E1, E2, E3])
  {
    Mates();
    hide Mate;
    hide FastRemoved;
    hide PairAll;
    var none := [NONE, NONE, NONE];
    var p0 := Paired(Faces(none, none, none), []);
    assert none[0 := 0] == [0, NONE, NONE] && none[0 := 1] == [1, NONE, NONE] && none[0 := -1] == [-1, NONE, NONE];
    assert [0, 1, -3][..2] == [0, 1] && [-1, 2][..1] == [-1];
    Together(p0, 0, 1, [0, 1, -3], 0, [1], Faces(none, none, [-1, NONE, NONE]),
             Faces([0, NONE, NONE], none, [-1, NONE, NONE]), [E0]);
    var p1 := Paired(Faces([0, NONE, NONE], none, [-1, NONE, NONE]), [E0]);
    Alone(p1, 0, 1, 1, Faces([0, NONE, NONE], [1, NONE, NONE], [-1, NONE, NONE]), [E0, E1]);
    var p2 := Paired(Faces([0, NONE, NONE], [1, NONE, NONE], [-1, NONE, NONE]), [E0, E1]);
    assert [0, NONE, NONE][1 := -3] == [0, -3, NONE] && [-1, NONE, NONE][1 := 2] == [-1, 2, NONE];
    Together(p2, 0, 2, [-1, 2], 0, [], Faces([0, NONE, NONE], [1, NONE, NONE], [-1, 2, NONE]),
             Faces([0, -3, NONE], [1, NONE, NONE], [-1, 2, NONE]), [E0, E1, E2]);
    var p3 := Paired(Faces([0, -3, NONE], [1, NONE, NONE], [-1, 2, NONE]), [E0, E1, E2]);
    NoneLeft(p3, 0, 2);
    assert [1, NONE, NONE][1 := -4] == [1, -4, NONE];
    Alone(p3, 0, 3, -2, Faces([0, -3, NONE], [1, -4, NONE], [-1, 2, NONE]), [E0, E1, E2, E3]);
  }

  lemma NoneLeft(p: Paired, i0: int, i1: int)
    ensures PairAll(p, i0, i1, [], NORMALS) == p
  {
  }

  lemma PairsOfOne()
    ensures PairAll(Paired(Faces([0, -3, NONE], [1, -4, NONE], [-1, 2, NONE]), [E0, E1, E2, E3]), 1, 2, [0, -3],
                    NORMALS)
         == Paired(Faces([0, -3, 4], [1, -4, NONE], [-1, 2, -5]), [E0, E1, E2, E3, E4])
    ensures PairAll(Paired(Faces([0, -3, 4], [1, -4, NONE], [-1, 2, -5]), [E0, E1, E2, E3, E4]), 1, 3, [1], NORMALS)
         == Paired(Faces([0, -3, 4], [1, -4, 5], [-1, 2, -5]), [E0, E1, E2, E3, E4, E5])
  {
    Mates();
    hide Mate;
    hide FastRemoved;
    hide PairAll;
    var p0 := Paired(Faces([0, -3, NONE], [1, -4, NONE], [-1, 2, NONE]), [E0, E1, E2, E3]);
    assert [0, -3][..1] == [0];
    assert [-1, 2, NONE][2 := -5] == [-1, 2, -5] && [0, -3, NONE][2 := 4] == [0, -3, 4];
    Together(p0, 1, 2, [0, -3], 0, [], Faces([0, -3, NONE], [1, -4, NONE], [-1, 2, -5]),
             Faces([0, -3, 4], [1, -4, NONE], [-1, 2, -5]), [E0, E1, E2, E3, E4]);
    var p1 := Paired(Faces([0, -3, 4], [1, -4, NONE], [-1, 2, -5]), [E0, E1, E2, E3, E4]);
    NoneLeft(p1, 1, 2);
    assert [1, -4, NONE][2 := 5] == [1, -4, 5];
    Alone(p1, 1, 3, 1, Faces([0, -3, 4], [1, -4, 5], [-1, 2, -5]), [E0, E1, E2, E3, E4, E5]);
  }

  const PAIRED := Paired(Faces([0, -3, 4], [1, -4, 5], [-1, 2, -5]), [E0, E1, E2, E3, E4, E5])

  lemma NoEdgesYet()
    ensures var none := [NONE, NONE, NONE];
      seq(3, f requires 0 <= f < 3 => FaceOf(TRIANGLES, f)) == Faces(none, none, none)
  {
  }

  /** The pairs of the vertices 0 and 1. */
  lemma KeysInTurn(p0: Paired, p1: Paired, p2: Paired, p3: Paired, p4: Paired, p5: Paired)
    requires PairAll(p0, 0, 1, [0, 1, -3], NORMALS) == p1 && PairAll(p1, 0, 2, [-1, 2], NORMALS) == p2
    requires PairAll(p2, 0, 3, [-2], NORMALS) == p3 && PairAll(p3, 1, 2, [0, -3], NORMALS) == p4
    requires PairAll(p4, 1, 3, [1], NORMALS) == p5
    ensures PairKeys(p0, KEYS, NORMALS) == p5
  {
    hide PairAll;
    hide PairKeys;
    assert KEYS[0..] == KEYS;
    PairKeysStep(p0, KEYS, 0, NORMALS);
    PairKeysStep(p1, KEYS, 1, NORMALS);
    PairKeysStep(p2, KEYS, 2, NORMALS);
    PairKeysStep(p3, KEYS, 3, NORMALS);
    PairKeysStep(p4, KEYS, 4, NORMALS);
    PairKeysStep(p5, KEYS, 5, NORMALS);
  }

  lemma PairsAre()
    ensures PairedMesh(TRIANGLES, NORMALS, 4) == PAIRED
  {
    TableIs();
    KeysAre();
    PairsOfZero();
    PairsOfOne();
    NoEdgesYet();
    hide SideTable;
    hide Keys;
    hide PairAll;
    hide PairKeys;
    hide Faces;
    hide FaceOf;
    hide KEYS;
    hide ALL_SIDES;
    var none := [NONE, NONE, NONE];
    KeysInTurn(Paired(Faces(none, none, none), []),
               Paired(Faces([0, NONE, NONE], [1, NONE, NONE], [-1, NONE, NONE]), [E0, E1]),
               Paired(Faces([0, -3, NONE], [1, NONE, NONE], [-1, 2, NONE]), [E0, E1, E2]),
               Paired(Faces([0, -3, NONE], [1, -4, NONE], [-1, 2, NONE]), [E0, E1, E2, E3]),
               Paired(Faces([0, -3, 4], [1, -4, NONE], [-1, 2, -5]), [E0, E1, E2, E3, E4]),
               PAIRED);
  }

  // ---------- the whole ----------

  /** Boundary edges last, the last of them first. */
  const MOVED := [E0, E2, E4, E5, E3, E1]

  lemma EdgesSplit(edges: seq<Edge>, e: Edge)
    ensures Interior(edges + [e]) == Interior(edges) + if e.Boundary() then [] else [e]
    ensures Open(edges + [e]) == Open(edges) + if e.Boundary() then [e] else []
  {
    assert (edges + [e])[..|edges|] == edges;
  }

  function InteriorBefore(k: nat): seq<Edge> {
    if k == 0 then [] else if k <= 2 then [E0] else if k <= 4 then [E0, E2] else [E0, E2, E4]
  }

  function OpenBefore(k: nat): seq<Edge> {
    if k <= 1 then [] else if k <= 3 then [E1] else if k <= 5 then [E1, E3] else [E1, E3, E5]
  }

  lemma NextBefore(k: nat)
    requires k < 6
    ensures var e := PAIRED.edges[k];
      && InteriorBefore(k + 1) == InteriorBefore(k) + (if e.Boundary() then [] else [e])
      && OpenBefore(k + 1) == OpenBefore(k) + (if e.Boundary() then [e] else [])
  {
  }

  lemma {:induction false} Split(k: nat)
    requires k <= 6
    ensures Interior(PAIRED.edges[..k]) == InteriorBefore(k) && Open(PAIRED.edges[..k]) == OpenBefore(k)
  {
    if k > 0 {
      hide InteriorBefore;
      hide OpenBefore;
      hide Interior;
      hide Open;
      Split(k - 1);
      NextBefore(k - 1);
      EdgesSplit(PAIRED.edges[..k - 1], PAIRED.edges[k - 1]);
      assert PAIRED.edges[..k] == PAIRED.edges[..k - 1] + [PAIRED.edges[k - 1]];
    }
  }

  lemma ReversedThree(a: Edge, b: Edge, c: Edge)
    ensures Reversed([a, b, c]) == [c, b, a]
  {
    assert [a, b, c][..2] == [a, b] && [a, b][..1] == [a];
    assert Reversed([a]) == [a] && Reversed([a, b]) == [b, a];
  }

  lemma MovedAre()
    ensures Interior(PAIRED.edges) + Reversed(Open(PAIRED.edges)) == MOVED
  {
    Split(6);
    ReversedThree(E1, E3, E5);
    hide Interior;
    hide Open;
    hide Reversed;
    assert PAIRED.edges[..6] == PAIRED.edges;
  }

  lemma NewIndices()
    ensures NewIndex(PAIRED.edges, 0) == 0 && NewIndex(PAIRED.edges, 1) == 5 && NewIndex(PAIRED.edges, 2) == 1
    ensures NewIndex(PAIRED.edges, 3) == 4 && NewIndex(PAIRED.edges, 4) == 2 && NewIndex(PAIRED.edges, 5) == 3
  {
    Split(0);
    Split(1);
    Split(2);
    Split(3);
    Split(4);
    Split(5);
    hide Interior;
    hide Open;
  }

  lemma FacesAre()
    ensures AdjacencyOf(TRIANGLES, NORMALS, 4) == Paired(Faces([0, 2, -2], [5, 3, -5], [-1, 1, -3]), MOVED)
  {
    PairsAre();
    MovedAre();
    NewIndices();
    hide PairedMesh;
    hide Interior;
    hide Open;
    hide Reversed;
    hide NewIndex;
    var edges, before := MOVED, PAIRED.edges;
    assert NewFace(Face([0, 1, 2], [0, -3, 4]), before) == Face([0, 1, 2], [0, -2, 2]);
    assert NewFace(Face([0, 1, 3], [1, -4, 5]), before) == Face([0, 1, 3], [5, -5, 3]);
    assert NewFace(Face([1, 0, 2], [-1, 2, -5]), before) == Face([1, 0, 2], [-1, 1, -3]);
    assert InOrder(Face([0, 1, 2], [0, -2, 2]), edges) == Face([0, 1, 2], [0, 2, -2]);
    assert InOrder(Face([0, 1, 3], [5, -5, 3]), edges) == Face([0, 1, 3], [5, 3, -5]);
    assert InOrder(Face([1, 0, 2], [-1, 1, -3]), edges) == Face([1, 0, 2], [-1, 1, -3]);
  }

  const VERTICES := [Vertex([0, 1, 4, 5], [0, 1, 2]), Vertex([-1, 2, 3, -6], [0, 1, 2]), Vertex([-2, -3], [0, 2]),
                     Vertex([-4, -5], [1])]

  lemma EdgeFromStep(v: int, k: nat)
    requires k < 6
    ensures EdgesFrom(MOVED, v, 0) == []
    ensures EdgesFrom(MOVED, v, k + 1) ==
              EdgesFrom(MOVED, v, k) + (if MOVED[k].start == v then [k] else [])
              + (if MOVED[k].end == v then [Flip(k)] else [])
  {
  }

  lemma EdgesOf(v: int)
    requires 0 <= v < 4
    ensures EdgesFrom(MOVED, v, 6) == VERTICES[v].edgeIndex
  {
    hide EdgesFrom;
    EdgeFromStep(v, 0);
    EdgeFromStep(v, 1);
    EdgeFromStep(v, 2);
    EdgeFromStep(v, 3);
    EdgeFromStep(v, 4);
    EdgeFromStep(v, 5);
  }

  lemma FacesOf(v: int)
    requires 0 <= v < 4
    ensures FacesAround(TRIANGLES, v, 9) == VERTICES[v].faceIndex
  {
    assert FacesAround(TRIANGLES, v, 0) == [];
    hide FacesAround;
    FacesAroundStep(TRIANGLES, v, 0);
    FacesAroundStep(TRIANGLES, v, 1);
    FacesAroundStep(TRIANGLES, v, 2);
    FacesAroundStep(TRIANGLES, v, 3);
    FacesAroundStep(TRIANGLES, v, 4);
    FacesAroundStep(TRIANGLES, v, 5);
    FacesAroundStep(TRIANGLES, v, 6);
    FacesAroundStep(TRIANGLES, v, 7);
    FacesAroundStep(TRIANGLES, v, 8);
  }

  lemma VertexIs(faces: seq<Face>, vertices: seq<Vertex>, v: int)
    requires IsAdjacencyOf(faces, MOVED, vertices, TRIANGLES, 4) && 0 <= v < 4
    ensures |vertices| == 4 && vertices[v] == Vertex(EdgesFrom(MOVED, v, 6), FacesAround(TRIANGLES, v, 9))
  {
    hide EdgesFrom;
    hide FacesAround;
    hide Linked;
    hide RunsAround;
    hide TriangleSides;
    hide Sides;
    hide EdgesPaired;
    hide BoundaryLast;
  }

  lemma VerticesAre(faces: seq<Face>, vertices: seq<Vertex>)
    requires IsAdjacencyOf(faces, MOVED, vertices, TRIANGLES, 4)
    ensures vertices == VERTICES
  {
    hide *;
    VertexIs(faces, vertices, 0);
    VertexIs(faces, vertices, 1);
    VertexIs(faces, vertices, 2);
    VertexIs(faces, vertices, 3);
    EdgesOf(0);
    EdgesOf(1);
    EdgesOf(2);
    EdgesOf(3);
    FacesOf(0);
    FacesOf(1);
    FacesOf(2);
    FacesOf(3);
    FourVertices(vertices);
  }

  lemma FourVertices(vertices: seq<Vertex>)
    requires |vertices| == 4
    requires forall v :: 0 <= v < 4 ==> vertices[v] == Vertex(VERTICES[v].edgeIndex, VERTICES[v].faceIndex)
    ensures vertices == VERTICES
  {
  }

  /** The references of each face run around it, those at a vertex leave it, and the third triangle is paired with the
      first along all three sides. */
  method BuildMesh() returns (mesh: Mesh)
    ensures mesh.faceArray == [Face([0, 1, 2], [0, 2, -2]), Face([0, 1, 3], [5, 3, -5]), Face([1, 0, 2], [-1, 1, -3])]
    ensures mesh.edgeArray == [Edge(0, 1, 0, 2), Edge(0, 2, 2, 0), Edge(1, 2, 0, 2), Edge(1, 3, 1, NONE),
                               Edge(0, 3, NONE, 1), Edge(0, 1, 1, NONE)]
    ensures mesh.vertexArray == VERTICES
  {
    FacesAre();
    hide AdjacencyOf;
    hide IsAdjacencyOf;
    mesh := new Mesh();
    mesh.ComputeAdjacency(NORMALS, TRIANGLES, 4);
    VerticesAre(mesh.faceArray, mesh.vertexArray);
  }
}
