/** The building steps of computeAdjacency as functions: which references every face ends up with, and in which
    order. */
module MeshPairing {
  import opened MeshTopology
  import opened MeshEdgeTables
  import opened Vectors

  // ---------- the table of sides ----------

  /** The table with one more side of face f, lower vertex first. */
  function AddSide(table: seq<EdgeArray>, i0: int, i1: int, f: int): (t: seq<EdgeArray>)
    ensures |t| == |table|
  {
    var lo, hi, signed := if i0 < i1 then i0 else i1, if i0 < i1 then i1 else i0, if i0 < i1 then f else Flip(f);
    if 0 <= lo < |table| then table[lo := Inserted(table[lo], hi, signed)] else table
  }

  const NEXT_INDEX := [1, 2, 0]

  /** With the first j sides of a face. */
  function AddSides(table: seq<EdgeArray>, corners: seq<int>, f: int, j: nat): (t: seq<EdgeArray>)
    requires |corners| == 3 && j <= 3
    ensures |t| == |table|
  {
    if j == 0 then table
    else AddSide(AddSides(table, corners, f, j - 1), corners[j - 1], corners[NEXT_INDEX[j - 1]], f)
  }

  /** With all sides of the first k triangles. */
  function SideTable(indexArray: seq<int>, k: nat, numVertices: nat): (t: seq<EdgeArray>)
    requires 3 * k <= |indexArray|
    ensures |t| == numVertices
  {
    if k == 0 then seq(numVertices, _ => [])
    else AddSides(SideTable(indexArray, k - 1, numVertices), indexArray[3 * k - 3..3 * k], k - 1, 3)
  }

  // ---------- pairing the sides of one vertex pair ----------

  function NormalOf(faceNormal: seq<Vector3>, signed: int): Vector3 {
    if 0 <= IndexOf(signed) < |faceNormal| then faceNormal[IndexOf(signed)] else Vector3(0.0, 0.0, 0.0)
  }

  predicate Opposite(f: int, g: int) {
    (f >= 0) != (g >= 0)
  }

  /** The oppositely directed face from place i on whose normal is closest to that of f0, the last one on ties; or
      -1. */
  function Mate(faces: seq<int>, f0: int, faceNormal: seq<Vector3>, i: nat): (m: int)
    requires i <= |faces|
    ensures m == -1 || (i <= m < |faces| && Opposite(faces[m], f0))
    decreases |faces| - i
  {
    if i == |faces| then -1
    else
      var m := Mate(faces, f0, faceNormal, i + 1);
      if Opposite(faces[i], f0)
         && (m == -1 || Closeness(faceNormal, faces[i], f0) > Closeness(faceNormal, faces[m], f0)) then i else m
  }

  function Closeness(faceNormal: seq<Vector3>, f: int, g: int): real {
    Dot(NormalOf(faceNormal, f), NormalOf(faceNormal, g))
  }

  /** The list without entry i, its place taken by the last one. */
  function FastRemoved<T>(s: seq<T>, i: nat): (r: seq<T>)
    requires i < |s|
    ensures |r| == |s| - 1
  {
    s[i := s[|s| - 1]][..|s| - 1]
  }

  /** A face with an edge reference in its first free slot. */
  function WithReference(face: Face, e: int): Face {
    if |face.edgeIndex| != 3 then face
    else if face.edgeIndex[0] == NONE then WithSlot(face, 0, e)
    else if face.edgeIndex[1] == NONE then WithSlot(face, 1, e)
    else if face.edgeIndex[2] == NONE then WithSlot(face, 2, e)
    else face
  }

  /** The faces and the edges made so far. */
  datatype Paired = Paired(faces: seq<Face>, edges: seq<Edge>)

  /** A side gets the newest edge: its face a reference, and the edge the face. */
  function SideAttached(p: Paired, signed: int): (r: Paired)
    requires p.edges != []
    ensures |r.edges| == |p.edges|
  {
    var e, f := |p.edges| - 1, IndexOf(signed);
    Paired(if 0 <= f < |p.faces| then p.faces[f := WithReference(p.faces[f], SignedIndex(signed >= 0, e))] else p.faces,
           p.edges[e := WithSide(p.edges[e], signed >= 0, f)])
  }

  /** The last side of the list gets a new edge, and so does its mate. */
  function PairStep(p: Paired, i0: int, i1: int, list: seq<int>, faceNormal: seq<Vector3>): (r: (Paired, seq<int>))
    requires list != []
    ensures |r.1| < |list|
  {
    var f0, others := list[|list| - 1], list[..|list| - 1];
    var first := SideAttached(Paired(p.faces, p.edges + [Edge(i0, i1, NONE, NONE)]), f0);
    var m := Mate(others, f0, faceNormal, 0);
    if m == -1 then (first, others) else (SideAttached(first, others[m]), FastRemoved(others, m))
  }

  function PairAll(p: Paired, i0: int, i1: int, list: seq<int>, faceNormal: seq<Vector3>): Paired
    decreases |list|
  {
    if list == [] then p
    else
      var (p', left) := PairStep(p, i0, i1, list, faceNormal);
      PairAll(p', i0, i1, left, faceNormal)
  }

  /** All vertex pairs of the table, in the order of the iterator. */
  function PairKeys(p: Paired, keys: seq<Key>, faceNormal: seq<Vector3>): Paired
    decreases |keys|
  {
    if keys == [] then p
    else PairKeys(PairAll(p, keys[0].i0, keys[0].i1, keys[0].faces, faceNormal), keys[1..], faceNormal)
  }

  // ---------- the whole ----------

  /** The number an edge gets when boundary edges are moved to the end. */
  function NewIndex(edges: seq<Edge>, e: nat): int
    requires e < |edges|
  {
    if edges[e].Boundary() then |edges| - 1 - |Open(edges[..e])| else |Interior(edges[..e])|
  }

  function NewReference(edges: seq<Edge>, e: int): int {
    if 0 <= IndexOf(e) < |edges| then SignedIndex(e >= 0, NewIndex(edges, IndexOf(e))) else e
  }

  /** A face with its references renumbered. */
  function NewFace(face: Face, edges: seq<Edge>): Face {
    Face(face.vertexIndex,
         seq(|face.edgeIndex|, i requires 0 <= i < |face.edgeIndex| => NewReference(edges, face.edgeIndex[i])))
  }

  /** A face with its references in order. */
  function InOrder(face: Face, edges: seq<Edge>): Face {
    if |face.edgeIndex| == 3 && 0 <= IndexOf(face.edgeIndex[0]) < |edges| && 0 <= IndexOf(face.edgeIndex[1]) < |edges|
       && |face.vertexIndex| == 3
    then Ordered(face, edges) else face
  }

  /** Triangle f of the list, with no edges yet. */
  function FaceOf(indexArray: seq<int>, f: nat): (face: Face)
    requires 3 * f + 2 < |indexArray|
    ensures FaceShape(face)
  {
    Face([indexArray[3 * f], indexArray[3 * f + 1], indexArray[3 * f + 2]], [NONE, NONE, NONE])
  }

  /** Faces and edges before boundary edges are moved. */
  function PairedMesh(indexArray: seq<int>, faceNormal: seq<Vector3>, numVertices: nat): Paired {
    var n := |indexArray| / 3;
    PairKeys(Paired(seq(n, f requires 0 <= f < n => FaceOf(indexArray, f)), []),
             Keys(SideTable(indexArray, n, numVertices)),
             faceNormal)
  }

  /** The faces and edges that computeAdjacency delivers. */
  function AdjacencyOf(indexArray: seq<int>, faceNormal: seq<Vector3>, numVertices: nat): Paired {
    var p := PairedMesh(indexArray, faceNormal, numVertices);
    var edges := Interior(p.edges) + Reversed(Open(p.edges));
    Paired(seq(|p.faces|, f requires 0 <= f < |p.faces| => InOrder(NewFace(p.faces[f], p.edges), edges)), edges)
  }
}
