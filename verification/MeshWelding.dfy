/** weldBoundaryEdges: joining open edges that have come to lie on each other. */
module MeshWelding {
  import opened MeshTopology
  import opened MeshAdjacency
  import opened MeshPairing

  // ---------- open edges ----------

  /** The edge has exactly one face. */
  predicate HalfOpen(e: Edge) {
    (e.forward == NONE) != (e.backward == NONE)
  }

  /** The direction in which the one face of an open edge runs. */
  function OpenArrow(e: Edge): Arrow {
    if e.forward != NONE then (e.start, e.end) else (e.end, e.start)
  }

  function Reverse(a: Arrow): Arrow {
    (a.1, a.0)
  }

  /** Two open edges can be one edge: their faces run along it in opposite directions. */
  predicate Mates(d: Edge, e: Edge) {
    OpenArrow(d) == Reverse(OpenArrow(e))
  }

  /** Two open edges between the same vertices: of the same direction with faces on different sides, or of opposite
      directions with faces on the same side. */
  predicate CouldJoin(d: Edge, e: Edge) {
    || (d.start == e.start && d.end == e.end && (d.forward == NONE) != (e.forward == NONE))
    || (d.start == e.end && d.end == e.start && (d.forward == NONE) == (e.forward == NONE))
  }

  function LowVertex(e: Edge): (v: int)
    ensures v <= e.start && v <= e.end && (v == e.start || v == e.end)
  {
    if e.start < e.end then e.start else e.end
  }

  /** The four cases of the comparison: whether the edges match, and whether ej points the other way. */
  method Compare(edgei: Edge, edgej: Edge) returns (match_: bool, reversej: bool)
    requires HalfOpen(edgei) && HalfOpen(edgej)
    ensures match_ <==> Mates(edgei, edgej)
    ensures match_ <==> CouldJoin(edgei, edgej)
    ensures match_ && reversej ==>
              edgej.start == edgei.end && edgej.end == edgei.start && (edgei.forward == NONE) == (edgej.forward == NONE)
    ensures match_ && !reversej ==>
              edgej.start == edgei.start && edgej.end == edgei.end && (edgei.forward == NONE) != (edgej.forward == NONE)
  {
    match_, reversej := false, false;
    var u, v := edgei.start, edgei.end;
    if edgei.forward != NONE {
      if edgej.forward != NONE {
        if edgej.start == v && edgej.end == u {
          match_, reversej := true, true;
        }
      } else {
        if edgej.start == u && edgej.end == v {
          match_ := true;
        }
      }
    } else {
      if edgej.forward != NONE {
        if edgej.start == u && edgej.end == v {
          match_ := true;
        }
      } else {
        if edgej.start == v && edgej.end == u {
          match_, reversej := true, true;
        }
      }
    }
  }

  /** The edge that takes the direction of edgei and the faces of both. */
  function Joined(edgei: Edge, edgej: Edge): Edge {
    var fj := if edgej.forward == NONE then edgej.backward else edgej.forward;
    if edgei.forward == NONE then edgei.(forward := fj) else edgei.(backward := fj)
  }

  // ---------- how far the new array accounts for the old one ----------

  /** Old edge e is the new edge newIndex[e], with the same arrow and, on the right side, the same faces. */
  ghost predicate CarriedOver(old_: seq<Edge>, new_: seq<Edge>, newIndex: seq<int>, e: int)
    requires |newIndex| == |old_| && 0 <= e < |old_|
  {
    var r := newIndex[e];
    && 0 <= IndexOf(r) < |new_|
    && Directed(r, new_) == (old_[e].start, old_[e].end)
    && (old_[e].forward != NONE ==> SideIs(r, new_, old_[e].forward))
    && (old_[e].backward != NONE ==> SideIs(Flip(r), new_, old_[e].backward))
  }

  /** The side of the new edges that s' stands for is the side s of the old ones. */
  ghost predicate SideFrom(old_: seq<Edge>, newIndex: seq<int>, done: set<int>, s: int, s': int, f: int)
    requires |newIndex| == |old_|
  {
    && 0 <= IndexOf(s) < |old_| && IndexOf(s) in done
    && Renumbered(s, newIndex) == s'
    && SideIs(s, old_, f)
  }

  /** Every new edge is some old edge, and each of its faces comes from one. */
  ghost predicate HasSource(old_: seq<Edge>, new_: seq<Edge>, newIndex: seq<int>, done: set<int>, k: int)
    requires |newIndex| == |old_| && 0 <= k < |new_|
  {
    && (exists e :: e in done && 0 <= e < |old_| && newIndex[e] == k)
    && (new_[k].forward != NONE ==> exists s :: SideFrom(old_, newIndex, done, s, k, new_[k].forward))
    && (new_[k].backward != NONE ==> exists s :: SideFrom(old_, newIndex, done, s, Flip(k), new_[k].backward))
  }

  /** The sides of the old edges in done, among the first k. */
  ghost function SidesOfDone(edges: seq<Edge>, done: set<int>, k: nat): multiset<HalfEdge>
    requires k <= |edges|
  {
    if k == 0 then multiset{} else
      SidesOfDone(edges, done, k - 1) + if k - 1 in done then EdgeSides(edges[k - 1]) else multiset{}
  }

  ghost predicate Welding(old_: seq<Edge>, new_: seq<Edge>, newIndex: seq<int>, done: set<int>) {
    && |newIndex| == |old_|
    && (forall e :: e in done ==> 0 <= e < |old_|)
    && (forall e :: e in done ==> CarriedOver(old_, new_, newIndex, e))
    && (forall k :: 0 <= k < |new_| ==> HasSource(old_, new_, newIndex, done, k))
    && Sides(new_) == SidesOfDone(old_, done, |old_|)
    && |new_| <= |done|
  }

  lemma {:induction false} SidesOfDoneAdd(edges: seq<Edge>, done: set<int>, e: int, k: nat)
    requires k <= |edges| && 0 <= e < |edges| && e !in done
    ensures SidesOfDone(edges, done + {e}, k)
              == SidesOfDone(edges, done, k) + if e < k then EdgeSides(edges[e]) else multiset{}
  {
    hide EdgeSides;
    if k > 0 {
      SidesOfDoneAdd(edges, done, e, k - 1);
    }
  }

  lemma {:induction false} SidesOfAll(edges: seq<Edge>, done: set<int>, k: nat)
    requires k <= |edges| && forall e :: 0 <= e < |edges| ==> e in done
    ensures SidesOfDone(edges, done, k) == Sides(edges[..k])
  {
    hide EdgeSides;
    if k > 0 {
      SidesOfAll(edges, done, k - 1);
      assert edges[..k][..k - 1] == edges[..k - 1];
    }
  }

  lemma {:induction false} SidesOfNone(edges: seq<Edge>, k: nat)
    requires k <= |edges|
    ensures SidesOfDone(edges, {}, k) == multiset{}
  {
    if k > 0 {
      SidesOfNone(edges, k - 1);
    }
  }

  /** What was carried over stays so when edges are added and other entries of the map are filled in. */
  lemma CarriedOverStays(old_: seq<Edge>, new_: seq<Edge>, newIndex: seq<int>, e: int, x: Edge, newIndex': seq<int>)
    requires |newIndex| == |old_| == |newIndex'| && 0 <= e < |old_| && CarriedOver(old_, new_, newIndex, e)
    requires newIndex'[e] == newIndex[e]
    ensures CarriedOver(old_, new_ + [x], newIndex', e)
  {
  }

  lemma HasSourceStays(old_: seq<Edge>, new_: seq<Edge>, newIndex: seq<int>, done: set<int>, k: int, x: Edge,
                       newIndex': seq<int>, done': set<int>)
    requires |newIndex| == |old_| == |newIndex'| && 0 <= k < |new_| && HasSource(old_, new_, newIndex, done, k)
    requires done <= done' && forall e :: e in done ==> 0 <= e < |old_| && newIndex'[e] == newIndex[e]
    ensures HasSource(old_, new_ + [x], newIndex', done', k)
  {
    var e :| e in done && 0 <= e < |old_| && newIndex[e] == k;
    assert newIndex'[e] == k;
    if new_[k].forward != NONE {
      var s :| SideFrom(old_, newIndex, done, s, k, new_[k].forward);
      assert SideFrom(old_, newIndex', done', s, k, new_[k].forward);
    }
    if new_[k].backward != NONE {
      var s :| SideFrom(old_, newIndex, done, s, Flip(k), new_[k].backward);
      assert SideFrom(old_, newIndex', done', s, Flip(k), new_[k].backward);
    }
  }

  /** A new edge was added that takes over the old edges in added. */
  ghost predicate Extends(old_: seq<Edge>, new_: seq<Edge>, newIndex: seq<int>, done: set<int>,
                          x: Edge, newIndex': seq<int>, added: set<int>) {
    && |newIndex| == |old_| == |newIndex'|
    && added != {} && done !! added
    && (forall e :: e in done ==> 0 <= e < |old_| && newIndex'[e] == newIndex[e])
    && (forall e :: e in added ==> 0 <= e < |old_| && CarriedOver(old_, new_ + [x], newIndex', e))
    && HasSource(old_, new_ + [x], newIndex', done + added, |new_|)
    && SidesOfDone(old_, done + added, |old_|) == SidesOfDone(old_, done, |old_|) + EdgeSides(x)
  }

  lemma ExtendKeepsWelding(old_: seq<Edge>, new_: seq<Edge>, newIndex: seq<int>, done: set<int>,
                           x: Edge, newIndex': seq<int>, added: set<int>)
    requires Welding(old_, new_, newIndex, done) && Extends(old_, new_, newIndex, done, x, newIndex', added)
    ensures Welding(old_, new_ + [x], newIndex', done + added)
  {
    hide CarriedOver;
    hide HasSource;
    hide EdgeSides;
    hide SidesOfDone;
    forall d | d in done + added ensures CarriedOver(old_, new_ + [x], newIndex', d) {
      if d in done {
        CarriedOverStays(old_, new_, newIndex, d, x, newIndex');
      }
    }
    forall j | 0 <= j < |new_ + [x]| ensures HasSource(old_, new_ + [x], newIndex', done + added, j) {
      if j < |new_| {
        HasSourceStays(old_, new_, newIndex, done, j, x, newIndex', done + added);
      }
    }
    SidesLast(new_, x);
    assert |done + added| == |done| + |added|;
  }

  lemma WeldingShape(old_: seq<Edge>, new_: seq<Edge>, newIndex: seq<int>, done: set<int>)
    requires Welding(old_, new_, newIndex, done)
    ensures |newIndex| == |old_| && |new_| <= |done|
    ensures forall e :: e in done ==> 0 <= e < |old_|
  {
  }

  /** An old edge copied as it is. */
  lemma CopyKeepsWelding(old_: seq<Edge>, new_: seq<Edge>, newIndex: seq<int>, done: set<int>, e: int)
    requires Welding(old_, new_, newIndex, done) && 0 <= e < |old_| && e !in done
    ensures Welding(old_, new_ + [old_[e]], newIndex[e := |new_|], done + {e})
  {
    var newIndex' := newIndex[e := |new_|];
    CopySource(old_, new_ + [old_[e]], newIndex', done + {e}, e);
    SidesOfDoneAdd(old_, done, e, |old_|);
    hide SidesOfDone;
    hide HasSource;
    hide EdgeSides;
    assert Extends(old_, new_, newIndex, done, old_[e], newIndex', {e});
    ExtendKeepsWelding(old_, new_, newIndex, done, old_[e], newIndex', {e});
  }

  lemma CopySource(old_: seq<Edge>, new_: seq<Edge>, newIndex: seq<int>, done: set<int>, e: int)
    requires new_ != [] && |newIndex| == |old_| && e in done && 0 <= e < |old_|
    requires newIndex[e] == |new_| - 1 && new_[|new_| - 1] == old_[e]
    ensures HasSource(old_, new_, newIndex, done, |new_| - 1)
  {
    var k := |new_| - 1;
    assert new_[k].forward != NONE ==> SideFrom(old_, newIndex, done, e, k, new_[k].forward);
    assert new_[k].backward != NONE ==> SideFrom(old_, newIndex, done, Flip(e), Flip(k), new_[k].backward);
  }

  ghost predicate Joinable(old_: seq<Edge>, ei: int, ej: int, reversej: bool) {
    && 0 <= ei < |old_| && 0 <= ej < |old_| && ei != ej
    && HalfOpen(old_[ei]) && HalfOpen(old_[ej])
    && var i, j := old_[ei], old_[ej];
    && (if reversej
        then j.start == i.end && j.end == i.start && (i.forward == NONE) == (j.forward == NONE)
        else j.start == i.start && j.end == i.end && (i.forward == NONE) != (j.forward == NONE))
  }

  lemma JoinedSides(i: Edge, j: Edge, reversej: bool)
    requires Joinable([i, j], 0, 1, reversej)
    ensures EdgeSides(Joined(i, j)) == EdgeSides(i) + EdgeSides(j)
    ensures !Joined(i, j).Boundary()
  {
  }

  /** Two old edges made into one. */
  lemma JoinKeepsWelding(old_: seq<Edge>, new_: seq<Edge>, newIndex: seq<int>, done: set<int>, ei: int, ej: int,
                         reversej: bool)
    requires Welding(old_, new_, newIndex, done) && Joinable(old_, ei, ej, reversej) && ei !in done && ej !in done
    ensures var k := |new_|;
      Welding(old_, new_ + [Joined(old_[ei], old_[ej])], newIndex[ei := k][ej := if reversej then Flip(k) else k],
              done + {ei} + {ej})
  {
    hide SidesOfDone;
    hide HasSource;
    hide EdgeSides;
    hide CarriedOver;
    hide Welding;
    hide Joined;
    WeldingShape(old_, new_, newIndex, done);
    var k, x := |new_|, Joined(old_[ei], old_[ej]);
    var newIndex', added := newIndex[ei := k][ej := if reversej then Flip(k) else k], {ei, ej};
    assert done + {ei} + {ej} == done + added;
    JoinedSource(old_, new_ + [x], newIndex', done + added, ei, ej, reversej);
    JoinedSides(old_[ei], old_[ej], reversej);
    SidesOfDoneAdd(old_, done, ei, |old_|);
    SidesOfDoneAdd(old_, done + {ei}, ej, |old_|);
    JoinedCarried(old_, new_ + [x], newIndex', ei, ej, reversej);
    assert Extends(old_, new_, newIndex, done, x, newIndex', added);
    ExtendKeepsWelding(old_, new_, newIndex, done, x, newIndex', added);
  }

  lemma JoinedCarried(old_: seq<Edge>, new_: seq<Edge>, newIndex: seq<int>, ei: int, ej: int, reversej: bool)
    requires Joinable(old_, ei, ej, reversej) && new_ != [] && |newIndex| == |old_|
    requires var k := |new_| - 1;
      new_[k] == Joined(old_[ei], old_[ej]) && newIndex[ei] == k && newIndex[ej] == if reversej then Flip(k) else k
    ensures CarriedOver(old_, new_, newIndex, ei) && CarriedOver(old_, new_, newIndex, ej)
  {
  }

  lemma JoinedSource(old_: seq<Edge>, new_: seq<Edge>, newIndex: seq<int>, done: set<int>, ei: int, ej: int,
                     reversej: bool)
    requires Joinable(old_, ei, ej, reversej) && new_ != [] && |newIndex| == |old_| && ei in done && ej in done
    requires var k := |new_| - 1;
      new_[k] == Joined(old_[ei], old_[ej]) && newIndex[ei] == k && newIndex[ej] == if reversej then Flip(k) else k
    ensures HasSource(old_, new_, newIndex, done, |new_| - 1)
  {
    var k, i, j := |new_| - 1, old_[ei], old_[ej];
    assert newIndex[ei] == k;
    // The reference by which the face of the old edge knows it
    var si := if i.forward != NONE then ei else Flip(ei);
    var sj := if j.forward != NONE then ej else Flip(ej);
    if i.forward != NONE {
      assert SideFrom(old_, newIndex, done, si, k, new_[k].forward);
      assert SideFrom(old_, newIndex, done, sj, Flip(k), new_[k].backward);
    } else {
      assert SideFrom(old_, newIndex, done, sj, k, new_[k].forward);
      assert SideFrom(old_, newIndex, done, si, Flip(k), new_[k].backward);
    }
  }

  // ---------- scanning one bucket ----------

  ghost predicate DistinctEdges(list: seq<int>) {
    forall a, b :: 0 <= a < b < |list| ==> list[a] != list[b]
  }

  ghost predicate OpenEdges(old_: seq<Edge>, list: seq<int>) {
    && DistinctEdges(list)
    && forall a :: 0 <= a < |list| ==> 0 <= list[a] < |old_| && HalfOpen(old_[list[a]])
  }

  /** The first i edges of the list have no mate behind them. */
  ghost predicate Settled(old_: seq<Edge>, list: seq<int>, i: nat)
    requires OpenEdges(old_, list)
  {
    forall a, b :: 0 <= a < i && a < b < |list| ==> !Mates(old_[list[a]], old_[list[b]])
  }

  lemma FastRemovedOpen(old_: seq<Edge>, list: seq<int>, p: nat)
    requires OpenEdges(old_, list) && p < |list|
    ensures OpenEdges(old_, FastRemoved(list, p))
    ensures forall e :: e in FastRemoved(list, p) <==> e in list && e != list[p]
  {
    var left, last := FastRemoved(list, p), |list| - 1;
    assert forall a :: 0 <= a < last ==> left[a] == if a == p then list[last] else list[a];
    forall e ensures e in left <==> e in list && e != list[p] {
      if e in list && e != list[p] {
        var a :| 0 <= a < |list| && list[a] == e;
        assert if a == last then left[p] == e else left[a] == e;
      }
    }
  }

  /** What has become of a bucket: its edges are left over or done, and nothing else is. */
  ghost predicate Consumed(bucket: seq<int>, left: seq<int>, done0: set<int>, done: set<int>) {
    && done0 <= done
    && (forall e :: e in left ==> e in bucket && e !in done)
    && (forall e :: e in bucket ==> e in left || e in done)
    && (forall e :: e in done ==> e in done0 || e in bucket)
  }

  ghost predicate NoMateBehind(old_: seq<Edge>, list: seq<int>, i: nat)
    requires OpenEdges(old_, list) && i < |list|
  {
    forall b :: i < b < |list| ==> !Mates(old_[list[i]], old_[list[b]])
  }

  /** The next edge behind position i that can be joined to the edge at i. */
  method FindPartner(old_: seq<Edge>, list: seq<int>, i: nat) returns (found: bool, j: nat, reversej: bool)
    requires OpenEdges(old_, list) && i < |list|
    ensures found ==>
              i < j < |list| && Mates(old_[list[i]], old_[list[j]]) && Joinable(old_, list[i], list[j], reversej)
    ensures !found ==> NoMateBehind(old_, list, i)
  {
    var edgei := old_[list[i]];
    found, reversej := false, false;
    j := i + 1;
    while j < |list|
      invariant i < j <= |list|
      invariant forall b :: i < b < j ==> !Mates(edgei, old_[list[b]])
    {
      found, reversej := Compare(edgei, old_[list[j]]);
      if found {
        return;
      }
      j := j + 1;
    }
    found := false;
  }

  /** Joins the edges of one bucket pairwise until no two of those left match. */
  method PairBucket(old_: seq<Edge>, bucket: seq<int>, edgeArray: seq<Edge>, newEdgeIndex: seq<int>,
                    ghost done0: set<int>)
    returns (boundaryEdge: seq<int>, edges: seq<Edge>, newIndex: seq<int>, ghost done: set<int>)
    requires Welding(old_, edgeArray, newEdgeIndex, done0)
    requires OpenEdges(old_, bucket) && forall e :: e in bucket ==> e !in done0
    ensures Welding(old_, edges, newIndex, done)
    ensures Consumed(bucket, boundaryEdge, done0, done)
    ensures OpenEdges(old_, boundaryEdge) && Settled(old_, boundaryEdge, |boundaryEdge|)
    ensures |edgeArray| <= |edges| && edges[..|edgeArray|] == edgeArray
    ensures forall k :: |edgeArray| <= k < |edges| ==> !edges[k].Boundary()
  {
    hide Welding;
    hide OpenEdges;
    hide Settled;
    hide Consumed;
    hide Joinable;
    hide NoMateBehind;
    hide Mates;
    boundaryEdge, edges, newIndex, done := bucket, edgeArray, newEdgeIndex, done0;
    PairBucketStart(old_, bucket, done0);
    var i := 0;
    while i < |boundaryEdge|
      invariant Welding(old_, edges, newIndex, done)
      invariant Consumed(bucket, boundaryEdge, done0, done)
      invariant i <= |boundaryEdge| && OpenEdges(old_, boundaryEdge) && Settled(old_, boundaryEdge, i)
      invariant |edgeArray| <= |edges| && edges[..|edgeArray|] == edgeArray
      invariant forall k :: |edgeArray| <= k < |edges| ==> !edges[k].Boundary()
      decreases |boundaryEdge| - i
    {
      var found, j, reversej := FindPartner(old_, boundaryEdge, i);
      if found {
        // A match
        var ei, ej := boundaryEdge[i], boundaryEdge[j];
        var e := |edges|;
        PairStep(old_, bucket, boundaryEdge, edges, newIndex, done0, done, i, j, reversej);
        edges := edges + [Joined(old_[ei], old_[ej])];
        newIndex := newIndex[ei := e][ej := if reversej then Flip(e) else e];
        done := done + {ei} + {ej};
        // The later one goes first
        boundaryEdge := FastRemoved(boundaryEdge, j);
        boundaryEdge := FastRemoved(boundaryEdge, i);
      } else {
        SettledStep(old_, boundaryEdge, i);
        i := i + 1;
      }
    }
  }

  lemma PairBucketStart(old_: seq<Edge>, bucket: seq<int>, done0: set<int>)
    requires OpenEdges(old_, bucket) && forall e :: e in bucket ==> e !in done0
    ensures Consumed(bucket, bucket, done0, done0) && Settled(old_, bucket, 0)
  {
  }

  lemma SettledStep(old_: seq<Edge>, list: seq<int>, i: nat)
    requires OpenEdges(old_, list) && i < |list| && Settled(old_, list, i)
    requires NoMateBehind(old_, list, i)
    ensures Settled(old_, list, i + 1)
  {
  }

  lemma PairStep(old_: seq<Edge>, bucket: seq<int>, list: seq<int>, edges: seq<Edge>, newIndex: seq<int>,
                 done0: set<int>, done: set<int>, i: nat, j: nat, reversej: bool)
    requires Welding(old_, edges, newIndex, done) && Consumed(bucket, list, done0, done)
    requires OpenEdges(old_, list) && i < j < |list| && Settled(old_, list, i)
    requires Joinable(old_, list[i], list[j], reversej)
    ensures |newIndex| == |old_| && 0 <= list[i] < |old_| && 0 <= list[j] < |old_|
    ensures var k := |edges|;
      var ei, ej := list[i], list[j];
      var left := FastRemoved(FastRemoved(list, j), i);
      && Welding(old_, edges + [Joined(old_[ei], old_[ej])], newIndex[ei := k][ej := if reversej then Flip(k) else k],
                 done + {ei} + {ej})
      && Consumed(bucket, left, done0, done + {ei} + {ej})
      && OpenEdges(old_, left) && Settled(old_, left, i)
      && !Joined(old_[ei], old_[ej]).Boundary()
  {
    var ei, ej := list[i], list[j];
    WeldingShape(old_, edges, newIndex, done);
    JoinKeepsWelding(old_, edges, newIndex, done, ei, ej, reversej);
    JoinedSides(old_[ei], old_[ej], reversej);
    var left1 := FastRemoved(list, j);
    FastRemovedOpen(old_, list, j);
    assert left1[i] == ei;
    FastRemovedOpen(old_, left1, i);
  }

  // ---------- the table of buckets ----------

  type Buckets = map<int, seq<int>>

  /** Every old edge is done or waits in the bucket of its lower vertex; the buckets hold nothing else. */
  ghost predicate Waiting(old_: seq<Edge>, buckets: Buckets, done: set<int>, n: nat)
    requires n <= |old_|
  {
    && (forall v :: v in buckets ==> OpenEdges(old_, buckets[v]))
    && (forall v, e :: v in buckets && e in buckets[v] ==> 0 <= e < n && e !in done && LowVertex(old_[e]) == v)
    && (forall e :: 0 <= e < n ==> e in done || InBucket(buckets, LowVertex(old_[e]), e))
  }

  ghost predicate InBucket(buckets: Buckets, v: int, e: int) {
    v in buckets && e in buckets[v]
  }

  /** Copies the interior edges and puts the open ones into buckets by their lower vertex. */
  method SplitEdges(old_: seq<Edge>)
    returns (buckets: Buckets, edgeArray: seq<Edge>, newEdgeIndex: seq<int>, ghost done: set<int>)
    requires forall e :: 0 <= e < |old_| ==> old_[e].forward != NONE || old_[e].backward != NONE
    ensures Welding(old_, edgeArray, newEdgeIndex, done) && |newEdgeIndex| == |old_|
    ensures Waiting(old_, buckets, done, |old_|)
    ensures forall k :: 0 <= k < |edgeArray| ==> !edgeArray[k].Boundary()
  {
    hide Welding;
    buckets, edgeArray, newEdgeIndex, done := map[], [], seq(|old_|, _ => 0), {};
    NothingWelded(old_, newEdgeIndex);
    for e := 0 to |old_|
      invariant Welding(old_, edgeArray, newEdgeIndex, done)
      invariant |newEdgeIndex| == |old_| && forall d :: d in done ==> 0 <= d < e
      invariant Waiting(old_, buckets, done, e)
      invariant forall k :: 0 <= k < |edgeArray| ==> !edgeArray[k].Boundary()
    {
      if old_[e].Boundary() {
        var low := LowVertex(old_[e]);
        ghost var before := buckets;
        if low !in buckets {
          buckets := buckets[low := []];
        }
        buckets := buckets[low := buckets[low] + [e]];
      } else {
        CopyKeepsWelding(old_, edgeArray, newEdgeIndex, done, e);
        newEdgeIndex := newEdgeIndex[e := |edgeArray|];
        edgeArray := edgeArray + [old_[e]];
        done := done + {e};
      }
    }
  }

  lemma NothingWelded(old_: seq<Edge>, newIndex: seq<int>)
    requires |newIndex| == |old_|
    ensures Welding(old_, [], newIndex, {})
  {
    SidesOfNone(old_, |old_|);
  }

  lemma WaitingConsumed(old_: seq<Edge>, buckets: Buckets, done: set<int>, v: int, left: seq<int>, done': set<int>)
    requires Waiting(old_, buckets, done, |old_|) && v in buckets
    requires OpenEdges(old_, left) && Consumed(buckets[v], left, done, done')
    ensures Waiting(old_, buckets[v := left], done', |old_|)
  {
    var buckets' := buckets[v := left];
    forall w, e | w in buckets' && e in buckets'[w] ensures 0 <= e < |old_| && e !in done' && LowVertex(old_[e]) == w {
      if w != v {
        assert e in buckets[w] && LowVertex(old_[e]) == w;
        assert e !in buckets[v];
      }
    }
    forall e | 0 <= e < |old_| ensures e in done' || InBucket(buckets', LowVertex(old_[e]), e) {
      if e !in done' {
        assert InBucket(buckets, LowVertex(old_[e]), e);
      }
    }
  }

  ghost predicate AllSettled(old_: seq<Edge>, buckets: Buckets, keys: set<int>) {
    forall v :: v in keys && v in buckets ==> OpenEdges(old_, buckets[v]) && Settled(old_, buckets[v], |buckets[v]|)
  }

  /** Visits the buckets, in whatever order the table yields them, and pairs up the edges in each. */
  method PairBuckets(old_: seq<Edge>, buckets0: Buckets, edgeArray: seq<Edge>, newEdgeIndex: seq<int>,
                     ghost done0: set<int>)
    returns (buckets: Buckets, edges: seq<Edge>, newIndex: seq<int>, ghost done: set<int>)
    requires Welding(old_, edgeArray, newEdgeIndex, done0) && Waiting(old_, buckets0, done0, |old_|)
    requires forall k :: 0 <= k < |edgeArray| ==> !edgeArray[k].Boundary()
    ensures Welding(old_, edges, newIndex, done) && Waiting(old_, buckets, done, |old_|)
    ensures AllSettled(old_, buckets, buckets.Keys)
    ensures forall k :: 0 <= k < |edges| ==> !edges[k].Boundary()
  {
    hide Welding;
    hide Waiting;
    hide OpenEdges;
    hide Settled;
    hide Consumed;
    buckets, edges, newIndex, done := buckets0, edgeArray, newEdgeIndex, done0;
    var cur := buckets.Keys;
    while cur != {}
      invariant Welding(old_, edges, newIndex, done) && Waiting(old_, buckets, done, |old_|)
      invariant cur <= buckets.Keys && AllSettled(old_, buckets, buckets.Keys - cur)
      invariant forall k :: 0 <= k < |edges| ==> !edges[k].Boundary()
      decreases |cur|
    {
      var v := NextKey(cur);
      ghost var before, beforeEdges, beforeDone := buckets, edges, done;
      BucketWaits(old_, buckets, done, v);
      var left;
      left, edges, newIndex, done := PairBucket(old_, buckets[v], edges, newIndex, done);
      WaitingConsumed(old_, before, beforeDone, v, left, done);
      buckets := buckets[v := left];
      cur := cur - {v};
      assert forall k :: 0 <= k < |beforeEdges| ==> edges[k] == edges[..|beforeEdges|][k];
    }
  }

  lemma SomeKey(keys: set<int>)
    ensures keys == {} || exists v :: v in keys
  {
    if forall v :: v !in keys {
      assert keys == {};
    }
  }

  /** Any key not visited yet: a hash table promises no order. */
  method NextKey(keys: set<int>) returns (v: int)
    requires keys != {}
    ensures v in keys
  {
    SomeKey(keys);
    v :| v in keys;
  }

  lemma BucketWaits(old_: seq<Edge>, buckets: Buckets, done: set<int>, v: int)
    requires Waiting(old_, buckets, done, |old_|) && v in buckets
    ensures OpenEdges(old_, buckets[v]) && forall e :: e in buckets[v] ==>
              0 <= e < |old_| && e !in done && LowVertex(old_[e]) == v
  {
  }

  // ---------- the edges that stay open ----------

  /** No two of the listed old edges could still be joined. */
  ghost predicate NoMates(old_: seq<Edge>, tail: seq<int>) {
    && (forall a :: 0 <= a < |tail| ==> 0 <= tail[a] < |old_|)
    && (forall a, b :: 0 <= a < b < |tail| ==> !Mates(old_[tail[a]], old_[tail[b]]))
  }

  /** The new edges are interior ones followed by the old edges in tail, which nothing can close. */
  ghost predicate OpenTail(old_: seq<Edge>, edges: seq<Edge>, tail: seq<int>) {
    && NoMates(old_, tail)
    && |tail| <= |edges|
    && (forall k :: 0 <= k < |edges| - |tail| ==> !edges[k].Boundary())
    && (forall a :: 0 <= a < |tail| ==> HalfOpen(old_[tail[a]]) && edges[|edges| - |tail| + a] == old_[tail[a]])
  }

  /** The tail holds edges of the buckets in visited and the first b edges of bucket v. */
  ghost predicate TailFrom(old_: seq<Edge>, buckets: Buckets, tail: seq<int>, visited: set<int>, v: int, b: nat) {
    forall a :: 0 <= a < |tail| ==>
      0 <= tail[a] < |old_| && Visited(LowVertex(old_[tail[a]]), buckets, tail[a], visited, v, b)
  }

  ghost predicate Visited(low: int, buckets: Buckets, e: int, visited: set<int>, v: int, b: nat) {
    low in visited || (low == v && v in buckets && b <= |buckets[v]| && e in buckets[v][..b])
  }

  lemma MatesShareLowVertex(d: Edge, e: Edge)
    requires HalfOpen(d) && HalfOpen(e) && Mates(d, e)
    ensures LowVertex(d) == LowVertex(e)
  {
  }

  lemma NotMates(old_: seq<Edge>, buckets: Buckets, d: int, visited: set<int>, v: int, b: nat)
    requires v in buckets && v !in visited && b < |buckets[v]| && 0 <= d < |old_| && HalfOpen(old_[d])
    requires Visited(LowVertex(old_[d]), buckets, d, visited, v, b)
    requires OpenEdges(old_, buckets[v]) && Settled(old_, buckets[v], |buckets[v]|)
    requires LowVertex(old_[buckets[v][b]]) == v
    ensures !Mates(old_[d], old_[buckets[v][b]])
  {
    var list := buckets[v];
    if LowVertex(old_[d]) == v {
      var c :| 0 <= c < b && list[..b][c] == d;
      assert !Mates(old_[list[c]], old_[list[b]]);
    } else if Mates(old_[d], old_[list[b]]) {
      MatesShareLowVertex(old_[d], old_[list[b]]);
    }
  }

  lemma TailStep(old_: seq<Edge>, buckets: Buckets, edges: seq<Edge>, tail: seq<int>, visited: set<int>, v: int, b: nat)
    requires OpenTail(old_, edges, tail) && TailFrom(old_, buckets, tail, visited, v, b)
    requires v in buckets && v !in visited && b < |buckets[v]|
    requires OpenEdges(old_, buckets[v]) && Settled(old_, buckets[v], |buckets[v]|)
    requires forall e :: e in buckets[v] ==> 0 <= e < |old_| && LowVertex(old_[e]) == v
    ensures var e := buckets[v][b];
      OpenTail(old_, edges + [old_[e]], tail + [e]) && TailFrom(old_, buckets, tail + [e], visited, v, b + 1)
  {
    var list, e := buckets[v], buckets[v][b];
    forall a | 0 <= a < |tail| ensures !Mates(old_[tail[a]], old_[e]) {
      NotMates(old_, buckets, tail[a], visited, v, b);
    }
    var edges', tail' := edges + [old_[e]], tail + [e];
    forall a | 0 <= a < |tail'| ensures edges'[|edges'| - |tail'| + a] == old_[tail'[a]] && HalfOpen(old_[tail'[a]]) {
      if a < |tail| {
        assert edges[|edges| - |tail| + a] == old_[tail[a]];
      }
    }
    assert list[..b + 1] == list[..b] + [e];
  }

  lemma TailNextBucket(old_: seq<Edge>, buckets: Buckets, tail: seq<int>, visited: set<int>, v: int)
    requires v in buckets && TailFrom(old_, buckets, tail, visited, v, |buckets[v]|)
    ensures forall w :: w in buckets ==> TailFrom(old_, buckets, tail, visited + {v}, w, 0)
  {
  }

  /** Copies what is left in one bucket to the end of the array. */
  method CopyBucket(old_: seq<Edge>, ghost buckets: Buckets, v: int, boundaryEdge: seq<int>, edgeArray: seq<Edge>,
                    newEdgeIndex: seq<int>,
                    ghost done0: set<int>, ghost tail0: seq<int>, ghost visited: set<int>)
    returns (edges: seq<Edge>, newIndex: seq<int>, ghost done: set<int>, ghost tail: seq<int>)
    requires v in buckets && v !in visited && boundaryEdge == buckets[v]
    requires OpenEdges(old_, boundaryEdge) && Settled(old_, boundaryEdge, |boundaryEdge|)
    requires forall e :: e in boundaryEdge ==> 0 <= e < |old_| && LowVertex(old_[e]) == v && e !in done0
    requires Welding(old_, edgeArray, newEdgeIndex, done0) && |newEdgeIndex| == |old_|
    requires OpenTail(old_, edgeArray, tail0) && TailFrom(old_, buckets, tail0, visited, v, 0)
    ensures Welding(old_, edges, newIndex, done)
    ensures OpenTail(old_, edges, tail) && TailFrom(old_, buckets, tail, visited, v, |boundaryEdge|)
    ensures forall e :: e in done <==> e in done0 || e in boundaryEdge
  {
    hide Welding;
    hide OpenTail;
    hide TailFrom;
    hide Settled;
    edges, newIndex, done, tail := edgeArray, newEdgeIndex, done0, tail0;
    for b := 0 to |boundaryEdge|
      invariant Welding(old_, edges, newIndex, done) && |newIndex| == |old_|
      invariant OpenTail(old_, edges, tail) && TailFrom(old_, buckets, tail, visited, v, b)
      invariant forall e :: e in done <==> e in done0 || e in boundaryEdge[..b]
    {
      var e := boundaryEdge[b];
      assert boundaryEdge[..b + 1] == boundaryEdge[..b] + [e];
      CopyKeepsWelding(old_, edges, newIndex, done, e);
      TailStep(old_, buckets, edges, tail, visited, v, b);
      newIndex := newIndex[e := |edges|];
      edges := edges + [old_[e]];
      done := done + {e};
      tail := tail + [e];
    }
    assert boundaryEdge[..|boundaryEdge|] == boundaryEdge;
  }

  /** Copies everything left in the buckets to the end of the array. */
  method CopyBuckets(old_: seq<Edge>, buckets: Buckets, edgeArray: seq<Edge>, newEdgeIndex: seq<int>,
                     ghost done0: set<int>)
    returns (edges: seq<Edge>, newIndex: seq<int>, ghost done: set<int>, ghost tail: seq<int>)
    requires Welding(old_, edgeArray, newEdgeIndex, done0) && |newEdgeIndex| == |old_|
    requires Waiting(old_, buckets, done0, |old_|) && AllSettled(old_, buckets, buckets.Keys)
    requires forall k :: 0 <= k < |edgeArray| ==> !edgeArray[k].Boundary()
    ensures Welding(old_, edges, newIndex, done) && forall e :: 0 <= e < |old_| ==> e in done
    ensures OpenTail(old_, edges, tail)
  {
    hide Welding;
    hide Settled;
    hide OpenEdges;
    hide OpenTail;
    hide TailFrom;
    edges, newIndex, done, tail := edgeArray, newEdgeIndex, done0, [];
    NoTail(old_, edgeArray, buckets);
    var cur := buckets.Keys;
    WeldingShape(old_, edges, newIndex, done);
    while cur != {}
      invariant Welding(old_, edges, newIndex, done) && |newIndex| == |old_|
      invariant cur <= buckets.Keys
      invariant OpenTail(old_, edges, tail)
      invariant forall w :: w in buckets ==> TailFrom(old_, buckets, tail, buckets.Keys - cur, w, 0)
      invariant forall e :: 0 <= e < |old_| ==> (e in done <==> e in done0 || LowVertex(old_[e]) !in cur)
      decreases |cur|
    {
      var v := NextKey(cur);
      ghost var before, visited := done, buckets.Keys - cur;
      BucketWaits(old_, buckets, done0, v);
      edges, newIndex, done, tail := CopyBucket(old_, buckets, v, buckets[v], edges, newIndex, done, tail, visited);
      TailNextBucket(old_, buckets, tail, visited, v);
      assert buckets.Keys - (cur - {v}) == visited + {v};
      forall e | 0 <= e < |old_| ensures e in done <==> e in done0 || LowVertex(old_[e]) !in cur - {v} {
        if LowVertex(old_[e]) == v && e !in done0 {
          assert InBucket(buckets, v, e);
        }
      }
      cur := cur - {v};
      WeldingShape(old_, edges, newIndex, done);
    }
  }

  lemma NoTail(old_: seq<Edge>, edges: seq<Edge>, buckets: Buckets)
    requires forall k :: 0 <= k < |edges| ==> !edges[k].Boundary()
    ensures OpenTail(old_, edges, [])
    ensures forall visited, v :: TailFrom(old_, buckets, [], visited, v, 0)
  {
  }

  // ---------- the result ----------

  /** No two open edges of the array could be joined any more. */
  ghost predicate NothingToJoin(edges: seq<Edge>) {
    forall d, e :: 0 <= d < e < |edges| && edges[d].Boundary() && edges[e].Boundary() ==>
      !CouldJoin(edges[d], edges[e])
  }

  lemma OpenTailDone(old_: seq<Edge>, edges: seq<Edge>, tail: seq<int>)
    requires OpenTail(old_, edges, tail)
    ensures NothingToJoin(edges) && BoundaryLast(edges)
  {
    var m := |edges| - |tail|;
    forall k | m <= k < |edges| ensures edges[k] == old_[tail[k - m]] && edges[k].Boundary() {
      assert edges[|edges| - |tail| + (k - m)] == old_[tail[k - m]];
    }
  }

  /** Both directions of a reference lead to the renumbered edge with its arrow and face. */
  lemma RenumberedReference(old_: seq<Edge>, new_: seq<Edge>, newIndex: seq<int>, s: int)
    requires |newIndex| == |old_| && 0 <= IndexOf(s) < |old_| && CarriedOver(old_, new_, newIndex, IndexOf(s))
    ensures var r := Renumbered(s, newIndex);
      && 0 <= IndexOf(r) < |new_|
      && Directed(r, new_) == Directed(s, old_)
      && forall f :: f != NONE && SideIs(s, old_, f) ==> SideIs(r, new_, f)
  {
  }

  ghost predicate AllCarried(old_: seq<Edge>, new_: seq<Edge>, newIndex: seq<int>) {
    |newIndex| == |old_| && |new_| <= MAX_INT && forall e :: 0 <= e < |old_| ==> CarriedOver(old_, new_, newIndex, e)
  }

  lemma WeldedClosed(face: Face, face': Face, old_: seq<Edge>, new_: seq<Edge>, newIndex: seq<int>)
    requires Closed(face, old_) && AllCarried(old_, new_, newIndex) && FaceRenumbered(face, face', newIndex)
    ensures Closed(face', new_)
    ensures forall i :: 0 <= i < 3 ==>
      && 0 <= IndexOf(face.edgeIndex[i]) < |old_| && 0 <= IndexOf(face'.edgeIndex[i]) < |new_|
      && Directed(face'.edgeIndex[i], new_) == Directed(face.edgeIndex[i], old_)
  {
    ClosedReferences(face, old_);
    hide Directed;
    hide CarriedOver;
    hide Closed;
    forall i | 0 <= i < 3
      ensures face'.edgeIndex[i] != NONE && 0 <= IndexOf(face'.edgeIndex[i]) < |new_|
      ensures Directed(face'.edgeIndex[i], new_) == Directed(face.edgeIndex[i], old_) {
      RenumberedReference(old_, new_, newIndex, face.edgeIndex[i]);
    }
    assert Corners(face') == Corners(face);
    ClosedFromReferences(face', new_);
  }

  lemma WeldedAgrees(faces: seq<Face>, faces': seq<Face>, old_: seq<Edge>, new_: seq<Edge>, newIndex: seq<int>)
    requires SlotsAgree(faces, old_) && AllCarried(old_, new_, newIndex)
    requires |faces| == |faces'| && forall f :: 0 <= f < |faces| ==>
               FaceRenumbered(faces[f], faces'[f], newIndex) && NONE !in faces[f].edgeIndex
    ensures SlotsAgree(faces', new_)
  {
    hide CarriedOver;
    forall f, i | 0 <= f < |faces'| && 0 <= i < 3
      ensures 0 <= IndexOf(faces'[f].edgeIndex[i]) < |new_| && SideIs(faces'[f].edgeIndex[i], new_, f) {
      assert FaceRenumbered(faces[f], faces'[f], newIndex);
      assert faces[f].edgeIndex[i] in faces[f].edgeIndex;
      RenumberedReference(old_, new_, newIndex, faces[f].edgeIndex[i]);
    }
  }

  lemma WeldedListed(faces: seq<Face>, faces': seq<Face>, old_: seq<Edge>, new_: seq<Edge>, newIndex: seq<int>,
                     done: set<int>)
    requires SidesListed(faces, old_) && Welding(old_, new_, newIndex, done)
    requires |faces| == |faces'| && forall f :: 0 <= f < |faces| ==> FaceRenumbered(faces[f], faces'[f], newIndex)
    ensures SidesListed(faces', new_)
  {
    forall k | 0 <= k < |new_|
      ensures new_[k].forward != NONE ==> 0 <= new_[k].forward < |faces'| && k in faces'[new_[k].forward].edgeIndex
      ensures new_[k].backward != NONE ==>
                0 <= new_[k].backward < |faces'| && Flip(k) in faces'[new_[k].backward].edgeIndex
    {
      assert HasSource(old_, new_, newIndex, done, k);
      if new_[k].forward != NONE {
        var s :| SideFrom(old_, newIndex, done, s, k, new_[k].forward);
      }
      if new_[k].backward != NONE {
        var s :| SideFrom(old_, newIndex, done, s, Flip(k), new_[k].backward);
      }
    }
  }

  /** Faces and edges still refer to each other after welding. */
  lemma WeldedLinked(faces: seq<Face>, faces': seq<Face>, old_: seq<Edge>, new_: seq<Edge>, newIndex: seq<int>,
                     done: set<int>)
    requires Linked(faces, old_) && Welding(old_, new_, newIndex, done) && AllCarried(old_, new_, newIndex)
    requires |faces| == |faces'| && forall f :: 0 <= f < |faces| ==> FaceRenumbered(faces[f], faces'[f], newIndex)
    ensures Linked(faces', new_)
  {
    hide Slots;
    hide CarriedOver;
    forall f | 0 <= f < |faces| ensures Closed(faces'[f], new_) && NONE !in faces[f].edgeIndex {
      assert Closed(faces[f], old_);
      WeldedClosed(faces[f], faces'[f], old_, new_, newIndex);
    }
    hide Closed;
    WeldedAgrees(faces, faces', old_, new_, newIndex);
    WeldedListed(faces, faces', old_, new_, newIndex, done);
  }

  ghost predicate VertexRenumbered(vertex: Vertex, vertex': Vertex, newIndex: seq<int>) {
    && vertex'.faceIndex == vertex.faceIndex
    && |vertex'.edgeIndex| == |vertex.edgeIndex|
    && forall i :: 0 <= i < |vertex.edgeIndex| ==>
         0 <= IndexOf(vertex.edgeIndex[i]) < |newIndex|
         && vertex'.edgeIndex[i] == Renumbered(vertex.edgeIndex[i], newIndex)
  }

  /** The references at each vertex are still exactly those that leave it. */
  lemma WeldedVertex(faces: seq<Face>, faces': seq<Face>, old_: seq<Edge>, new_: seq<Edge>, newIndex: seq<int>,
                     done: set<int>,
                     vertex: Vertex, vertex': Vertex, v: int)
    requires Welding(old_, new_, newIndex, done) && AllCarried(old_, new_, newIndex)
    requires VertexListsAt(faces, old_, vertex, v) && VertexRenumbered(vertex, vertex', newIndex)
    requires |faces| == |faces'| && forall f :: 0 <= f < |faces| ==> faces'[f].vertexIndex == faces[f].vertexIndex
    ensures VertexListsAt(faces', new_, vertex', v)
  {
    hide CarriedOver;
    forall e | e in vertex'.edgeIndex ensures 0 <= IndexOf(e) < |new_| && Directed(e, new_).0 == v {
      var i :| 0 <= i < |vertex'.edgeIndex| && vertex'.edgeIndex[i] == e;
      assert vertex.edgeIndex[i] in vertex.edgeIndex;
      RenumberedReference(old_, new_, newIndex, vertex.edgeIndex[i]);
    }
    forall e | 0 <= IndexOf(e) < |new_| && Directed(e, new_).0 == v ensures e in vertex'.edgeIndex {
      assert HasSource(old_, new_, newIndex, done, IndexOf(e));
      var d :| d in done && 0 <= d < |old_| && newIndex[d] == IndexOf(e);
      var s := if e >= 0 then d else Flip(d);
      RenumberedReference(old_, new_, newIndex, s);
      assert s in vertex.edgeIndex;
      var i :| 0 <= i < |vertex.edgeIndex| && vertex.edgeIndex[i] == s;
      assert vertex'.edgeIndex[i] == e;
    }
  }

  /** Sends every edge reference at the vertices through the map, twiddling negative ones. */
  method RenumberVertices(mesh: Mesh, newIndex: array<int>)
    requires forall v, i :: 0 <= v < |mesh.vertexArray| && 0 <= i < |mesh.vertexArray[v].edgeIndex| ==>
      0 <= IndexOf(mesh.vertexArray[v].edgeIndex[i]) < newIndex.Length
    modifies mesh`vertexArray
    ensures |mesh.vertexArray| == old(|mesh.vertexArray|)
    ensures forall v :: 0 <= v < |mesh.vertexArray| ==>
              VertexRenumbered(old(mesh.vertexArray[v]), mesh.vertexArray[v], newIndex[..])
  {
    ghost var before, n := mesh.vertexArray, |mesh.vertexArray|;
    for v := 0 to |mesh.vertexArray|
      invariant |mesh.vertexArray| == n
      invariant forall w :: 0 <= w < v ==> VertexRenumbered(before[w], mesh.vertexArray[w], newIndex[..])
      invariant forall w :: v <= w < n ==> mesh.vertexArray[w] == before[w]
    {
      var list := mesh.vertexArray[v].edgeIndex;
      for i := 0 to |list|
        invariant |list| == |before[v].edgeIndex|
        invariant forall k :: 0 <= k < i ==> list[k] == Renumbered(before[v].edgeIndex[k], newIndex[..])
        invariant forall k :: i <= k < |list| ==> list[k] == before[v].edgeIndex[k]
      {
        var e := list[i];
        if e < 0 {
          list := list[i := Flip(newIndex[Flip(e)])];
        } else {
          list := list[i := newIndex[e]];
        }
      }
      mesh.vertexArray := mesh.vertexArray[v := mesh.vertexArray[v].(edgeIndex := list)];
    }
  }

  ghost predicate SameArrows(faces: seq<Face>, edges: seq<Edge>, faces': seq<Face>, edges': seq<Edge>) {
    |faces'| == |faces| && forall f :: 0 <= f < |faces| ==> SameFaceArrows(faces[f], edges, faces'[f], edges')
  }

  /** The face has the same corners, and its references lead along the same arrows. */
  ghost predicate SameFaceArrows(face: Face, edges: seq<Edge>, face': Face, edges': seq<Edge>) {
    && FaceShape(face) && FaceShape(face')
    && face'.vertexIndex == face.vertexIndex
    && forall i :: 0 <= i < 3 ==>
         && 0 <= IndexOf(face.edgeIndex[i]) < |edges| && 0 <= IndexOf(face'.edgeIndex[i]) < |edges'|
         && Directed(face'.edgeIndex[i], edges') == Directed(face.edgeIndex[i], edges)
  }

  ghost predicate AnyFace(edges: seq<Edge>) {
    forall e :: 0 <= e < |edges| ==> edges[e].forward != NONE || edges[e].backward != NONE
  }

  /** Joins open edges that run against each other between the same vertices, until no two are left. */
  method WeldBoundaryEdges(mesh: Mesh)
    requires Linked(mesh.faceArray, mesh.edgeArray) && VertexLists(mesh.faceArray, mesh.edgeArray, mesh.vertexArray)
    requires |mesh.edgeArray| <= MAX_INT && AnyFace(mesh.edgeArray)
    modifies mesh
    ensures Linked(mesh.faceArray, mesh.edgeArray) && VertexLists(mesh.faceArray, mesh.edgeArray, mesh.vertexArray)
    ensures Sides(mesh.edgeArray) == old(Sides(mesh.edgeArray))
    ensures NothingToJoin(mesh.edgeArray) && BoundaryLast(mesh.edgeArray)
    ensures SameArrows(old(mesh.faceArray), old(mesh.edgeArray), mesh.faceArray, mesh.edgeArray)
    ensures |mesh.vertexArray| == old(|mesh.vertexArray|)
    ensures forall v :: 0 <= v < |mesh.vertexArray| ==>
              mesh.vertexArray[v].faceIndex == old(mesh.vertexArray[v].faceIndex)
  {
    hide *;
    ghost var faces, vertices := mesh.faceArray, mesh.vertexArray;
    var oldEdgeArray := mesh.edgeArray;
    AnyFaceMeans(oldEdgeArray);
    var buckets, edges, newEdgeIndex, done := SplitEdges(oldEdgeArray);
    buckets, edges, newEdgeIndex, done := PairBuckets(oldEdgeArray, buckets, edges, newEdgeIndex, done);
    WeldingShape(oldEdgeArray, edges, newEdgeIndex, done);
    ghost var tail;
    edges, newEdgeIndex, done, tail := CopyBuckets(oldEdgeArray, buckets, edges, newEdgeIndex, done);
    mesh.edgeArray := edges;
    OpenTailDone(oldEdgeArray, edges, tail);
    WeldingDone(oldEdgeArray, edges, newEdgeIndex, done);
    ReferencesInRange(faces, oldEdgeArray, vertices);
    var newIndex := new int[|newEdgeIndex|](i requires 0 <= i < |newEdgeIndex| => newEdgeIndex[i]);
    assert newIndex[..] == newEdgeIndex;
    mesh.RenumberFaces(newIndex);
    RenumberVertices(mesh, newIndex);
    WeldedLinked(faces, mesh.faceArray, oldEdgeArray, edges, newEdgeIndex, done);
    WeldedVertices(faces, mesh.faceArray, oldEdgeArray, edges, newEdgeIndex, done, vertices, mesh.vertexArray);
    WeldedArrows(faces, mesh.faceArray, oldEdgeArray, edges, newEdgeIndex);
  }

  lemma AnyFaceMeans(edges: seq<Edge>)
    requires AnyFace(edges)
    ensures forall e :: 0 <= e < |edges| ==> edges[e].forward != NONE || edges[e].backward != NONE
  {
  }

  lemma WeldingDone(old_: seq<Edge>, new_: seq<Edge>, newIndex: seq<int>, done: set<int>)
    requires Welding(old_, new_, newIndex, done) && |old_| <= MAX_INT
    requires forall e :: 0 <= e < |old_| ==> e in done
    ensures AllCarried(old_, new_, newIndex) && Sides(new_) == Sides(old_) && |newIndex| == |old_|
  {
    SidesOfAll(old_, done, |old_|);
    assert old_[..|old_|] == old_;
    AtMost(done, |old_|);
  }

  lemma {:induction false} AtMost(s: set<int>, n: nat)
    requires forall e :: e in s ==> 0 <= e < n
    ensures |s| <= n
  {
    if n > 0 {
      AtMost(s - {n - 1}, n - 1);
      if n - 1 in s {
        assert s == (s - {n - 1}) + {n - 1};
      } else {
        assert s == s - {n - 1};
      }
    } else {
      SomeKey(s);
    }
  }

  lemma ReferencesInRange(faces: seq<Face>, edges: seq<Edge>, vertices: seq<Vertex>)
    requires Linked(faces, edges) && VertexLists(faces, edges, vertices)
    ensures AllInRange(faces, |edges|)
    ensures forall v, i :: 0 <= v < |vertices| && 0 <= i < |vertices[v].edgeIndex| ==>
              0 <= IndexOf(vertices[v].edgeIndex[i]) < |edges|
  {
    LinkedInRange(faces, edges);
    forall v, i | 0 <= v < |vertices| && 0 <= i < |vertices[v].edgeIndex|
      ensures 0 <= IndexOf(vertices[v].edgeIndex[i]) < |edges|
    {
      assert VertexListsAt(faces, edges, vertices[v], v);
      assert vertices[v].edgeIndex[i] in vertices[v].edgeIndex;
    }
  }

  lemma WeldedVertices(faces: seq<Face>, faces': seq<Face>, old_: seq<Edge>, new_: seq<Edge>, newIndex: seq<int>,
                       done: set<int>,
                       vertices: seq<Vertex>, vertices': seq<Vertex>)
    requires Welding(old_, new_, newIndex, done) && AllCarried(old_, new_, newIndex)
             && VertexLists(faces, old_, vertices)
    requires |faces| == |faces'| && forall f :: 0 <= f < |faces| ==> FaceRenumbered(faces[f], faces'[f], newIndex)
    requires |vertices| == |vertices'| && forall v :: 0 <= v < |vertices| ==>
               VertexRenumbered(vertices[v], vertices'[v], newIndex)
    ensures VertexLists(faces', new_, vertices')
    ensures forall v :: 0 <= v < |vertices'| ==> vertices'[v].faceIndex == vertices[v].faceIndex
  {
    hide CarriedOver;
    assert forall f :: 0 <= f < |faces| ==> FaceRenumbered(faces[f], faces'[f], newIndex);
    assert forall f :: 0 <= f < |faces| ==> faces'[f].vertexIndex == faces[f].vertexIndex;
    forall v | 0 <= v < |vertices'| ensures VertexListsAt(faces', new_, vertices'[v], v) {
      assert VertexListsAt(faces, old_, vertices[v], v);
      WeldedVertex(faces, faces', old_, new_, newIndex, done, vertices[v], vertices'[v], v);
    }
    forall k | 0 <= k < |new_| ensures 0 <= new_[k].start < |vertices'| && 0 <= new_[k].end < |vertices'| {
      assert HasSource(old_, new_, newIndex, done, k);
      var d :| d in done && 0 <= d < |old_| && newIndex[d] == k;
      RenumberedReference(old_, new_, newIndex, d);
      assert Directed(k, new_) == (old_[d].start, old_[d].end);
    }
  }

  lemma WeldedArrows(faces: seq<Face>, faces': seq<Face>, old_: seq<Edge>, new_: seq<Edge>, newIndex: seq<int>)
    requires Linked(faces, old_) && AllCarried(old_, new_, newIndex)
    requires |faces| == |faces'| && forall f :: 0 <= f < |faces| ==> FaceRenumbered(faces[f], faces'[f], newIndex)
    ensures SameArrows(faces, old_, faces', new_)
  {
    hide CarriedOver;
    forall f | 0 <= f < |faces| ensures SameFaceArrows(faces[f], old_, faces'[f], new_) {
      assert Closed(faces[f], old_);
      WeldedClosed(faces[f], faces'[f], old_, new_, newIndex);
    }
  }
}
