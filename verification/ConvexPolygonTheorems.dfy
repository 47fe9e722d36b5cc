/** What cutting a polygon keeps: sides, oriented area, the number of crossings, the shared edge. */
module ConvexPolygonTheorems {
  import opened Vectors
  import opened ConvexPolygons

  // ---------- sides ----------

  /** A crossing lies on its edge and in the plane. */
  lemma MeetLies(plane: Plane, v: seq<Vector3>, i: nat)
    requires i < |v| && Switches(plane, v, i)
    ensures 0.0 <= Fraction(plane, v[i], v[Next(v, i)]) <= 1.0
    ensures Height(plane, Meet(plane, v, i)) == 0.0
  {
    var a, b := v[i], v[Next(v, i)];
    var p, q := Height(plane, a), Height(plane, b);
    HeightOfMix(plane, a, b, Fraction(plane, a, b));
  }

  /** No vertex of the upper part lies below the plane and none of the lower part above it. */
  lemma {:induction false} ClipSides(plane: Plane, v: seq<Vector3>, side: bool, k: nat)
    requires k <= |v|
    ensures forall p :: p in Clip(plane, v, side, k) ==>
              if side then Height(plane, p) >= 0.0 else Height(plane, p) <= 0.0
  {
    if k > 0 {
      ClipSides(plane, v, side, k - 1);
      if Switches(plane, v, k - 1) {
        MeetLies(plane, v, k - 1);
      }
      hide Meet;
      hide Dot;
      var own := WithOwn(plane, v, side, k - 1, Clip(plane, v, side, k - 1));
      assert forall p :: p in own ==>
               p in Clip(plane, v, side, k - 1) || (p == v[k - 1] && HalfSpaceContains(plane, p) == side);
    }
  }

  // ---------- the number of crossings ----------

  /** Any closed polygon crosses any plane an even number of times. */
  lemma {:induction false} CrossingsParity(plane: Plane, v: seq<Vector3>, k: nat)
    requires 0 < k <= |v|
    ensures |Meets(plane, v, k - 1)| % 2 == 0 <==>
              HalfSpaceContains(plane, v[k - 1]) == HalfSpaceContains(plane, v[0])
    ensures k == |v| ==> |Meets(plane, v, k)| % 2 == 0
  {
    hide HalfSpaceContains;
    hide Meet;
    if k > 1 {
      CrossingsParity(plane, v, k - 1);
    }
  }

  // ---------- oriented area ----------

  function Last(s: seq<Vector3>): Vector3
    requires s != []
  {
    s[|s| - 1]
  }

  /** The sum of the cross products of neighbours along an open chain. */
  function Chain(s: seq<Vector3>): Vector3 {
    if |s| < 2 then ORIGIN
    else Add(Chain(s[..|s| - 1]), Cross(s[|s| - 2], s[|s| - 1]))
  }

  /** The same sum around the closed polygon: twice its oriented area for a polygon in a plane. */
  function Around(s: seq<Vector3>): Vector3 {
    if s == [] then ORIGIN else Add(Chain(s), Cross(Last(s), s[0]))
  }

  lemma ChainAppend(s: seq<Vector3>, p: Vector3)
    ensures Chain(s + [p]) == if s == [] then ORIGIN else Add(Chain(s), Cross(Last(s), p))
  {
    hide Cross;
    assert (s + [p])[..|s|] == s;
  }

  lemma CrossOpposite(a: Vector3, b: Vector3)
    ensures Add(Cross(a, b), Cross(b, a)) == ORIGIN
    ensures Cross(a, a) == ORIGIN
  {
  }

  /** One side of the cut after vertex k - 1 has been placed. */
  function Trace(plane: Plane, v: seq<Vector3>, side: bool, k: nat): seq<Vector3>
    requires 0 < k <= |v|
  {
    WithOwn(plane, v, side, k - 1, Clip(plane, v, side, k - 1))
  }

  ghost predicate SameArea(s: seq<Vector3>, o: seq<Vector3>, w: seq<Vector3>, m: seq<Vector3>) {
    Add(Chain(s), Chain(o)) == Add(Chain(w), Chain(m))
  }

  lemma SameAreaCommutes(s: seq<Vector3>, o: seq<Vector3>, w: seq<Vector3>, m: seq<Vector3>)
    ensures SameArea(s, o, w, m) == SameArea(o, s, w, m)
  {
  }

  /** The cross products of both traces are those of the vertices seen and of the crossings. */
  ghost predicate Balanced(plane: Plane, v: seq<Vector3>, k: nat)
    requires 0 < k <= |v|
  {
    SameArea(Trace(plane, v, true, k), Trace(plane, v, false, k), v[..k], Meets(plane, v, k - 1))
  }

  /** A part that ends with a vertex of its own, or else with the last crossing. */
  ghost predicate EndsAt(s: seq<Vector3>, own: bool, p: Vector3, m: seq<Vector3>) {
    if own then s != [] && Last(s) == p
    else if m == [] then s == [] else s != [] && Last(s) == Last(m)
  }

  /** A part that begins with a vertex of its own, or else with the first crossing. */
  ghost predicate BeginsAt(s: seq<Vector3>, own: bool, p: Vector3, m: seq<Vector3>) {
    if own then s != [] && s[0] == p
    else if m == [] then s == [] else s != [] && s[0] == m[0]
  }

  /** Each trace ends at the last vertex if that lies on its side, and begins at the first one if that does. */
  ghost predicate Ends(plane: Plane, v: seq<Vector3>, side: bool, k: nat)
    requires 0 < k <= |v|
  {
    var s, m := Trace(plane, v, side, k), Meets(plane, v, k - 1);
    && EndsAt(s, HalfSpaceContains(plane, v[k - 1]) == side, v[k - 1], m)
    && BeginsAt(s, HalfSpaceContains(plane, v[0]) == side, v[0], m)
  }

  lemma {:induction false} TraceEnds(plane: Plane, v: seq<Vector3>, side: bool, k: nat)
    requires 0 < k <= |v|
    ensures Ends(plane, v, side, k)
  {
    hide HalfSpaceContains;
    hide Meet;
    if k > 1 {
      TraceEnds(plane, v, side, k - 1);
      assert Next(v, k - 2) == k - 1;
    }
  }

  /** The two traces before a step: the one that ends with the last vertex and the other one. */
  ghost predicate Before(s: seq<Vector3>, o: seq<Vector3>, m: seq<Vector3>, w: seq<Vector3>) {
    && w != [] && EndsAt(s, true, Last(w), m) && EndsAt(o, false, Last(w), m)
    && SameArea(s, o, w, m)
  }

  lemma SwitchBalances(s: seq<Vector3>, o: seq<Vector3>, m: seq<Vector3>, w: seq<Vector3>, x: Vector3, b: Vector3)
    requires Before(s, o, m, w) && Add(Cross(Last(w), x), Cross(x, b)) == Cross(Last(w), b)
    ensures SameArea(s + [x], o + [x] + [b], w + [b], m + [x])
  {
    hide Cross;
    hide Chain;
    ChainAppend(s, x);
    ChainAppend(o, x);
    ChainAppend(o + [x], b);
    ChainAppend(m, x);
    ChainAppend(w, b);
    if m == [] {
      ChainAppend([], x);
    }
  }

  lemma SameSideBalances(s: seq<Vector3>, o: seq<Vector3>, m: seq<Vector3>, w: seq<Vector3>, b: Vector3)
    requires Before(s, o, m, w)
    ensures SameArea(s + [b], o, w + [b], m)
  {
    hide Cross;
    hide Chain;
    ChainAppend(s, b);
    ChainAppend(w, b);
  }

  lemma SwitchCloses(s: seq<Vector3>, o: seq<Vector3>, m: seq<Vector3>, w: seq<Vector3>, x: Vector3)
    requires Before(s, o, m, w) && Add(Cross(Last(w), x), Cross(x, w[0])) == Cross(Last(w), w[0])
    requires BeginsAt(s, false, w[0], m) && BeginsAt(o, true, w[0], m)
    ensures Add(Around(s + [x]), Around(o + [x])) == Add(Around(w), Around(m + [x]))
  {
    hide Cross;
    hide Chain;
    ChainAppend(s, x);
    ChainAppend(o, x);
    ChainAppend(m, x);
  }

  lemma SameSideCloses(s: seq<Vector3>, o: seq<Vector3>, m: seq<Vector3>, w: seq<Vector3>)
    requires Before(s, o, m, w) && BeginsAt(s, true, w[0], m) && BeginsAt(o, false, w[0], m)
    ensures Add(Around(s), Around(o)) == Add(Around(w), Around(m))
  {
    hide Cross;
    hide Chain;
  }

  lemma EndsBefore(plane: Plane, v: seq<Vector3>, k: nat, above: bool)
    requires 0 < k <= |v| && Balanced(plane, v, k) && above == HalfSpaceContains(plane, v[k - 1])
    ensures Before(Trace(plane, v, above, k), Trace(plane, v, !above, k), Meets(plane, v, k - 1), v[..k])
  {
    hide HalfSpaceContains;
    hide Trace;
    hide Meets;
    hide SameArea;
    hide EndsAt;
    hide BeginsAt;
    TraceEnds(plane, v, above, k);
    TraceEnds(plane, v, !above, k);
    assert Last(v[..k]) == v[k - 1];
    SameAreaCommutes(Trace(plane, v, true, k), Trace(plane, v, false, k), v[..k], Meets(plane, v, k - 1));
  }

  lemma FirstBalances(plane: Plane, v: seq<Vector3>)
    requires v != []
    ensures Balanced(plane, v, 1)
  {
    hide HalfSpaceContains;
    assert v[..1] == [v[0]];
  }

  lemma {:induction false} TracesBalance(plane: Plane, v: seq<Vector3>, k: nat)
    requires 0 < k <= |v|
    ensures Balanced(plane, v, k)
  {
    hide HalfSpaceContains;
    hide Meet;
    hide Cross;
    hide SameArea;
    hide Before;
    hide Mix;
    hide Fraction;
    if k == 1 {
      FirstBalances(plane, v);
    } else {
      TracesBalance(plane, v, k - 1);
      EndsBefore(plane, v, k - 1, HalfSpaceContains(plane, v[k - 2]));
      SameAreaCommutes(Trace(plane, v, true, k), Trace(plane, v, false, k), v[..k], Meets(plane, v, k - 1));
      var above := HalfSpaceContains(plane, v[k - 2]);
      var s, o, m := Trace(plane, v, above, k - 1), Trace(plane, v, !above, k - 1), Meets(plane, v, k - 2);
      assert Next(v, k - 2) == k - 1;
      assert v[..k] == v[..k - 1] + [v[k - 1]];
      if Switches(plane, v, k - 2) {
        var x := Meet(plane, v, k - 2);
        MeetSplits(plane, v, k - 2);
        SwitchBalances(s, o, m, v[..k - 1], x, v[k - 1]);
        assert Trace(plane, v, above, k) == s + [x];
        assert Trace(plane, v, !above, k) == o + [x] + [v[k - 1]];
      } else {
        SameSideBalances(s, o, m, v[..k - 1], v[k - 1]);
        assert Trace(plane, v, above, k) == s + [v[k - 1]];
        assert Trace(plane, v, !above, k) == o;
      }
    }
  }

  lemma MeetSplits(plane: Plane, v: seq<Vector3>, i: nat)
    requires i < |v| && Switches(plane, v, i)
    ensures Add(Cross(v[i], Meet(plane, v, i)), Cross(Meet(plane, v, i), v[Next(v, i)])) == Cross(v[i], v[Next(v, i)])
  {
    var j := Next(v, i);
  }

  /** For every polygon and plane, the two parts together have the oriented area of the polygon and
      that of the polygon of crossing points. */
  lemma CutBalancesArea(plane: Plane, v: seq<Vector3>)
    requires v != []
    ensures Add(Around(Clip(plane, v, true, |v|)), Around(Clip(plane, v, false, |v|)))
         == Add(Around(v), Around(Meets(plane, v, |v|)))
  {
    hide HalfSpaceContains;
    hide Meet;
    hide Cross;
    hide Chain;
    var n := |v|;
    TracesBalance(plane, v, n);
    EndsBefore(plane, v, n, HalfSpaceContains(plane, v[n - 1]));
    TraceEnds(plane, v, true, n);
    TraceEnds(plane, v, false, n);
    assert v[..n] == v;
    hide Around;
    var above := HalfSpaceContains(plane, v[n - 1]);
    var s, o, m := Trace(plane, v, above, n), Trace(plane, v, !above, n), Meets(plane, v, n - 1);
    if Switches(plane, v, n - 1) {
      var x := Meet(plane, v, n - 1);
      MeetSplits(plane, v, n - 1);
      SwitchCloses(s, o, m, v, x);
      assert Clip(plane, v, above, n) == s + [x] && Clip(plane, v, !above, n) == o + [x];
    } else {
      SameSideCloses(s, o, m, v);
      assert Clip(plane, v, above, n) == s && Clip(plane, v, !above, n) == o;
    }
  }

  lemma FewAround(m: seq<Vector3>)
    requires |m| <= 2
    ensures Around(m) == ORIGIN
  {
    if |m| == 1 {
      CrossOpposite(m[0], m[0]);
    } else if |m| == 2 {
      CrossOpposite(m[0], m[1]);
      assert m[..1] == [m[0]];
      hide Cross;
      assert Chain(m[..1]) == ORIGIN;
    }
  }

  /** With at most two crossings the oriented area is conserved. */
  lemma CutConservesArea(plane: Plane, v: seq<Vector3>)
    requires v != [] && |Meets(plane, v, |v|)| <= 2
    ensures Add(Around(Clip(plane, v, true, |v|)), Around(Clip(plane, v, false, |v|))) == Around(v)
  {
    CutBalancesArea(plane, v);
    FewAround(Meets(plane, v, |v|));
    hide Meets;
    hide Around;
  }
}
