/** Culling axis-aligned boxes against planes, with masks that spare children the planes their parent passed. */
module AABoxes {
  import opened BitStrings
  import opened ConvexPolygons
  import opened Vectors

  datatype AABox = AABox(lo: Vector3, hi: Vector3)

  /** Corners that are in order, as the box constructors demand. */
  predicate Ordered(box: AABox) {
    box.lo.x <= box.hi.x && box.lo.y <= box.hi.y && box.lo.z <= box.hi.z
  }

  /** Corner number v: bits 0 to 2 choose between low and high on the three axes. */
  function Corner(box: AABox, v: nat): Vector3 {
    Vector3(if v % 2 == 1 then box.hi.x else box.lo.x,
            if v / 2 % 2 == 1 then box.hi.y else box.lo.y,
            if v / 4 % 2 == 1 then box.hi.z else box.lo.z)
  }

  predicate Inside(plane: Plane, box: AABox, v: nat) {
    HalfSpaceContains(plane, Corner(box, v))
  }

  /** All corners are in the negative half space. */
  ghost predicate Culls(plane: Plane, box: AABox) {
    forall v :: 0 <= v < 8 ==> !Inside(plane, box, v)
  }

  /** Corners on both sides. */
  ghost predicate Straddles(plane: Plane, box: AABox) {
    (exists v :: 0 <= v < 8 && Inside(plane, box, v)) && (exists v :: 0 <= v < 8 && !Inside(plane, box, v))
  }

  /** Plane p is tested under the mask and culls the box. */
  ghost predicate CulledAt(planes: seq<Plane>, box: AABox, mask: nat, p: nat) {
    p < |planes| && TestBit(mask, p) && Culls(planes[p], box)
  }

  /** The verdict: the first plane that is tested and culls, or -1. */
  ghost predicate Verdict(planes: seq<Plane>, box: AABox, mask: nat, culled: bool, cullingPlane: int) {
    if culled then
      cullingPlane >= 0 && CulledAt(planes, box, mask, cullingPlane)
      && forall p: nat :: p < cullingPlane ==> !CulledAt(planes, box, mask, p)
    else cullingPlane == -1 && forall p: nat :: !CulledAt(planes, box, mask, p)
  }

  /** The planes to test for boxes within: the culling one, or all tested ones that the box straddles. */
  ghost predicate MaskForChildren(planes: seq<Plane>, box: AABox, mask: nat, culled: bool, cullingPlane: int,
                                  childMask: nat) {
    forall p: nat ::
      TestBit(childMask, p) <==>
        if culled then p == cullingPlane else p < |planes| && TestBit(mask, p) && Straddles(planes[p], box)
  }

  // ---------- the two overloads ----------

  /** How many of the first v corners are inside; stops early once there are some on each side. */
  method CountContained(plane: Plane, box: AABox) returns (numContained: nat, v: nat)
    ensures v <= 8 && numContained <= v
    ensures numContained == 0 <==> Culls(plane, box)
    ensures 0 < numContained < v <==> Straddles(plane, box)
  {
    numContained, v := 0, 0;
    while v < 8 && (numContained == v || numContained == 0)
      invariant v <= 8 && numContained <= v
      invariant numContained == 0 <==> forall w :: 0 <= w < v ==> !Inside(plane, box, w)
      invariant numContained == v <==> forall w :: 0 <= w < v ==> Inside(plane, box, w)
    {
      if Inside(plane, box, v) {
        numContained := numContained + 1;
      }
      v := v + 1;
    }
  }

  ghost predicate NoneCulledBefore(planes: seq<Plane>, box: AABox, mask: nat, p: nat) {
    forall q: nat :: q < p ==> !CulledAt(planes, box, mask, q)
  }

  ghost predicate StraddledBefore(planes: seq<Plane>, box: AABox, mask: nat, p: nat, childMask: nat)
    requires p <= |planes|
  {
    forall q: nat :: TestBit(childMask, q) <==> q < p && TestBit(mask, q) && Straddles(planes[q], box)
  }

  lemma EmptyMask(planes: seq<Plane>, box: AABox, mask: nat)
    ensures StraddledBefore(planes, box, mask, 0, 0)
  {
    forall q: nat
      ensures !TestBit(0, q)
    {
      TestBitOfZero(q);
    }
  }

  lemma OnlyBit(p: nat)
    ensures forall q: nat :: TestBit(ShiftLeft(1, p), q) <==> q == p
  {
    forall q: nat
      ensures TestBit(ShiftLeft(1, p), q) <==> q == p
    {
      TestBitOfPower(p, q);
    }
  }

  lemma MaskGrows(planes: seq<Plane>, box: AABox, mask: nat, p: nat, childMask: nat)
    requires p < |planes| && StraddledBefore(planes, box, mask, p, childMask)
    requires TestBit(mask, p) && Straddles(planes[p], box)
    ensures StraddledBefore(planes, box, mask, p + 1, Or(childMask, ShiftLeft(1, p)))
  {
    hide Straddles;
    forall q: nat
      ensures TestBit(Or(childMask, ShiftLeft(1, p)), q) <==> TestBit(childMask, q) || q == p
    {
      SetBit(childMask, p, q);
    }
    hide TestBit;
    hide Or;
  }

  method CulledByWithMask(box: AABox, planes: seq<Plane>, testMask: nat)
    returns (culled: bool, cullingPlane: int, childMask: nat)
    requires |planes| < 31
    ensures Verdict(planes, box, testMask, culled, cullingPlane)
    ensures MaskForChildren(planes, box, testMask, culled, cullingPlane, childMask)
  {
    hide TestBit;
    hide Or;
    hide ShiftLeft;
    hide Straddles;
    hide Culls;
    var inMask := testMask;
    childMask := 0;
    EmptyMask(planes, box, testMask);
    for p := 0 to |planes|
      invariant inMask == ShiftRight(testMask, p)
      invariant NoneCulledBefore(planes, box, testMask, p)
      invariant StraddledBefore(planes, box, testMask, p, childMask)
    {
      LowestBit(testMask, p);
      if inMask % 2 != 0 {
        var numContained, v := CountContained(planes[p], box);
        if numContained == 0 {
          OnlyBit(p);
          childMask := ShiftLeft(1, p);
          return true, p, childMask;
        } else if numContained < v {
          MaskGrows(planes, box, testMask, p, childMask);
          childMask := Or(childMask, ShiftLeft(1, p));
        }
      }
      inMask := inMask / 2;
    }
    return false, -1, childMask;
  }

  method CulledBy(box: AABox, planes: seq<Plane>, testMask: nat) returns (culled: bool, cullingPlane: int)
    requires |planes| < 31
    ensures Verdict(planes, box, testMask, culled, cullingPlane)
  {
    hide TestBit;
    var inMask := testMask;
    for p := 0 to |planes|
      invariant inMask == ShiftRight(testMask, p)
      invariant NoneCulledBefore(planes, box, testMask, p)
    {
      LowestBit(testMask, p);
      if inMask % 2 != 0 {
        var all, v := true, 0;
        while v < 8 && all
          invariant 0 <= v <= 8 && all <==> forall w :: 0 <= w < v ==> !Inside(planes[p], box, w)
        {
          all := !Inside(planes[p], box, v);
          v := v + 1;
        }
        if all {
          return true, p;
        }
      }
      inMask := inMask / 2;
    }
    return false, -1;
  }

  // ---------- what a verdict says of the box ----------

  predicate InBox(box: AABox, q: Vector3) {
    && box.lo.x <= q.x <= box.hi.x && box.lo.y <= q.y <= box.hi.y && box.lo.z <= q.z <= box.hi.z
  }

  /** Both overloads come to the same verdict. */
  lemma VerdictIsUnique(planes: seq<Plane>, box: AABox, mask: nat, culled1: bool, p1: int, culled2: bool, p2: int)
    requires Verdict(planes, box, mask, culled1, p1) && Verdict(planes, box, mask, culled2, p2)
    ensures culled1 == culled2 && p1 == p2
  {
    hide CulledAt;
    assert culled1 ==> CulledAt(planes, box, mask, p1);
    assert culled2 ==> CulledAt(planes, box, mask, p2);
  }

  lemma ProductAtMost(n: real, x: real, c: real)
    requires if n >= 0.0 then x <= c else c <= x
    ensures n * x <= n * c
  {
    var d := c - x;
    assert n * d >= 0.0;
    assert n * d == n * c - n * x;
  }

  /** From a to b no axis runs against n. */
  predicate Along(n: Vector3, a: Vector3, b: Vector3) {
    && (if n.x >= 0.0 then a.x <= b.x else b.x <= a.x)
    && (if n.y >= 0.0 then a.y <= b.y else b.y <= a.y)
    && (if n.z >= 0.0 then a.z <= b.z else b.z <= a.z)
  }

  lemma DotAtMost(n: Vector3, a: Vector3, b: Vector3)
    requires Along(n, a, b)
    ensures Dot(n, a) <= Dot(n, b)
  {
    ProductAtMost(n.x, a.x, b.x);
    ProductAtMost(n.y, a.y, b.y);
    ProductAtMost(n.z, a.z, b.z);
  }

  function Choice(x: bool, y: bool, z: bool): (v: nat)
    ensures v < 8 && (v % 2 == 1 <==> x) && (v / 2 % 2 == 1 <==> y) && (v / 4 % 2 == 1 <==> z)
  {
    (if x then 1 else 0) + (if y then 2 else 0) + (if z then 4 else 0)
  }

  /** The corners that are lowest and highest over a plane bound every point of the box. */
  lemma ExtremeCorners(box: AABox, n: Vector3, q: Vector3)
    requires InBox(box, q)
    ensures Dot(n, Corner(box, Choice(n.x < 0.0, n.y < 0.0, n.z < 0.0))) <= Dot(n, q)
    ensures Dot(n, q) <= Dot(n, Corner(box, Choice(n.x >= 0.0, n.y >= 0.0, n.z >= 0.0)))
  {
    var low := Corner(box, Choice(n.x < 0.0, n.y < 0.0, n.z < 0.0));
    var high := Corner(box, Choice(n.x >= 0.0, n.y >= 0.0, n.z >= 0.0));
    assert Along(n, low, q) && Along(n, q, high);
    hide *;
    DotAtMost(n, low, q);
    DotAtMost(n, q, high);
  }

  /** A plane culls a box exactly when the whole box lies in its negative half space. */
  lemma CulledIsOutside(plane: Plane, box: AABox)
    requires Ordered(box)
    ensures Culls(plane, box) <==> forall q :: InBox(box, q) ==> !HalfSpaceContains(plane, q)
  {
    var n := plane.normal;
    if Culls(plane, box) {
      forall q | InBox(box, q)
        ensures !HalfSpaceContains(plane, q)
      {
        ExtremeCorners(box, n, q);
        assert !Inside(plane, box, Choice(n.x >= 0.0, n.y >= 0.0, n.z >= 0.0));
      }
    } else {
      var v :| 0 <= v < 8 && Inside(plane, box, v);
    }
  }

  lemma AllInside(plane: Plane, box: AABox, q: Vector3)
    requires InBox(box, q) && !Culls(plane, box) && !Straddles(plane, box)
    ensures HalfSpaceContains(plane, q)
  {
    var n := plane.normal;
    ExtremeCorners(box, n, q);
    assert Inside(plane, box, Choice(n.x < 0.0, n.y < 0.0, n.z < 0.0));
  }

  // ---------- masks down a hierarchy ----------

  predicate Within(child: AABox, parent: AABox) {
    && parent.lo.x <= child.lo.x && parent.lo.y <= child.lo.y && parent.lo.z <= child.lo.z
    && child.hi.x <= parent.hi.x && child.hi.y <= parent.hi.y && child.hi.z <= parent.hi.z
  }

  ghost predicate IsCulled(planes: seq<Plane>, box: AABox, mask: nat) {
    exists p: nat :: CulledAt(planes, box, mask, p)
  }

  /** A plane that culls the parent culls the child; one that has the parent wholly inside does not. */
  lemma ChildOfParent(plane: Plane, parent: AABox, child: AABox)
    requires Ordered(child) && Within(child, parent)
    ensures Culls(plane, parent) ==> Culls(plane, child)
    ensures !Culls(plane, parent) && !Straddles(plane, parent) ==> !Culls(plane, child)
  {
    if Culls(plane, parent) {
      assert Ordered(parent);
      CulledIsOutside(plane, parent);
      CulledIsOutside(plane, child);
    } else if !Straddles(plane, parent) {
      AllInside(plane, parent, Corner(child, 0));
      assert Inside(plane, child, 0);
    }
  }

  /** Testing a child with the mask returned for the parent gives the verdict of the parent's own mask, and the
      same culling plane unless the parent was culled already. */
  lemma MaskInheritance(planes: seq<Plane>, parent: AABox, child: AABox, mask: nat,
                        culled: bool, cullingPlane: int, childMask: nat)
    requires Ordered(child) && Within(child, parent)
    requires Verdict(planes, parent, mask, culled, cullingPlane)
    requires MaskForChildren(planes, parent, mask, culled, cullingPlane, childMask)
    ensures IsCulled(planes, child, childMask) <==> IsCulled(planes, child, mask)
    ensures !culled ==> forall p: nat :: CulledAt(planes, child, childMask, p) <==> CulledAt(planes, child, mask, p)
  {
    hide Culls;
    hide Straddles;
    hide TestBit;
    if culled {
      ChildOfParent(planes[cullingPlane], parent, child);
      assert CulledAt(planes, child, mask, cullingPlane) && CulledAt(planes, child, childMask, cullingPlane);
    } else {
      forall p: nat
        ensures CulledAt(planes, child, childMask, p) <==> CulledAt(planes, child, mask, p)
      {
        if p < |planes| && TestBit(mask, p) {
          assert !CulledAt(planes, parent, mask, p);
          ChildOfParent(planes[p], parent, child);
        }
      }
    }
  }

  /** Boxes nested one in the other, each tested with the mask returned for the one around it. */
  ghost predicate Descent(planes: seq<Plane>, boxes: seq<AABox>, masks: seq<nat>, verdicts: seq<(bool, int)>) {
    && |boxes| == |masks| == |verdicts|
    && (forall i :: 0 <= i < |boxes| ==>
          Ordered(boxes[i]) && Verdict(planes, boxes[i], masks[i], verdicts[i].0, verdicts[i].1))
    && (forall i :: 0 < i < |boxes| ==>
          && Within(boxes[i], boxes[i - 1])
          && MaskForChildren(planes, boxes[i - 1], masks[i - 1], verdicts[i - 1].0, verdicts[i - 1].1, masks[i]))
  }

  /** However deep the hierarchy, no verdict changes by inheriting masks. */
  lemma {:induction false} DescentKeepsVerdicts(planes: seq<Plane>, boxes: seq<AABox>, masks: seq<nat>,
                                                verdicts: seq<(bool, int)>, i: nat, box: AABox)
    requires Descent(planes, boxes, masks, verdicts) && i < |boxes| && Ordered(box) && Within(box, boxes[i])
    ensures IsCulled(planes, box, masks[i]) <==> IsCulled(planes, box, masks[0])
    decreases i
  {
    hide IsCulled;
    hide Verdict;
    hide MaskForChildren;
    if i > 0 {
      DescentKeepsVerdicts(planes, boxes, masks, verdicts, i - 1, box);
      MaskInheritance(planes, boxes[i - 1], box, masks[i - 1], verdicts[i - 1].0, verdicts[i - 1].1, masks[i]);
    }
  }
}
