/** A box against three planes, one of which it lies wholly in front of. */
module AABoxExample {
  import opened AABoxes
  import opened BitStrings
  import opened ConvexPolygons
  import opened Vectors

  const BOX := AABox(Vector3(0.0, 0.0, 0.0), Vector3(1.0, 2.0, 3.0))
  const ACROSS := Plane(Vector3(1.0, 0.0, 0.0), 0.5)
  const BEHIND := Plane(Vector3(0.0, 1.0, 0.0), -1.0)
  const THROUGH_CORNER := Plane(Vector3(1.0, 2.0, 3.0), 14.0)
  const BEYOND := Plane(Vector3(1.0, 2.0, 3.0), 14.5)

  /** A mask is determined by its bits. */
  lemma {:induction false} SameMask(a: nat, b: nat)
    requires forall p: nat :: TestBit(a, p) <==> TestBit(b, p)
    ensures a == b
    decreases a + b
  {
    assert TestBit(a, 0) <==> TestBit(b, 0);
    if a > 0 || b > 0 {
      forall p: nat
        ensures TestBit(a / 2, p) <==> TestBit(b / 2, p)
      {
        assert TestBit(a, p + 1) <==> TestBit(b, p + 1);
      }
      SameMask(a / 2, b / 2);
    }
  }

  lemma CornerIn(v: nat)
    ensures var c := Corner(BOX, v); 0.0 <= c.x <= 1.0 && 0.0 <= c.y <= 2.0 && 0.0 <= c.z <= 3.0
  {
  }

  lemma Sides(p: Vector3)
    ensures HalfSpaceContains(ACROSS, p) <==> p.x >= 0.5
    ensures HalfSpaceContains(BEHIND, p) <==> p.y >= -1.0
    ensures HalfSpaceContains(THROUGH_CORNER, p) <==> p.x + 2.0 * p.y + 3.0 * p.z >= 14.0
    ensures HalfSpaceContains(BEYOND, p) <==> p.x + 2.0 * p.y + 3.0 * p.z >= 14.5
  {
  }

  lemma AllCorners(v: nat)
    ensures Inside(BEHIND, BOX, v) && !Inside(BEYOND, BOX, v)
  {
    CornerIn(v);
    Sides(Corner(BOX, v));
    hide Corner;
    hide HalfSpaceContains;
  }

  lemma CornersAre()
    ensures Corner(BOX, 0) == Vector3(0.0, 0.0, 0.0) && Corner(BOX, 1) == Vector3(1.0, 0.0, 0.0)
    ensures Corner(BOX, 7) == Vector3(1.0, 2.0, 3.0)
  {
  }

  lemma TwoCorners()
    ensures !Inside(ACROSS, BOX, 0) && Inside(ACROSS, BOX, 1)
    ensures !Inside(THROUGH_CORNER, BOX, 0) && Inside(THROUGH_CORNER, BOX, 7)
  {
    hide Corner;
    hide HalfSpaceContains;
    hide Dot;
    CornersAre();
    Sides(Vector3(0.0, 0.0, 0.0));
    Sides(Vector3(1.0, 0.0, 0.0));
    Sides(Vector3(1.0, 2.0, 3.0));
  }

  lemma SidesOfBox()
    ensures Straddles(ACROSS, BOX) && !Culls(ACROSS, BOX) && !Straddles(BEHIND, BOX) && !Culls(BEHIND, BOX)
    ensures Straddles(THROUGH_CORNER, BOX) && !Culls(THROUGH_CORNER, BOX) && Culls(BEYOND, BOX)
  {
    hide Inside;
    TwoCorners();
    forall v | 0 <= v < 8
      ensures Inside(BEHIND, BOX, v) && !Inside(BEYOND, BOX, v)
    {
      AllCorners(v);
    }
    assert Inside(BEHIND, BOX, 0);
  }

  /** Which of the three lowest bits are set. */
  lemma {:induction false} LowBits(a: nat, p: nat)
    requires a < 8
    ensures TestBit(a, p) <==> if p == 0 then a % 2 == 1 else if p == 1 then a / 2 % 2 == 1 else p == 2 && a >= 4
  {
    if p >= 3 {
      TestBitOfZero(p - 3);
      assert TestBit(a / 2, p - 1) == TestBit(a / 2 / 2, p - 2) == TestBit(a / 2 / 2 / 2, p - 3);
    } else if p == 2 {
      assert TestBit(a / 2, 1) == TestBit(a / 2 / 2, 0);
    }
  }

  /** Planes 0 and 2 are left to test for what is in the box; with the last plane farther out it is culled there, unless
      that plane is masked. */
  method CullBox() returns (culled: bool, plane: int, mask: nat, culledThen: bool, planeThen: int, maskThen: nat,
                            culledMasked: bool)
    ensures !culled && plane == -1 && mask == 5
    ensures culledThen && planeThen == 2 && maskThen == 4
    ensures !culledMasked
  {
    SidesOfBox();
    hide Straddles;
    hide Culls;
    hide TestBit;
    forall a: nat, p: nat | a < 8 {
      LowBits(a, p);
    }
    var near, far := [ACROSS, BEHIND, THROUGH_CORNER], [ACROSS, BEHIND, BEYOND];
    culled, plane, mask := CulledByWithMask(BOX, near, 7);
    assert !culled by {
      assert !CulledAt(near, BOX, 7, 0) && !CulledAt(near, BOX, 7, 1) && !CulledAt(near, BOX, 7, 2);
    }
    SameMask(mask, 5);
    culledThen, planeThen, maskThen := CulledByWithMask(BOX, far, 7);
    assert CulledAt(far, BOX, 7, 2) && !CulledAt(far, BOX, 7, 0) && !CulledAt(far, BOX, 7, 1);
    SameMask(maskThen, 4);
    var planeMasked;
    culledMasked, planeMasked := CulledBy(BOX, far, 3);
    assert !CulledAt(far, BOX, 3, 0) && !CulledAt(far, BOX, 3, 1) && !CulledAt(far, BOX, 3, 2);
  }
}
