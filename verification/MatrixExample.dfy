/** One matrix and its inverse. */
module MatrixExample {
  import opened LinearAlgebra
  import opened GaussJordan

  ghost function Sum(a: Mat, b: Mat, i: nat, j: nat): real
    requires IsMat(a, 2) && IsMat(b, 2) && i < 2 && j < 2
  {
    a[i][0] * b[0][j] + a[i][1] * b[1][j]
  }

  lemma ProductEntry(a: Mat, b: Mat, i: nat, j: nat)
    requires IsMat(a, 2) && IsMat(b, 2) && i < 2 && j < 2
    ensures Product(a, b)[i][j] == Sum(a, b, i, j)
  {
    var c := Column(b, j);
    DotLast(a[i], c, 1);
    DotLast(a[i], c, 2);
    assert Dot(a[i], c, 0) == 0.0 && c[0] == b[0][j] && c[1] == b[1][j];
    hide Dot;
    assert Product(a, b)[i][j] == Dot(a[i], c, 2);
  }

  lemma IdentityTwo()
    ensures Identity(2) == [[1.0, 0.0], [0.0, 1.0]]
  {
    assert Identity(2)[0] == Unit(2, 0) == [1.0, 0.0];
    assert Identity(2)[1] == Unit(2, 1) == [0.0, 1.0];
  }

  lemma IsIdentity(p: Mat)
    requires IsMat(p, 2)
    ensures p == Identity(2) <==> p[0][0] == 1.0 && p[0][1] == 0.0 && p[1][0] == 0.0 && p[1][1] == 1.0
  {
    IdentityTwo();
    hide Identity;
    if p[0][0] == 1.0 && p[0][1] == 0.0 && p[1][0] == 0.0 && p[1][1] == 1.0 {
      SameEntries(p, [[1.0, 0.0], [0.0, 1.0]]);
    }
  }

  lemma TwoByTwo(a: Mat, b: Mat)
    requires IsMat(a, 2) && IsMat(b, 2)
    ensures Product(a, b) == Identity(2)
       <==> Sum(a, b, 0, 0) == 1.0 && Sum(a, b, 0, 1) == 0.0 && Sum(a, b, 1, 0) == 0.0 && Sum(a, b, 1, 1) == 1.0
  {
    hide Sum;
    ProductEntry(a, b, 0, 0);
    ProductEntry(a, b, 0, 1);
    ProductEntry(a, b, 1, 0);
    ProductEntry(a, b, 1, 1);
    IsIdentity(Product(a, b));
    hide Product;
    hide Identity;
  }

  const SOME_MATRIX: Mat := [[1.0, 2.0], [3.0, 4.0]]
  const ITS_INVERSE: Mat := [[-2.0, 1.0], [1.5, -0.5]]

  lemma ItsInverse(b: Mat)
    requires IsMat(b, 2)
    ensures IsInverse(SOME_MATRIX, b) <==> b == ITS_INVERSE
  {
    TwoByTwo(SOME_MATRIX, b);
    TwoByTwo(b, SOME_MATRIX);
    hide Product;
    hide Identity;
    if IsInverse(SOME_MATRIX, b) {
      SameEntries(b, ITS_INVERSE);
    }
  }

  method InvertMatrix() returns (ok: bool, elt: array2<real>)
    ensures ok && elt.Length0 == elt.Length1 == 2
    ensures elt[0, 0] == -2.0 && elt[0, 1] == 1.0 && elt[1, 0] == 1.5 && elt[1, 1] == -0.5
  {
    elt := new real[2, 2];
    elt[0, 0], elt[0, 1], elt[1, 0], elt[1, 1] := 1.0, 2.0, 3.0, 4.0;
    SameEntries(Rows(elt), SOME_MATRIX);
    ItsInverse(ITS_INVERSE);
    hide IsInverse;
    ok := InverseInPlaceGaussJordan(elt);
    ItsInverse(Rows(elt));
  }
}
