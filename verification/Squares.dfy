/** Squares and absolute values of reals. */
module Squares {
  function Abs(x: real): real {
    if x < 0.0 then -x else x
  }

  function Square(x: real): real {
    x * x
  }

  lemma PositiveSquare(x: real)
    requires x > 0.0
    ensures Square(x) > 0.0
  {
    assert Square(0.0) == 0.0;
    SquareGrows(x, 0.0);
  }

  lemma SquareSign(x: real)
    ensures Square(x) >= 0.0 && (Square(x) == 0.0 <==> x == 0.0)
  {
    assert Square(0.0) == 0.0;
    SquareOfAbs(x);
    hide Square;
    if Abs(x) > 0.0 {
      PositiveSquare(Abs(x));
    }
  }

  lemma SquareGrows(a: real, b: real)
    requires 0.0 <= b < a
    ensures Square(a) > Square(b)
  {
    var d, s := a - b, a + b;
    assert d * s > 0.0;
    assert a * a - b * b == d * s;
  }

  lemma SquareOfAbs(x: real)
    ensures Square(Abs(x)) == Square(x)
  {
  }

  lemma SquareBound(x: real, r: real)
    requires Square(x) <= Square(r)
    ensures -Abs(r) <= x <= Abs(r)
  {
    hide Square;
    SquareOfAbs(x);
    SquareOfAbs(r);
    if Abs(x) > Abs(r) {
      SquareGrows(Abs(x), Abs(r));
    }
  }
}
