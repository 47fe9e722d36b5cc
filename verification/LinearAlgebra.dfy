/** Vectors and square matrices over the reals, as values. */
module LinearAlgebra {

  type Vec = seq<real>
  type Mat = seq<seq<real>>

  ghost predicate IsMat(a: Mat, n: nat) {
    |a| == n && forall i :: 0 <= i < n ==> |a[i]| == n
  }

  /** The sum of the first k products. */
  ghost function Dot(a: Vec, b: Vec, k: nat): real
    requires k <= |a| && k <= |b|
  {
    if k == 0 then 0.0 else Dot(a, b, k - 1) + a[k - 1] * b[k - 1]
  }

  ghost function Apply(a: Mat, x: Vec): (y: Vec)
    requires IsMat(a, |x|)
    ensures |y| == |x|
  {
    seq(|x|, i requires 0 <= i < |x| => Dot(a[i], x, |x|))
  }

  ghost function Column(a: Mat, j: nat): Vec
    requires IsMat(a, |a|) && j < |a|
  {
    seq(|a|, i requires 0 <= i < |a| => a[i][j])
  }

  ghost function Unit(n: nat, j: nat): Vec {
    seq(n, i => if i == j then 1.0 else 0.0)
  }

  ghost function Zero(n: nat): Vec {
    seq(n, _ => 0.0)
  }

  ghost function Identity(n: nat): Mat {
    seq(n, i requires 0 <= i => Unit(n, i))
  }

  ghost function Product(a: Mat, b: Mat): (c: Mat)
    requires IsMat(a, |a|) && IsMat(b, |a|)
    ensures IsMat(c, |a|)
  {
    var n := |a|;
    seq(n, i requires 0 <= i < n => seq(n, j requires 0 <= j < n => Dot(a[i], Column(b, j), n)))
  }

  ghost predicate IsInverse(a: Mat, b: Mat)
    requires IsMat(a, |a|) && IsMat(b, |a|)
  {
    Product(a, b) == Identity(|a|) && Product(b, a) == Identity(|a|)
  }

  ghost predicate Invertible(a: Mat)
    requires IsMat(a, |a|)
  {
    exists b: Mat :: IsMat(b, |a|) && IsInverse(a, b)
  }

  /** a - b * s */
  ghost function Combination(a: Vec, b: Vec, s: real): (c: Vec)
    requires |a| == |b|
    ensures |c| == |a|
  {
    seq(|a|, i requires 0 <= i < |a| => a[i] - b[i] * s)
  }

  ghost function Multiple(a: Vec, s: real): (c: Vec)
    ensures |c| == |a|
  {
    seq(|a|, i requires 0 <= i < |a| => a[i] * s)
  }

  // ---------- sums ----------

  lemma {:induction false} DotCombination(a: Vec, b: Vec, w: Vec, s: real, k: nat)
    requires |a| == |b| && k <= |a| && k <= |w|
    ensures Dot(Combination(a, b, s), w, k) == Dot(a, w, k) - s * Dot(b, w, k)
  {
    if k > 0 {
      DotCombination(a, b, w, s, k - 1);
      assert Combination(a, b, s)[k - 1] * w[k - 1] == a[k - 1] * w[k - 1] - s * (b[k - 1] * w[k - 1]);
    }
  }

  lemma {:induction false} DotSum(w: Vec, a: Vec, b: Vec, c: Vec, s: real, k: nat)
    requires k <= |w| && k <= |a| && k <= |b| && k <= |c|
    requires forall i :: 0 <= i < k ==> c[i] == a[i] + b[i] * s
    ensures Dot(w, c, k) == Dot(w, a, k) + Dot(w, b, k) * s
  {
    if k > 0 {
      DotSum(w, a, b, c, s, k - 1);
      assert w[k - 1] * c[k - 1] == w[k - 1] * a[k - 1] + (w[k - 1] * b[k - 1]) * s;
    }
  }

  lemma {:induction false} DotMultiple(a: Vec, w: Vec, s: real, k: nat)
    requires k <= |a| && k <= |w|
    ensures Dot(Multiple(a, s), w, k) == s * Dot(a, w, k)
  {
    if k > 0 {
      DotMultiple(a, w, s, k - 1);
      assert Multiple(a, s)[k - 1] * w[k - 1] == s * (a[k - 1] * w[k - 1]);
    }
  }

  lemma {:induction false} DotReplaceBeyond(a: Vec, b: Vec, p: nat, v: real, w: real, k: nat)
    requires k <= p < |a| && p < |b|
    ensures Dot(a[p := v], b[p := w], k) == Dot(a, b, k)
  {
    if k > 0 {
      DotReplaceBeyond(a, b, p, v, w, k - 1);
    }
  }

  /** Replacing one position of both factors changes the sum by the change of that product. */
  lemma {:induction false} DotReplace(a: Vec, b: Vec, p: nat, v: real, w: real, k: nat)
    requires p < k <= |a| && k <= |b|
    ensures Dot(a[p := v], b[p := w], k) == Dot(a, b, k) + v * w - a[p] * b[p]
  {
    if p < k - 1 {
      DotReplace(a, b, p, v, w, k - 1);
    } else {
      DotReplaceBeyond(a, b, p, v, w, p);
    }
  }

  lemma DotSwap(a: Vec, b: Vec, p: nat, q: nat, k: nat)
    requires p < k && q < k && k == |a| && k == |b|
    ensures Dot(Swapped(a, p, q), Swapped(b, p, q), k) == Dot(a, b, k)
  {
    DotReplace(a, b, p, a[q], b[q], k);
    DotReplace(a[p := a[q]], b[p := b[q]], q, a[p], b[p], k);
  }

  ghost function Swapped<T>(s: seq<T>, p: nat, q: nat): seq<T>
    requires p < |s| && q < |s|
  {
    s[p := s[q]][q := s[p]]
  }

  lemma {:induction false} DotUnit(a: Vec, j: nat, n: nat, k: nat)
    requires k <= |a| && k <= n
    ensures Dot(a, Unit(n, j), k) == if j < k then a[j] else 0.0
  {
    if k > 0 {
      DotUnit(a, j, n, k - 1);
    }
  }

  lemma {:induction false} DotZero(a: Vec, n: nat, k: nat)
    requires k <= |a| && k <= n
    ensures Dot(a, Zero(n), k) == 0.0
  {
    if k > 0 {
      DotZero(a, n, k - 1);
    }
  }

  lemma ApplyUnit(a: Mat, j: nat)
    requires IsMat(a, |a|) && j < |a|
    ensures Apply(a, Unit(|a|, j)) == Column(a, j)
  {
    forall i | 0 <= i < |a| ensures Apply(a, Unit(|a|, j))[i] == Column(a, j)[i] {
      DotUnit(a[i], j, |a|, |a|);
    }
  }

  /** A matrix that undoes another on the unit vectors multiplies with it to the identity. */
  lemma ProductIsIdentity(a: Mat, b: Mat)
    requires IsMat(a, |a|) && IsMat(b, |a|)
    requires forall j: nat :: j < |a| ==> Apply(b, Column(a, j)) == Unit(|a|, j)
    ensures Product(b, a) == Identity(|a|)
  {
    var n := |a|;
    var p, id := Product(b, a), Identity(n);
    assert IsMat(id, n);
    forall i, j | 0 <= i < n && 0 <= j < n ensures p[i][j] == id[i][j] {
      assert p[i][j] == Apply(b, Column(a, j))[i];
    }
    SameEntries(p, id);
  }

  lemma SameEntries(a: Mat, b: Mat)
    requires IsMat(a, |a|) && IsMat(b, |a|)
    requires forall i, j :: 0 <= i < |a| && 0 <= j < |a| ==> a[i][j] == b[i][j]
    ensures a == b
  {
    forall i | 0 <= i < |a| ensures a[i] == b[i] {
    }
  }

  /** Summation order: the first m columns of the product, applied to x. */
  lemma {:induction false} DotOfProduct(a: Mat, b: Mat, x: Vec, i: nat, m: nat)
    requires IsMat(a, |x|) && IsMat(b, |x|) && i < |x| && m <= |x|
    ensures Dot(Product(a, b)[i], x, m) == Dot(a[i], PartialApply(b, x, m), |x|)
  {
    var n := |x|;
    if m == 0 {
      assert PartialApply(b, x, 0) == Zero(n);
      DotZero(a[i], n, n);
    } else {
      DotOfProduct(a, b, x, i, m - 1);
      PartialStep(a[i], b, x, m);
    }
  }

  /** b applied to the first m entries of x. */
  ghost function PartialApply(b: Mat, x: Vec, m: nat): (y: Vec)
    requires IsMat(b, |x|) && m <= |x|
    ensures |y| == |x|
  {
    seq(|x|, k requires 0 <= k < |x| => Dot(b[k], x, m))
  }

  lemma PartialStep(row: Vec, b: Mat, x: Vec, m: nat)
    requires IsMat(b, |x|) && |row| == |x| && 0 < m <= |x|
    ensures Dot(row, PartialApply(b, x, m), |x|)
         == Dot(row, PartialApply(b, x, m - 1), |x|) + Dot(row, Column(b, m - 1), |x|) * x[m - 1]
  {
    hide Dot;
    var v, v', column, last := PartialApply(b, x, m), PartialApply(b, x, m - 1), Column(b, m - 1), x[m - 1];
    forall k | 0 <= k < |x| ensures v[k] == v'[k] + column[k] * last {
      DotLast(b[k], x, m);
    }
    hide *;
    DotSum(row, v', column, v, last, |x|);
  }

  lemma DotLast(a: Vec, b: Vec, k: nat)
    requires 0 < k <= |a| && k <= |b|
    ensures Dot(a, b, k) == Dot(a, b, k - 1) + a[k - 1] * b[k - 1]
  {
  }

  lemma ApplyProduct(a: Mat, b: Mat, x: Vec)
    requires IsMat(a, |x|) && IsMat(b, |x|)
    ensures Apply(Product(a, b), x) == Apply(a, Apply(b, x))
  {
    forall i | 0 <= i < |x| ensures Apply(Product(a, b), x)[i] == Apply(a, Apply(b, x))[i] {
      DotOfProduct(a, b, x, i, |x|);
      assert Apply(b, x) == PartialApply(b, x, |x|);
    }
  }

  /** A matrix with a non-zero vector in its kernel has no inverse, not even a left one. */
  lemma KernelMeansSingular(a: Mat, x: Vec)
    requires IsMat(a, |x|)
    requires Apply(a, x) == Zero(|x|) && x != Zero(|x|)
    ensures forall b: Mat :: IsMat(b, |a|) ==> Product(b, a) != Identity(|a|)
    ensures !Invertible(a)
  {
    var n := |x|;
    forall b: Mat | IsMat(b, n) ensures Product(b, a) != Identity(n) {
      if Product(b, a) == Identity(n) {
        ApplyProduct(b, a, x);
        forall i | 0 <= i < n ensures x[i] == 0.0 {
          assert Identity(n)[i] == Unit(n, i);
          DotUnit(x, i, n, n);
          DotCommutes(Unit(n, i), x, n);
          assert Apply(Identity(n), x)[i] == x[i];
          DotZero(b[i], n, n);
          assert Apply(b, Zero(n))[i] == 0.0;
        }
        assert false;
      }
    }
  }

  lemma {:induction false} DotCommutes(a: Vec, b: Vec, k: nat)
    requires k <= |a| && k <= |b|
    ensures Dot(a, b, k) == Dot(b, a, k)
  {
    if k > 0 {
      DotCommutes(a, b, k - 1);
    }
  }
}
