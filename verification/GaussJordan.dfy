/** In-place Gauss-Jordan inversion with full pivoting, over exact reals. */
module GaussJordan {
  import opened LinearAlgebra

  /** The value held by a square array. */
  ghost function Rows(elt: array2<real>): (m: Mat)
    reads elt
    requires elt.Length0 == elt.Length1
    ensures IsMat(m, elt.Length0)
    ensures forall i, j :: 0 <= i < elt.Length0 && 0 <= j < elt.Length0 ==> m[i][j] == elt[i, j]
  {
    seq(elt.Length0, i requires 0 <= i < elt.Length0 reads elt =>
      seq(elt.Length0, j requires 0 <= j < elt.Length0 reads elt => elt[i, j]))
  }

  // ---------- the tableau ----------
  //
  // Half-way through, column k of the array belongs to the original matrix while k has not been
  // a pivot, and to the inverse afterwards.  Written as a relation between x and y = A x: each
  // row r says  Dot(b[r], free) + bound[r] == 0  where a pivoted index has x bound and -y free,
  // and any other index has x free and -y bound.

  ghost predicate Balanced(b: Mat, free: Vec, bound: Vec)
    requires IsMat(b, |free|) && |bound| == |free|
  {
    forall r :: 0 <= r < |free| ==> Dot(b[r], free, |free|) + bound[r] == 0.0
  }

  ghost function Free(x: Vec, y: Vec, done: seq<bool>): (v: Vec)
    requires |x| == |y| == |done|
    ensures |v| == |x|
  {
    seq(|x|, k requires 0 <= k < |x| => if done[k] then -y[k] else x[k])
  }

  ghost function Bound(x: Vec, y: Vec, done: seq<bool>): (v: Vec)
    requires |x| == |y| == |done|
    ensures |v| == |x|
  {
    seq(|x|, k requires 0 <= k < |x| => if done[k] then x[k] else -y[k])
  }

  /** The array b with the pivots in done stands for the matrix a, in both directions. */
  ghost predicate Tableau(a: Mat, b: Mat, done: seq<bool>) {
    && IsMat(a, |done|)
    && IsMat(b, |done|)
    && forall x: Vec, y: Vec {:trigger Represents(a, b, done, x, y)} :: |x| == |done| && |y| == |done| ==>
         Represents(a, b, done, x, y)
  }

  ghost predicate Represents(a: Mat, b: Mat, done: seq<bool>, x: Vec, y: Vec)
    requires IsMat(a, |done|) && IsMat(b, |done|) && |x| == |done| == |y|
  {
    y == Apply(a, x) <==> Balanced(b, Free(x, y, done), Bound(x, y, done))
  }

  lemma TableauStart(a: Mat, done: seq<bool>)
    requires IsMat(a, |done|) && forall k :: 0 <= k < |done| ==> !done[k]
    ensures Tableau(a, a, done)
  {
    forall x: Vec, y: Vec | |x| == |done| && |y| == |done| ensures Represents(a, a, done, x, y) {
      assert Free(x, y, done) == x;
      forall r | 0 <= r < |done| ensures Dot(a[r], x, |x|) + Bound(x, y, done)[r] == 0.0 <==> y[r] == Apply(a, x)[r] {
      }
    }
  }

  /** b' is b with the roles of the free and the bound variable c exchanged. */
  ghost predicate Exchanged(b: Mat, b': Mat, c: nat) {
    && IsMat(b, |b|) && IsMat(b', |b|) && c < |b|
    && b[c][c] != 0.0
    && b'[c] == Multiple(b[c][c := 1.0], 1.0 / b[c][c])
    && (forall r {:trigger b'[r]} :: 0 <= r < |b| && r != c ==> b'[r] == Combination(b[r][c := 0.0], b'[c], b[r][c]))
  }

  lemma PivotRowSum(row: Vec, c: nat, inverse: real, free: Vec, swap: real)
    requires c < |row| == |free| && row[c] * inverse == 1.0
    ensures row[c] * (Dot(Multiple(row[c := 1.0], inverse), free[c := swap], |row|) + free[c])
              == Dot(row, free, |row|) + swap
  {
    hide *;
    var n, u := |row|, row[c := 1.0];
    DotMultiple(u, free[c := swap], inverse, n);
    DotReplace(row, free, c, 1.0, swap, n);
  }

  lemma OtherRowSum(row: Vec, pivotRow: Vec, c: nat, free: Vec, swap: real, cleared: Vec, free': Vec)
    requires c < |row| == |pivotRow| == |free|
    requires cleared == row[c := 0.0] && free' == free[c := swap]
    ensures Dot(Combination(cleared, pivotRow, row[c]), free', |row|)
         == Dot(row, free, |row|) - row[c] * (Dot(pivotRow, free', |row|) + free[c])
  {
    hide *;
    ClearedSum(row, c, free, swap);
    DotCombination(cleared, pivotRow, free', row[c], |row|);
  }

  lemma ClearedSum(row: Vec, c: nat, free: Vec, swap: real)
    requires c < |row| == |free|
    ensures Dot(row[c := 0.0], free[c := swap], |row|) == Dot(row, free, |row|) - row[c] * free[c]
  {
    hide *;
    DotReplace(row, free, c, 0.0, swap, |row|);
  }

  /** A vector pair balances before the exchange iff the pair with entry c exchanged balances after. */
  lemma ExchangeBalance(b: Mat, b': Mat, c: nat, free: Vec, bound: Vec)
    requires Exchanged(b, b', c) && |free| == |bound| == |b|
    ensures Balanced(b, free, bound) <==> Balanced(b', free[c := bound[c]], bound[c := free[c]])
  {
    var n := |b|;
    var free', bound' := free[c := bound[c]], bound[c := free[c]];
    PivotRowSum(b[c], c, 1.0 / b[c][c], free, bound[c]);
    var q := Dot(b'[c], free', n) + free[c];
    forall r | 0 <= r < n && r != c ensures Dot(b'[r], free', n) == Dot(b[r], free, n) - b[r][c] * q {
      OtherRowSum(b[r], b'[c], c, free, bound[c], b[r][c := 0.0], free');
    }
    if Balanced(b, free, bound) {
      assert Dot(b[c], free, n) + bound[c] == 0.0;
      ProductZero(b[c][c], q);
      forall r | 0 <= r < n ensures Dot(b'[r], free', n) + bound'[r] == 0.0 {
        assert Dot(b[r], free, n) + bound[r] == 0.0;
      }
    }
    if Balanced(b', free', bound') {
      assert Dot(b'[c], free', n) + bound'[c] == 0.0;
      forall r | 0 <= r < n ensures Dot(b[r], free, n) + bound[r] == 0.0 {
        assert Dot(b'[r], free', n) + bound'[r] == 0.0;
      }
    }
  }

  lemma ProductZero(p: real, q: real)
    requires p != 0.0 && p * q == 0.0
    ensures q == 0.0
  {
    assert q == (p * q) / p;
  }

  lemma ExchangeKeepsTableau(a: Mat, b: Mat, b': Mat, done: seq<bool>, c: nat)
    requires Tableau(a, b, done) && c < |done| && !done[c] && Exchanged(b, b', c)
    ensures Tableau(a, b', done[c := true])
  {
    var done' := done[c := true];
    forall x: Vec, y: Vec | |x| == |done'| && |y| == |done'| ensures Represents(a, b', done', x, y) {
      assert Represents(a, b, done, x, y);
      ExchangeBalance(b, b', c, Free(x, y, done), Bound(x, y, done));
      assert Free(x, y, done') == Free(x, y, done)[c := Bound(x, y, done)[c]];
      assert Bound(x, y, done') == Bound(x, y, done)[c := Free(x, y, done)[c]];
    }
  }

  /** Swapping two rows that are not pivoted yet swaps the same rows of the matrix represented. */
  lemma SwapKeepsTableau(a: Mat, b: Mat, done: seq<bool>, p: nat, q: nat)
    requires Tableau(a, b, done) && p < |done| && q < |done| && !done[p] && !done[q]
    ensures Tableau(Swapped(a, p, q), Swapped(b, p, q), done)
  {
    var a', b' := Swapped(a, p, q), Swapped(b, p, q);
    forall x: Vec, y: Vec | |x| == |done| && |y| == |done| ensures Represents(a', b', done, x, y) {
      var y0 := Swapped(y, p, q);
      assert Represents(a, b, done, x, y0);
      assert Apply(a', x) == Swapped(Apply(a, x), p, q);
      assert y == Swapped(y0, p, q);
      assert y0 == Apply(a, x) <==> y == Apply(a', x);
      var free, bound, bound0 := Free(x, y, done), Bound(x, y, done), Bound(x, y0, done);
      assert free == Free(x, y0, done);
      assert bound == Swapped(bound0, p, q);
      SwapBalance(b, free, bound0, p, q);
    }
  }

  lemma SwapBalance(b: Mat, free: Vec, bound: Vec, p: nat, q: nat)
    requires IsMat(b, |free|) && |bound| == |free| && p < |b| && q < |b|
    ensures Balanced(b, free, bound) <==> Balanced(Swapped(b, p, q), free, Swapped(bound, p, q))
  {
    var b', bound' := Swapped(b, p, q), Swapped(bound, p, q);
    var n := |free|;
    if Balanced(b', free, bound') {
      forall r | 0 <= r < n ensures Dot(b[r], free, n) + bound[r] == 0.0 {
        var s := if r == p then q else if r == q then p else r;
        assert Dot(b'[s], free, n) + bound'[s] == 0.0;
      }
    }
  }

  // ---------- the loops ----------

  method SwapRows(elt: array2<real>, row: nat, col: nat)
    requires elt.Length0 == elt.Length1 && row < elt.Length0 && col < elt.Length0 && row != col
    modifies elt
    ensures Rows(elt) == Swapped(old(Rows(elt)), row, col)
  {
    var n := elt.Length0;
    ghost var before := Rows(elt);
    for k := 0 to n
      invariant forall j :: 0 <= j < k ==> elt[row, j] == before[col][j] && elt[col, j] == before[row][j]
      invariant forall j :: k <= j < n ==> elt[row, j] == before[row][j] && elt[col, j] == before[col][j]
      invariant forall i, j :: 0 <= i < n && i != row && i != col && 0 <= j < n ==> elt[i, j] == before[i][j]
    {
      elt[row, k], elt[col, k] := elt[col, k], elt[row, k];
    }
    SameEntries(Rows(elt), Swapped(before, row, col));
  }

  ghost function WithColumnsSwapped(b: Mat, p: nat, q: nat): (m: Mat)
    requires IsMat(b, |b|) && p < |b| && q < |b|
    ensures IsMat(m, |b|)
  {
    seq(|b|, i requires 0 <= i < |b| => Swapped(b[i], p, q))
  }

  method SwapColumns(elt: array2<real>, p: nat, q: nat)
    requires elt.Length0 == elt.Length1 && p < elt.Length0 && q < elt.Length0 && p != q
    modifies elt
    ensures Rows(elt) == WithColumnsSwapped(old(Rows(elt)), p, q)
  {
    var n := elt.Length0;
    ghost var before := Rows(elt);
    for k := 0 to n
      invariant forall i :: 0 <= i < k ==> elt[i, p] == before[i][q] && elt[i, q] == before[i][p]
      invariant forall i :: k <= i < n ==> elt[i, p] == before[i][p] && elt[i, q] == before[i][q]
      invariant forall i, j :: 0 <= i < n && 0 <= j < n && j != p && j != q ==> elt[i, j] == before[i][j]
    {
      elt[k, p], elt[k, q] := elt[k, q], elt[k, p];
    }
    SameEntries(Rows(elt), WithColumnsSwapped(before, p, q));
  }

  /** Divides the pivot row by the pivot, the pivot itself having been replaced by 1. */
  method ScalePivotRow(elt: array2<real>, col: nat, pivotInverse: real)
    requires elt.Length0 == elt.Length1 && col < elt.Length0
    modifies elt
    ensures Rows(elt) == old(Rows(elt))[col := Multiple(old(Rows(elt))[col][col := 1.0], pivotInverse)]
  {
    var n := elt.Length0;
    ghost var before := Rows(elt);
    ghost var unit := before[col][col := 1.0];
    elt[col, col] := 1.0;
    for k := 0 to n
      invariant forall j :: 0 <= j < k ==> elt[col, j] == Multiple(unit, pivotInverse)[j]
      invariant forall j :: k <= j < n ==> elt[col, j] == unit[j]
      invariant forall i, j :: 0 <= i < n && i != col && 0 <= j < n ==> elt[i, j] == before[i][j]
    {
      elt[col, k] := elt[col, k] * pivotInverse;
    }
    SameEntries(Rows(elt), before[col := Multiple(unit, pivotInverse)]);
  }

  /** What the reduction makes of the rows: the pivot row stays, the others lose their pivot column. */
  ghost function Reduced(b: Mat, c: nat): (m: Mat)
    requires IsMat(b, |b|) && c < |b|
    ensures IsMat(m, |b|)
  {
    seq(|b|, r requires 0 <= r < |b| => if r == c then b[c] else Combination(b[r][c := 0.0], b[c], b[r][c]))
  }

  method ReduceRows(elt: array2<real>, col: nat)
    requires elt.Length0 == elt.Length1 && col < elt.Length0
    modifies elt
    ensures Rows(elt) == Reduced(old(Rows(elt)), col)
  {
    var n := elt.Length0;
    ghost var before := Rows(elt);
    for r := 0 to n
      invariant forall i, j :: 0 <= i < r && 0 <= j < n ==> elt[i, j] == Reduced(before, col)[i][j]
      invariant forall i, j :: r <= i < n && 0 <= j < n ==> elt[i, j] == before[i][j]
      invariant forall j :: 0 <= j < n ==> elt[col, j] == before[col][j]
    {
      if r != col {
        ReduceRow(elt, col, r, before);
      }
    }
    SameEntries(Rows(elt), Reduced(before, col));
  }

  method ReduceRow(elt: array2<real>, col: nat, r: nat, ghost before: Mat)
    requires elt.Length0 == elt.Length1 && col < elt.Length0 && r < elt.Length0 && r != col
    requires IsMat(before, elt.Length0)
    requires forall j :: 0 <= j < elt.Length0 ==> elt[r, j] == before[r][j] && elt[col, j] == before[col][j]
    modifies elt
    ensures forall j :: 0 <= j < elt.Length0 ==> elt[r, j] == Reduced(before, col)[r][j]
    ensures forall i, j :: 0 <= i < elt.Length0 && i != r && 0 <= j < elt.Length0 ==> elt[i, j] == old(elt[i, j])
  {
    var n := elt.Length0;
    var oldValue := elt[r, col];
    elt[r, col] := 0.0;
    ghost var cleared := before[r][col := 0.0];
    ghost var reduced := Combination(cleared, before[col], oldValue);
    for k := 0 to n
      invariant forall j :: 0 <= j < k ==> elt[r, j] == reduced[j]
      invariant forall j :: k <= j < n ==> elt[r, j] == cleared[j]
      invariant forall i, j :: 0 <= i < n && i != r && 0 <= j < n ==> elt[i, j] == old(elt[i, j])
    {
      elt[r, k] := elt[r, k] - elt[col, k] * oldValue;
    }
  }

  ghost predicate IsPivotTable(pivot: seq<int>) {
    forall k :: 0 <= k < |pivot| ==> pivot[k] == -1 || pivot[k] == 0
  }

  function Magnitude(x: real): (m: real) {
    if x < 0.0 then -x else x
  }

  /** The largest entry in the rows and columns that have not been pivots; the last one on ties. */
  method FindPivot(elt: array2<real>, pivot: array<int>, row0: nat, col0: nat) returns (row: nat, col: nat)
    requires elt.Length0 == elt.Length1 == pivot.Length
    requires IsPivotTable(pivot[..])
    requires exists k :: 0 <= k < pivot.Length && pivot[k] == -1
    ensures row < pivot.Length && col < pivot.Length && pivot[row] == -1 && pivot[col] == -1
    ensures forall r, k :: 0 <= r < pivot.Length && pivot[r] == -1 && 0 <= k < pivot.Length && pivot[k] == -1 ==>
              Magnitude(elt[r, k]) <= Magnitude(elt[row, col])
  {
    var n := pivot.Length;
    row, col := row0, col0;
    var largestMagnitude := 0.0;
    ghost var found := false;
    for r := 0 to n
      invariant largestMagnitude >= 0.0
      invariant found <==> exists i :: 0 <= i < r && pivot[i] == -1
      invariant found ==>
                  row < n && col < n && pivot[row] == -1 && pivot[col] == -1
                  && largestMagnitude == Magnitude(elt[row, col])
      invariant !found ==> largestMagnitude == 0.0
      invariant forall i, j :: 0 <= i < r && pivot[i] == -1 && 0 <= j < n && pivot[j] == -1 ==>
                  Magnitude(elt[i, j]) <= largestMagnitude
    {
      if pivot[r] != 0 {
        for k := 0 to n
          invariant largestMagnitude >= 0.0
          invariant k > r ==> found
          invariant (exists i :: 0 <= i < r && pivot[i] == -1) ==> found
          invariant found ==>
                      row < n && col < n && pivot[row] == -1 && pivot[col] == -1
                      && largestMagnitude == Magnitude(elt[row, col])
          invariant !found ==> largestMagnitude == 0.0
          invariant forall i, j :: 0 <= i < r && pivot[i] == -1 && 0 <= j < n && pivot[j] == -1 ==>
                      Magnitude(elt[i, j]) <= largestMagnitude
          invariant forall j :: 0 <= j < k && pivot[j] == -1 ==> Magnitude(elt[r, j]) <= largestMagnitude
        {
          if pivot[k] == -1 {
            var mag := Magnitude(elt[r, k]);
            if mag >= largestMagnitude {
              largestMagnitude := mag;
              row, col := r, k;
              found := true;
            }
          }
        }
      }
    }
  }

  // ---------- counting pivots ----------

  ghost function Done(pivot: seq<int>): (d: seq<bool>)
    ensures |d| == |pivot| && forall k :: 0 <= k < |d| ==> d[k] == (pivot[k] == 0)
  {
    seq(|pivot|, k requires 0 <= k < |pivot| => pivot[k] == 0)
  }

  ghost function Count(d: seq<bool>): (c: nat)
    ensures c <= |d|
    ensures c < |d| <==> exists k :: 0 <= k < |d| && !d[k]
  {
    if d == [] then 0 else
      var rest := Count(d[..|d| - 1]);
      assert forall k :: 0 <= k < |d| - 1 ==> d[k] == d[..|d| - 1][k];
      if d[|d| - 1] then rest + 1 else rest
  }

  lemma {:induction false} CountOneMore(d: seq<bool>, k: nat)
    requires k < |d| && !d[k]
    ensures Count(d[k := true]) == Count(d) + 1
  {
    var last := |d| - 1;
    if k < last {
      CountOneMore(d[..last], k);
      assert d[k := true][..last] == d[..last][k := true];
    } else {
      assert d[k := true][..last] == d[..last];
    }
  }

  lemma {:induction false} CountNone(d: seq<bool>)
    requires forall k :: 0 <= k < |d| ==> !d[k]
    ensures Count(d) == 0
  {
    if d != [] {
      CountNone(d[..|d| - 1]);
    }
  }

  // ---------- row order ----------

  ghost predicate AreIndices(s: seq<int>, n: nat) {
    forall i :: 0 <= i < |s| ==> 0 <= s[i] < n
  }

  ghost predicate Distinct(s: seq<int>) {
    forall i, j :: 0 <= i < j < |s| ==> s[i] != s[j]
  }

  /** The columns recorded so far are different, and marked as pivots. */
  ghost predicate ArePivots(cols: seq<int>, pivot: seq<int>) {
    && AreIndices(cols, |pivot|)
    && Distinct(cols)
    && forall i :: 0 <= i < |cols| ==> pivot[cols[i]] == 0
  }

  /** The matrix after swapping rows rows[0] and cols[0], then rows[1] and cols[1], and so on. */
  ghost function Reordered(a: Mat, rows: seq<int>, cols: seq<int>): (m: Mat)
    requires IsMat(a, |a|) && |rows| == |cols| && AreIndices(rows, |a|) && AreIndices(cols, |a|)
    ensures IsMat(m, |a|)
  {
    if rows == [] then a else
      var last := |rows| - 1;
      Swapped(Reordered(a, rows[..last], cols[..last]), rows[last], cols[last])
  }

  /** m is what the recorded row swaps make of a, and the recorded columns are the pivots so far. */
  ghost predicate Recorded(a: Mat, rows: seq<int>, cols: seq<int>, pivot: seq<int>, m: Mat) {
    && IsMat(a, |pivot|) && IsMat(m, |pivot|)
    && |rows| == |cols|
    && AreIndices(rows, |a|)
    && ArePivots(cols, pivot)
    && m == Reordered(a, rows, cols)
  }

  lemma RecordStep(a: Mat, rows: seq<int>, cols: seq<int>, pivot: seq<int>, m: Mat, row: nat, col: nat)
    requires Recorded(a, rows, cols, pivot, m) && row < |a| && col < |a| && pivot[col] == -1
    ensures Recorded(a, rows + [row], cols + [col], pivot[col := 0], Swapped(m, row, col))
    ensures IsMat(Swapped(m, row, col), |a|)
  {
  }

  lemma RecordStart(a: Mat, pivot: seq<int>)
    requires IsMat(a, |pivot|)
    ensures Recorded(a, [], [], pivot, a)
  {
  }

  lemma RecordedKernel(a: Mat, rows: seq<int>, cols: seq<int>, pivot: seq<int>, m: Mat, x: Vec)
    requires Recorded(a, rows, cols, pivot, m) && |x| == |a| && Apply(m, x) == Zero(|x|)
    ensures Apply(a, x) == Zero(|x|)
  {
    ReorderedKernel(a, rows, cols, x);
  }

  lemma {:induction false} ReorderedKernel(a: Mat, rows: seq<int>, cols: seq<int>, x: Vec)
    requires IsMat(a, |x|) && |rows| == |cols| && AreIndices(rows, |a|) && AreIndices(cols, |a|)
    requires Apply(Reordered(a, rows, cols), x) == Zero(|x|)
    ensures Apply(a, x) == Zero(|x|)
  {
    if rows != [] {
      var last := |rows| - 1;
      var m := Reordered(a, rows[..last], cols[..last]);
      var p, q := rows[last], cols[last];
      assert Apply(Swapped(m, p, q), x) == Zero(|x|);
      forall i | 0 <= i < |x| ensures Apply(m, x)[i] == 0.0 {
        var s := if i == p then q else if i == q then p else i;
        assert Apply(Swapped(m, p, q), x)[s] == 0.0;
      }
      ReorderedKernel(a, rows[..last], cols[..last], x);
    }
  }

  /** If every entry that could still be a pivot is zero, some non-zero vector is mapped to zero. */
  lemma NoPivotMeansKernel(a: Mat, b: Mat, done: seq<bool>, c: nat) returns (x: Vec)
    requires Tableau(a, b, done) && c < |done| && !done[c]
    requires forall r, k :: 0 <= r < |done| && 0 <= k < |done| && !done[r] && !done[k] ==> b[r][k] == 0.0
    ensures |x| == |done| && x != Zero(|x|) && Apply(a, x) == Zero(|x|)
  {
    var n := |done|;
    x := seq(n, r requires 0 <= r < n => if r == c then 1.0 else if done[r] then -b[r][c] else 0.0);
    var y := Zero(n);
    assert x[c] != Zero(n)[c];
    assert Represents(a, b, done, x, y);
    assert Free(x, y, done) == Unit(n, c);
    forall r | 0 <= r < n ensures Dot(b[r], Unit(n, c), n) + Bound(x, y, done)[r] == 0.0 {
      DotUnit(b[r], c, n, n);
    }
    assert Balanced(b, Free(x, y, done), Bound(x, y, done));
  }

  // ---------- putting the columns back ----------

  /** b solves every system of a: y = a x exactly when x = b y. */
  ghost predicate Solves(a: Mat, b: Mat) {
    && IsMat(a, |a|) && IsMat(b, |a|)
    && forall x: Vec, y: Vec {:trigger SolvesFor(a, b, x, y)} :: |x| == |a| && |y| == |a| ==> SolvesFor(a, b, x, y)
  }

  ghost predicate SolvesFor(a: Mat, b: Mat, x: Vec, y: Vec)
    requires IsMat(a, |x|) && IsMat(b, |y|)
  {
    y == Apply(a, x) <==> x == Apply(b, y)
  }

  lemma FinishedTableau(a: Mat, b: Mat, done: seq<bool>)
    requires Tableau(a, b, done) && forall k :: 0 <= k < |done| ==> done[k]
    ensures Solves(a, b)
  {
    forall x: Vec, y: Vec | |x| == |a| && |y| == |a| ensures SolvesFor(a, b, x, y) {
      assert Represents(a, b, done, x, y);
      var free, n := Free(x, y, done), |a|;
      assert Bound(x, y, done) == x;
      assert free == Multiple(y, -1.0);
      forall r | 0 <= r < n ensures Dot(b[r], free, n) == -Dot(b[r], y, n) {
        DotCommutes(b[r], free, n);
        DotMultiple(y, b[r], -1.0, n);
        DotCommutes(b[r], y, n);
      }
      assert Balanced(b, free, x) <==> forall r :: 0 <= r < n ==> x[r] == Apply(b, y)[r];
    }
  }

  /** Swapping two rows of a matrix is undone by swapping the same columns of its inverse. */
  lemma ColumnsUndoRows(a: Mat, b: Mat, p: nat, q: nat)
    requires IsMat(a, |a|) && p < |a| && q < |a| && Solves(Swapped(a, p, q), b)
    ensures Solves(a, WithColumnsSwapped(b, p, q))
  {
    var a', b' := Swapped(a, p, q), WithColumnsSwapped(b, p, q);
    forall x: Vec, y: Vec | |x| == |a| && |y| == |a| ensures SolvesFor(a, b', x, y) {
      var y' := Swapped(y, p, q);
      assert SolvesFor(a', b, x, y');
      assert Apply(a', x) == Swapped(Apply(a, x), p, q);
      assert y == Swapped(y', p, q) && Apply(a, x) == Swapped(Apply(a', x), p, q);
      assert y == Apply(a, x) <==> y' == Apply(a', x);
      forall i | 0 <= i < |a| ensures Apply(b', y)[i] == Apply(b, y')[i] {
        DotSwap(b[i], y', p, q, |a|);
      }
      assert Apply(b', y) == Apply(b, y');
    }
  }

  lemma SolvesIsInverse(a: Mat, b: Mat)
    requires Solves(a, b)
    ensures IsInverse(a, b) && Invertible(a)
  {
    var n := |a|;
    forall j: nat | j < n ensures Apply(b, Column(a, j)) == Unit(n, j) && Apply(a, Column(b, j)) == Unit(n, j) {
      ApplyUnit(a, j);
      ApplyUnit(b, j);
      assert SolvesFor(a, b, Unit(n, j), Column(a, j));
      assert SolvesFor(a, b, Column(b, j), Unit(n, j));
    }
    ProductIsIdentity(a, b);
    ProductIsIdentity(b, a);
  }

  // ---------- the algorithm ----------

  /** One turn of the main loop: chooses a pivot, brings it to the diagonal and reduces its column. */
  method EliminateColumn(elt: array2<real>, pivot: array<int>, row0: nat, col0: nat, ghost a: Mat)
    returns (ok: bool, row: nat, col: nat)
    requires elt.Length0 == elt.Length1 == pivot.Length
    requires IsPivotTable(pivot[..]) && Count(Done(pivot[..])) < pivot.Length
    requires Tableau(a, Rows(elt), Done(pivot[..]))
    modifies elt, pivot
    ensures row < pivot.Length && col < pivot.Length && old(pivot[row]) == -1 && old(pivot[col]) == -1
    ensures pivot[..] == old(pivot[..])[col := 0] && IsPivotTable(pivot[..])
    ensures Count(Done(pivot[..])) == old(Count(Done(pivot[..]))) + 1
    ensures ok ==> Tableau(Swapped(a, row, col), Rows(elt), Done(pivot[..]))
    ensures !ok ==> exists x: Vec :: |x| == pivot.Length && x != Zero(|x|) && Apply(a, x) == Zero(|x|)
  {
    ghost var done := Done(pivot[..]);
    ghost var before := Rows(elt);
    assert exists k :: 0 <= k < pivot.Length && !done[k];
    row, col := FindPivot(elt, pivot, row0, col0);
    ghost var largest := before[row][col];
    pivot[col] := pivot[col] + 1;
    assert Done(pivot[..]) == done[col := true];
    CountOneMore(done, col);
    if row != col {
      SwapRows(elt, row, col);
    }
    ghost var swapped := Swapped(before, row, col);
    assert Rows(elt) == swapped;
    SwapKeepsTableau(a, before, done, row, col);
    var piv := elt[col, col];
    assert piv == largest;
    if piv == 0.0 {
      ghost var x := NoPivotMeansKernel(a, before, done, col);
      ok := false;
    } else {
      ScalePivotRow(elt, col, 1.0 / piv);
      ReduceRows(elt, col);
      ExchangeKeepsTableau(Swapped(a, row, col), swapped, Rows(elt), done, col);
      ok := true;
    }
  }

  /** Reduces column after column; false when the remaining block holds no pivot. */
  method Eliminate(elt: array2<real>, rowIndex: array<int>, colIndex: array<int>) returns (ok: bool)
    requires elt.Length0 == elt.Length1 == rowIndex.Length == colIndex.Length && rowIndex != colIndex
    modifies elt, rowIndex, colIndex
    ensures !ok ==> exists x: Vec :: |x| == elt.Length0 && x != Zero(|x|) && Apply(old(Rows(elt)), x) == Zero(|x|)
    ensures ok ==>
              AreIndices(rowIndex[..], elt.Length0) && AreIndices(colIndex[..], elt.Length0) && Distinct(colIndex[..])
    ensures ok ==> Solves(Reordered(old(Rows(elt)), rowIndex[..], colIndex[..]), Rows(elt))
  {
    hide Tableau;
    hide Recorded;
    hide Count;
    hide Apply;
    hide Solves;
    hide Reordered;
    var n := elt.Length0;
    ghost var a := Rows(elt);
    ghost var m := a;
    var pivot := NoPivots(n);
    var row, col := 0, 0;
    TableauStart(a, Done(pivot[..]));
    RecordStart(a, pivot[..]);
    assert rowIndex[..0] == [] && colIndex[..0] == [];
    for c := 0 to n
      invariant row >= 0 && col >= 0 && IsMat(m, n)
      invariant IsPivotTable(pivot[..]) && Count(Done(pivot[..])) == c
      invariant Recorded(a, rowIndex[..c], colIndex[..c], pivot[..], m)
      invariant Tableau(m, Rows(elt), Done(pivot[..]))
    {
      ghost var rows, cols, pivotBefore := rowIndex[..c], colIndex[..c], pivot[..];
      ok, row, col := EliminateColumn(elt, pivot, row, col, m);
      if !ok {
        ghost var x: Vec :| |x| == n && x != Zero(|x|) && Apply(m, x) == Zero(|x|);
        RecordedKernel(a, rows, cols, pivotBefore, m, x);
        return;
      }
      rowIndex[c] := row;
      colIndex[c] := col;
      RecordStep(a, rows, cols, pivotBefore, m, row, col);
      assert rowIndex[..c + 1] == rows + [row];
      assert colIndex[..c + 1] == cols + [col];
      m := Swapped(m, row, col);
    }
    ok := true;
    assert rowIndex[..n] == rowIndex[..] && colIndex[..n] == colIndex[..];
    RecordedAll(a, rowIndex[..], colIndex[..], pivot[..], m, Rows(elt));
  }

  lemma RecordedAll(a: Mat, rows: seq<int>, cols: seq<int>, pivot: seq<int>, m: Mat, b: Mat)
    requires Recorded(a, rows, cols, pivot, m) && Count(Done(pivot)) == |pivot| && Tableau(m, b, Done(pivot))
    ensures AreIndices(rows, |a|) && AreIndices(cols, |a|) && Distinct(cols)
    ensures Solves(Reordered(a, rows, cols), b)
  {
    FinishedTableau(m, b, Done(pivot));
  }

  method NoPivots(n: nat) returns (pivot: array<int>)
    ensures fresh(pivot) && pivot.Length == n
    ensures forall k :: 0 <= k < n ==> pivot[k] == -1
    ensures IsPivotTable(pivot[..]) && Count(Done(pivot[..])) == 0
    ensures forall k :: 0 <= k < n ==> !Done(pivot[..])[k]
  {
    pivot := new int[n];
    for i := 0 to n
      invariant forall k :: 0 <= k < i ==> pivot[k] == -1
    {
      pivot[i] := -1;
    }
    CountNone(Done(pivot[..]));
  }

  /** Swaps columns back, last swap first. */
  method UnscrambleColumns(elt: array2<real>, rowIndex: array<int>, colIndex: array<int>, ghost a: Mat)
    requires elt.Length0 == elt.Length1 == rowIndex.Length == colIndex.Length && IsMat(a, elt.Length0)
    requires AreIndices(rowIndex[..], elt.Length0) && AreIndices(colIndex[..], elt.Length0)
    requires Solves(Reordered(a, rowIndex[..], colIndex[..]), Rows(elt))
    modifies elt
    ensures Solves(a, Rows(elt))
  {
    var n := elt.Length0;
    ghost var rows, cols := rowIndex[..], colIndex[..];
    assert rows[..n] == rows && cols[..n] == cols;
    for i := n downto 0
      invariant rows == rowIndex[..] && cols == colIndex[..]
      invariant AreIndices(rows, n) && AreIndices(cols, n)
      invariant Solves(Reordered(a, rows[..i], cols[..i]), Rows(elt))
    {
      assert rows[..i + 1] == rows[..i] + [rows[i]] && cols[..i + 1] == cols[..i] + [cols[i]];
      ghost var m, before := Reordered(a, rows[..i], cols[..i]), Rows(elt);
      ColumnsUndoRows(m, before, rows[i], cols[i]);
      if rowIndex[i] != colIndex[i] {
        SwapColumns(elt, rowIndex[i], colIndex[i]);
      } else {
        SameEntries(WithColumnsSwapped(before, rows[i], cols[i]), before);
      }
    }
  }

  /**
   * Replaces the array by the inverse of the matrix it held.  ok is false exactly when the matrix
   * has no inverse, which is when the source reports a zero pivot.
   */
  method InverseInPlaceGaussJordan(elt: array2<real>) returns (ok: bool)
    requires elt.Length0 == elt.Length1
    modifies elt
    ensures ok <==> Invertible(old(Rows(elt)))
    ensures ok ==> IsInverse(old(Rows(elt)), Rows(elt))
  {
    ghost var a := Rows(elt);
    var rowIndex := new int[elt.Length0];
    var colIndex := new int[elt.Length0];
    ok := Eliminate(elt, rowIndex, colIndex);
    if ok {
      UnscrambleColumns(elt, rowIndex, colIndex, a);
      SolvesIsInverse(a, Rows(elt));
    } else {
      ghost var x: Vec :| |x| == elt.Length0 && x != Zero(|x|) && Apply(a, x) == Zero(|x|);
      KernelMeansSingular(a, x);
    }
  }
}
