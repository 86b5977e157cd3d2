/** The matrix methods of src/ml_array.c that run on top of the LU decomposition: `lu`, `det`, `\` for a
    matrix and a vector, `\` for a matrix alone, and the cofactor expansion used for matrices of
    arbitrary values. */
module LinearAlgebra {
  import opened Sums
  import opened Determinant
  import opened LuTheory
  import opened Elimination
  import opened Lu

  datatype Error = ShapeError | Degenerate | SizeMismatch

  datatype Result<T> = Success(value: T) | Failure(error: Error)

  datatype Factors3 = Factors3(l: Matrix, u: Matrix, p: Matrix)

  /** A matrix value with `cols` columns. */
  ghost predicate Rectangular(m: Matrix, cols: nat) {
    forall i | 0 <= i < |m| :: |m[i]| == cols
  }

  /** `ml_array_copy` and the set-up of the row pointers. */
  method Load(m: Matrix, n: nat) returns (a: Rows)
    requires Square(m, n)
    ensures fresh(a) && fresh(RowSet(a)) && RowsOk(a, n) && Mat(a) == m
  {
    var blank := new real[0];
    a := new array<real>[n](_ => blank);
    for i := 0 to n
      invariant forall k | 0 <= k < i :: fresh(a[k]) && a[k].Length == n && a[k][..] == m[k]
      invariant forall k, j | 0 <= k < j < i :: a[k] != a[j]
    {
      var row := new real[n](k requires 0 <= k < n => m[i][k]);
      assert row[..] == m[i];
      a[i] := row;
    }
  }

  /** A fresh matrix of zeros. */
  method Zeros(n: nat) returns (a: Rows)
    ensures fresh(a) && fresh(RowSet(a)) && RowsOk(a, n)
    ensures forall r, c | 0 <= r < n && 0 <= c < n :: a[r][c] == 0.0
  {
    a := Load(seq(n, i => seq(n, j => 0.0)), n);
    assert forall r, c | 0 <= r < n && 0 <= c < n :: Mat(a)[r][c] == 0.0;
  }

  method Read(a: Rows, n: nat) returns (m: Matrix)
    requires RowsOk(a, n)
    ensures m == Mat(a)
  {
    m := [];
    for i := 0 to n
      invariant m == Mat(a)[..i]
    {
      m := m + [a[i][..]];
    }
  }

  // ---------------------------------------------------------------- lu

  /** The loop that copies the factors out of the packed matrix. */
  method Unpack(a: Rows, p: array<int>, n: nat) returns (f: Factors3)
    requires RowsOk(a, n) && p.Length == n + 1 && IsPermutation(p[..n], n)
    ensures IsLower(f.l, Mat(a), n) && IsUpper(f.u, Mat(a), n) && IsPermutationMatrix(f.p, p[..n], n)
  {
    var l, u, w: Matrix := [], [], [];
    for i := 0 to n
      invariant |l| == |u| == |w| == i
      invariant forall r | 0 <= r < i :: UnpackedRow(Mat(a)[r], p[r], r, l[r], u[r], w[r], n)
    {
      var lr, ur, wr := UnpackRow(a[i], p[i], i, n);
      l, u, w := l + [lr], u + [ur], w + [wr];
    }
    f := Factors3(l, u, w);
  }

  /** What a row of the packed matrix contributes to the three results. */
  ghost predicate UnpackedRow(row: Vector, pi: int, i: nat, lr: Vector, ur: Vector, wr: Vector, n: nat) {
    && |row| == |lr| == |ur| == |wr| == n
    && forall k | 0 <= k < n ::
         && lr[k] == (if k < i then row[k] else if k == i then 1.0 else 0.0)
         && ur[k] == (if k < i then 0.0 else row[k])
         && wr[k] == (if k == pi then 1.0 else 0.0)
  }

  method UnpackRow(row: array<real>, pi: int, i: nat, n: nat) returns (l: Vector, u: Vector, w: Vector)
    requires row.Length == n && i < n && 0 <= pi < n
    ensures UnpackedRow(row[..], pi, i, l, u, w, n)
  {
    var lr, ur, wr := new real[n](_ => 0.0), new real[n](_ => 0.0), new real[n](_ => 0.0);
    forall k | 0 <= k < i {
      lr[k] := row[k];
    }
    lr[i] := 1.0;
    forall k | i <= k < n {
      ur[k] := row[k];
    }
    wr[pi] := 1.0;
    return lr[..], ur[..], wr[..];
  }

  /** The `lu` method: P A = L U, with L unit lower triangular, U upper triangular and P a permutation
      matrix, all pivots usable and all multipliers at most one in magnitude. */
  method LuFactors(m: Matrix, cols: nat) returns (r: Result<Factors3>)
    requires Rectangular(m, cols)
    ensures r == Failure(ShapeError) <==> |m| != cols
    ensures r == Failure(Degenerate) <==> |m| == cols && Stops(m, cols)
    ensures r.Failure? ==> r.error == ShapeError || r.error == Degenerate
    ensures r.Success? ==> GoodFactors(m, r.value.l, r.value.u, r.value.p, cols)
  {
    if |m| != cols {
      return Failure(ShapeError);
    }
    r := FactorSquare(m, cols);
  }

  method FactorSquare(m: Matrix, n: nat) returns (r: Result<Factors3>)
    requires Square(m, n)
    ensures r.Failure? <==> Stops(m, n)
    ensures r.Failure? ==> r.error == Degenerate
    ensures r.Success? ==> GoodFactors(m, r.value.l, r.value.u, r.value.p, n)
  {
    hide Stage, GoodFactors, NoPivot, IsPermutation, Decomposed;
    var a := Load(m, n);
    var p := new int[n + 1];
    var ok;
    ghost var stage;
    ok, stage := LuDecomp(a, p, n);
    if !ok {
      return Failure(Degenerate);
    }
    StageIsPermutation(m, Mat(a), p[..n], p[n] - n, n);
    var f := Unpack(a, p, n);
    UnpackedFactors(m, Mat(a), p[..n], p[n] - n, f, n);
    return Success(f);
  }

  ghost predicate GoodFactors(a: Matrix, l: Matrix, u: Matrix, w: Matrix, n: nat) {
    && Square(l, n) && Square(u, n) && Square(w, n)
    && (forall r: nat, c: nat | r < n && c < n :: MulAt(n, w, a, r, c) == MulAt(n, l, u, r, c))
    && (forall r | 0 <= r < n :: At(l, r, r) == 1.0 && Abs(At(u, r, r)) >= EPSILON)
    && (forall r, c | 0 <= r < c < n :: At(l, r, c) == 0.0)
    && (forall r, c | 0 <= c < r < n :: At(u, r, c) == 0.0 && Abs(At(l, r, c)) <= 1.0)
    && (exists p :: IsPermutation(p, n) && IsPermutationMatrix(w, p, n))
  }

  lemma StageIsPermutation(m0: Matrix, m: Matrix, p: seq<int>, swaps: nat, n: nat)
    requires Stage(m0, m, p, swaps, n, n)
    ensures IsPermutation(p, n)
  {
  }

  lemma UnpackedFactors(m0: Matrix, m: Matrix, p: seq<int>, swaps: nat, f: Factors3, n: nat)
    requires Stage(m0, m, p, swaps, n, n)
    requires IsLower(f.l, m, n) && IsUpper(f.u, m, n) && IsPermutationMatrix(f.p, p, n)
    ensures GoodFactors(m0, f.l, f.u, f.p, n)
  {
    hide MulAt, Partial, Det;
    FactorsMultiply(m0, m, p, f.l, f.u, f.p, n);
    forall r, c | 0 <= c < r < n ensures Abs(At(f.l, r, c)) <= 1.0 {
      assert Abs(At(m, r, c)) <= 1.0;
    }
    forall r | 0 <= r < n ensures Abs(At(f.u, r, r)) >= EPSILON {
      assert Abs(At(m, r, r)) >= EPSILON;
    }
  }

  // ---------------------------------------------------------------- det

  /** What `det` answers: zero where elimination stops, otherwise the signed product of the pivots. */
  ghost function DetAnswer(m: Matrix, n: nat): real
    requires Square(m, n)
  {
    var e := Decomposed(m, n);
    if e.stage < n then 0.0 else Signed(e.swaps, DiagonalProduct(e.m, 0, n))
  }

  ghost function Signed(swaps: int, d: real): real {
    if swaps % 2 != 0 then -d else d
  }

  /** The answer is the cofactor expansion exactly if elimination gets through or that is zero anyway. */
  lemma DetRightExactly(m: Matrix, n: nat)
    requires Square(m, n)
    ensures DetAnswer(m, n) == Det(m, Range(0, n)) <==> !Stops(m, n) || Det(m, Range(0, n)) == 0.0
  {
    hide Decomposed, Det, Range, DiagonalProduct, Stage, NoPivot;
    DecomposedStage(m, n);
    var e := Decomposed(m, n);
    if e.stage == n {
      SuccessDet(m, e.m, e.p, e.swaps, n);
    }
  }

  /** The `det` method for a matrix of reals. */
  method DetReal(m: Matrix, cols: nat) returns (r: Result<real>)
    requires Rectangular(m, cols) && cols > 0
    ensures r == if |m| != cols then Failure(ShapeError) else Success(DetAnswer(m, cols))
  {
    hide DetAnswer;
    if |m| != cols {
      return Failure(ShapeError);
    }
    var d := DetSquare(m, cols);
    r := Success(d);
  }

  method DetSquare(m: Matrix, n: nat) returns (d: real)
    requires Square(m, n) && n > 0
    ensures d == DetAnswer(m, n)
    ensures d == Det(m, Range(0, n)) <==> !Stops(m, n) || Det(m, Range(0, n)) == 0.0
  {
    hide Stage, Det, NoPivot, DiagonalProduct, Range, Decomposed, Signed;
    DetRightExactly(m, n);
    var a := Load(m, n);
    var p := new int[n + 1];
    var ok; ghost var stage;
    ok, stage := LuDecomp(a, p, n);
    if !ok {
      return 0.0;
    }
    d := SignedProduct(a, p, n);
  }

  /** The product of the pivots, with the sign of the exchanges. */
  method SignedProduct(a: Rows, p: array<int>, n: nat) returns (d: real)
    requires RowsOk(a, n) && n > 0 && p.Length == n + 1
    ensures d == Signed(p[n] - n, DiagonalProduct(Mat(a), 0, n))
  {
    hide DiagonalProduct;
    d := ProductOfPivots(a, n);
    if (p[n] - n) % 2 != 0 {
      d := -d;
    }
  }

  method ProductOfPivots(a: Rows, n: nat) returns (det: real)
    requires RowsOk(a, n) && n > 0
    ensures det == DiagonalProduct(Mat(a), 0, n)
  {
    hide DiagonalProduct;
    ghost var m := Mat(a);
    det := a[0][0];
    DiagonalStep(m, 0, n);
    for i := 1 to n
      invariant det * DiagonalProduct(m, i, n) == DiagonalProduct(m, 0, n)
    {
      DiagonalStep(m, i, n);
      Reassociate(det, m[i][i], DiagonalProduct(m, i + 1, n));
      det := det * a[i][i];
    }
    DiagonalEnd(m, n);
  }

  lemma DiagonalStep(m: Matrix, i: nat, n: nat)
    requires Square(m, n) && i < n
    ensures DiagonalProduct(m, i, n) == m[i][i] * DiagonalProduct(m, i + 1, n)
  {
  }

  lemma DiagonalEnd(m: Matrix, n: nat)
    ensures DiagonalProduct(m, n, n) == 1.0
  {
  }

  lemma SuccessDet(m: Matrix, rest: Matrix, p: seq<int>, swaps: nat, n: nat)
    requires Stage(m, rest, p, swaps, n, n)
    ensures Det(m, Range(0, n)) == Signed(swaps, DiagonalProduct(rest, 0, n))
  {
    hide Det, DiagonalProduct;
    FinishedDet(m, rest, swaps, n);
  }

  /** Where elimination stops, the determinant is zero exactly if that of the part that is left is; in
      particular if the column has become exactly zero. */
  lemma ZeroIsRightWhen(m: Matrix, n: nat)
    requires Square(m, n) && Stops(m, n)
    ensures var e := Decomposed(m, n);
            && (Det(m, Range(0, n)) == 0.0 <==> Det(Working(e.m, e.stage)[e.stage..], Range(e.stage, n)) == 0.0)
            && ((forall r | e.stage <= r < n :: At(e.m, r, e.stage) == 0.0) ==> Det(m, Range(0, n)) == 0.0)
  {
    hide Decomposed;
    DecomposedStage(m, n);
    var e := Decomposed(m, n);
    var rest, stage, swaps := e.m, e.stage, e.swaps;
    hide Det, Working, Factors, CarriesDet, Range;
    StoppedDet(m, rest, swaps, stage, n);
    PivotProduct(rest, 0, stage, n);
    NonZeroProduct(DiagonalProduct(rest, 0, stage), Det(Working(rest, stage)[stage..], Range(stage, n)));
    if forall r | stage <= r < n :: At(rest, r, stage) == 0.0 {
      ZeroPivotColumn(m, rest, swaps, stage, n);
    }
  }

  lemma NonZeroProduct(d: real, e: real)
    requires d != 0.0
    ensures d * e == 0.0 <==> e == 0.0
  {
  }

  lemma {:induction false} PivotProduct(m: Matrix, k: nat, s: nat, n: nat)
    requires Bounded(m, s, n) && k <= s
    ensures DiagonalProduct(m, k, s) != 0.0
    decreases s - k
  {
    if k < s {
      PivotProduct(m, k + 1, s, n);
      assert Abs(At(m, k, k)) >= EPSILON;
      NonZeroProduct(At(m, k, k), DiagonalProduct(m, k + 1, s));
    }
  }

  /** The family on which the answer is wrong already in dimension one: a non-zero entry below
      DBL_EPSILON stops the elimination, and `det` answers zero although the determinant is that entry. */
  lemma TinyDeterminant(x: real)
    requires 0.0 < Abs(x) < EPSILON
    ensures Stops([[x]], 1) && DetAnswer([[x]], 1) == 0.0
    ensures Det([[x]], Range(0, 1)) == x != 0.0
  {
    RunUnfolds(Packed([[x]], Upto(1), 0, 0), 1);
    DetIsSum([[x]], Range(0, 1));
    assert [[x]][1..] == [] && Drop(Range(0, 1), 0) == [];
    assert Sum(1, Terms([[x]], Range(0, 1))) == Term([[x]], Range(0, 1), 0);
  }

  // ---------------------------------------------------------------- determinant2

  /** `determinant2`: the expansion along the first remaining row, with a scratch array of columns that
      one assignment a round turns from the columns without i into the columns without i + 1. */
  method Determinant2(m: Matrix, row: nat, cols: array<nat>) returns (d: real)
    requires cols.Length > 0 && row + cols.Length == |m|
    ensures d == Det(m[row..], cols[..])
    decreases cols.Length
  {
    hide Det, Expand, At;
    ghost var w, columns := m[row..], cols[..];
    AtFirstRow(m, row, cols[0]);
    var n := cols.Length - 1;
    if n == 0 {
      SingleDet(w, columns);
      return At(m, row, cols[0]);
    }
    var cols2 := new nat[n](i requires 0 <= i < n reads cols => cols[i + 1]);
    assert cols2[..] == Drop(columns, 0);
    assert w[1..] == m[row + 1..];
    var minor := Determinant2(m, row + 1, cols2);
    d := At(m, row, cols[0]) * minor;
    FirstTerm(w, columns);
    for i := 0 to n
      invariant cols2[..] == Drop(columns, i) && cols[..] == columns
      invariant d == Expand(w, columns, i + 1)
    {
      cols2[i] := cols[i];
      NextDrop(columns, i);
      assert cols2[..] == Drop(columns, i + 1);
      minor := Determinant2(m, row + 1, cols2);
      var x := At(m, row, cols[i + 1]) * minor;
      NextTerm(m, row, columns, i, minor);
      d := if i % 2 != 0 then d + x else d - x;
    }
    DetIsExpand(w, columns);
  }

  lemma AtFirstRow(m: Matrix, row: nat, c: int)
    requires row < |m|
    ensures At(m[row..], 0, c) == At(m, row, c)
  {
  }

  lemma DetIsExpand(w: Matrix, cols: seq<nat>)
    requires |w| == |cols| > 0
    ensures Det(w, cols) == Expand(w, cols, |cols|)
  {
  }

  lemma SingleDet(w: Matrix, cols: seq<nat>)
    requires |w| == |cols| == 1
    ensures Det(w, cols) == At(w, 0, cols[0])
  {
    assert Expand(w, cols, 1) == Expand(w, cols, 0) + Sign(0) * At(w, 0, cols[0]) * Det(w[1..], Drop(cols, 0));
  }

  lemma FirstTerm(w: Matrix, cols: seq<nat>)
    requires |w| == |cols| > 0
    ensures Expand(w, cols, 1) == At(w, 0, cols[0]) * Det(w[1..], Drop(cols, 0))
  {
    hide Det, At;
    assert Expand(w, cols, 0) == 0.0;
    assert Sign(0) == 1.0;
  }

  lemma NextDrop(cols: seq<nat>, i: nat)
    requires i + 1 < |cols|
    ensures Drop(cols, i)[i := cols[i]] == Drop(cols, i + 1)
  {
  }

  lemma NextTerm(m: Matrix, row: nat, cols: seq<nat>, i: nat, minor: real)
    requires row < |m| && |m[row..]| == |cols| && i + 1 < |cols|
    requires minor == Det(m[row + 1..], Drop(cols, i + 1))
    ensures Expand(m[row..], cols, i + 2)
         == if i % 2 != 0 then Expand(m[row..], cols, i + 1) + At(m, row, cols[i + 1]) * minor
            else Expand(m[row..], cols, i + 1) - At(m, row, cols[i + 1]) * minor
  {
    hide Det;
    var w := m[row..];
    assert w[1..] == m[row + 1..];
    assert At(w, 0, cols[i + 1]) == At(m, row, cols[i + 1]);
    assert Sign(i + 1) == if i % 2 != 0 then 1.0 else -1.0;
  }

  /** The two determinants of the source agree exactly if elimination gets through or both are zero. */
  method DeterminantsAgree(m: Matrix, n: nat) returns (lu: Result<real>, cofactors: real)
    requires Square(m, n) && n > 0
    ensures lu == Success(DetAnswer(m, n)) && cofactors == Det(m, Range(0, n))
    ensures lu == Success(cofactors) <==> !Stops(m, n) || cofactors == 0.0
  {
    hide Det, Stops, DetAnswer;
    DetRightExactly(m, n);
    lu := DetReal(m, n);
    var cols := new nat[n](i => i);
    assert cols[..] == Range(0, n);
    cofactors := Determinant2(m, 0, cols);
    assert m[0..] == m;
  }
}
