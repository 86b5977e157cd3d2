/** Solving linear systems and inverting matrices with the packed LU factors, as the `\` methods of
    src/ml_array.c do by forward and back substitution. */
module LinearSystems {
  import opened Sums
  import opened LuTheory
  import opened Elimination
  import opened Lu
  import opened LinearAlgebra
  import Finite

  /** Entries v[k] * w[k] as a function of k. */
  function Dots(v: Vector, w: Vector): int -> real {
    k => Get(v, k) * Get(w, k)
  }

  // ---------------------------------------------------------------- the two substitutions

  /** y solves L y = P b: every entry is what is left after the entries before it. */
  ghost predicate ForwardSolved(m: Matrix, p: seq<int>, b: Vector, y: Vector, upto: nat, n: nat) {
    && Square(m, n) && IsPermutation(p, n) && |b| == |y| == n && upto <= n
    && forall i: nat | i < upto :: y[i] == b[p[i]] - Sum(i, Dots(m[i], y))
  }

  /** x solves U x = y: from the last entry down to `from`. */
  ghost predicate BackSolved(m: Matrix, y: Vector, x: Vector, from: nat, n: nat) {
    && Square(m, n) && |x| == |y| == n && from <= n
    && (forall i: nat | from <= i < n ::
         x[i] * m[i][i] == y[i] - (Sum(n, Dots(m[i], x)) - Sum(i + 1, Dots(m[i], x))))
    && (forall i: nat | i < from :: x[i] == y[i])
  }

  lemma DotsAgree(v: Vector, w: Vector, w': Vector, k: nat)
    requires forall j | 0 <= j < k :: Get(w, j) == Get(w', j)
    ensures Sum(k, Dots(v, w)) == Sum(k, Dots(v, w'))
  {
    SumCongruent(k, Dots(v, w), Dots(v, w'));
  }

  lemma {:induction false} SumTail(k: nat, n: nat, f: int -> real, g: int -> real)
    requires k <= n && forall j | k <= j < n :: f(j) == g(j)
    ensures Sum(n, f) - Sum(k, f) == Sum(n, g) - Sum(k, g)
  {
    if k < n {
      SumTail(k, n - 1, f, g);
    }
  }

  lemma ForwardNext(m: Matrix, p: seq<int>, b: Vector, y: Vector, i: nat, n: nat, t: real)
    requires ForwardSolved(m, p, b, y, i, n) && i < n
    requires t == b[p[i]] - Sum(i, Dots(m[i], y))
    ensures ForwardSolved(m, p, b, y[i := t], i + 1, n)
  {
    hide Sum;
    forall k: nat | k < i + 1 ensures y[i := t][k] == b[p[k]] - Sum(k, Dots(m[k], y[i := t])) {
      DotsAgree(m[k], y, y[i := t], k);
    }
  }

  lemma BackNext(m: Matrix, y: Vector, x: Vector, i: nat, n: nat, t: real)
    requires BackSolved(m, y, x, i + 1, n) && i < n
    requires t * m[i][i] == x[i] - (Sum(n, Dots(m[i], x)) - Sum(i + 1, Dots(m[i], x)))
    ensures BackSolved(m, y, x[i := t], i, n)
  {
    hide Sum;
    var x' := x[i := t];
    forall k: nat | i <= k < n
      ensures x'[k] * m[k][k] == y[k] - (Sum(n, Dots(m[k], x')) - Sum(k + 1, Dots(m[k], x')))
    {
      SumTail(k + 1, n, Dots(m[k], x), Dots(m[k], x'));
      var before := Sum(n, Dots(m[k], x)) - Sum(k + 1, Dots(m[k], x));
      var after := Sum(n, Dots(m[k], x')) - Sum(k + 1, Dots(m[k], x'));
      assert before == after;
      if k > i {
        assert x'[k] == x[k] && x[k] * m[k][k] == y[k] - before;
        assert x'[k] * m[k][k] == y[k] - after;
      } else {
        assert x'[k] == t && m[k][k] == m[i][i] && x[i] == y[k];
        assert t * m[i][i] == y[k] - before;
        assert x'[k] * m[k][k] == y[k] - after;
      }
    }
  }

  // ---------------------------------------------------------------- why they solve the system

  lemma ForwardIsL(m: Matrix, p: seq<int>, b: Vector, y: Vector, l: Matrix, n: nat, i: nat)
    requires ForwardSolved(m, p, b, y, n, n) && IsLower(l, m, n) && i < n
    ensures ApplyAt(n, l, y, i) == b[p[i]]
  {
    hide Sum;
    var f := RowProducts(l, y, i);
    SumPrefix(i + 1, n, f);
    SumSucc(i, f);
    assert forall k | 0 <= k < i :: f(k) == Dots(m[i], y)(k);
    SumCongruent(i, f, Dots(m[i], y));
    assert y[i] == b[p[i]] - Sum(i, Dots(m[i], y));
  }

  lemma BackIsU(m: Matrix, y: Vector, x: Vector, u: Matrix, n: nat, i: nat)
    requires BackSolved(m, y, x, 0, n) && IsUpper(u, m, n) && i < n
    ensures ApplyAt(n, u, x, i) == y[i]
  {
    hide Sum;
    var f := RowProducts(u, x, i);
    SumZero(i, f);
    SumSucc(i, f);
    assert f(i) == m[i][i] * x[i];
    SumTail(i + 1, n, f, Dots(m[i], x));
    assert x[i] * m[i][i] == y[i] - (Sum(n, Dots(m[i], x)) - Sum(i + 1, Dots(m[i], x)));
  }

  function LowerOf(m: Matrix, n: nat): (l: Matrix)
    requires |m| == n && forall i | 0 <= i < n :: |m[i]| == n
    ensures |l| == n && forall r | 0 <= r < n :: l[r] == LowerRow(m[r], r)
  {
    seq(n, r requires 0 <= r < n => LowerRow(m[r], r))
  }

  function LowerRow(row: Vector, r: int): (l: Vector)
    ensures |l| == |row|
    ensures forall c | 0 <= c < |row| :: l[c] == if c < r then row[c] else if c == r then 1.0 else 0.0
  {
    seq(|row|, c requires 0 <= c < |row| => if c < r then row[c] else if c == r then 1.0 else 0.0)
  }

  /** Forward substitution, then back substitution, solves the system that was decomposed. */
  lemma SubstitutionsSolve(a: Matrix, m: Matrix, p: seq<int>, b: Vector, y: Vector, x: Vector, n: nat, i: nat)
    requires Factors(a, m, p, n, n) && i < n
    requires ForwardSolved(m, p, b, y, n, n) && BackSolved(m, y, x, 0, n)
    ensures ApplyAt(n, a, x, i) == b[i]
  {
    var l, u := LowerOf(m, n), Working(m, n);
    assert IsLower(l, m, n) && IsUpper(u, m, n);
    var r := Finite.InjectionIsOnto(p, n, i);
    forall c: nat | c < n ensures MulAt(n, l, u, r, c) == At(a, i, c) {
      hide MulAt, IsLower, IsUpper, Partial;
      PackedProduct(m, l, u, n, r, c);
      assert Partial(m, n, r, c) == At(a, p[r], c);
    }
    forall k: nat | k < n ensures ApplyAt(n, u, x, k) == Get(y, k) {
      hide ApplyAt, IsLower, IsUpper;
      BackIsU(m, y, x, u, n, k);
    }
    RowSolves(a, l, u, x, y, n, r, i);
    hide ApplyAt, IsUpper;
    ForwardIsL(m, p, b, y, l, n, r);
  }

  /** Row r of L U is row i of A, so L (U x) in row r is A x in row i. */
  lemma RowSolves(a: Matrix, l: Matrix, u: Matrix, x: Vector, y: Vector, n: nat, r: nat, i: nat)
    requires forall c: nat | c < n :: MulAt(n, l, u, r, c) == At(a, i, c)
    requires forall k: nat | k < n :: ApplyAt(n, u, x, k) == Get(y, k)
    ensures ApplyAt(n, a, x, i) == ApplyAt(n, l, y, r)
  {
    hide MulAt, ApplyAt;
    ApplyAssociative(n, l, u, a, x, y, r, i);
  }

  // ---------------------------------------------------------------- A \ b

  /** The inner loop of the forward substitution. */
  method ForwardEntry(row: array<real>, x: array<real>, i: nat)
    requires row != x && i < x.Length <= row.Length
    modifies x
    ensures x[..] == old(x[..])[i := old(x[i]) - Sum(i, Dots(row[..], old(x[..])))]
  {
    ghost var f := Dots(row[..], x[..]);
    ghost var x0 := x[..];
    for k := 0 to i
      invariant x[i] == x0[i] - Sum(k, f) && forall j | 0 <= j < x.Length && j != i :: x[j] == x0[j]
    {
      SumSucc(k, f);
      assert f(k) == row[k] * x0[k];
      x[i] := x[i] - row[k] * x[k];
    }
    assert x[..] == x0[i := x[i]];
  }

  /** The inner loop of the back substitution and its division. */
  method BackEntry(row: array<real>, x: array<real>, i: nat)
    requires row != x && i < x.Length == row.Length && row[i] != 0.0
    modifies x
    ensures x[..] == old(x[..])[i := x[i]]
    ensures x[i] * row[i] == old(x[i]) - (Sum(x.Length, Dots(row[..], old(x[..]))) - Sum(i + 1, Dots(row[..], old(x[..]))))
  {
    hide Sum;
    BackProducts(row, x, i);
    ghost var t := x[i];
    x[i] := x[i] / row[i];
    QuotientBack(t, row[i]);
  }

  lemma QuotientBack(t: real, d: real)
    requires d != 0.0
    ensures (t / d) * d == t
  {
  }

  /** The inner loop of the back substitution. */
  method BackProducts(row: array<real>, x: array<real>, i: nat)
    requires row != x && i < x.Length == row.Length
    modifies x
    ensures x[..] == old(x[..])[i := x[i]]
    ensures x[i] == old(x[i]) - (Sum(x.Length, Dots(row[..], old(x[..]))) - Sum(i + 1, Dots(row[..], old(x[..]))))
  {
    hide Sum;
    ghost var f := Dots(row[..], x[..]);
    ghost var x0 := x[..];
    for k := i + 1 to x.Length
      invariant x[i] == x0[i] - (Sum(k, f) - Sum(i + 1, f))
      invariant x[..] == x0[i := x[i]]
    {
      SumSucc(k, f);
      assert f(k) == row[k] * x0[k];
      var t := x[i] - row[k] * x[k];
      x[i] := t;
      assert x[..] == x0[i := t];
    }
  }

  lemma StageIsUsable(m0: Matrix, m: Matrix, p: seq<int>, swaps: nat, n: nat)
    requires Stage(m0, m, p, swaps, n, n)
    ensures Usable(m0, m, p, n)
  {
    forall k | 0 <= k < n ensures m[k][k] != 0.0 {
      assert Abs(At(m, k, k)) >= EPSILON;
    }
  }

  /** Both substitution loops on one right-hand side. */
  method Substitute(a: Rows, p: array<int>, b: Vector, n: nat) returns (x: array<real>, ghost y: Vector)
    requires RowsOk(a, n) && p.Length == n + 1 && |b| == n && IsPermutation(p[..n], n)
    requires forall k | 0 <= k < n :: Mat(a)[k][k] != 0.0
    ensures fresh(x)
    ensures ForwardSolved(Mat(a), p[..n], b, y, n, n)
    ensures BackSolved(Mat(a), y, x[..], 0, n)
  {
    hide ForwardSolved, BackSolved, Sum;
    ghost var m := Mat(a);
    x := new real[n](_ => 0.0);
    NothingForward(m, p[..n], b, x[..], n);
    for i := 0 to n
      invariant Mat(a) == m && x.Length == n && RowsOk(a, n)
      invariant ForwardSolved(m, p[..n], b, x[..], i, n)
    {
      ghost var x0 := x[..];
      x[i] := b[p[i]];
      ghost var x1 := x[..];
      assert x1 == x0[i := b[p[i]]];
      ForwardEntry(a[i], x, i);
      DotsAgree(m[i], x0, x1, i);
      ForwardNext(m, p[..n], b, x0, i, n, x[i]);
      assert x[..] == x0[i := x[i]];
    }
    y := x[..];
    NothingBack(m, y, n);
    for i := n downto 0
      invariant Mat(a) == m && x.Length == n && RowsOk(a, n)
      invariant BackSolved(m, y, x[..], i, n)
    {
      ghost var x0 := x[..];
      BackEntry(a[i], x, i);
      BackNext(m, y, x0, i, n, x[i]);
    }
  }

  lemma NothingForward(m: Matrix, p: seq<int>, b: Vector, y: Vector, n: nat)
    requires Square(m, n) && IsPermutation(p, n) && |b| == |y| == n
    ensures ForwardSolved(m, p, b, y, 0, n)
  {
  }

  lemma NothingBack(m: Matrix, y: Vector, n: nat)
    requires Square(m, n) && |y| == n
    ensures BackSolved(m, y, y, n, n)
  {
  }

  /** `\` for a matrix and a vector: the solution of A X = B. */
  method Solve(m: Matrix, cols: nat, b: Vector) returns (r: Result<Vector>)
    requires Rectangular(m, cols)
    ensures r == Failure(ShapeError) <==> |m| != cols
    ensures r == Failure(SizeMismatch) <==> |m| == cols && |b| != cols
    ensures r == Failure(Degenerate) <==> |m| == |b| == cols && Stops(m, cols)
    ensures r.Success? ==> |r.value| == cols && forall i: nat | i < cols :: ApplyAt(cols, m, r.value, i) == b[i]
  {
    if |m| != cols {
      return Failure(ShapeError);
    }
    if |b| != cols {
      return Failure(SizeMismatch);
    }
    r := SolveSquare(m, cols, b);
  }

  method SolveSquare(m: Matrix, n: nat, b: Vector) returns (r: Result<Vector>)
    requires Square(m, n) && |b| == n
    ensures r.Failure? <==> Stops(m, n)
    ensures r.Failure? ==> r.error == Degenerate
    ensures r.Success? ==> |r.value| == n && forall i: nat | i < n :: ApplyAt(n, m, r.value, i) == b[i]
  {
    hide ForwardSolved, BackSolved, ApplyAt, Factors, IsPermutation, Usable, Stops;
    var ok, a, p := Decompose(m, n);
    if !ok {
      return Failure(Degenerate);
    }
    UsableFacts(m, Mat(a), p[..n], n);
    var x;
    ghost var y;
    x, y := Substitute(a, p, b, n);
    AllSolved(m, Mat(a), p[..n], b, y, x[..], n);
    return Success(x[..]);
  }

  /** A complete decomposition. */
  ghost predicate Usable(m0: Matrix, m: Matrix, p: seq<int>, n: nat) {
    && Square(m, n) && IsPermutation(p, n) && Factors(m0, m, p, n, n)
    && forall k | 0 <= k < n :: m[k][k] != 0.0
  }

  lemma UsableFacts(m0: Matrix, m: Matrix, p: seq<int>, n: nat)
    requires Usable(m0, m, p, n)
    ensures Square(m, n) && IsPermutation(p, n) && Factors(m0, m, p, n, n)
    ensures forall k | 0 <= k < n :: m[k][k] != 0.0
  {
  }

  /** The copy of the matrix and its decomposition, with which both methods start. */
  method Decompose(m: Matrix, n: nat) returns (ok: bool, a: Rows, p: array<int>)
    requires Square(m, n)
    ensures fresh(a) && fresh(RowSet(a)) && fresh(p) && RowsOk(a, n) && p.Length == n + 1
    ensures ok == !Stops(m, n)
    ensures ok ==> Usable(m, Mat(a), p[..n], n)
  {
    hide Stage, NoPivot, Usable, Decomposed;
    a := Load(m, n);
    p := new int[n + 1];
    ghost var stage;
    ok, stage := LuDecomp(a, p, n);
    if ok {
      StageIsUsable(m, Mat(a), p[..n], p[n] - n, n);
    }
  }

  lemma AllSolved(a: Matrix, m: Matrix, p: seq<int>, b: Vector, y: Vector, x: Vector, n: nat)
    requires Factors(a, m, p, n, n)
    requires ForwardSolved(m, p, b, y, n, n) && BackSolved(m, y, x, 0, n)
    ensures |x| == |b| == n && forall i: nat | i < n :: ApplyAt(n, a, x, i) == b[i]
  {
    forall i: nat | i < n ensures ApplyAt(n, a, x, i) == b[i] {
      hide ApplyAt, Factors, BackSolved;
      SubstitutionsSolve(a, m, p, b, y, x, n, i);
    }
  }

  // ---------------------------------------------------------------- the inverse

  /** Column j of a matrix. */
  function Column(m: Matrix, j: nat): (v: Vector)
    ensures |v| == |m| && forall i | 0 <= i < |m| :: v[i] == At(m, i, j)
  {
    seq(|m|, i requires 0 <= i < |m| => At(m, i, j))
  }

  function Unit(n: nat, j: nat): (v: Vector)
    ensures |v| == n && forall i | 0 <= i < n :: v[i] == if i == j then 1.0 else 0.0
  {
    seq(n, i => if i == j then 1.0 else 0.0)
  }

  /** Only entry (i, j) changed, to t. */
  ghost predicate CellSet(before: Matrix, after: Matrix, i: nat, j: nat, t: real, n: nat) {
    && Square(before, n) && Square(after, n) && i < n && j < n
    && forall r, c | 0 <= r < n && 0 <= c < n :: after[r][c] == if r == i && c == j then t else before[r][c]
  }

  lemma CellSetColumn(before: Matrix, after: Matrix, i: nat, j: nat, t: real, n: nat)
    requires CellSet(before, after, i, j, t, n)
    ensures Column(after, j) == Column(before, j)[i := t]
  {
  }

  lemma CellSetAgain(m: Matrix, x: Matrix, x': Matrix, i: nat, j: nat, t: real, t': real, n: nat)
    requires CellSet(m, x, i, j, t, n) && CellSet(x, x', i, j, t', n)
    ensures CellSet(m, x', i, j, t', n)
  {
  }

  lemma CellSetReads(m: Matrix, x: Matrix, i: nat, j: nat, t: real, n: nat, k: nat)
    requires CellSet(m, x, i, j, t, n) && k < n
    ensures Square(m, n) && Square(x, n) && x[i][j] == t && (k != i ==> x[k][j] == m[k][j])
  {
  }

  method SetCell(ia: Rows, i: nat, j: nat, n: nat, t: real)
    requires RowsOk(ia, n) && i < n && j < n
    modifies ia[i]
    ensures RowsOk(ia, n) && CellSet(old(Mat(ia)), Mat(ia), i, j, t, n)
  {
    ia[i][j] := t;
  }

  /** One pass of either inner loop: takes one product off the cell. */
  method SubtractProduct(row: array<real>, ia: Rows, i: nat, j: nat, n: nat, k: nat, ghost m: Matrix, ghost t: real)
    requires RowsOk(ia, n) && row !in RowSet(ia) && row.Length == n && i < n && j < n && k < n && k != i
    requires CellSet(m, Mat(ia), i, j, t, n)
    modifies ia[i]
    ensures RowsOk(ia, n) && CellSet(m, Mat(ia), i, j, t - Dots(row[..], Column(m, j))(k), n)
  {
    hide CellSet;
    ghost var x := Mat(ia);
    CellSetReads(m, x, i, j, t, n, k);
    assert ia[i] in RowSet(ia);
    var t' := ia[i][j] - row[k] * ia[k][j];
    assert t' == t - Dots(row[..], Column(m, j))(k);
    SetCell(ia, i, j, n, t');
    CellSetAgain(m, x, Mat(ia), i, j, t, t', n);
  }

  /** The inner loop of the forward substitution on column j. */
  method ForwardCell(row: array<real>, ia: Rows, i: nat, j: nat, n: nat)
    requires RowsOk(ia, n) && row !in RowSet(ia) && row.Length == n && i < n && j < n
    modifies ia[i]
    ensures RowsOk(ia, n)
    ensures CellSet(old(Mat(ia)), Mat(ia), i, j,
                    old(ia[i][j]) - Sum(i, Dots(row[..], Column(old(Mat(ia)), j))), n)
  {
    hide CellSet, Sum;
    ghost var m := Mat(ia);
    ghost var f := Dots(row[..], Column(m, j));
    ghost var t := m[i][j];
    assert ia[i] in RowSet(ia);
    SetCell(ia, i, j, n, ia[i][j]);
    SumNone(f);
    for k := 0 to i
      invariant RowsOk(ia, n) && row[..] == old(row[..])
      invariant t == m[i][j] - Sum(k, f)
      invariant CellSet(m, Mat(ia), i, j, t, n)
    {
      SubtractProduct(row, ia, i, j, n, k, m, t);
      SumSucc(k, f);
      t := t - f(k);
    }
  }

  lemma SumNone(f: int -> real)
    ensures Sum(0, f) == 0.0
  {
  }

  /** The inner loop of the back substitution on column j, and its division. */
  method BackCell(row: array<real>, ia: Rows, i: nat, j: nat, n: nat)
    requires RowsOk(ia, n) && row !in RowSet(ia) && row.Length == n && i < n && j < n && row[i] != 0.0
    modifies ia[i]
    ensures RowsOk(ia, n)
    ensures CellSet(old(Mat(ia)), Mat(ia), i, j, ia[i][j], n)
    ensures ia[i][j] * row[i] == old(ia[i][j])
         - (Sum(n, Dots(row[..], Column(old(Mat(ia)), j))) - Sum(i + 1, Dots(row[..], Column(old(Mat(ia)), j))))
  {
    hide CellSet, Sum;
    ghost var m := Mat(ia);
    ghost var f := Dots(row[..], Column(m, j));
    ghost var t := m[i][j];
    assert ia[i] in RowSet(ia);
    SetCell(ia, i, j, n, ia[i][j]);
    for k := i + 1 to n
      invariant RowsOk(ia, n) && row[..] == old(row[..])
      invariant t == m[i][j] - (Sum(k, f) - Sum(i + 1, f))
      invariant CellSet(m, Mat(ia), i, j, t, n)
    {
      SubtractProduct(row, ia, i, j, n, k, m, t);
      SumSucc(k, f);
      t := t - f(k);
    }
    DivideCell(row, ia, i, j, n, m, t);
  }

  method DivideCell(row: array<real>, ia: Rows, i: nat, j: nat, n: nat, ghost m: Matrix, ghost t: real)
    requires RowsOk(ia, n) && row !in RowSet(ia) && row.Length == n && i < n && j < n && row[i] != 0.0
    requires CellSet(m, Mat(ia), i, j, t, n)
    modifies ia[i]
    ensures RowsOk(ia, n) && CellSet(m, Mat(ia), i, j, ia[i][j], n) && ia[i][j] * row[i] == t
  {
    hide CellSet;
    ghost var x := Mat(ia);
    CellSetReads(m, x, i, j, t, n, i);
    assert ia[i] in RowSet(ia);
    var q := ia[i][j] / row[i];
    assert q * row[i] == t;
    SetCell(ia, i, j, n, q);
    CellSetReads(x, Mat(ia), i, j, q, n, i);
    CellSetAgain(m, x, Mat(ia), i, j, t, q, n);
  }

  /** Columns other than j are untouched. */
  ghost predicate OthersKept(before: Matrix, after: Matrix, j: nat, n: nat) {
    && Square(before, n) && Square(after, n)
    && forall r, c | 0 <= r < n && 0 <= c < n && c != j :: after[r][c] == before[r][c]
  }

  /** Both substitution loops on column j of the inverse. */
  method InvertColumn(a: Rows, p: array<int>, ia: Rows, n: nat, j: nat) returns (ghost y: Vector)
    requires RowsOk(a, n) && RowsOk(ia, n) && RowSet(a) !! RowSet(ia)
    requires p.Length == n + 1 && IsPermutation(p[..n], n) && j < n
    requires forall k | 0 <= k < n :: Mat(a)[k][k] != 0.0
    modifies RowSet(ia)
    ensures RowsOk(a, n) && RowsOk(ia, n) && Mat(a) == old(Mat(a))
    ensures OthersKept(old(Mat(ia)), Mat(ia), j, n)
    ensures ForwardSolved(Mat(a), p[..n], Unit(n, j), y, n, n)
    ensures BackSolved(Mat(a), y, Column(Mat(ia), j), 0, n)
  {
    hide ForwardSolved, BackSolved, Sum, CellSet, OthersKept, IsPermutation;
    ghost var m, w := Mat(a), Mat(ia);
    ghost var b := Unit(n, j);
    NothingForward(m, p[..n], b, Column(w, j), n);
    OthersKeptRefl(w, j, n);
    for i := 0 to n
      invariant RowsOk(a, n) && RowsOk(ia, n) && Mat(a) == m
      invariant OthersKept(w, Mat(ia), j, n)
      invariant ForwardSolved(m, p[..n], b, Column(Mat(ia), j), i, n)
    {
      ForwardRound(a, p, ia, n, j, i, m, w);
    }
    y := Column(Mat(ia), j);
    NothingBack(m, y, n);
    for i := n downto 0
      invariant RowsOk(a, n) && RowsOk(ia, n) && Mat(a) == m
      invariant OthersKept(w, Mat(ia), j, n)
      invariant BackSolved(m, y, Column(Mat(ia), j), i, n)
    {
      BackRound(a, ia, n, j, i, m, w, y);
    }
  }

  /** One round of the backward loop. */
  method BackRound(a: Rows, ia: Rows, n: nat, j: nat, i: nat, ghost m: Matrix, ghost w: Matrix, ghost y: Vector)
    requires RowsOk(a, n) && RowsOk(ia, n) && RowSet(a) !! RowSet(ia) && m == Mat(a)
    requires j < n && i < n && m[i][i] != 0.0
    requires OthersKept(w, Mat(ia), j, n)
    requires BackSolved(m, y, Column(Mat(ia), j), i + 1, n)
    modifies RowSet(ia)
    ensures RowsOk(a, n) && RowsOk(ia, n) && Mat(a) == m
    ensures OthersKept(w, Mat(ia), j, n)
    ensures BackSolved(m, y, Column(Mat(ia), j), i, n)
  {
    hide BackSolved, Sum, OthersKept, CellSet;
    ghost var x0 := Mat(ia);
    NotInOther(a, ia, i, n);
    BackCell(a[i], ia, i, j, n);
    ghost var t := ia[i][j];
    OthersKeptNext(w, x0, Mat(ia), i, j, t, n);
    CellSetColumn(x0, Mat(ia), i, j, t, n);
    BackNext(m, y, Column(x0, j), i, n, t);
  }

  /** One round of the forward loop: the entry starts as one or zero, then the products go. */
  method ForwardRound(a: Rows, p: array<int>, ia: Rows, n: nat, j: nat, i: nat, ghost m: Matrix, ghost w: Matrix)
    requires RowsOk(a, n) && RowsOk(ia, n) && RowSet(a) !! RowSet(ia) && m == Mat(a)
    requires p.Length == n + 1 && IsPermutation(p[..n], n) && j < n && i < n
    requires OthersKept(w, Mat(ia), j, n)
    requires ForwardSolved(m, p[..n], Unit(n, j), Column(Mat(ia), j), i, n)
    modifies RowSet(ia)
    ensures RowsOk(a, n) && RowsOk(ia, n) && Mat(a) == m
    ensures OthersKept(w, Mat(ia), j, n)
    ensures ForwardSolved(m, p[..n], Unit(n, j), Column(Mat(ia), j), i + 1, n)
  {
    hide ForwardSolved, Sum, OthersKept, CellSet;
    NotInOther(a, ia, i, n);
    ghost var x0 := Mat(ia);
    SetCell(ia, i, j, n, if p[i] == j then 1.0 else 0.0);
    ghost var x1 := Mat(ia);
    CellSetReads(x0, x1, i, j, if p[i] == j then 1.0 else 0.0, n, i);
    OthersKeptNext(w, x0, x1, i, j, x1[i][j], n);
    CellSetColumn(x0, x1, i, j, x1[i][j], n);
    ForwardCell(a[i], ia, i, j, n);
    ghost var t := x1[i][j] - Sum(i, Dots(m[i], Column(x1, j)));
    OthersKeptNext(w, x1, Mat(ia), i, j, t, n);
    CellSetColumn(x1, Mat(ia), i, j, t, n);
    DotsAgree(m[i], Column(x0, j), Column(x1, j), i);
    ForwardNext(m, p[..n], Unit(n, j), Column(x0, j), i, n, t);
    assert Column(x1, j)[i := t] == Column(x0, j)[i := t];
  }

  lemma NotInOther(a: Rows, ia: Rows, i: nat, n: nat)
    requires RowsOk(a, n) && RowsOk(ia, n) && RowSet(a) !! RowSet(ia) && i < n
    ensures a[i] !in RowSet(ia) && ia[i] in RowSet(ia)
  {
    assert a[i] in RowSet(a);
  }

  lemma OthersKeptRefl(w: Matrix, j: nat, n: nat)
    requires Square(w, n)
    ensures OthersKept(w, w, j, n)
  {
  }

  lemma OthersKeptNext(w: Matrix, x: Matrix, x': Matrix, i: nat, j: nat, t: real, n: nat)
    requires OthersKept(w, x, j, n) && CellSet(x, x', i, j, t, n)
    ensures OthersKept(w, x', j, n)
  {
  }

  /** The first `j` columns of `x` are columns of a right inverse of `m0`. */
  ghost predicate InvertedUpto(m0: Matrix, x: Matrix, j: nat, n: nat) {
    && Square(x, n)
    && forall i: nat, c: nat | i < n && c < j :: MulAt(n, m0, x, i, c) == if i == c then 1.0 else 0.0
  }

  lemma NextInverted(m0: Matrix, m: Matrix, p: seq<int>, y: Vector, x: Matrix, x': Matrix, j: nat, n: nat)
    requires InvertedUpto(m0, x, j, n) && j < n && OthersKept(x, x', j, n)
    requires Factors(m0, m, p, n, n)
    requires ForwardSolved(m, p, Unit(n, j), y, n, n) && BackSolved(m, y, Column(x', j), 0, n)
    ensures InvertedUpto(m0, x', j + 1, n)
  {
    hide Sum, ForwardSolved, BackSolved, Factors, ApplyAt, MulAt;
    AllSolved(m0, m, p, Unit(n, j), y, Column(x', j), n);
    forall i: nat, c: nat | i < n && c < j + 1
      ensures MulAt(n, m0, x', i, c) == if i == c then 1.0 else 0.0
    {
      if c == j {
        ColumnProduct(m0, x', i, j, n);
        assert ApplyAt(n, m0, Column(x', j), i) == Unit(n, j)[i];
      } else {
        OtherColumn(m0, x, x', j, i, c, n);
        assert MulAt(n, m0, x, i, c) == if i == c then 1.0 else 0.0;
      }
    }
  }

  lemma ColumnProduct(a: Matrix, x: Matrix, i: nat, j: nat, n: nat)
    requires Square(x, n) && j < n
    ensures MulAt(n, a, x, i, j) == ApplyAt(n, a, Column(x, j), i)
  {
    hide Sum;
    SumCongruent(n, Products(a, x, i, j), RowProducts(a, Column(x, j), i));
  }

  lemma OtherColumn(a: Matrix, x: Matrix, x': Matrix, j: nat, i: nat, c: nat, n: nat)
    requires OthersKept(x, x', j, n) && c < n && c != j
    ensures MulAt(n, a, x', i, c) == MulAt(n, a, x, i, c)
  {
    hide Sum;
    SumCongruent(n, Products(a, x', i, c), Products(a, x, i, c));
  }

  /** `\` for a matrix: X with A X = I. */
  method Inverse(m: Matrix, cols: nat) returns (r: Result<Matrix>)
    requires Rectangular(m, cols)
    ensures r == Failure(ShapeError) <==> |m| != cols
    ensures r == Failure(Degenerate) <==> |m| == cols && Stops(m, cols)
    ensures r.Failure? ==> r.error == ShapeError || r.error == Degenerate
    ensures r.Success? ==> Square(r.value, cols)
    ensures r.Success? ==> forall i: nat, j: nat | i < cols && j < cols ::
                             MulAt(cols, m, r.value, i, j) == if i == j then 1.0 else 0.0
  {
    if |m| != cols {
      return Failure(ShapeError);
    }
    r := InverseSquare(m, cols);
  }

  method InverseSquare(m: Matrix, n: nat) returns (r: Result<Matrix>)
    requires Square(m, n)
    ensures r.Failure? <==> Stops(m, n)
    ensures r.Failure? ==> r.error == Degenerate
    ensures r.Success? ==> InvertedUpto(m, r.value, n, n)
  {
    hide Factors, IsPermutation, InvertedUpto, ForwardSolved, BackSolved, OthersKept, Usable, Stops;
    var ok, a, p := Decompose(m, n);
    if !ok {
      return Failure(Degenerate);
    }
    ghost var packed := Mat(a);
    UsableFacts(m, packed, p[..n], n);
    var ia := Zeros(n);
    NothingInverted(m, Mat(ia), n);
    ghost var rows, perm := RowSet(ia), p[..];
    for j := 0 to n
      invariant RowsOk(a, n) && RowsOk(ia, n) && Mat(a) == packed && RowSet(a) !! rows
      invariant RowSet(ia) == rows && fresh(rows) && p[..] == perm
      invariant InvertedUpto(m, Mat(ia), j, n)
    {
      ghost var x := Mat(ia);
      ghost var y := InvertColumn(a, p, ia, n, j);
      NextInverted(m, packed, p[..n], y, x, Mat(ia), j, n);
    }
    var x := Read(ia, n);
    return Success(x);
  }

  lemma NothingInverted(m0: Matrix, x: Matrix, n: nat)
    requires Square(x, n)
    ensures InvertedUpto(m0, x, 0, n)
  {
  }
}
