/** What the in-place LU decomposition of src/ml_array.c maintains, as facts about the packed matrix:
    multipliers below the diagonal in finished columns, the reduced matrix everywhere else. */
module LuTheory {
  import opened Exchange
  import opened Sums
  import opened Determinant

  /** DBL_EPSILON, 2^-52. */
  const EPSILON: real := 1.0 / 4503599627370496.0

  function Abs(x: real): real {
    if x < 0.0 then -x else x
  }

  function Min(a: int, b: int): int {
    if a < b then a else b
  }

  // ---------------------------------------------------------------- one elimination step

  /** A row after subtracting its multiple of the pivot row; the multiplier is kept in column `s`. */
  ghost predicate Reduced(row: Vector, pivot: Vector, row': Vector, s: nat) {
    && |row'| == |row| == |pivot| && s < |row| && pivot[s] != 0.0
    && (forall k | 0 <= k < s :: row'[k] == row[k])
    && row'[s] * pivot[s] == row[s]
    && (forall k | s < k < |row| :: row'[k] == row[k] - row'[s] * pivot[k])
  }

  /** Rows below `s` are reduced by row `s`; rows up to `s` stay. */
  ghost predicate Step(m: Matrix, m': Matrix, s: nat, n: nat) {
    && Square(m, n) && Square(m', n) && s < n
    && (forall r | 0 <= r <= s :: m'[r] == m[r])
    && (forall r | s < r < n :: Reduced(m[r], m[s], m'[r], s))
  }

  // ---------------------------------------------------------------- the factorisation

  /** Row r of L times column c of U, as far as the first `s` columns are finished: entries of L left
      of the diagonal, its unit diagonal, and what is still to be eliminated. */
  function Partial(m: Matrix, s: int, r: int, c: int): real {
    var k := Min(r, s);
    if 0 <= c < k then Sum(c + 1, Products(m, m, r, c))
    else if k >= 0 then Sum(k, Products(m, m, r, c)) + At(m, r, c)
    else 0.0
  }

  ghost predicate IsPermutation(p: seq<int>, n: nat) {
    && |p| >= n
    && (forall i | 0 <= i < n :: 0 <= p[i] < n)
    && (forall i, j | 0 <= i < j < n :: p[i] != p[j])
  }

  /** Row `r` of the packed matrix stands for row `p[r]` of the input. */
  ghost predicate Factors(m0: Matrix, m: Matrix, p: seq<int>, s: nat, n: nat) {
    && Square(m0, n) && Square(m, n) && s <= n && IsPermutation(p, n)
    && forall r, c | 0 <= r < n && 0 <= c < n :: Partial(m, s, r, c) == At(m0, p[r], c)
  }

  lemma FactorsInitially(m: Matrix, p: seq<int>, n: nat)
    requires Square(m, n) && |p| >= n && forall i | 0 <= i < n :: p[i] == i
    ensures Factors(m, m, p, 0, n)
  {
  }

  lemma ProductsAgree(m: Matrix, m': Matrix, r: int, r': int, c: int, k: nat)
    requires forall j | 0 <= j < k :: At(m', r', j) == At(m, r, j) && At(m', j, c) == At(m, j, c)
    ensures Sum(k, Products(m', m', r', c)) == Sum(k, Products(m, m, r, c))
  {
    SumCongruent(k, Products(m', m', r', c), Products(m, m, r, c));
  }

  /** A reduction step leaves the entry that the packed matrix stands for unchanged. */
  lemma StepEntry(m: Matrix, m': Matrix, s: nat, n: nat, r: nat, c: nat)
    requires Step(m, m', s, n) && r < n && c < n
    ensures Partial(m', s + 1, r, c) == Partial(m, s, r, c)
  {
    hide Sum, Partial;
    if r <= s {
      StepUpperRow(m, m', s, n, r, c);
    } else {
      StepLowerRow(m, m', s, n, r, c);
    }
  }

  lemma StepUpperRow(m: Matrix, m': Matrix, s: nat, n: nat, r: nat, c: nat)
    requires Step(m, m', s, n) && r <= s && c < n
    ensures Partial(m', s + 1, r, c) == Partial(m, s, r, c)
  {
    hide Sum;
    assert forall k | 0 <= k <= s :: m'[k] == m[k];
    ProductsAgree(m, m', r, r, c, r);
    if c < r {
      ProductsAgree(m, m', r, r, c, c + 1);
    }
  }

  lemma StepLowerRow(m: Matrix, m': Matrix, s: nat, n: nat, r: nat, c: nat)
    requires Step(m, m', s, n) && s < r < n && c < n
    ensures Partial(m', s + 1, r, c) == Partial(m, s, r, c)
  {
    hide Sum;
    assert Reduced(m[r], m[s], m'[r], s);
    assert forall k | 0 <= k <= s :: m'[k] == m[k];
    if c < s {
      ProductsAgree(m, m', r, r, c, c + 1);
    } else {
      ProductsAgree(m, m', r, r, c, s);
      SumLast(m', r, c, s);
    }
  }

  lemma SumLast(m: Matrix, r: int, c: int, k: nat)
    ensures Sum(k + 1, Products(m, m, r, c)) == Sum(k, Products(m, m, r, c)) + At(m, r, k) * At(m, k, c)
  {
  }

  lemma StepFactors(m0: Matrix, m: Matrix, m': Matrix, p: seq<int>, s: nat, n: nat)
    requires Factors(m0, m, p, s, n) && Step(m, m', s, n)
    ensures Factors(m0, m', p, s + 1, n)
  {
    forall r: nat, c: nat | r < n && c < n ensures Partial(m', s + 1, r, c) == At(m0, p[r], c) {
      hide Partial;
      StepEntry(m, m', s, n, r, c);
    }
  }

  // ---------------------------------------------------------------- exchanging rows

  /** Where row `r` of the exchanged matrix comes from. */
  function Swapped(r: int, a: int, b: int): int {
    if r == a then b else if r == b then a else r
  }

  lemma SwapEntry(m: Matrix, s: nat, q: nat, n: nat, r: nat, c: nat)
    requires Square(m, n) && s <= q < n && r < n && c < n
    ensures Partial(Swap(m, s, q), s, r, c) == Partial(m, s, Swapped(r, s, q), c)
  {
    hide Sum;
    var m' := Swap(m, s, q);
    var r' := Swapped(r, s, q);
    assert m'[r] == m[r'];
    assert forall k | 0 <= k < s :: m'[k] == m[k];
    ProductsAgree(m, m', r', r, c, Min(r, s));
    if c < Min(r, s) {
      ProductsAgree(m, m', r', r, c, c + 1);
    }
  }

  lemma SwapFactors(m0: Matrix, m: Matrix, p: seq<int>, s: nat, q: nat, n: nat)
    requires Factors(m0, m, p, s, n) && s <= q < n
    ensures Factors(m0, Swap(m, s, q), Swap(p, s, q), s, n)
  {
    var m', p' := Swap(m, s, q), Swap(p, s, q);
    assert IsPermutation(p', n);
    forall r: nat, c: nat | r < n && c < n ensures Partial(m', s, r, c) == At(m0, p'[r], c) {
      hide Partial;
      SwapEntry(m, s, q, n, r, c);
      assert p'[r] == p[Swapped(r, s, q)];
    }
  }

  // ---------------------------------------------------------------- pivots and multipliers

  ghost predicate Bounded(m: Matrix, s: nat, n: nat) {
    && Square(m, n) && s <= n
    && (forall k | 0 <= k < s :: Abs(At(m, k, k)) >= EPSILON)
    && (forall r, c | 0 <= c < r < n && c < s :: Abs(At(m, r, c)) <= 1.0)
  }

  lemma PositiveProduct(a: real, b: real)
    requires a > 0.0 && b > 0.0
    ensures a * b > 0.0
  {
  }

  lemma AbsProduct(q: real, y: real)
    ensures Abs(q * y) == Abs(q) * Abs(y)
  {
  }

  /** A quotient by a pivot of maximal magnitude has magnitude at most one. */
  lemma QuotientBound(x: real, y: real, q: real)
    requires q * y == x && Abs(x) <= Abs(y) && y != 0.0
    ensures Abs(q) <= 1.0
  {
    AbsProduct(q, y);
    var a, b := Abs(q), Abs(y);
    if a > 1.0 {
      PositiveProduct(a - 1.0, b);
    }
  }

  lemma StepBounded(m: Matrix, m': Matrix, s: nat, n: nat)
    requires Bounded(m, s, n) && Step(m, m', s, n)
    requires Abs(At(m, s, s)) >= EPSILON
    requires forall r | s <= r < n :: Abs(At(m, r, s)) <= Abs(At(m, s, s))
    ensures Bounded(m', s + 1, n)
  {
    forall k | 0 <= k <= s ensures Abs(At(m', k, k)) >= EPSILON {
      assert m'[k] == m[k];
      assert k < s ==> Abs(At(m, k, k)) >= EPSILON;
    }
    forall r, c | 0 <= c < r < n && c < s + 1 ensures Abs(At(m', r, c)) <= 1.0 {
      if r <= s {
        assert m'[r] == m[r];
        assert Abs(At(m, r, c)) <= 1.0;
      } else {
        assert Reduced(m[r], m[s], m'[r], s);
        if c < s {
          assert At(m', r, c) == At(m, r, c);
        } else {
          QuotientBound(At(m, r, s), At(m, s, s), At(m', r, s));
        }
      }
    }
  }

  lemma SwapBounded(m: Matrix, s: nat, q: nat, n: nat)
    requires Bounded(m, s, n) && s <= q < n
    ensures Bounded(Swap(m, s, q), s, n)
  {
    var m' := Swap(m, s, q);
    forall k | 0 <= k < s ensures Abs(At(m', k, k)) >= EPSILON {
      assert m'[k] == m[k];
      assert Abs(At(m, k, k)) >= EPSILON;
    }
    forall r, c | 0 <= c < r < n && c < s ensures Abs(At(m', r, c)) <= 1.0 {
      assert m'[r] == m[Swapped(r, s, q)];
      assert Abs(At(m, Swapped(r, s, q), c)) <= 1.0;
    }
  }

  // ---------------------------------------------------------------- L, U and P as matrices

  ghost predicate IsLower(l: Matrix, m: Matrix, n: nat) {
    && Square(l, n)
    && forall r, c | 0 <= r < n && 0 <= c < n ::
         At(l, r, c) == if c < r then At(m, r, c) else if c == r then 1.0 else 0.0
  }

  ghost predicate IsUpper(u: Matrix, m: Matrix, n: nat) {
    && Square(u, n)
    && forall r, c | 0 <= r < n && 0 <= c < n :: At(u, r, c) == if c < r then 0.0 else At(m, r, c)
  }

  ghost predicate IsPermutationMatrix(w: Matrix, p: seq<int>, n: nat) {
    && Square(w, n) && |p| >= n
    && forall r, c | 0 <= r < n && 0 <= c < n :: At(w, r, c) == if c == p[r] then 1.0 else 0.0
  }

  /** L U from its two factors is what the packed matrix stands for. */
  lemma PackedProduct(m: Matrix, l: Matrix, u: Matrix, n: nat, r: nat, c: nat)
    requires Square(m, n) && IsLower(l, m, n) && IsUpper(u, m, n) && r < n && c < n
    ensures MulAt(n, l, u, r, c) == Partial(m, n, r, c)
  {
    hide Sum;
    var f, g := Products(l, u, r, c), Products(m, m, r, c);
    assert At(l, r, r) == 1.0 && At(u, r, c) == if c < r then 0.0 else At(m, r, c);
    if c < r {
      SumPrefix(c + 1, n, f);
      SumCongruent(c + 1, f, g);
    } else {
      SumPrefix(r + 1, n, f);
      SumCongruent(r, f, g);
      SumSucc(r, f);
    }
  }

  lemma SumSucc(k: nat, f: int -> real)
    ensures Sum(k + 1, f) == Sum(k, f) + f(k)
  {
  }

  /** Row r of P A is row p[r] of A. */
  lemma PermutedRow(w: Matrix, p: seq<int>, a: Matrix, n: nat, r: nat, c: nat)
    requires IsPermutationMatrix(w, p, n) && IsPermutation(p, n) && r < n
    ensures MulAt(n, w, a, r, c) == At(a, p[r], c)
  {
    hide Sum;
    SumSingle(n, Products(w, a, r, c), p[r]);
  }

  /** P A = L U. */
  lemma FactorsMultiply(a: Matrix, m: Matrix, p: seq<int>, l: Matrix, u: Matrix, w: Matrix, n: nat)
    requires Factors(a, m, p, n, n) && IsLower(l, m, n) && IsUpper(u, m, n) && IsPermutationMatrix(w, p, n)
    ensures forall r: nat, c: nat | r < n && c < n :: MulAt(n, w, a, r, c) == MulAt(n, l, u, r, c)
  {
    forall r: nat, c: nat | r < n && c < n ensures MulAt(n, w, a, r, c) == MulAt(n, l, u, r, c) {
      hide Partial, MulAt, IsLower, IsUpper, IsPermutationMatrix;
      PermutedRow(w, p, a, n, r, c);
      PackedProduct(m, l, u, n, r, c);
    }
  }

  // ---------------------------------------------------------------- the determinant

  function Zeroed(row: Vector, k: int): (r: Vector)
    ensures |r| == |row|
    ensures forall c | 0 <= c < |row| :: r[c] == if c < k then 0.0 else row[c]
    ensures k <= 0 ==> r == row
  {
    seq(|row|, c requires 0 <= c < |row| => if c < k then 0.0 else row[c])
  }

  /** The matrix in the middle of an elimination: zeros instead of the stored multipliers. */
  function Working(m: Matrix, s: int): (g: Matrix)
    ensures |g| == |m|
    ensures forall r | 0 <= r < |m| :: g[r] == Zeroed(m[r], Min(r, s))
  {
    seq(|m|, r requires 0 <= r < |m| => Zeroed(m[r], Min(r, s)))
  }

  lemma WorkingAt(m: Matrix, s: int, r: int, c: int)
    ensures At(Working(m, s), r, c) == if 0 <= r < |m| && 0 <= c < Min(r, s) then 0.0 else At(m, r, c)
  {
  }

  lemma WorkingInitially(m: Matrix)
    ensures Working(m, 0) == m
  {
  }

  lemma WorkingSwaps(m: Matrix, s: nat, q: nat, n: nat)
    requires Square(m, n) && s <= q < n
    ensures Working(Swap(m, s, q), s) == Swap(Working(m, s), s, q)
  {
    var g, g' := Working(Swap(m, s, q), s), Swap(Working(m, s), s, q);
    assert forall r | 0 <= r < n :: g[r] == g'[r];
  }

  /** The first `t` rows are reduced already. */
  function Halfway(g: Matrix, g': Matrix, t: nat): (h: Matrix)
    requires |g| == |g'| && t <= |g|
    ensures |h| == |g|
  {
    g'[..t] + g[t..]
  }

  /** One reduced row of the working matrix. */
  lemma WorkingRow(m: Matrix, m': Matrix, s: nat, n: nat, r: nat, c: nat)
    requires Step(m, m', s, n) && s < r < n
    ensures At(Working(m', s + 1), r, c) == At(Working(m, s), r, c) + -At(m', r, s) * At(Working(m, s), s, c)
  {
    hide Working;
    WorkingAt(m', s + 1, r, c);
    WorkingAt(m, s, r, c);
    WorkingAt(m, s, s, c);
    assert Reduced(m[r], m[s], m'[r], s);
  }

  lemma {:induction false} StepDetRows(m: Matrix, m': Matrix, s: nat, n: nat, t: nat)
    requires Step(m, m', s, n) && s < t <= n
    ensures Det(Halfway(Working(m, s), Working(m', s + 1), t), Range(0, n)) == Det(Working(m, s), Range(0, n))
  {
    hide Det, Working, Range, At, RowAdded;
    var g, g' := Working(m, s), Working(m', s + 1);
    if t == s + 1 {
      WorkingUnreduced(m, m', s, n);
      assert Halfway(g, g', t) == g;
    } else {
      StepDetRows(m, m', s, n, t - 1);
      var h, h' := Halfway(g, g', t - 1), Halfway(g, g', t);
      HalfwayAdds(m, m', s, n, t - 1, h, h');
      AddRowKeepsDet(h, h', -At(m', t - 1, s), t - 1, s, Range(0, n));
    }
  }

  lemma HalfwayAdds(m: Matrix, m': Matrix, s: nat, n: nat, r: nat, h: Matrix, h': Matrix)
    requires Step(m, m', s, n) && s < r < n
    requires h == Halfway(Working(m, s), Working(m', s + 1), r)
    requires h' == Halfway(Working(m, s), Working(m', s + 1), r + 1)
    ensures RowAdded(h, h', -At(m', r, s), r, s)
  {
    var g, g' := Working(m, s), Working(m', s + 1);
    hide Working, Reduced;
    WorkingUnreduced(m, m', s, n);
    assert h[r] == g[r] && h'[r] == g'[r] && h[s] == g[s];
    forall c: nat ensures At(h', r, c) == At(h, r, c) + -At(m', r, s) * At(h, s, c) {
      WorkingRow(m, m', s, n, r, c);
      assert At(h, r, c) == At(g, r, c) && At(h', r, c) == At(g', r, c) && At(h, s, c) == At(g, s, c);
    }
  }

  lemma WorkingUnreduced(m: Matrix, m': Matrix, s: nat, n: nat)
    requires Step(m, m', s, n)
    ensures forall r | 0 <= r <= s :: Working(m', s + 1)[r] == Working(m, s)[r]
  {
  }

  /** The sign and the working matrix carry the determinant of the input. */
  ghost predicate CarriesDet(m0: Matrix, m: Matrix, swaps: nat, s: nat, n: nat) {
    && Square(m0, n) && Square(m, n)
    && Det(m0, Range(0, n)) == Sign(swaps) * Det(Working(m, s), Range(0, n))
  }

  lemma StepCarries(m0: Matrix, m: Matrix, m': Matrix, swaps: nat, s: nat, n: nat)
    requires CarriesDet(m0, m, swaps, s, n) && Step(m, m', s, n)
    ensures CarriesDet(m0, m', swaps, s + 1, n)
  {
    hide Det, Working, Sign;
    StepDetRows(m, m', s, n, n);
    assert Halfway(Working(m, s), Working(m', s + 1), n) == Working(m', s + 1);
  }

  lemma SwapCarries(m0: Matrix, m: Matrix, swaps: nat, s: nat, q: nat, n: nat)
    requires CarriesDet(m0, m, swaps, s, n) && s < q < n
    ensures CarriesDet(m0, Swap(m, s, q), swaps + 1, s, n)
  {
    hide Det, Working;
    WorkingSwaps(m, s, q, n);
    SwapNegates(Working(m, s), Range(0, n), s, q);
  }

  /** A finished decomposition: the determinant is the signed product of the pivots. */
  lemma FinishedDet(m0: Matrix, m: Matrix, swaps: nat, n: nat)
    requires CarriesDet(m0, m, swaps, n, n)
    ensures Det(m0, Range(0, n)) == Sign(swaps) * DiagonalProduct(m, 0, n)
  {
    hide Sign;
    EliminatedSplit(m, n, n);
    assert Working(m, n)[n..] == [] && Range(n, n) == [];
  }

  /** An elimination stopped at column `s`: the pivots so far times the determinant of the rest. */
  lemma StoppedDet(m0: Matrix, m: Matrix, swaps: nat, s: nat, n: nat)
    requires CarriesDet(m0, m, swaps, s, n) && s <= n
    ensures Det(m0, Range(0, n))
         == Sign(swaps) * (DiagonalProduct(m, 0, s) * Det(Working(m, s)[s..], Range(s, n)))
  {
    hide Sign, Det, Working, Range, DiagonalProduct;
    EliminatedSplit(m, s, n);
  }

  lemma EliminatedSplit(m: Matrix, s: nat, n: nat)
    requires Square(m, n) && s <= n
    ensures Det(Working(m, s), Range(0, n))
         == DiagonalProduct(m, 0, s) * Det(Working(m, s)[s..], Range(s, n))
  {
    hide Det;
    var g := Working(m, s);
    assert Eliminated(g, s) by {
      forall r, c | 0 <= c < r < |g| && c < s ensures At(g, r, c) == 0.0 {
        WorkingAt(m, s, r, c);
      }
    }
    TriangularDet(g, 0, s);
    assert g[0..] == g;
    DiagonalUnchanged(m, s, 0);
  }

  lemma {:induction false} DiagonalUnchanged(m: Matrix, s: nat, k: nat)
    requires k <= s
    ensures DiagonalProduct(Working(m, s), k, s) == DiagonalProduct(m, k, s)
    decreases s - k
  {
    hide Working;
    if k < s {
      DiagonalUnchanged(m, s, k + 1);
      WorkingAt(m, s, k, k);
    }
  }

  /** If the column has become exactly zero, so has the determinant. */
  lemma ZeroPivotColumn(m0: Matrix, m: Matrix, swaps: nat, s: nat, n: nat)
    requires CarriesDet(m0, m, swaps, s, n) && s < n
    requires forall r | s <= r < n :: At(m, r, s) == 0.0
    ensures Det(m0, Range(0, n)) == 0.0
  {
    hide Det, Working;
    StoppedDet(m0, m, swaps, s, n);
    var w := Working(m, s)[s..];
    forall r | 0 <= r < |w| ensures At(w, r, s) == 0.0 {
      assert At(w, r, s) == At(Working(m, s), s + r, s);
      WorkingAt(m, s, s + r, s);
    }
    ZeroColumn(w, Range(s, n));
  }
}
