/** The cofactor expansion that `determinant2` of src/ml_array.c computes, and how it changes under the
    row operations of an elimination. */
module Determinant {
  import opened Exchange
  import opened Sums

  /** `cols` without position `i`: the scratch array `Cols2` of the source. */
  function Drop(cols: seq<nat>, i: nat): (r: seq<nat>)
    requires i < |cols|
    ensures |r| == |cols| - 1
    ensures forall j: nat | j < |r| :: r[j] == cols[Skip(i, j)]
  {
    cols[..i] + cols[i + 1..]
  }

  function Sign(i: int): real {
    if i % 2 == 0 then 1.0 else -1.0
  }

  /** The determinant of the rows of `m` and the columns `cols`, expanded along the first row. */
  function Det(m: Matrix, cols: seq<nat>): real
    requires |m| == |cols|
    decreases |m|, |cols| + 1
  {
    if |m| == 0 then 1.0 else Expand(m, cols, |cols|)
  }

  /** The first `k` terms of the expansion. */
  function Expand(m: Matrix, cols: seq<nat>, k: nat): real
    requires |m| == |cols| > 0 && k <= |cols|
    decreases |m|, k
  {
    if k == 0 then 0.0
    else Expand(m, cols, k - 1) + Sign(k - 1) * At(m, 0, cols[k - 1]) * Det(m[1..], Drop(cols, k - 1))
  }

  /** Term `i` of the expansion, as a total function. */
  function Term(m: Matrix, cols: seq<nat>, i: int): real
    requires |m| == |cols| > 0
  {
    if 0 <= i < |cols| then Sign(i) * At(m, 0, cols[i]) * Det(m[1..], Drop(cols, i)) else 0.0
  }

  function Terms(m: Matrix, cols: seq<nat>): int -> real
    requires |m| == |cols| > 0
  {
    i => Term(m, cols, i)
  }

  lemma {:induction false} ExpandIsSum(m: Matrix, cols: seq<nat>, k: nat)
    requires |m| == |cols| > 0 && k <= |cols|
    ensures Expand(m, cols, k) == Sum(k, Terms(m, cols))
  {
    if k == 0 {
    } else {
      ExpandIsSum(m, cols, k - 1);
    }
  }

  lemma DetIsSum(m: Matrix, cols: seq<nat>)
    requires |m| == |cols| > 0
    ensures Det(m, cols) == Sum(|cols|, Terms(m, cols))
  {
    ExpandIsSum(m, cols, |cols|);
  }

  // ---------------------------------------------------------------- exchanging two adjacent rows

  /** The determinant of everything below the first two rows, without columns `i` and `j`. */
  function Minor2(m: Matrix, cols: seq<nat>, i: int, j: int): real
    requires |m| == |cols| >= 2
  {
    if 0 <= i < |cols| && 0 <= j < |cols| - 1 then Det(m[2..], Drop(Drop(cols, i), j)) else 0.0
  }

  /** Position `j` of the whole list as a position of the list without `i`. */
  function Unskip(i: int, j: int): int {
    if j < i then j else j - 1
  }

  /** The part of the double expansion that takes column `i` from row 0 and column `j` from row 1. */
  function Pair(m: Matrix, cols: seq<nat>, i: int, j: int): real
    requires |m| == |cols| >= 2
  {
    if 0 <= i < |cols| && 0 <= j < |cols| && i != j then
      Sign(i) * At(m, 0, cols[i]) * (Sign(Unskip(i, j)) * At(m, 1, cols[j]) * Minor2(m, cols, i, Unskip(i, j)))
    else 0.0
  }

  function PairTerms(m: Matrix, cols: seq<nat>): (int, int) -> real
    requires |m| == |cols| >= 2
  {
    (i, j) => Pair(m, cols, i, j)
  }

  lemma PairAtSkip(m: Matrix, cols: seq<nat>, i: nat, j: nat)
    requires |m| == |cols| >= 2 && i < |cols| && j < |cols| - 1
    ensures Pair(m, cols, i, Skip(i, j)) == Sign(i) * At(m, 0, cols[i]) * Term(m[1..], Drop(cols, i), j)
  {
    hide Det, At, Sign;
    var rest := Drop(cols, i);
    assert Unskip(i, Skip(i, j)) == j;
    assert rest[j] == cols[Skip(i, j)];
    assert m[1..][1..] == m[2..];
    AtTail(m, rest[j]);
  }

  lemma AtTail(m: Matrix, c: int)
    requires |m| >= 2
    ensures At(m[1..], 0, c) == At(m, 1, c)
  {
  }

  /** Term `i` of the expansion is the sum over all columns `j` of row 1. */
  lemma TermIsPairs(m: Matrix, cols: seq<nat>, i: nat)
    requires |m| == |cols| >= 2 && i < |cols|
    ensures Term(m, cols, i) == RowSums(PairTerms(m, cols), |cols|)(i)
  {
    hide Det, Sum, Pair, At, Sign, Drop;
    var n := |cols|;
    var rest := Drop(cols, i);
    var row := Row(PairTerms(m, cols), i);
    var x := Sign(i) * At(m, 0, cols[i]);
    DetIsSum(m[1..], rest);
    forall j: nat | j < n - 1 ensures Skipping(row, i)(j) == x * Terms(m[1..], rest)(j) {
      PairAtSkip(m, cols, i, j);
    }
    SumScale(n - 1, x, Terms(m[1..], rest), Skipping(row, i));
    PairDiagonal(m, cols, i);
    SumSkip(n, row, i);
  }

  lemma PairDiagonal(m: Matrix, cols: seq<nat>, i: nat)
    requires |m| == |cols| >= 2
    ensures Pair(m, cols, i, i) == 0.0
  {
  }

  lemma DetIsPairs(m: Matrix, cols: seq<nat>)
    requires |m| == |cols| >= 2
    ensures Det(m, cols) == Sum(|cols|, RowSums(PairTerms(m, cols), |cols|))
  {
    hide Det, Sum, Pair, Term;
    DetIsSum(m, cols);
    forall i: nat | i < |cols| ensures Terms(m, cols)(i) == RowSums(PairTerms(m, cols), |cols|)(i) {
      TermIsPairs(m, cols, i);
    }
    SumCongruent(|cols|, Terms(m, cols), RowSums(PairTerms(m, cols), |cols|));
  }

  lemma DropsCommute(cols: seq<nat>, i: nat, j: nat)
    requires i < j < |cols|
    ensures Drop(Drop(cols, i), j - 1) == Drop(Drop(cols, j), i)
  {
  }

  lemma SignFlips(i: int)
    ensures Sign(i - 1) == -Sign(i)
  {
  }

  /** Exchanging the roles of the two rows and the two columns flips the sign. */
  lemma PairAntisymmetric(m: Matrix, w: Matrix, cols: seq<nat>, i: nat, j: nat)
    requires |m| == |w| == |cols| >= 2 && i < |cols| && j < |cols|
    requires m[0] == w[1] && m[1] == w[0] && m[2..] == w[2..]
    ensures Pair(w, cols, i, j) == -Pair(m, cols, j, i)
  {
    if i < j {
      PairOrdered(m, w, cols, i, j);
    } else if j < i {
      PairOrdered(w, m, cols, j, i);
    }
  }

  lemma PairOrdered(m: Matrix, w: Matrix, cols: seq<nat>, i: nat, j: nat)
    requires |m| == |w| == |cols| >= 2 && i < j < |cols|
    requires m[0] == w[1] && m[1] == w[0] && m[2..] == w[2..]
    ensures Pair(w, cols, i, j) == -Pair(m, cols, j, i)
  {
    DropsCommute(cols, i, j);
    SignFlips(j);
    var d := Minor2(m, cols, j, i);
    assert Minor2(w, cols, i, j - 1) == d;
    var s, t := Sign(i), Sign(j);
    var a, b := At(w, 0, cols[i]), At(w, 1, cols[j]);
    assert At(m, 1, cols[i]) == a && At(m, 0, cols[j]) == b;
    assert Pair(w, cols, i, j) == s * a * (-t * b * d);
    assert Pair(m, cols, j, i) == t * b * (s * a * d);
    Rearrange(s, a, t, b, d);
  }

  lemma Rearrange(s: real, a: real, t: real, b: real, d: real)
    ensures s * a * (-t * b * d) == -(t * b * (s * a * d))
  {
  }

  /** Exchanging the first two rows negates the determinant. */
  lemma SwapFirstTwo(m: Matrix, cols: seq<nat>)
    requires |m| == |cols| >= 2
    ensures Det(Swap(m, 0, 1), cols) == -Det(m, cols)
  {
    hide Det, Sum, Pair, RowSums, ColSums;
    var n := |cols|;
    var w := Swap(m, 0, 1);
    assert m[2..] == w[2..];
    var f, g := PairTerms(m, cols), PairTerms(w, cols);
    DetIsPairs(m, cols);
    DetIsPairs(w, cols);
    Fubini(n, n, f);
    forall i: nat | i < n ensures RowSums(g, n)(i) == -1.0 * ColSums(f, n)(i) {
      RowNegates(m, w, cols, i);
    }
    SumScale(n, -1.0, ColSums(f, n), RowSums(g, n));
  }

  lemma RowNegates(m: Matrix, w: Matrix, cols: seq<nat>, i: nat)
    requires |m| == |w| == |cols| >= 2 && i < |cols|
    requires m[0] == w[1] && m[1] == w[0] && m[2..] == w[2..]
    ensures RowSums(PairTerms(w, cols), |cols|)(i) == -1.0 * ColSums(PairTerms(m, cols), |cols|)(i)
  {
    hide Sum, Pair;
    var f, g := PairTerms(m, cols), PairTerms(w, cols);
    forall j: nat | j < |cols| ensures Row(g, i)(j) == -1.0 * Col(f, i)(j) {
      PairAntisymmetric(m, w, cols, i, j);
    }
    SumScale(|cols|, -1.0, Col(f, i), Row(g, i));
  }

  /** Exchanging two adjacent rows negates the determinant. */
  lemma {:induction false} SwapAdjacent(m: Matrix, cols: seq<nat>, k: nat)
    requires |m| == |cols| && k + 1 < |m|
    ensures Det(Swap(m, k, k + 1), cols) == -Det(m, cols)
  {
    hide Det, Sum, Term;
    if k == 0 {
      SwapFirstTwo(m, cols);
    } else {
      var w := Swap(m, k, k + 1);
      DetIsSum(m, cols);
      DetIsSum(w, cols);
      assert w[1..] == Swap(m[1..], k - 1, k);
      forall i: nat | i < |cols| ensures Terms(w, cols)(i) == -1.0 * Terms(m, cols)(i) {
        SwapAdjacent(m[1..], Drop(cols, i), k - 1);
        TermScales(m, w, cols, i, -1.0);
      }
      SumScale(|cols|, -1.0, Terms(m, cols), Terms(w, cols));
    }
  }

  /** A term whose row is unchanged scales with its minor. */
  lemma TermScales(m: Matrix, w: Matrix, cols: seq<nat>, i: nat, t: real)
    requires |m| == |w| == |cols| > 0 && i < |cols| && m[0] == w[0]
    requires Det(w[1..], Drop(cols, i)) == t * Det(m[1..], Drop(cols, i))
    ensures Term(w, cols, i) == t * Term(m, cols, i)
  {
    hide Det, Sign, Drop;
    var x := Sign(i) * At(m, 0, cols[i]);
    var d := Det(m[1..], Drop(cols, i));
    assert At(w, 0, cols[i]) == At(m, 0, cols[i]);
    assert x * (t * d) == t * (x * d);
  }

  /** Exchanging any two rows negates the determinant: it is an odd number of adjacent exchanges. */
  lemma {:induction false} SwapNegates(m: Matrix, cols: seq<nat>, p: nat, q: nat)
    requires |m| == |cols| && p < q < |m|
    ensures Det(Swap(m, p, q), cols) == -Det(m, cols)
    decreases q
  {
    if q == p + 1 {
      SwapAdjacent(m, cols, p);
    } else {
      var m1 := Swap(m, q - 1, q);
      var m2 := Swap(m1, p, q - 1);
      SwapAdjacent(m, cols, q - 1);
      SwapNegates(m1, cols, p, q - 1);
      SwapAdjacent(m2, cols, q - 1);
      assert Swap(m2, q - 1, q) == Swap(m, p, q);
    }
  }

  lemma EqualRowsVanish(m: Matrix, cols: seq<nat>, p: nat, q: nat)
    requires |m| == |cols| && p < q < |m| && m[p] == m[q]
    ensures Det(m, cols) == 0.0
  {
    SwapNegates(m, cols, p, q);
    assert Swap(m, p, q) == m;
  }

  // ---------------------------------------------------------------- adding a multiple of a row

  /** Row `r` of `h` is row `r` of `f` plus `t` times row `r` of `g`; the other rows agree. */
  ghost predicate RowLinear(f: Matrix, t: real, g: Matrix, h: Matrix, r: nat) {
    && |f| == |g| == |h| && r < |f|
    && (forall c: nat :: At(h, r, c) == At(f, r, c) + t * At(g, r, c))
    && (forall i | 0 <= i < |f| && i != r :: f[i] == g[i] == h[i])
  }

  lemma {:induction false} DetLinear(f: Matrix, t: real, g: Matrix, h: Matrix, r: nat, cols: seq<nat>)
    requires RowLinear(f, t, g, h, r) && |f| == |cols|
    ensures Det(h, cols) == Det(f, cols) + t * Det(g, cols)
    decreases |f|
  {
    hide Det, Sum, At, Term;
    DetIsSum(f, cols);
    DetIsSum(g, cols);
    DetIsSum(h, cols);
    forall i: nat | i < |cols|
      ensures Terms(h, cols)(i) == Terms(f, cols)(i) + t * Terms(g, cols)(i)
    {
      if r == 0 {
        TermRowLinear(f, t, g, h, cols, i);
      } else {
        TailRowLinear(f, t, g, h, r);
        DetLinear(f[1..], t, g[1..], h[1..], r - 1, Drop(cols, i));
        TermMinorLinear(f, t, g, h, cols, i);
      }
    }
    SumLinear(|cols|, Terms(f, cols), t, Terms(g, cols), Terms(h, cols));
  }

  lemma TailRowLinear(f: Matrix, t: real, g: Matrix, h: Matrix, r: nat)
    requires RowLinear(f, t, g, h, r) && r > 0
    ensures RowLinear(f[1..], t, g[1..], h[1..], r - 1)
  {
    var f', g', h', r' := f[1..], g[1..], h[1..], r - 1;
    assert f'[r'] == f[r] && g'[r'] == g[r] && h'[r'] == h[r];
    forall c: nat ensures At(h', r', c) == At(f', r', c) + t * At(g', r', c) {
      assert At(h, r, c) == At(f, r, c) + t * At(g, r, c);
    }
  }

  lemma TermRowLinear(f: Matrix, t: real, g: Matrix, h: Matrix, cols: seq<nat>, i: nat)
    requires RowLinear(f, t, g, h, 0) && |f| == |cols| && i < |cols|
    ensures Term(h, cols, i) == Term(f, cols, i) + t * Term(g, cols, i)
  {
    hide Det, At, Sign, Drop;
    assert f[1..] == g[1..] == h[1..];
    SpreadRow(Sign(i), At(f, 0, cols[i]), t, At(g, 0, cols[i]), Det(f[1..], Drop(cols, i)));
  }

  lemma TermMinorLinear(f: Matrix, t: real, g: Matrix, h: Matrix, cols: seq<nat>, i: nat)
    requires |f| == |g| == |h| == |cols| > 0 && i < |cols| && f[0] == g[0] == h[0]
    requires Det(h[1..], Drop(cols, i)) == Det(f[1..], Drop(cols, i)) + t * Det(g[1..], Drop(cols, i))
    ensures Term(h, cols, i) == Term(f, cols, i) + t * Term(g, cols, i)
  {
    hide Det, Sign, Drop;
    var x := Sign(i) * At(f, 0, cols[i]);
    assert At(g, 0, cols[i]) == At(f, 0, cols[i]) == At(h, 0, cols[i]);
    SpreadMinor(x, Det(f[1..], Drop(cols, i)), t, Det(g[1..], Drop(cols, i)));
  }

  lemma SpreadRow(s: real, a: real, t: real, b: real, d: real)
    ensures s * (a + t * b) * d == s * a * d + t * (s * b * d)
  {
  }

  lemma SpreadMinor(x: real, d: real, t: real, e: real)
    ensures x * (d + t * e) == x * d + t * (x * e)
  {
  }

  /** `h` is `m` with `t` times row `s` added to row `r`. */
  ghost predicate RowAdded(m: Matrix, h: Matrix, t: real, r: nat, s: nat) {
    && |m| == |h| && r < |m| && s < |m| && r != s
    && (forall c: nat :: At(h, r, c) == At(m, r, c) + t * At(m, s, c))
    && (forall i | 0 <= i < |m| && i != r :: h[i] == m[i])
  }

  /** Adding a multiple of another row changes nothing. */
  lemma AddRowKeepsDet(m: Matrix, h: Matrix, t: real, r: nat, s: nat, cols: seq<nat>)
    requires RowAdded(m, h, t, r, s) && |m| == |cols|
    ensures Det(h, cols) == Det(m, cols)
  {
    hide Det;
    var g := m[r := m[s]];
    assert RowLinear(m, t, g, h, r) by {
      forall c: nat ensures At(h, r, c) == At(m, r, c) + t * At(g, r, c) {
        assert At(g, r, c) == At(m, s, c);
      }
    }
    hide RowAdded, RowLinear;
    DetLinear(m, t, g, h, r, cols);
    EqualRowsVanish(g, cols, if r < s then r else s, if r < s then s else r);
  }

  // ---------------------------------------------------------------- triangular matrices

  function Range(lo: nat, hi: nat): (r: seq<nat>)
    requires lo <= hi
    ensures |r| == hi - lo && forall i: nat | i < |r| :: r[i] == lo + i
  {
    seq(hi - lo, i requires 0 <= i < hi - lo => lo + i)
  }

  /** A column of zeros. */
  lemma {:induction false} ZeroColumn(m: Matrix, cols: seq<nat>)
    requires |m| == |cols| > 0 && forall r | 0 <= r < |m| :: At(m, r, cols[0]) == 0.0
    ensures Det(m, cols) == 0.0
  {
    DetIsSum(m, cols);
    forall i: nat | i < |cols| ensures Terms(m, cols)(i) == 0.0 {
      if i > 0 {
        assert Drop(cols, i)[0] == cols[0];
        forall r | 0 <= r < |m[1..]| ensures At(m[1..], r, cols[0]) == 0.0 {
          assert At(m[1..], r, cols[0]) == At(m, r + 1, cols[0]);
        }
        ZeroColumn(m[1..], Drop(cols, i));
      }
    }
    SumZero(|cols|, Terms(m, cols));
  }

  /** The product of the diagonal entries from `k` to `s`. */
  function DiagonalProduct(m: Matrix, k: nat, s: nat): real
    requires k <= s
    decreases s - k
  {
    if k == s then 1.0 else At(m, k, k) * DiagonalProduct(m, k + 1, s)
  }

  /** Zero below the diagonal in the first `s` columns. */
  ghost predicate Eliminated(m: Matrix, s: nat) {
    forall r, c | 0 <= c < r < |m| && c < s :: At(m, r, c) == 0.0
  }

  lemma EliminatedColumn(m: Matrix, k: nat, s: nat)
    requires k < s <= |m| && Eliminated(m, s)
    ensures forall r | 0 <= r < |m[k..][1..]| :: At(m[k..][1..], r, k) == 0.0
  {
    forall r | 0 <= r < |m[k..][1..]| ensures At(m[k..][1..], r, k) == 0.0 {
      assert At(m[k..][1..], r, k) == At(m, k + 1 + r, k);
    }
  }

  /** An eliminated column contributes its diagonal entry. */
  lemma ColumnDet(m: Matrix, k: nat, s: nat)
    requires k < s <= |m| && Eliminated(m, s)
    ensures Det(m[k..], Range(k, |m|)) == At(m, k, k) * Det(m[k + 1..], Range(k + 1, |m|))
  {
    hide Det, Sum, Eliminated;
    var n := |m|;
    var w, cols := m[k..], Range(k, n);
    DetIsSum(w, cols);
    EliminatedColumn(m, k, s);
    forall i: nat | 0 < i < |cols| ensures Terms(w, cols)(i) == 0.0 {
      ZeroColumn(w[1..], Drop(cols, i));
    }
    SumSingle(|cols|, Terms(w, cols), 0);
    assert w[1..] == m[k + 1..];
    assert Drop(cols, 0) == Range(k + 1, n);
  }

  lemma {:induction false} TriangularDet(m: Matrix, k: nat, s: nat)
    requires k <= s <= |m| && Eliminated(m, s)
    ensures Det(m[k..], Range(k, |m|)) == DiagonalProduct(m, k, s) * Det(m[s..], Range(s, |m|))
    decreases s - k
  {
    hide Det, Eliminated, At, Range;
    if k < s {
      ColumnDet(m, k, s);
      TriangularDet(m, k + 1, s);
      Reassociate(At(m, k, k), DiagonalProduct(m, k + 1, s), Det(m[s..], Range(s, |m|)));
    }
  }

  lemma Reassociate(x: real, y: real, z: real)
    ensures x * (y * z) == (x * y) * z
  {
  }
}
