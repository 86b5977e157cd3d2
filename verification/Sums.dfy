/** Finite sums over `real`, and matrices of `real` as sequences of rows. */
module Sums {

  /** f(0) + ... + f(n - 1). */
  function Sum(n: nat, f: int -> real): real {
    if n == 0 then 0.0 else Sum(n - 1, f) + f(n - 1)
  }

  lemma {:induction false} SumCongruent(n: nat, f: int -> real, g: int -> real)
    requires forall i | 0 <= i < n :: f(i) == g(i)
    ensures Sum(n, f) == Sum(n, g)
  {
    if n == 0 {
    } else {
      SumCongruent(n - 1, f, g);
    }
  }

  lemma {:induction false} SumZero(n: nat, f: int -> real)
    requires forall i | 0 <= i < n :: f(i) == 0.0
    ensures Sum(n, f) == 0.0
  {
    if n == 0 {
    } else {
      SumZero(n - 1, f);
    }
  }

  /** h = f + t * g, pointwise and summed. */
  lemma {:induction false} SumLinear(n: nat, f: int -> real, t: real, g: int -> real, h: int -> real)
    requires forall i | 0 <= i < n :: h(i) == f(i) + t * g(i)
    ensures Sum(n, h) == Sum(n, f) + t * Sum(n, g)
  {
    if n == 0 {
    } else {
      SumLinear(n - 1, f, t, g, h);
      assert t * (Sum(n - 1, g) + g(n - 1)) == t * Sum(n - 1, g) + t * g(n - 1);
    }
  }

  lemma SumScale(n: nat, t: real, g: int -> real, h: int -> real)
    requires forall i | 0 <= i < n :: h(i) == t * g(i)
    ensures Sum(n, h) == t * Sum(n, g)
  {
    var zero: int -> real := i => 0.0;
    SumZero(n, zero);
    SumLinear(n, zero, t, g, h);
  }

  /** A sum that is zero from `m` on. */
  lemma {:induction false} SumPrefix(m: nat, n: nat, f: int -> real)
    requires m <= n && forall i | m <= i < n :: f(i) == 0.0
    ensures Sum(n, f) == Sum(m, f)
  {
    if m == n {
    } else {
      SumPrefix(m, n - 1, f);
    }
  }

  /** A sum with one non-zero term. */
  lemma {:induction false} SumSingle(n: nat, f: int -> real, k: nat)
    requires k < n && forall i | 0 <= i < n && i != k :: f(i) == 0.0
    ensures Sum(n, f) == f(k)
  {
    if k == n - 1 {
      SumZero(n - 1, f);
    } else {
      SumSingle(n - 1, f, k);
    }
  }

  /** f with its argument `i` fixed. */
  function Row(f: (int, int) -> real, i: int): int -> real {
    j => f(i, j)
  }

  function Col(f: (int, int) -> real, j: int): int -> real {
    i => f(i, j)
  }

  function RowSums(f: (int, int) -> real, n: nat): int -> real {
    i => Sum(n, Row(f, i))
  }

  function ColSums(f: (int, int) -> real, m: nat): int -> real {
    j => Sum(m, Col(f, j))
  }

  /** The order of summation does not matter. */
  lemma {:induction false} Fubini(m: nat, n: nat, f: (int, int) -> real)
    ensures Sum(m, RowSums(f, n)) == Sum(n, ColSums(f, m))
  {
    if m == 0 {
      SumZero(n, ColSums(f, 0));
    } else {
      Fubini(m - 1, n, f);
      SumLinear(n, ColSums(f, m - 1), 1.0, Row(f, m - 1), ColSums(f, m));
    }
  }

  // ---------------------------------------------------------------- skipping an index

  /** Position `j` of a list of which index `i` was removed, as a position in the whole list. */
  function Skip(i: int, j: int): int {
    if j < i then j else j + 1
  }

  function Skipping(f: int -> real, i: int): int -> real {
    j => f(Skip(i, j))
  }

  /** Summing over the remaining positions is summing over all positions but `i`. */
  lemma {:induction false} SumSkip(n: nat, f: int -> real, i: nat)
    requires i < n && f(i) == 0.0
    ensures Sum(n - 1, Skipping(f, i)) == Sum(n, f)
  {
    if i == n - 1 {
      forall j | 0 <= j < n - 1 ensures Skipping(f, i)(j) == f(j) {
        assert Skip(i, j) == j;
      }
      SumCongruent(n - 1, Skipping(f, i), f);
    } else {
      assert i < n - 1 && f(i) == 0.0;
      SumSkip(n - 1, f, i);
      assert Sum(n - 1, Skipping(f, i)) == Sum(n - 2, Skipping(f, i)) + f(Skip(i, n - 2));
    }
  }

  // ---------------------------------------------------------------- matrices

  type Vector = seq<real>
  type Matrix = seq<seq<real>>

  ghost predicate Square(m: Matrix, n: nat) {
    |m| == n && forall i | 0 <= i < n :: |m[i]| == n
  }

  /** An entry, zero outside the matrix. */
  function At(m: Matrix, r: int, c: int): real {
    if 0 <= r < |m| && 0 <= c < |m[r]| then m[r][c] else 0.0
  }

  function Get(v: Vector, i: int): real {
    if 0 <= i < |v| then v[i] else 0.0
  }

  /** Entries `a[r][k] * b[k][c]` as a function of `k`. */
  function Products(a: Matrix, b: Matrix, r: int, c: int): int -> real {
    k => At(a, r, k) * At(b, k, c)
  }

  /** Entry (r, c) of the product of two n-by-n matrices. */
  function MulAt(n: nat, a: Matrix, b: Matrix, r: int, c: int): real {
    Sum(n, Products(a, b, r, c))
  }

  function RowProducts(a: Matrix, v: Vector, r: int): int -> real {
    k => At(a, r, k) * Get(v, k)
  }

  /** Entry r of the product of an n-by-n matrix and a vector. */
  function ApplyAt(n: nat, a: Matrix, v: Vector, r: int): real {
    Sum(n, RowProducts(a, v, r))
  }

  /** If row i of C is row r of A B, then (C v)[i] = (A (B v))[r]. */
  lemma ApplyAssociative(n: nat, a: Matrix, b: Matrix, ab: Matrix, v: Vector, bv: Vector, r: int, i: int)
    requires forall c: nat | c < n :: MulAt(n, a, b, r, c) == At(ab, i, c)
    requires forall k: nat | k < n :: ApplyAt(n, b, v, k) == Get(bv, k)
    ensures ApplyAt(n, ab, v, i) == ApplyAt(n, a, bv, r)
  {
    hide Sum;
    var f: (int, int) -> real := (c, k) => (At(a, r, k) * At(b, k, c)) * Get(v, c);
    forall c: nat | c < n ensures RowProducts(ab, v, i)(c) == RowSums(f, n)(c) {
      SumScale(n, Get(v, c), Products(a, b, r, c), Row(f, c));
    }
    SumCongruent(n, RowProducts(ab, v, i), RowSums(f, n));
    Fubini(n, n, f);
    forall k: nat | k < n ensures RowProducts(a, bv, r)(k) == ColSums(f, n)(k) {
      SumScale(n, At(a, r, k), RowProducts(b, v, k), Col(f, k));
    }
    SumCongruent(n, RowProducts(a, bv, r), ColSums(f, n));
  }
}
