/** LU decomposition with partial pivoting on an array of row pointers, and what src/ml_array.c builds
    on it: the factors, the determinant, the solution of a linear system and the inverse. Entries are
    exact reals. */
module Lu {
  import opened Exchange
  import opened Sums
  import opened LuTheory
  import opened Elimination

  type Rows = array<array<real>>

  /** n distinct rows of length n. */
  ghost predicate RowsOk(a: Rows, n: nat)
    reads a
  {
    && a.Length == n
    && (forall i | 0 <= i < n :: a[i].Length == n)
    && (forall i, j | 0 <= i < j < n :: a[i] != a[j])
  }

  ghost function RowSet(a: Rows): set<array<real>>
    reads a
  {
    set r | r in a[..]
  }

  /** The matrix that the rows hold. */
  ghost function Mat(a: Rows): (m: Matrix)
    reads a, a[..]
    ensures |m| == a.Length && forall i | 0 <= i < a.Length :: m[i] == a[i][..]
  {
    seq(a.Length, i requires 0 <= i < a.Length reads a, a[..] => a[i][..])
  }

  // ---------------------------------------------------------------- ml_lu_decomp_real

  /** The row of the largest entry of column `s` from row `s` on. */
  method FindPivot(a: Rows, n: nat, s: nat) returns (maxA: real, imax: nat)
    requires RowsOk(a, n) && s < n
    ensures s <= imax < n && maxA == Abs(At(Mat(a), imax, s))
    ensures forall r | s <= r < n :: Abs(At(Mat(a), r, s)) <= maxA
    ensures imax == PivotRow(Mat(a), s, n)
  {
    hide At, PivotRow;
    ghost var m := Mat(a);
    maxA := 0.0;
    imax := s;
    for k := s to n
      invariant s <= imax < n && maxA >= 0.0
      invariant if k == s then maxA == 0.0 && imax == s else imax == PivotRow(m, s, k) && maxA == Abs(At(m, imax, s))
    {
      EntryAt(a, n, k, s);
      PivotNext(m, s, k);
      var absA := Abs(a[k][s]);
      if absA > maxA {
        maxA := absA;
        imax := k;
      }
    }
  }

  lemma EntryAt(a: Rows, n: nat, r: nat, c: nat)
    requires RowsOk(a, n) && r < n && c < n
    ensures At(Mat(a), r, c) == a[r][c]
  {
  }

  /** The two inner loops for one row. */
  method ReduceRow(row: array<real>, pivot: array<real>, s: nat)
    requires row != pivot && s < row.Length == pivot.Length && pivot[s] != 0.0
    modifies row
    ensures Reduced(old(row[..]), pivot[..], row[..], s)
  {
    hide At;
    ghost var row0 := row[..];
    row[s] := row[s] / pivot[s];
    ghost var t := row[s];
    assert t * pivot[s] == row0[s];
    for k := s + 1 to row.Length
      invariant row[s] == t
      invariant forall j | 0 <= j < s || k <= j < row.Length :: row[j] == row0[j]
      invariant forall j | s < j < k :: row[j] == row0[j] - t * pivot[j]
    {
      row[k] := row[k] - row[s] * pivot[k];
    }
  }

  /** Reduces every row below the pivot row. */
  method ReduceBelow(a: Rows, n: nat, s: nat)
    requires RowsOk(a, n) && s < n && At(Mat(a), s, s) != 0.0
    modifies RowSet(a)
    ensures a[..] == old(a[..])
    ensures Step(old(Mat(a)), Mat(a), s, n)
  {
    ghost var m := Mat(a);
    for j := s + 1 to n
      invariant a[..] == old(a[..]) && RowsOk(a, n)
      invariant forall r | 0 <= r <= s || j <= r < n :: a[r][..] == m[r]
      invariant forall r | s < r < j :: Reduced(m[r], m[s], a[r][..], s)
    {
      hide Reduced;
      assert a[j] in a[..];
      ReduceRow(a[j], a[s], s);
    }
  }

  /** The row exchange: two row pointers, two entries of the permutation and the exchange count. */
  method ExchangeRows(a: Rows, p: array<int>, n: nat, i: nat, q: nat)
    requires RowsOk(a, n) && p.Length == n + 1 && i < n && q < n
    modifies a, p
    ensures RowsOk(a, n) && RowSet(a) == old(RowSet(a))
    ensures Mat(a) == Swap(old(Mat(a)), i, q)
    ensures p[..n] == Swap(old(p[..n]), i, q) && p[n] == old(p[n]) + 1
  {
    ghost var rows := a[..];
    var j := p[i];
    p[i] := p[q];
    p[q] := j;
    var b := a[i];
    a[i] := a[q];
    a[q] := b;
    p[n] := p[n] + 1;
    assert a[..] == Swap(rows, i, q);
    SwapKeepsSet(rows, i, q);
  }

  lemma SwapKeepsSet<T>(s: seq<T>, i: nat, q: nat)
    requires i < |s| && q < |s|
    ensures (set r | r in Swap(s, i, q)) == (set r | r in s)
  {
    var w := Swap(s, i, q);
    forall r | r in s ensures r in w {
      var k :| 0 <= k < |s| && s[k] == r;
      assert w[Swapped(k, i, q)] == r;
    }
  }

  /** The first half of a round: finds the pivot row and brings it up. */
  method BringPivot(a: Rows, p: array<int>, n: nat, i: nat) returns (ok: bool)
    requires RowsOk(a, n) && p.Length == n + 1 && i < n && p[n] >= n
    modifies a, p
    ensures RowsOk(a, n) && RowSet(a) == old(RowSet(a)) && p[n] >= n
    ensures ok == HasPivot(old(Mat(a)), i, n)
    ensures State(a, p, n, i) == if ok then Brought(old(State(a, p, n, i)), n) else old(State(a, p, n, i))
  {
    hide At;
    var maxA, imax := FindPivot(a, n, i);
    if maxA < EPSILON {
      return false;
    }
    ghost var m, q := Mat(a), p[..n];
    SwapSelf(m, i);
    SwapSelf(q, i);
    if imax != i {
      ExchangeRows(a, p, n, i, imax);
    }
    return true;
  }

  /** What the two arrays hold before round `s`. */
  ghost function State(a: Rows, p: array<int>, n: nat, s: nat): (e: Packed)
    requires p.Length == n + 1 && p[n] >= n
    reads a, a[..], p
  {
    Packed(Mat(a), p[..n], p[n] - n, s)
  }

  /** One round of the outer loop. */
  method Round(a: Rows, p: array<int>, n: nat, i: nat) returns (found: bool)
    requires RowsOk(a, n) && p.Length == n + 1 && i < n && p[n] >= n
    modifies a, RowSet(a), p
    ensures RowsOk(a, n) && RowSet(a) == old(RowSet(a)) && p[n] >= n
    ensures found == HasPivot(old(Mat(a)), i, n)
    ensures found ==> Run(State(a, p, n, i + 1), n) == Run(old(State(a, p, n, i)), n)
    ensures !found ==> State(a, p, n, i) == old(State(a, p, n, i))
  {
    hide Run, HasPivot, Brought, Step, Reduce, PivotReady;
    ghost var e := State(a, p, n, i);
    assert Ready(e, n);
    RunUnfolds(e, n);
    found := BringPivot(a, p, n, i);
    if found {
      ghost var b := State(a, p, n, i);
      BroughtReady(e, n);
      ReduceBelow(a, n, i);
      StepUnique(b.m, Mat(a), i, n);
      assert State(a, p, n, i + 1) == b.(m := Reduce(b.m, i, n), stage := i + 1);
    }
  }

  /** The first loop. */
  method ResetPermutation(p: array<int>, n: nat)
    requires p.Length == n + 1
    modifies p
    ensures p[..n] == Upto(n) && p[n] == n
  {
    for i := 0 to n + 1
      invariant forall k | 0 <= k < i :: p[k] == k
    {
      p[i] := i;
    }
  }

  /** The outer loop. */
  method Rounds(a: Rows, p: array<int>, n: nat) returns (ok: bool, ghost stage: nat)
    requires RowsOk(a, n) && p.Length == n + 1 && p[n] >= n
    modifies a, RowSet(a), p
    ensures RowsOk(a, n) && RowSet(a) == old(RowSet(a)) && p[n] >= n
    ensures State(a, p, n, stage) == Run(old(State(a, p, n, 0)), n)
    ensures ok == (stage == n) && stage <= n
  {
    hide Run, HasPivot;
    ghost var e0 := State(a, p, n, 0);
    for i := 0 to n
      invariant RowsOk(a, n) && RowSet(a) == old(RowSet(a)) && p[n] >= n
      invariant Run(State(a, p, n, i), n) == Run(e0, n)
    {
      RunUnfolds(State(a, p, n, i), n);
      var found := Round(a, p, n, i);
      if !found {
        return false, i;
      }
    }
    RunUnfolds(State(a, p, n, n), n);
    NoRoundLeft(State(a, p, n, n), n);
    return true, n;
  }

  lemma NoRoundLeft(e: Packed, n: nat)
    requires e.stage == n
    ensures !HasPivot(e.m, e.stage, n)
  {
  }

  /** `ml_lu_decomp_real`: the arrays end as elimination leaves them, and the answer tells whether it got
      through all columns. */
  method LuDecomp(a: Rows, p: array<int>, n: nat) returns (ok: bool, ghost stage: nat)
    requires RowsOk(a, n) && p.Length == n + 1
    modifies a, RowSet(a), p
    ensures RowsOk(a, n) && RowSet(a) == old(RowSet(a)) && p[n] >= n
    ensures State(a, p, n, stage) == Decomposed(old(Mat(a)), n)
    ensures ok == !Stops(old(Mat(a)), n)
    ensures Stage(old(Mat(a)), Mat(a), p[..n], p[n] - n, stage, n)
    ensures if ok then stage == n else NoPivot(Mat(a), stage, n)
  {
    hide Stage, NoPivot, Run;
    DecomposedStage(Mat(a), n);
    ResetPermutation(p, n);
    ok, stage := Rounds(a, p, n);
  }
}
