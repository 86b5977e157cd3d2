/** Elimination with partial pivoting as a function of the matrix: what `ml_lu_decomp_real` of
    src/ml_array.c computes, and when it finds no pivot. */
module Elimination {
  import opened Exchange
  import opened Sums
  import opened Determinant
  import opened LuTheory
  import opened Parity

  /** What every round of the outer loop keeps. */
  ghost predicate Stage(m0: Matrix, m: Matrix, p: seq<int>, swaps: nat, s: nat, n: nat) {
    && Factors(m0, m, p, s, n)
    && Bounded(m, s, n)
    && CarriesDet(m0, m, swaps, s, n)
    && ParityOf(p, swaps)
  }

  ghost predicate PivotReady(m: Matrix, s: nat, n: nat) {
    && Square(m, n) && s < n && Abs(At(m, s, s)) >= EPSILON
    && forall r | s <= r < n :: Abs(At(m, r, s)) <= Abs(At(m, s, s))
  }

  /** Column `s` has no entry of at least DBL_EPSILON from row `s` on. */
  ghost predicate NoPivot(m: Matrix, s: nat, n: nat) {
    s < n && forall r | s <= r < n :: Abs(At(m, r, s)) < EPSILON
  }

  // ---------------------------------------------------------------- one round

  /** The packed matrix, the permutation, the number of exchanges and the number of finished columns. */
  datatype Packed = Packed(m: Matrix, p: seq<int>, swaps: nat, stage: nat)

  ghost predicate Ready(e: Packed, n: nat) {
    Square(e.m, n) && |e.p| == n && e.stage <= n
  }

  /** The first row with the largest entry of column `s`, among the rows from `s` to `k`. */
  ghost function PivotRow(m: Matrix, s: nat, k: nat): (q: nat)
    requires s < k
    ensures s <= q < k
    ensures forall r | s <= r < k :: Abs(At(m, r, s)) <= Abs(At(m, q, s))
    decreases k
  {
    if k == s + 1 then s
    else
      var q := PivotRow(m, s, k - 1);
      if Abs(At(m, k - 1, s)) > Abs(At(m, q, s)) then k - 1 else q
  }

  lemma PivotNext(m: Matrix, s: nat, k: nat)
    requires s <= k
    ensures k == s ==> PivotRow(m, s, k + 1) == s
    ensures k > s ==> PivotRow(m, s, k + 1) == if Abs(At(m, k, s)) > Abs(At(m, PivotRow(m, s, k), s)) then k else PivotRow(m, s, k)
  {
  }

  ghost predicate HasPivot(m: Matrix, s: nat, n: nat) {
    s < n && Abs(At(m, PivotRow(m, s, n), s)) >= EPSILON
  }

  /** The row exchange. */
  ghost function Brought(e: Packed, n: nat): (e': Packed)
    requires Ready(e, n) && e.stage < n
    ensures Ready(e', n) && e'.stage == e.stage
  {
    var s, q := e.stage, PivotRow(e.m, e.stage, n);
    Packed(Swap(e.m, s, q), Swap(e.p, s, q), e.swaps + if q == s then 0 else 1, s)
  }

  ghost function ReducedRow(row: Vector, pivot: Vector, s: nat): (row': Vector)
    requires |row| == |pivot| && s < |row| && pivot[s] != 0.0
    ensures Reduced(row, pivot, row', s)
  {
    var t := row[s] / pivot[s];
    seq(|row|, c requires 0 <= c < |row| => if c < s then row[c] else if c == s then t else row[c] - t * pivot[c])
  }

  ghost function Reduce(m: Matrix, s: nat, n: nat): (m': Matrix)
    requires Square(m, n) && s < n && At(m, s, s) != 0.0
    ensures Step(m, m', s, n) && Square(m', n)
  {
    seq(n, r requires 0 <= r < n => if r <= s then m[r] else ReducedRow(m[r], m[s], s))
  }

  /** There is only one way to reduce. */
  lemma StepUnique(m: Matrix, m': Matrix, s: nat, n: nat)
    requires Step(m, m', s, n) && At(m, s, s) != 0.0
    ensures m' == Reduce(m, s, n)
  {
    hide Reduced, ReducedRow;
    var m'' := Reduce(m, s, n);
    forall r | 0 <= r < n ensures m'[r] == m''[r] {
      if r > s {
        RowUnique(m[r], m[s], m'[r], m''[r], s);
      }
    }
  }

  lemma RowUnique(row: Vector, pivot: Vector, a: Vector, b: Vector, s: nat)
    requires Reduced(row, pivot, a, s) && Reduced(row, pivot, b, s)
    ensures a == b
  {
    SameFactor(a[s], b[s], pivot[s]);
    assert forall k | 0 <= k < |row| :: a[k] == b[k];
  }

  lemma SameFactor(x: real, y: real, d: real)
    requires d != 0.0 && x * d == y * d
    ensures x == y
  {
    assert (x - y) * d == 0.0;
  }

  // ---------------------------------------------------------------- all rounds

  /** Rounds as long as there is a pivot. */
  ghost function Run(e: Packed, n: nat): (e': Packed)
    requires Ready(e, n)
    ensures Ready(e', n)
    decreases n - e.stage
  {
    if !HasPivot(e.m, e.stage, n) then e
    else
      var b := Brought(e, n);
      BroughtReady(e, n);
      Run(b.(m := Reduce(b.m, b.stage, n), stage := b.stage + 1), n)
  }

  ghost function Upto(n: nat): seq<int> {
    seq(n, i => i)
  }

  ghost function Decomposed(m: Matrix, n: nat): (e: Packed)
    requires Square(m, n)
  {
    Run(Packed(m, Upto(n), 0, 0), n)
  }

  /** Elimination meets a column without an entry of at least DBL_EPSILON from the diagonal down. */
  ghost predicate Stops(m: Matrix, n: nat)
    requires Square(m, n)
  {
    Decomposed(m, n).stage < n
  }

  lemma BroughtReady(e: Packed, n: nat)
    requires Ready(e, n) && HasPivot(e.m, e.stage, n)
    ensures PivotReady(Brought(e, n).m, e.stage, n) && At(Brought(e, n).m, e.stage, e.stage) != 0.0
  {
    var q := PivotRow(e.m, e.stage, n);
    PivotAfterSwap(e.m, n, e.stage, q, Abs(At(e.m, q, e.stage)));
  }

  lemma RunUnfolds(e: Packed, n: nat)
    requires Ready(e, n)
    ensures HasPivot(e.m, e.stage, n) ==>
              var b := Brought(e, n);
              At(b.m, b.stage, b.stage) != 0.0 && Run(e, n) == Run(b.(m := Reduce(b.m, b.stage, n), stage := b.stage + 1), n)
    ensures !HasPivot(e.m, e.stage, n) ==> Run(e, n) == e
  {
    hide Brought, Reduce;
    if HasPivot(e.m, e.stage, n) {
      BroughtReady(e, n);
    }
  }

  /** The invariants of the rounds hold at the end. */
  lemma DecomposedStage(m: Matrix, n: nat)
    requires Square(m, n)
    ensures var e := Decomposed(m, n);
            Ready(e, n) && Stage(m, e.m, e.p, e.swaps, e.stage, n) && (e.stage < n ==> NoPivot(e.m, e.stage, n))
  {
    hide Stage, Run;
    StartStage(m, Upto(n), n);
    RunStage(m, Packed(m, Upto(n), 0, 0), n);
  }

  lemma {:induction false} RunStage(m0: Matrix, e: Packed, n: nat)
    requires Ready(e, n) && Stage(m0, e.m, e.p, e.swaps, e.stage, n)
    ensures var e' := Run(e, n);
            Stage(m0, e'.m, e'.p, e'.swaps, e'.stage, n) && (e'.stage < n ==> NoPivot(e'.m, e'.stage, n))
    decreases n - e.stage
  {
    hide Stage, Run, Brought, Reduce, Step;
    RunUnfolds(e, n);
    if HasPivot(e.m, e.stage, n) {
      var b := Brought(e, n);
      BroughtReady(e, n);
      BroughtStage(m0, e, n);
      var m := Reduce(b.m, b.stage, n);
      StepStage(m0, b.m, m, b.p, b.swaps, b.stage, n);
      RunStage(m0, b.(m := m, stage := b.stage + 1), n);
    } else if e.stage < n {
      StuckColumn(e, n);
    }
  }

  lemma StuckColumn(e: Packed, n: nat)
    requires e.stage < n && !HasPivot(e.m, e.stage, n)
    ensures NoPivot(e.m, e.stage, n)
  {
  }

  lemma BroughtStage(m0: Matrix, e: Packed, n: nat)
    requires Ready(e, n) && e.stage < n && Stage(m0, e.m, e.p, e.swaps, e.stage, n)
    ensures var b := Brought(e, n); Stage(m0, b.m, b.p, b.swaps, b.stage, n)
  {
    hide Stage;
    var q := PivotRow(e.m, e.stage, n);
    if q != e.stage {
      SwapStage(m0, e.m, e.p, e.swaps, e.stage, q, n);
    } else {
      SwapSelf(e.m, q);
      SwapSelf(e.p, q);
    }
  }

  lemma StartStage(m: Matrix, p: seq<int>, n: nat)
    requires Square(m, n) && |p| == n && forall i | 0 <= i < n :: p[i] == i
    ensures Stage(m, m, p, 0, 0, n)
  {
    hide Det;
    FactorsInitially(m, p, n);
    WorkingInitially(m);
    ParityInitially(p);
  }

  lemma PivotAfterSwap(m: Matrix, n: nat, i: nat, imax: nat, maxA: real)
    requires Square(m, n) && i <= imax < n && maxA == Abs(At(m, imax, i)) && maxA >= EPSILON
    requires forall r | i <= r < n :: Abs(At(m, r, i)) <= maxA
    ensures PivotReady(Swap(m, i, imax), i, n)
  {
    var m' := Swap(m, i, imax);
    forall r | i <= r < n ensures Abs(At(m', r, i)) <= maxA {
      assert m'[r] == m[Swapped(r, i, imax)];
      assert Abs(At(m, Swapped(r, i, imax), i)) <= maxA;
    }
  }

  lemma SwapStage(m0: Matrix, m: Matrix, p: seq<int>, swaps: nat, s: nat, q: nat, n: nat)
    requires Stage(m0, m, p, swaps, s, n) && s < q < n && |p| == n
    ensures Stage(m0, Swap(m, s, q), Swap(p, s, q), swaps + 1, s, n)
  {
    hide Factors, Bounded, CarriesDet, ParityOf;
    SwapFactors(m0, m, p, s, q, n);
    SwapBounded(m, s, q, n);
    SwapCarries(m0, m, swaps, s, q, n);
    ParitySwaps(p, swaps, s, q);
  }

  lemma StepStage(m0: Matrix, m: Matrix, m': Matrix, p: seq<int>, swaps: nat, s: nat, n: nat)
    requires Stage(m0, m, p, swaps, s, n) && Step(m, m', s, n) && PivotReady(m, s, n)
    ensures Stage(m0, m', p, swaps, s + 1, n)
  {
    hide Factors, Bounded, CarriesDet, ParityOf, Step;
    StepFactors(m0, m, m', p, s, n);
    StepBounded(m, m', s, n);
    StepCarries(m0, m, m', swaps, s, n);
  }
}
