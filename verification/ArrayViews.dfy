/** Views of arrays: dimensions with a size, a stride and perhaps a list of positions, over a shared
    buffer of cells (src/ml_array.c, src/ml_array.h). */
module ArrayViews {
  import opened Options
  import Finite

  /** A dimension. Sparse dimensions have a list of positions. */
  datatype Dim = Dim(size: nat, stride: int, indices: Option<seq<int>>)

  predicate DimOk(d: Dim) {
    d.indices.Some? ==> |d.indices.value| == d.size
  }

  /** ml_array_step. */
  function Step(d: Dim, i: nat): int
    requires DimOk(d) && i < d.size
  {
    (if d.indices.Some? then d.indices.value[i] else i) * d.stride
  }

  datatype View = View(base: int, dims: seq<Dim>)

  predicate DimsOk(dims: seq<Dim>) {
    forall k | 0 <= k < |dims| :: DimOk(dims[k])
  }

  predicate InShape(dims: seq<Dim>, idx: seq<nat>) {
    |idx| == |dims| && forall k | 0 <= k < |dims| :: idx[k] < dims[k].size
  }

  /** How far the cell at `idx` is from the base. */
  function Offset(dims: seq<Dim>, idx: seq<nat>): int
    requires DimsOk(dims) && InShape(dims, idx)
  {
    if dims == [] then 0 else Step(dims[0], idx[0]) + Offset(dims[1..], idx[1..])
  }

  /** ml_array_get. */
  function Address(v: View, idx: seq<nat>): int
    requires DimsOk(v.dims) && InShape(v.dims, idx)
  {
    v.base + Offset(v.dims, idx)
  }

  // ---------------------------------------------------------------- offsets as sums

  function Sum(f: nat -> int, n: nat): int {
    if n == 0 then 0 else Sum(f, n - 1) + f(n - 1)
  }

  lemma {:induction false} SumSame(f: nat -> int, g: nat -> int, n: nat)
    requires forall k: nat | k < n :: f(k) == g(k)
    ensures Sum(f, n) == Sum(g, n)
  {
    if n > 0 {
      SumSame(f, g, n - 1);
    }
  }

  lemma {:induction false} SumFirst(f: nat -> int, n: nat)
    requires n > 0
    ensures Sum(f, n) == f(0) + Sum((k: nat) => f(k + 1), n - 1)
  {
    if n > 1 {
      SumFirst(f, n - 1);
    }
  }

  function Term(dims: seq<Dim>, idx: seq<nat>): nat -> int
    requires DimsOk(dims) && InShape(dims, idx)
  {
    (k: nat) => if k < |dims| then Step(dims[k], idx[k]) else 0
  }

  lemma {:induction false} OffsetIsSum(dims: seq<Dim>, idx: seq<nat>)
    requires DimsOk(dims) && InShape(dims, idx)
    ensures Offset(dims, idx) == Sum(Term(dims, idx), |dims|)
  {
    if dims != [] {
      OffsetIsSum(dims[1..], idx[1..]);
      SumFirst(Term(dims, idx), |dims|);
      SumSame(Term(dims[1..], idx[1..]), (k: nat) => Term(dims, idx)(k + 1), |dims| - 1);
    }
  }

  lemma {:induction false} OffsetConcat(a: seq<Dim>, b: seq<Dim>, i: seq<nat>, j: seq<nat>)
    requires DimsOk(a) && DimsOk(b) && InShape(a, i) && InShape(b, j)
    ensures DimsOk(a + b) && InShape(a + b, i + j) && Offset(a + b, i + j) == Offset(a, i) + Offset(b, j)
  {
    if a == [] {
      assert a + b == b && i + j == j;
    } else {
      OffsetConcat(a[1..], b, i[1..], j);
      assert (a + b)[1..] == a[1..] + b && (i + j)[1..] == i[1..] + j;
    }
  }

  lemma OffsetOne(d: Dim, i: nat)
    requires DimOk(d) && i < d.size
    ensures DimsOk([d]) && InShape([d], [i]) && Offset([d], [i]) == Step(d, i)
  {
    assert [d][1..] == [] && [i][1..] == [];
  }

  // ---------------------------------------------------------------- rearranging the axes

  ghost predicate IsPermutation(p: seq<nat>, n: nat) {
    && |p| == n && (forall k | 0 <= k < n :: p[k] < n)
    && (forall j, k | 0 <= j < k < n :: p[j] != p[k])
  }

  /** A sum does not depend on the order of its terms. */
  lemma {:induction false} SumPermuted(f: nat -> int, p: seq<nat>, n: nat)
    requires IsPermutation(p, n)
    ensures Sum((k: nat) => if k < |p| then f(p[k]) else 0, n) == Sum(f, n)
    decreases n
  {
    hide IsPermutation;
    var g := (k: nat) => if k < |p| then f(p[k]) else 0;
    if n > 0 {
      var r := LargestAt(p, n);
      LastMoved(p, n, r);
      var q := p[r := p[n - 1]][..n - 1];
      SumPermuted(f, q, n - 1);
      var h := (k: nat) => if k < |q| then f(q[k]) else 0;
      assert forall k: nat | k < n - 1 && k != r :: g(k) == h(k);
      if r == n - 1 {
        SumSame(g, h, n - 1);
      } else {
        SumOneChange(g, h, n - 1, r);
      }
    }
  }

  lemma LargestAt(p: seq<nat>, n: nat) returns (r: nat)
    requires IsPermutation(p, n) && n > 0
    ensures |p| == n && r < n && p[r] == n - 1
  {
    r := Finite.InjectionIsOnto(p, n, n - 1);
  }

  /** Moving the last entry to where the largest number is leaves a permutation of the smaller ones. */
  lemma LastMoved(p: seq<nat>, n: nat, r: nat)
    requires IsPermutation(p, n) && r < n && p[r] == n - 1
    ensures IsPermutation(p[r := p[n - 1]][..n - 1], n - 1)
  {
    var q := p[r := p[n - 1]][..n - 1];
    forall k | 0 <= k < n - 1 ensures q[k] < n - 1 {
      assert q[k] == p[if k == r then n - 1 else k];
    }
  }

  lemma {:induction false} SumOneChange(g: nat -> int, h: nat -> int, n: nat, r: nat)
    requires r < n && forall k: nat | k < n && k != r :: g(k) == h(k)
    ensures Sum(g, n) - g(r) == Sum(h, n) - h(r)
  {
    if r == n - 1 {
      SumSame(g, h, n - 1);
    } else {
      SumOneChange(g, h, n - 1, r);
    }
  }

  function Rearranged(v: View, p: seq<nat>): View
    requires forall k | 0 <= k < |p| :: p[k] < |v.dims|
  {
    View(v.base, seq(|p|, k requires 0 <= k < |p| => v.dims[p[k]]))
  }

  /** The source index that an index of the rearranged view denotes. */
  ghost predicate DenotesPermuted(p: seq<nat>, idx: seq<nat>, from: seq<nat>) {
    |idx| == |p| && |from| == |p| && forall k | 0 <= k < |p| :: p[k] < |from| && from[p[k]] == idx[k]
  }

  /** Where `j` stands in `p`. */
  function PlaceOf(p: seq<nat>, j: nat): (k: nat)
    ensures j in p ==> k < |p| && p[k] == j
  {
    if p == [] || p[0] == j then 0 else 1 + PlaceOf(p[1..], j)
  }

  /** The entries of `idx` put back to the places that `p` took them from. */
  function Unpermuted(p: seq<nat>, idx: seq<nat>): (from: seq<nat>)
    requires |p| == |idx|
  {
    seq(|p|, j requires 0 <= j < |p| => if j in p then idx[PlaceOf(p, j)] else 0)
  }

  lemma UnpermutedDenotes(p: seq<nat>, idx: seq<nat>)
    requires IsPermutation(p, |idx|)
    ensures DenotesPermuted(p, idx, Unpermuted(p, idx))
  {
    forall k | 0 <= k < |p| ensures Unpermuted(p, idx)[p[k]] == idx[k] {
      assert p[k] in p;
    }
  }

  /** There is only one such index. */
  lemma DenotesUnique(p: seq<nat>, idx: seq<nat>, from: seq<nat>, from': seq<nat>)
    requires IsPermutation(p, |idx|) && DenotesPermuted(p, idx, from) && DenotesPermuted(p, idx, from')
    ensures from == from'
  {
    forall j | 0 <= j < |p| ensures from[j] == from'[j] {
      var r := Finite.InjectionIsOnto(p, |p|, j);
    }
  }

  lemma RearrangedAddress(v: View, p: seq<nat>, idx: seq<nat>, from: seq<nat>)
    requires DimsOk(v.dims) && IsPermutation(p, |v.dims|)
    requires InShape(Rearranged(v, p).dims, idx) && DenotesPermuted(p, idx, from)
    ensures DimsOk(Rearranged(v, p).dims) && InShape(v.dims, from)
    ensures Address(Rearranged(v, p), idx) == Address(v, from)
  {
    var w := Rearranged(v, p);
    var n := |v.dims|;
    forall j | 0 <= j < n ensures from[j] < v.dims[j].size {
      var r := Finite.InjectionIsOnto(p, n, j);
      assert w.dims[r] == v.dims[j];
    }
    OffsetIsSum(w.dims, idx);
    OffsetIsSum(v.dims, from);
    var f := Term(v.dims, from);
    SumPermuted(f, p, n);
    SumSame(Term(w.dims, idx), (k: nat) => if k < |p| then f(p[k]) else 0, n);
  }

  // ---------------------------------------------------------------- changing one axis

  lemma OffsetSplitAt(dims: seq<Dim>, idx: seq<nat>, k: nat)
    requires DimsOk(dims) && InShape(dims, idx) && k < |dims|
    ensures DimsOk(dims[..k]) && InShape(dims[..k], idx[..k]) && DimsOk(dims[k + 1..]) && InShape(dims[k + 1..], idx[k + 1..])
    ensures Offset(dims, idx) == Offset(dims[..k], idx[..k]) + Step(dims[k], idx[k]) + Offset(dims[k + 1..], idx[k + 1..])
  {
    hide Offset, Step;
    var a, d, b := dims[..k], dims[k], dims[k + 1..];
    var i, x, j := idx[..k], idx[k], idx[k + 1..];
    OffsetOne(d, x);
    OffsetConcat([d], b, [x], j);
    OffsetConcat(a, [d] + b, i, [x] + j);
    assert dims == a + ([d] + b) && idx == i + ([x] + j);
  }

  /** An axis replaced by other axes: only the part of the offset that belongs to it changes. */
  lemma OffsetReplaced(dims: seq<Dim>, idx: seq<nat>, k: nat, mid: seq<Dim>, m: seq<nat>)
    requires DimsOk(dims) && InShape(dims, idx) && k < |dims| && DimsOk(mid) && InShape(mid, m)
    ensures DimsOk(dims[..k] + mid + dims[k + 1..]) && InShape(dims[..k] + mid + dims[k + 1..], idx[..k] + m + idx[k + 1..])
    ensures Offset(dims[..k] + mid + dims[k + 1..], idx[..k] + m + idx[k + 1..])
         == Offset(dims, idx) - Step(dims[k], idx[k]) + Offset(mid, m)
  {
    OffsetSplitAt(dims, idx, k);
    OffsetConcat(dims[..k], mid, idx[..k], m);
    OffsetConcat(dims[..k] + mid, dims[k + 1..], idx[..k] + m, idx[k + 1..]);
  }

  function ReversedDim(d: Dim): Dim
    requires DimOk(d)
  {
    if d.indices.Some? then d.(indices := Some(seq(d.size, i requires 0 <= i < d.size => d.indices.value[d.size - 1 - i])))
    else d.(stride := -d.stride)
  }

  function Reversed(v: View, k: nat): View
    requires DimsOk(v.dims) && k < |v.dims|
  {
    var d := v.dims[k];
    View(if d.indices.Some? then v.base else v.base + d.stride * (d.size - 1), v.dims[k := ReversedDim(d)])
  }

  lemma ReversedStep(d: Dim, i: nat)
    requires DimOk(d) && i < d.size
    ensures DimOk(ReversedDim(d)) && ReversedDim(d).size == d.size
    ensures Step(ReversedDim(d), i) == Step(d, d.size - 1 - i) - if d.indices.Some? then 0 else d.stride * (d.size - 1)
  {
    if d.indices.None? {
      assert i * -d.stride == (d.size - 1 - i) * d.stride - d.stride * (d.size - 1);
    }
  }

  lemma ReversedAddress(v: View, k: nat, idx: seq<nat>)
    requires DimsOk(v.dims) && k < |v.dims| && InShape(Reversed(v, k).dims, idx)
    ensures DimsOk(Reversed(v, k).dims) && k < |idx| && idx[k] < v.dims[k].size
    ensures var from := idx[k := v.dims[k].size - 1 - idx[k]];
            InShape(v.dims, from) && Address(Reversed(v, k), idx) == Address(v, from)
  {
    var d := v.dims[k];
    var from := idx[k := d.size - 1 - idx[k]];
    ReversedStep(d, idx[k]);
    OffsetOne(ReversedDim(d), idx[k]);
    OffsetReplaced(v.dims, from, k, [ReversedDim(d)], [idx[k]]);
    assert v.dims[..k] + [ReversedDim(d)] + v.dims[k + 1..] == Reversed(v, k).dims;
    assert from[..k] + [idx[k]] + from[k + 1..] == idx;
  }

  lemma ReversedTwice(v: View, k: nat)
    requires DimsOk(v.dims) && k < |v.dims|
    ensures DimsOk(Reversed(v, k).dims) && Reversed(Reversed(v, k), k) == v
  {
    var d := v.dims[k];
    if d.indices.Some? {
      assert ReversedDim(ReversedDim(d)).indices.value == d.indices.value;
    } else {
      assert -d.stride * (d.size - 1) == -(d.stride * (d.size - 1));
    }
  }
}
