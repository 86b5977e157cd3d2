/** The view constructors (src/ml_array.c) and any chain of them over an array: every index of the result
    leads to a cell of the array's own buffer. */
module ArrayChain {
  import opened Options
  import opened ArrayViews
  import opened ArrayShapes
  import opened ArrayIndexing

  datatype Op =
    | Transpose
    | Permute(axes: seq<int>)
    | Swap(a: int, b: int)
    | Reverse(axis: int)
    | Split(axis: int, parts: seq<int>)
    | Diag
    | Index(items: seq<Item>)

  /** A view, `array::nil`, an error, or undefined behaviour. */
  datatype Outcome = Ok(view: View) | Nil | Failed | Undefined

  /** `permute` shifts a 32-bit 1 by the number of axes: beyond this degree that is undefined. */
  const MAX_MASKED: nat := 30

  /** Axes count from 1, and from the end if they are not positive. */
  function Axes(list: seq<int>, degree: nat): seq<int> {
    seq(|list|, k requires 0 <= k < |list| => Normal(list[k], degree))
  }

  /** The numbers below `degree`, each once. */
  predicate IsArrangement(list: seq<int>, degree: nat) {
    && |list| == degree && AllInRange(list, degree)
    && (forall j, k | 0 <= j < k < |list| :: Normal(list[j], degree) != Normal(list[k], degree))
  }

  function Backwards(n: nat): seq<nat> {
    seq(n, k requires 0 <= k < n => n - 1 - k)
  }

  function Swapped(n: nat, a: nat, b: nat): seq<nat>
    requires a < n && b < n
  {
    seq(n, k requires 0 <= k < n => if k == a then b else if k == b then a else k)
  }

  predicate AllPositive(parts: seq<int>) {
    forall k | 0 <= k < |parts| :: parts[k] > 0
  }

  function AsSizes(parts: seq<int>): seq<nat>
    requires AllPositive(parts)
  {
    seq(|parts|, k requires 0 <= k < |parts| => parts[k])
  }

  function Apply(op: Op, v: View): Outcome
    requires DimsOk(v.dims)
  {
    var n := |v.dims|;
    match op
    case Transpose => Ok(Rearranged(v, Backwards(n)))
    case Permute(axes) =>
      if n > 64 || |axes| != n then Failed
      else if n > MAX_MASKED then Undefined
      else if !IsArrangement(axes, n) then Failed
      else Ok(Rearranged(v, Axes(axes, n)))
    case Swap(a, b) =>
      if !InRange(a, n) || !InRange(b, n) then Failed else Ok(Rearranged(v, Swapped(n, Normal(a, n), Normal(b, n))))
    case Reverse(axis) => if !InRange(axis, n) then Failed else Ok(Reversed(v, Normal(axis, n)))
    case Split(axis, parts) =>
      if !InRange(axis, n) || v.dims[Normal(axis, n)].indices.Some? || !AllPositive(parts)
         || Product(AsSizes(parts)) != v.dims[Normal(axis, n)].size then Failed
      else Ok(SplitView(v, Normal(axis, n), AsSizes(parts)))
    case Diag =>
      if n < 2 || v.dims[n - 2].indices.Some? || v.dims[n - 1].indices.Some? then Failed else Ok(DiagView(v))
    case Index(items) =>
      match Select(items, v.dims)
      case Sel(delta, dims) => Ok(View(v.base + delta, dims))
      case NoArray => Nil
      case TooMany => Failed
  }

  // ---------------------------------------------------------------- one step

  lemma BackwardsPermutes(n: nat)
    ensures IsPermutation(Backwards(n), n)
  {
  }

  lemma SwappedPermutes(n: nat, a: nat, b: nat)
    requires a < n && b < n
    ensures IsPermutation(Swapped(n, a, b), n)
  {
  }

  /** Transposing or swapping twice gives the view back. */
  lemma RearrangedTwice(v: View, p: seq<nat>)
    requires |p| == |v.dims| && (forall k | 0 <= k < |p| :: p[k] < |p|) && (forall k | 0 <= k < |p| :: p[p[k]] == k)
    ensures Rearranged(Rearranged(v, p), p) == v
  {
    var w := Rearranged(v, p);
    assert forall k | 0 <= k < |p| :: Rearranged(w, p).dims[k] == v.dims[k];
  }

  lemma TransposedTwice(v: View)
    requires DimsOk(v.dims)
    ensures var w := Apply(Transpose, v); w.Ok? && DimsOk(w.view.dims) && Apply(Transpose, w.view) == Ok(v)
  {
    RearrangedTwice(v, Backwards(|v.dims|));
  }

  lemma SwappedTwice(v: View, a: int, b: int)
    requires DimsOk(v.dims) && InRange(a, |v.dims|) && InRange(b, |v.dims|)
    ensures var w := Apply(Swap(a, b), v); w.Ok? && DimsOk(w.view.dims) && Apply(Swap(a, b), w.view) == Ok(v)
  {
    RearrangedTwice(v, Swapped(|v.dims|, Normal(a, |v.dims|), Normal(b, |v.dims|)));
  }

  lemma {:induction false} SelectedOk(items: seq<Item>, left: seq<Dim>)
    requires DimsOk(left) && Select(items, left).Sel?
    ensures DimsOk(Select(items, left).dims)
    decreases |items|, 0
  {
    if items != [] {
      var more := items[1..];
      if items[0].Rest? {
        var k := if |left| > |more| then |left| - |more| else 0;
        SelectedOk(more, left[k..]);
      } else if items[0].Tuple? {
        SelectedTupleOk(items[0].each, more, left);
      } else {
        SelectedOk(more, left[1..]);
      }
    }
  }

  lemma {:induction false} SelectedTupleOk(each: seq<int>, more: seq<Item>, left: seq<Dim>)
    requires DimsOk(left) && |each| <= |left| && SelectTuple(each, more, left).Sel?
    ensures DimsOk(SelectTuple(each, more, left).dims)
    decreases |more|, |each| + 1
  {
    if each == [] {
      SelectedOk(more, left);
    } else {
      SelectedTupleOk(each[1..], more, left[1..]);
    }
  }

  lemma ApplyOk(op: Op, v: View)
    requires DimsOk(v.dims) && Apply(op, v).Ok?
    ensures DimsOk(Apply(op, v).view.dims)
  {
    hide Select, RowMajor, Product;
    var n := |v.dims|;
    match op
    case Split(axis, parts) => SplitShape(v, Normal(axis, n), AsSizes(parts));
    case Index(items) => SelectedOk(items, v.dims);
    case _ =>
  }

  /** The index of `v` that an index of the new view stands for. */
  function Denoted(op: Op, v: View, idx: seq<nat>): (from: seq<nat>)
    requires DimsOk(v.dims) && Apply(op, v).Ok? && InShape(Apply(op, v).view.dims, idx)
  {
    var n := |v.dims|;
    match op
    case Transpose => seq(n, k requires 0 <= k < n => idx[n - 1 - k])
    case Permute(axes) => Unpermuted(Axes(axes, n), idx)
    case Swap(a, b) => idx[Normal(a, n) := idx[Normal(b, n)]][Normal(b, n) := idx[Normal(a, n)]]
    case Reverse(axis) =>
      var k := Normal(axis, n);
      assert idx[k] < Reversed(v, k).dims[k].size;
      idx[k := v.dims[k].size - 1 - idx[k]]
    case Split(axis, parts) =>
      SplitAddress(v, Normal(axis, n), AsSizes(parts), idx);
      SplitFrom(Normal(axis, n), AsSizes(parts), idx)
    case Diag => idx + [idx[n - 2]]
    case Index(items) => From(items, v.dims, idx)
  }

  /** For the operations that rearrange the axes: entry k of the index belongs to axis `p[k]` of `v`. */
  lemma DenotedRearranged(op: Op, v: View, p: seq<nat>, idx: seq<nat>)
    requires DimsOk(v.dims) && Apply(op, v).Ok? && InShape(Apply(op, v).view.dims, idx)
    requires match op
             case Transpose => p == Backwards(|v.dims|)
             case Permute(axes) => p == Axes(axes, |v.dims|)
             case Swap(a, b) => p == Swapped(|v.dims|, Normal(a, |v.dims|), Normal(b, |v.dims|))
             case _ => false
    ensures IsPermutation(p, |v.dims|) && Apply(op, v).view == Rearranged(v, p)
    ensures DenotesPermuted(p, idx, Denoted(op, v, idx))
  {
    var n := |v.dims|;
    match op
    case Transpose => BackwardsPermutes(n);
    case Permute(axes) =>
      ArrangementPermutes(axes, n);
      UnpermutedDenotes(p, idx);
    case Swap(a, b) => SwappedPermutes(n, Normal(a, n), Normal(b, n));
    case _ =>
  }

  lemma RearrangedOp(op: Op, v: View, p: seq<nat>, idx: seq<nat>)
    requires DimsOk(v.dims) && Apply(op, v).Ok? && InShape(Apply(op, v).view.dims, idx)
    requires IsPermutation(p, |v.dims|) && Apply(op, v).view == Rearranged(v, p)
    requires DenotesPermuted(p, idx, Denoted(op, v, idx))
    ensures DimsOk(Apply(op, v).view.dims) && InShape(v.dims, Denoted(op, v, idx))
    ensures Address(Apply(op, v).view, idx) == Address(v, Denoted(op, v, idx))
  {
    hide Address, Denoted, Apply, Rearranged, IsPermutation, DenotesPermuted;
    RearrangedAddress(v, p, idx, Denoted(op, v, idx));
  }

  /** Every index of the new view leads to the cell of the index that it denotes in the old one. */
  lemma ApplyAddress(op: Op, v: View, idx: seq<nat>)
    requires DimsOk(v.dims) && Apply(op, v).Ok? && InShape(Apply(op, v).view.dims, idx)
    ensures DimsOk(Apply(op, v).view.dims) && InShape(v.dims, Denoted(op, v, idx))
    ensures Address(Apply(op, v).view, idx) == Address(v, Denoted(op, v, idx))
  {
    hide Offset, DimsOk, InShape, Select, From, Rearranged, Reversed, SplitView, DiagView, Product, Flattened, IsPermutation,
         DenotesPermuted, Unpermuted;
    var n := |v.dims|;
    match op {
      case Transpose =>
        DenotedRearranged(op, v, Backwards(n), idx);
        RearrangedOp(op, v, Backwards(n), idx);
      case Permute(axes) =>
        DenotedRearranged(op, v, Axes(axes, n), idx);
        RearrangedOp(op, v, Axes(axes, n), idx);
      case Swap(a, b) =>
        DenotedRearranged(op, v, Swapped(n, Normal(a, n), Normal(b, n)), idx);
        RearrangedOp(op, v, Swapped(n, Normal(a, n), Normal(b, n)), idx);
      case Reverse(axis) => ReversedAddress(v, Normal(axis, n), idx);
      case Split(axis, parts) => SplitAddress(v, Normal(axis, n), AsSizes(parts), idx);
      case Diag =>
        DiagIndex(v, idx);
        DiagAddress(v, idx);
      case Index(items) => SelectAddress(items, v.dims, idx);
    }
  }

  lemma DiagIndex(v: View, idx: seq<nat>)
    requires |v.dims| >= 2 && InShape(DiagView(v).dims, idx)
    ensures |idx| == |v.dims| - 1
  {
  }

  lemma ArrangementPermutes(list: seq<int>, n: nat)
    requires IsArrangement(list, n)
    ensures IsPermutation(Axes(list, n), n)
  {
  }

  // ---------------------------------------------------------------- any number of steps

  function ApplyAll(ops: seq<Op>, v: View): Outcome
    requires DimsOk(v.dims)
    decreases |ops|
  {
    if ops == [] then Ok(v)
    else
      var w := Apply(ops[0], v);
      if !w.Ok? then w
      else
        ApplyOk(ops[0], v);
        ApplyAll(ops[1..], w.view)
  }

  /** The index of `v` that an index at the end of the chain stands for. */
  function DenotedAll(ops: seq<Op>, v: View, idx: seq<nat>): (from: seq<nat>)
    requires DimsOk(v.dims) && ApplyAll(ops, v).Ok? && InShape(ApplyAll(ops, v).view.dims, idx)
    ensures InShape(v.dims, from)
    decreases |ops|
  {
    if ops == [] then idx
    else
      ApplyOk(ops[0], v);
      var mid := DenotedAll(ops[1..], Apply(ops[0], v).view, idx);
      ApplyAddress(ops[0], v, mid);
      Denoted(ops[0], v, mid)
  }

  lemma {:induction false} ChainAddress(ops: seq<Op>, v: View, idx: seq<nat>)
    requires DimsOk(v.dims) && ApplyAll(ops, v).Ok? && InShape(ApplyAll(ops, v).view.dims, idx)
    ensures DimsOk(ApplyAll(ops, v).view.dims)
    ensures Address(ApplyAll(ops, v).view, idx) == Address(v, DenotedAll(ops, v, idx))
    decreases |ops|
  {
    hide Apply, Address, InShape, DimsOk, Denoted;
    if ops != [] {
      ApplyOk(ops[0], v);
      var w := Apply(ops[0], v).view;
      ChainAddress(ops[1..], w, idx);
      ApplyAddress(ops[0], v, DenotedAll(ops[1..], w, idx));
    }
  }

  /** Whatever views are made of an array, every index of the result leads to the cell whose number is the
      row-major position of the index it denotes, inside the buffer. */
  lemma ViewsStayInside(sizes: seq<nat>, ops: seq<Op>, idx: seq<nat>)
    requires DimsOk(Root(sizes).dims) && ApplyAll(ops, Root(sizes)).Ok? && InShape(ApplyAll(ops, Root(sizes)).view.dims, idx)
    ensures DimsOk(ApplyAll(ops, Root(sizes)).view.dims) && Within(sizes, DenotedAll(ops, Root(sizes), idx))
    ensures Address(ApplyAll(ops, Root(sizes)).view, idx) == Flattened(sizes, DenotedAll(ops, Root(sizes), idx))
    ensures 0 <= Address(ApplyAll(ops, Root(sizes)).view, idx) < Product(sizes)
  {
    hide Apply, ApplyAll, InShape, DimsOk, Product, Flattened, Offset, DenotedAll, Within;
    ChainAddress(ops, Root(sizes), idx);
    var from := DenotedAll(ops, Root(sizes), idx);
    WithinRowMajor(sizes, 1, from);
    RowMajorOffset(sizes, 1, from);
    FlattenedBound(sizes, from);
  }

  // ---------------------------------------------------------------- which permutations are accepted

  /** `permute` makes a view exactly if it is defined, for at most 30 axes, and the list arranges them. */
  lemma PermuteSucceedsExactly(v: View, axes: seq<int>)
    requires DimsOk(v.dims)
    ensures Apply(Permute(axes), v).Ok? <==> |v.dims| <= MAX_MASKED && IsArrangement(axes, |v.dims|)
    ensures Apply(Permute(axes), v).Undefined? <==> MAX_MASKED < |v.dims| <= 64 && |axes| == |v.dims|
  {
  }

  /** An array of 32 axes of size one: not even its identity permutation is defined. */
  lemma WidePermutation()
    ensures var v, axes := Root(seq(32, i => 1)), seq(32, i => i + 1);
            DimsOk(v.dims) && IsArrangement(axes, |v.dims|) && Apply(Permute(axes), v) == Undefined
  {
    RowMajorOk(seq(32, i => 1), 1);
  }
}
