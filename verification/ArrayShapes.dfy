/** Row-major arrays, and splitting, joining and taking the diagonal of views (src/ml_array.c). */
module ArrayShapes {
  import opened Options
  import opened ArrayViews
  import opened Arithmetic

  function Product(sizes: seq<nat>): nat {
    if sizes == [] then 1 else sizes[0] * Product(sizes[1..])
  }

  predicate Within(sizes: seq<nat>, ks: seq<nat>) {
    |ks| == |sizes| && forall j | 0 <= j < |sizes| :: ks[j] < sizes[j]
  }

  /** The position of an index in row-major order. */
  function Flattened(sizes: seq<nat>, ks: seq<nat>): nat
    requires Within(sizes, ks)
  {
    if sizes == [] then 0 else ks[0] * Product(sizes[1..]) + Flattened(sizes[1..], ks[1..])
  }

  /** Dimensions of the given sizes over cells that are `stride` apart. */
  function RowMajor(sizes: seq<nat>, stride: int): seq<Dim> {
    if sizes == [] then []
    else [Dim(sizes[0], stride * Product(sizes[1..]), None)] + RowMajor(sizes[1..], stride)
  }

  lemma {:induction false} RowMajorOk(sizes: seq<nat>, stride: int)
    ensures DimsOk(RowMajor(sizes, stride)) && |RowMajor(sizes, stride)| == |sizes|
    ensures forall j | 0 <= j < |sizes| :: RowMajor(sizes, stride)[j].size == sizes[j]
    ensures sizes != [] ==> RowMajor(sizes, stride)[|sizes| - 1].stride == stride
  {
    if sizes != [] {
      RowMajorOk(sizes[1..], stride);
    }
  }

  lemma {:induction false} FlattenedBound(sizes: seq<nat>, ks: seq<nat>)
    requires Within(sizes, ks)
    ensures Flattened(sizes, ks) < Product(sizes)
  {
    if sizes != [] {
      FlattenedBound(sizes[1..], ks[1..]);
      var p, f := Product(sizes[1..]), Flattened(sizes[1..], ks[1..]);
      RowsBelow(ks[0], sizes[0], p, f);
    }
  }

  lemma RowsBelow(k: nat, n: nat, p: nat, f: nat)
    requires k < n && f < p
    ensures k * p + f < n * p
  {
    MulMonotone(p, k + 1, n);
  }

  /** The offset in a row-major array is the row-major position. */
  lemma {:induction false} RowMajorOffset(sizes: seq<nat>, stride: int, ks: seq<nat>)
    requires Within(sizes, ks)
    ensures DimsOk(RowMajor(sizes, stride)) && InShape(RowMajor(sizes, stride), ks)
    ensures Offset(RowMajor(sizes, stride), ks) == Flattened(sizes, ks) * stride
  {
    RowMajorOk(sizes, stride);
    if sizes != [] {
      RowMajorOffset(sizes[1..], stride, ks[1..]);
      var p, f := Product(sizes[1..]), Flattened(sizes[1..], ks[1..]);
      assert RowMajor(sizes, stride)[1..] == RowMajor(sizes[1..], stride);
      Distribute(ks[0], p, f, stride);
    }
  }

  lemma Distribute(k: int, p: int, f: int, s: int)
    ensures k * (s * p) + f * s == (k * p + f) * s
  {
  }

  /** A whole array: its cells are `0 .. Product(sizes)`. */
  function Root(sizes: seq<nat>): View {
    View(0, RowMajor(sizes, 1))
  }

  lemma RootAddress(sizes: seq<nat>, idx: seq<nat>)
    requires InShape(Root(sizes).dims, idx)
    ensures DimsOk(Root(sizes).dims) && 0 <= Address(Root(sizes), idx) < Product(sizes)
  {
    RowMajorOk(sizes, 1);
    RowMajorOffset(sizes, 1, idx);
    FlattenedBound(sizes, idx);
  }

  // ---------------------------------------------------------------- splitting an axis

  function SplitView(v: View, k: nat, sizes: seq<nat>): View
    requires k < |v.dims|
  {
    View(v.base, v.dims[..k] + RowMajor(sizes, v.dims[k].stride) + v.dims[k + 1..])
  }

  lemma SplitShape(v: View, k: nat, sizes: seq<nat>)
    requires DimsOk(v.dims) && k < |v.dims|
    ensures DimsOk(SplitView(v, k, sizes).dims) && |SplitView(v, k, sizes).dims| == |v.dims| - 1 + |sizes|
  {
    RowMajorOk(sizes, v.dims[k].stride);
  }

  lemma InShapeParts(a: seq<Dim>, b: seq<Dim>, idx: seq<nat>)
    requires InShape(a + b, idx)
    ensures |idx| == |a| + |b| && InShape(a, idx[..|a|]) && InShape(b, idx[|a|..])
  {
    assert forall j | 0 <= j < |a| :: (a + b)[j] == a[j];
    forall j | 0 <= j < |b| ensures idx[|a|..][j] < b[j].size {
      assert (a + b)[|a| + j] == b[j];
    }
  }

  lemma WithinRowMajor(sizes: seq<nat>, stride: int, m: seq<nat>)
    requires InShape(RowMajor(sizes, stride), m)
    ensures Within(sizes, m)
  {
    RowMajorOk(sizes, stride);
    assert forall j | 0 <= j < |sizes| :: RowMajor(sizes, stride)[j].size == sizes[j];
  }

  lemma SplitPieces(pre: seq<Dim>, d: Dim, post: seq<Dim>, sizes: seq<nat>, i: seq<nat>, m: seq<nat>, j: seq<nat>)
    requires DimsOk(pre) && DimsOk(post) && d.indices.None? && d.size == Product(sizes)
    requires InShape(pre, i) && InShape(post, j) && Within(sizes, m)
    ensures var mid, f := RowMajor(sizes, d.stride), Flattened(sizes, m);
            f < d.size && DimsOk(pre + mid + post) && InShape(pre + mid + post, i + m + j) &&
            DimsOk(pre + [d] + post) && InShape(pre + [d] + post, i + [f] + j) &&
            Offset(pre + mid + post, i + m + j) == Offset(pre + [d] + post, i + [f] + j)
  {
    hide Offset, Flattened, RowMajor, InShape, Within, DimsOk, Product;
    FlattenedBound(sizes, m);
    RowMajorOffset(sizes, d.stride, m);
    var mid, f := RowMajor(sizes, d.stride), Flattened(sizes, m);
    OffsetOne(d, f);
    OffsetConcat(pre, mid, i, m);
    OffsetConcat(pre + mid, post, i + m, j);
    OffsetConcat(pre, [d], i, [f]);
    OffsetConcat(pre + [d], post, i + [f], j);
  }

  /** The source index that an index of a split view denotes: the parts become their row-major position. */
  function SplitFrom(k: nat, sizes: seq<nat>, idx: seq<nat>): seq<nat>
    requires k + |sizes| <= |idx| && Within(sizes, idx[k..][..|sizes|])
  {
    idx[..k] + [Flattened(sizes, idx[k..][..|sizes|])] + idx[k..][|sizes|..]
  }

  lemma SplitAddress(v: View, k: nat, sizes: seq<nat>, idx: seq<nat>)
    requires DimsOk(v.dims) && k < |v.dims| && v.dims[k].indices.None? && v.dims[k].size == Product(sizes)
    requires InShape(SplitView(v, k, sizes).dims, idx)
    ensures DimsOk(SplitView(v, k, sizes).dims) && k + |sizes| <= |idx| && Within(sizes, idx[k..][..|sizes|])
    ensures var from := SplitFrom(k, sizes, idx);
            InShape(v.dims, from) && Address(SplitView(v, k, sizes), idx) == Address(v, from)
  {
    hide Offset, Flattened, RowMajor, InShape, Within, Product, DimsOk;
    SplitShape(v, k, sizes);
    DimsParts(v.dims, k);
    var d := v.dims[k];
    var pre, mid, post := v.dims[..k], RowMajor(sizes, d.stride), v.dims[k + 1..];
    RowMajorOk(sizes, d.stride);
    ThreeParts(pre, mid, post, idx);
    var i, m, j := idx[..k], idx[k..][..|sizes|], idx[k..][|sizes|..];
    WithinRowMajor(sizes, d.stride, m);
    SplitPieces(pre, d, post, sizes, i, m, j);
    assert pre + [d] + post == v.dims;
  }

  lemma DimsParts(dims: seq<Dim>, k: nat)
    requires DimsOk(dims) && k < |dims|
    ensures DimsOk(dims[..k]) && DimOk(dims[k]) && DimsOk(dims[k + 1..])
  {
  }

  lemma ThreeParts(a: seq<Dim>, b: seq<Dim>, c: seq<Dim>, idx: seq<nat>)
    requires InShape(a + b + c, idx)
    ensures |idx| == |a| + |b| + |c|
    ensures var i, m, j := idx[..|a|], idx[|a|..][..|b|], idx[|a|..][|b|..];
            InShape(a, i) && InShape(b, m) && InShape(c, j) && i + m + j == idx
  {
    hide InShape;
    assert a + b + c == a + (b + c);
    InShapeParts(a, b + c, idx);
    InShapeParts(b, c, idx[|a|..]);
  }

  /** The sizes of some axes, outermost first. */
  function Sizes(dims: seq<Dim>): seq<nat> {
    seq(|dims|, k requires 0 <= k < |dims| => dims[k].size)
  }

  function JoinView(v: View, k: nat, count: nat): View
    requires 0 < count && k + count <= |v.dims|
  {
    View(v.base, v.dims[..k] + [Dim(Product(Sizes(v.dims[k..k + count])), v.dims[k + count - 1].stride, None)] + v.dims[k + count..])
  }

  /** Joining undoes splitting. */
  lemma JoinAfterSplit(v: View, k: nat, sizes: seq<nat>)
    requires DimsOk(v.dims) && k < |v.dims| && v.dims[k].indices.None? && v.dims[k].size == Product(sizes) && sizes != []
    ensures |SplitView(v, k, sizes).dims| == |v.dims| - 1 + |sizes| && JoinView(SplitView(v, k, sizes), k, |sizes|) == v
  {
    hide RowMajor, Product, Sizes, DimsOk;
    SplitShape(v, k, sizes);
    var d := v.dims[k];
    var rows := RowMajor(sizes, d.stride);
    RowMajorOk(sizes, d.stride);
    JoinPieces(v.dims[..k], rows, v.dims[k + 1..], sizes);
    assert SplitView(v, k, sizes).dims[k + |sizes| - 1] == rows[|sizes| - 1];
    assert Dim(Product(sizes), d.stride, None) == d;
    assert v.dims == v.dims[..k] + [d] + v.dims[k + 1..];
  }

  lemma JoinPieces(pre: seq<Dim>, mid: seq<Dim>, post: seq<Dim>, sizes: seq<nat>)
    requires |mid| == |sizes| && forall j | 0 <= j < |sizes| :: mid[j].size == sizes[j]
    ensures var dims, k, n := pre + mid + post, |pre|, |mid|;
            dims[..k] == pre && Sizes(dims[k..k + n]) == sizes && dims[k + n..] == post
    ensures mid != [] ==> (pre + mid + post)[|pre| + |mid| - 1] == mid[|mid| - 1]
  {
    assert (pre + mid + post)[|pre|..|pre| + |mid|] == mid;
  }

  /** Splitting undoes joining exactly if the joined axes lie row by row over the innermost. */
  lemma SplitAfterJoin(v: View, k: nat, count: nat)
    requires 0 < count && k + count <= |v.dims|
    ensures var run := v.dims[k..k + count];
            SplitView(JoinView(v, k, count), k, Sizes(run)) == v <==> run == RowMajor(Sizes(run), run[count - 1].stride)
  {
    hide RowMajor, Product;
    var run := v.dims[k..k + count];
    var rows := RowMajor(Sizes(run), run[count - 1].stride);
    var w := SplitView(JoinView(v, k, count), k, Sizes(run));
    RowMajorOk(Sizes(run), run[count - 1].stride);
    assert w.dims == v.dims[..k] + rows + v.dims[k + count..];
    assert w.dims[k..k + count] == rows;
    assert v.dims == v.dims[..k] + run + v.dims[k + count..];
  }

  // ---------------------------------------------------------------- the diagonal

  function DiagDim(a: Dim, b: Dim): Dim {
    Dim(if a.size < b.size then a.size else b.size, a.stride + b.stride, None)
  }

  function DiagView(v: View): View
    requires |v.dims| >= 2
  {
    var n := |v.dims|;
    View(v.base, v.dims[..n - 2] + [DiagDim(v.dims[n - 2], v.dims[n - 1])])
  }

  lemma DiagAddress(v: View, idx: seq<nat>)
    requires DimsOk(v.dims) && |v.dims| >= 2 && v.dims[|v.dims| - 2].indices.None? && v.dims[|v.dims| - 1].indices.None?
    requires InShape(DiagView(v).dims, idx)
    ensures DimsOk(DiagView(v).dims)
    ensures var from := idx + [idx[|idx| - 1]]; InShape(v.dims, from) && Address(DiagView(v), idx) == Address(v, from)
  {
    hide Offset, InShape;
    var n := |v.dims|;
    var a, b, pre := v.dims[n - 2], v.dims[n - 1], v.dims[..n - 2];
    InShapeParts(pre, [DiagDim(a, b)], idx);
    var i := idx[n - 2..][0];
    OneInShape(DiagDim(a, b), idx[n - 2..]);
    DiagPieces(pre, a, b, idx[..n - 2], i);
    assert idx[..n - 2] + [i] == idx && idx[..n - 2] + [i, i] == idx + [i];
    assert pre + [a, b] == v.dims;
  }

  lemma OneInShape(d: Dim, idx: seq<nat>)
    requires InShape([d], idx)
    ensures |idx| == 1 && idx[0] < d.size
  {
  }

  lemma DiagPieces(pre: seq<Dim>, a: Dim, b: Dim, rest: seq<nat>, i: nat)
    requires DimsOk(pre) && InShape(pre, rest) && a.indices.None? && b.indices.None? && i < DiagDim(a, b).size
    ensures DimsOk(pre + [DiagDim(a, b)]) && InShape(pre + [DiagDim(a, b)], rest + [i])
    ensures DimsOk(pre + [a, b]) && InShape(pre + [a, b], rest + [i, i])
    ensures Offset(pre + [DiagDim(a, b)], rest + [i]) == Offset(pre + [a, b], rest + [i, i])
  {
    hide Offset, InShape;
    var d := DiagDim(a, b);
    OffsetOne(d, i);
    OffsetOne(a, i);
    OffsetOne(b, i);
    OffsetConcat(pre, [d], rest, [i]);
    OffsetConcat([a], [b], [i], [i]);
    OffsetConcat(pre, [a] + [b], rest, [i] + [i]);
    assert [a] + [b] == [a, b] && [i] + [i] == [i, i];
    assert i * (a.stride + b.stride) == i * a.stride + i * b.stride;
  }
}
