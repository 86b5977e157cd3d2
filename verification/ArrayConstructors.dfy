/** The methods that make views (src/ml_array.c): each fills a new record of dimensions. */
module ArrayConstructors {
  import opened Options
  import opened ArrayViews
  import opened ArrayShapes
  import opened ArrayIndexing
  import opened ArrayChain
  import Finite

  const NO_DIM: Dim := Dim(0, 0, None)

  method TransposeArray(v: View) returns (r: Outcome)
    requires DimsOk(v.dims)
    ensures r == Apply(Transpose, v)
  {
    var degree := |v.dims|;
    var target := new Dim[degree](_ => NO_DIM);
    for i := 0 to degree
      invariant forall k | 0 <= k < i :: target[k] == v.dims[degree - 1 - k]
    {
      target[i] := v.dims[degree - i - 1];
    }
    assert target[..] == Rearranged(v, Backwards(degree)).dims;
    r := Ok(View(v.base, target[..]));
  }

  /** `permute`. Up to 30 axes it accepts exactly their permutations. */
  method PermuteArray(v: View, axes: seq<int>) returns (r: Outcome)
    requires DimsOk(v.dims)
    ensures r == Apply(Permute(axes), v)
  {
    hide Apply;
    ApplyPermute(v, axes);
    if |v.dims| > 64 || |axes| != |v.dims| {
      return Failed;
    }
    if |v.dims| > MAX_MASKED {
      return Undefined;
    }
    var ok, dims := PickAxes(v.dims, axes);
    if !ok {
      return Failed;
    }
    assert dims == Rearranged(v, Axes(axes, |v.dims|)).dims;
    r := Ok(View(v.base, dims));
  }

  lemma ApplyPermute(v: View, axes: seq<int>)
    requires DimsOk(v.dims)
    ensures IsArrangement(axes, |v.dims|) ==> forall k | 0 <= k < |axes| :: 0 <= Axes(axes, |v.dims|)[k] < |v.dims|
    ensures Apply(Permute(axes), v)
         == if |v.dims| > 64 || |axes| != |v.dims| then Failed
            else if |v.dims| > MAX_MASKED then Undefined
            else if !IsArrangement(axes, |v.dims|) then Failed
            else Ok(Rearranged(v, Axes(axes, |v.dims|)))
  {
  }

  /** After `i` entries: all in range, all different, and `bits` is the set of the axes they do not name. */
  ghost predicate PickedUpTo(dims: seq<Dim>, axes: seq<int>, i: nat, picked: seq<Dim>, bits: set<int>)
    requires i <= |axes|
  {
    && |picked| == i && |bits| == |dims| - i
    && (forall k | 0 <= k < i :: InRange(axes[k], |dims|) && picked[k] == dims[Normal(axes[k], |dims|)])
    && (forall j, k | 0 <= j < k < i :: Normal(axes[j], |dims|) != Normal(axes[k], |dims|))
    && (forall j :: j in bits <==> 0 <= j < |dims| && j !in Axes(axes, |dims|)[..i])
  }

  lemma PickedNone(dims: seq<Dim>, axes: seq<int>)
    ensures PickedUpTo(dims, axes, 0, [], Finite.Below(|dims|))
  {
  }

  lemma PickedNext(dims: seq<Dim>, axes: seq<int>, i: nat, picked: seq<Dim>, bits: set<int>)
    requires i < |axes| && PickedUpTo(dims, axes, i, picked, bits) && Normal(axes[i], |dims|) in bits
    ensures 0 <= Normal(axes[i], |dims|) < |dims|
    ensures PickedUpTo(dims, axes, i + 1, picked + [dims[Normal(axes[i], |dims|)]], bits - {Normal(axes[i], |dims|)})
  {
    hide Normal;
    var named, j := Axes(axes, |dims|), Normal(axes[i], |dims|);
    assert named[..i + 1] == named[..i] + [j];
    forall k | 0 <= k < i ensures Normal(axes[k], |dims|) != j {
      assert named[..i][k] == Normal(axes[k], |dims|);
    }
  }

  /** An axis in range that is not left has been named before. */
  lemma PickedBefore(dims: seq<Dim>, axes: seq<int>, i: nat, picked: seq<Dim>, bits: set<int>)
    requires i < |axes| && PickedUpTo(dims, axes, i, picked, bits) && Normal(axes[i], |dims|) !in bits
    ensures !IsArrangement(axes, |dims|)
  {
    hide Normal;
    var named, j := Axes(axes, |dims|)[..i], Normal(axes[i], |dims|);
    if j in named {
      var k :| 0 <= k < i && named[k] == j;
      assert Normal(axes[k], |dims|) == Normal(axes[i], |dims|);
    } else {
      assert !InRange(axes[i], |dims|);
    }
  }

  /** The loop over the list. The bit mask, which fits an `int`, is the set of the axes not used yet. */
  method PickAxes(dims: seq<Dim>, axes: seq<int>) returns (ok: bool, picked: seq<Dim>)
    requires |axes| == |dims| <= MAX_MASKED
    ensures ok <==> IsArrangement(axes, |dims|)
    ensures ok ==> |picked| == |axes| && forall k | 0 <= k < |axes| :: picked[k] == dims[Normal(axes[k], |dims|)]
  {
    hide Normal, PickedUpTo;
    var degree := |dims|;
    picked := [];
    var bits := Finite.Below(degree);
    PickedNone(dims, axes);
    for i := 0 to degree
      invariant PickedUpTo(dims, axes, i, picked, bits)
    {
      var j := Normal(axes[i], degree);
      if j < 0 || j >= degree {
        assert !InRange(axes[i], degree);
        return false, picked;
      }
      if j !in bits {
        PickedBefore(dims, axes, i, picked, bits);
        return false, picked;
      }
      PickedNext(dims, axes, i, picked, bits);
      bits := bits - {j};
      picked := picked + [dims[j]];
    }
    PickedAll(dims, axes, picked, bits);
    ok := bits == {};
  }

  lemma PickedAll(dims: seq<Dim>, axes: seq<int>, picked: seq<Dim>, bits: set<int>)
    requires |axes| == |dims| && PickedUpTo(dims, axes, |axes|, picked, bits)
    ensures bits == {} && IsArrangement(axes, |dims|)
    ensures |picked| == |axes| && forall k | 0 <= k < |axes| :: picked[k] == dims[Normal(axes[k], |dims|)]
  {
  }

  /** A new record with the same dimensions. */
  method CopyDims(dims: seq<Dim>) returns (target: array<Dim>)
    ensures fresh(target) && target[..] == dims
  {
    target := new Dim[|dims|](_ => NO_DIM);
    for i := 0 to |dims|
      invariant forall k | 0 <= k < i :: target[k] == dims[k]
    {
      target[i] := dims[i];
    }
  }

  method SwapArray(v: View, a: int, b: int) returns (r: Outcome)
    requires DimsOk(v.dims)
    ensures r == Apply(Swap(a, b), v)
  {
    hide Apply, Rearranged, Swapped, DimsOk;
    ApplySwap(v, a, b);
    var degree := |v.dims|;
    var indexA := if a <= 0 then a + (degree + 1) else a;
    var indexB := if b <= 0 then b + (degree + 1) else b;
    if indexA < 1 || indexA > degree || indexB < 1 || indexB > degree {
      return Failed;
    }
    var target := CopyDims(v.dims);
    target[indexA - 1] := v.dims[indexB - 1];
    target[indexB - 1] := v.dims[indexA - 1];
    SwappedDims(v, indexA - 1, indexB - 1, target[..]);
    r := Ok(View(v.base, target[..]));
  }

  lemma SwappedDims(v: View, a: nat, b: nat, dims: seq<Dim>)
    requires a < |v.dims| && b < |v.dims| && dims == v.dims[a := v.dims[b]][b := v.dims[a]]
    ensures (forall k | 0 <= k < |v.dims| :: Swapped(|v.dims|, a, b)[k] < |v.dims|)
    ensures Rearranged(v, Swapped(|v.dims|, a, b)) == View(v.base, dims)
  {
    var w := Rearranged(v, Swapped(|v.dims|, a, b));
    assert forall k | 0 <= k < |v.dims| :: w.dims[k] == dims[k];
  }

  lemma ApplySwap(v: View, a: int, b: int)
    requires DimsOk(v.dims)
    ensures var n := |v.dims|;
            Apply(Swap(a, b), v) == if !InRange(a, n) || !InRange(b, n) then Failed
                                    else Ok(Rearranged(v, Swapped(n, Normal(a, n), Normal(b, n))))
  {
  }

  method ReverseArray(v: View, axis: int) returns (r: Outcome)
    requires DimsOk(v.dims)
    ensures r == Apply(Reverse(axis), v)
  {
    hide Apply;
    ApplyReverse(v, axis);
    var degree := |v.dims|;
    var index := if axis <= 0 then axis + (degree + 1) else axis;
    if index < 1 || index > degree {
      return Failed;
    }
    var target := CopyDims(v.dims);
    var d, base := v.dims[index - 1], v.base;
    if d.indices.Some? {
      var list := ReverseList(d.indices.value);
      target[index - 1] := d.(indices := Some(list));
      assert list == ReversedDim(d).indices.value;
    } else {
      base := base + d.stride * (d.size - 1);
      target[index - 1] := d.(stride := -d.stride);
    }
    assert target[..] == v.dims[index - 1 := ReversedDim(d)];
    r := Ok(View(base, target[..]));
  }

  lemma ApplyReverse(v: View, axis: int)
    requires DimsOk(v.dims)
    ensures var n := |v.dims|;
            Apply(Reverse(axis), v) == if !InRange(axis, n) then Failed else Ok(Reversed(v, Normal(axis, n)))
  {
  }

  method ReverseList(list: seq<int>) returns (r: seq<int>)
    ensures |r| == |list| && forall i | 0 <= i < |list| :: r[i] == list[|list| - 1 - i]
  {
    var n := |list|;
    var indices := new int[n](_ => 0);
    var i, j := 0, n - 1;
    while j >= 0
      invariant i + j == n - 1 && 0 <= i <= n
      invariant forall k | 0 <= k < i :: indices[k] == list[n - 1 - k]
    {
      indices[i] := list[j];
      i, j := i + 1, j - 1;
    }
    r := indices[..];
  }

  // ---------------------------------------------------------------- split

  lemma {:induction false} ProductAppend(a: seq<nat>, x: nat)
    ensures Product(a + [x]) == Product(a) * x
  {
    if a == [] {
      assert [x][1..] == [] && a + [x] == [x];
    } else {
      ProductAppend(a[1..], x);
      assert (a + [x])[1..] == a[1..] + [x];
      assert a[0] * (Product(a[1..]) * x) == (a[0] * Product(a[1..])) * x;
    }
  }

  lemma {:induction false} RowMajorAt(sizes: seq<nat>, stride: int, j: nat)
    requires j < |sizes|
    ensures |RowMajor(sizes, stride)| == |sizes|
    ensures RowMajor(sizes, stride)[j] == Dim(sizes[j], stride * Product(sizes[j + 1..]), None)
  {
    RowMajorOk(sizes, stride);
    if j > 0 {
      RowMajorAt(sizes[1..], stride, j - 1);
      assert sizes[1..][j..] == sizes[j + 1..];
    }
  }

  /** The total size, if all sizes are positive. */
  method TotalSize(parts: seq<int>) returns (ok: bool, total: nat)
    ensures ok <==> AllPositive(parts)
    ensures ok ==> total == Product(AsSizes(parts))
  {
    total := 1;
    for i := 0 to |parts|
      invariant AllPositive(parts[..i]) && total == Product(AsSizes(parts[..i]))
    {
      if parts[i] <= 0 {
        return false, 0;
      }
      assert AsSizes(parts[..i + 1]) == AsSizes(parts[..i]) + [parts[i]];
      ProductAppend(AsSizes(parts[..i]), parts[i]);
      total := total * parts[i];
    }
    assert parts[..|parts|] == parts;
    ok := true;
  }

  /** The dimensions of the parts, filled in from the last. */
  method FillParts(sizes: seq<nat>, stride0: int) returns (dims: seq<Dim>)
    ensures dims == RowMajor(sizes, stride0)
  {
    var target := new Dim[|sizes|](_ => NO_DIM);
    var stride := stride0;
    var j := |sizes|;
    assert sizes[j..] == [];
    while j > 0
      invariant 0 <= j <= |sizes| && stride == stride0 * Product(sizes[j..])
      invariant forall k | j <= k < |sizes| :: target[k] == Dim(sizes[k], stride0 * Product(sizes[k + 1..]), None)
    {
      j := j - 1;
      target[j] := Dim(sizes[j], stride, None);
      assert sizes[j..][1..] == sizes[j + 1..];
      NextStride(stride0, Product(sizes[j + 1..]), sizes[j]);
      stride := stride * sizes[j];
    }
    RowMajorOk(sizes, stride0);
    forall k | 0 <= k < |sizes| ensures target[k] == RowMajor(sizes, stride0)[k] {
      RowMajorAt(sizes, stride0, k);
    }
    dims := target[..];
  }

  lemma NextStride(stride: int, p: nat, size: nat)
    ensures stride * p * size == stride * (size * p)
  {
  }

  method SplitArray(v: View, axis: int, parts: seq<int>) returns (r: Outcome)
    requires DimsOk(v.dims)
    ensures r == Apply(Split(axis, parts), v)
  {
    hide Product, RowMajor;
    var degree := |v.dims|;
    var expand := if axis <= 0 then axis + degree + 1 else axis;
    if expand < 1 || expand > degree {
      return Failed;
    }
    expand := expand - 1;
    if v.dims[expand].indices.Some? {
      return Failed;
    }
    var ok, total := TotalSize(parts);
    if !ok || v.dims[expand].size != total {
      return Failed;
    }
    var dims := FillParts(AsSizes(parts), v.dims[expand].stride);
    r := Ok(View(v.base, v.dims[..expand] + dims + v.dims[expand + 1..]));
  }

  // ---------------------------------------------------------------- join

  predicate AllStrided(dims: seq<Dim>) {
    forall k | 0 <= k < |dims| :: dims[k].indices.None?
  }

  /** What `join` answers for `count` axes from `start` on. */
  function Joined(v: View, start: int, count: int): Outcome {
    var n := |v.dims|;
    var k := Normal(start, n);
    if !InRange(start, n) || count <= 0 || k + count > n || !AllStrided(v.dims[k..k + count]) then Failed
    else Ok(JoinView(v, k, count))
  }

  method JoinArray(v: View, start0: int, count: int) returns (r: Outcome)
    ensures r == Joined(v, start0, count)
  {
    hide Product, Sizes;
    var degree := |v.dims|;
    var start := if start0 <= 0 then start0 + degree + 1 else start0;
    if start < 1 || start > degree || count <= 0 {
      return Failed;
    }
    start := start - 1;
    var end := start + count - 1;
    if end >= degree {
      return Failed;
    }
    var ok, size := JoinedSize(v.dims, start, count);
    if !ok {
      return Failed;
    }
    r := Ok(View(v.base, v.dims[..start] + [Dim(size, v.dims[end].stride, None)] + v.dims[end + 1..]));
  }

  /** The loop over the joined axes, from the last. */
  method JoinedSize(dims: seq<Dim>, start: nat, count: nat) returns (ok: bool, size: nat)
    requires start + count <= |dims|
    ensures ok <==> AllStrided(dims[start..start + count])
    ensures ok ==> size == Product(Sizes(dims[start..start + count]))
  {
    var end := start + count;
    size := 1;
    var source := end;
    assert Sizes(dims[end..end]) == [];
    while source > start
      invariant start <= source <= end
      invariant AllStrided(dims[source..end]) && size == Product(Sizes(dims[source..end]))
    {
      source := source - 1;
      if dims[source].indices.Some? {
        assert dims[start..end][source - start].indices.Some?;
        return false, size;
      }
      assert dims[source..end][1..] == dims[source + 1..end];
      assert Sizes(dims[source..end])[1..] == Sizes(dims[source + 1..end]);
      size := size * dims[source].size;
    }
    ok := true;
  }

  /** What was split can be joined again, and the view is back. */
  lemma JoinedAfterSplit(v: View, axis: int, parts: seq<int>)
    requires DimsOk(v.dims) && Apply(Split(axis, parts), v).Ok? && parts != []
    ensures Joined(Apply(Split(axis, parts), v).view, Normal(axis, |v.dims|) + 1, |parts|) == Ok(v)
  {
    hide Product, RowMajor;
    var k, sizes := Normal(axis, |v.dims|), AsSizes(parts);
    var w := SplitView(v, k, sizes);
    SplitShape(v, k, sizes);
    JoinAfterSplit(v, k, sizes);
    assert w.dims[k..k + |parts|] == RowMajor(sizes, v.dims[k].stride);
    SplitStrided(sizes, v.dims[k].stride);
  }

  lemma SplitStrided(sizes: seq<nat>, stride: int)
    ensures AllStrided(RowMajor(sizes, stride))
  {
    RowMajorOk(sizes, stride);
    forall j | 0 <= j < |sizes| ensures RowMajor(sizes, stride)[j].indices.None? {
      RowMajorAt(sizes, stride, j);
    }
  }

  // ---------------------------------------------------------------- indexing

  /** What the rest of the items make of what has been done. */
  function Finished(address: int, target: seq<Dim>, s: Selected): Outcome {
    match s
    case Sel(delta, dims) => Ok(View(address + delta, target + dims))
    case NoArray => Nil
    case TooMany => Failed
  }

  lemma FinishedShifted(address: int, target: seq<Dim>, s: Selected, delta: int, dims: seq<Dim>)
    ensures Finished(address, target, Shifted(s, delta, dims)) == Finished(address + delta, target + dims, s)
  {
    if s.Sel? {
      assert target + (dims + s.dims) == (target + dims) + s.dims;
    }
  }

  /** The entries of a list index; the first becomes part of the address. */
  method PickEntries(d: Dim, list: seq<int>) returns (ok: bool, first: int, dim: Dim)
    requires DimOk(d)
    ensures ok <==> list != [] && AllInRange(list, d.size)
    ensures ok ==> first == Position(d, Normal(list[0], d.size)) && dim == PickedDim(d, list)
  {
    first, dim := 0, NO_DIM;
    if list == [] {
      return false, first, dim;
    }
    var count := |list|;
    var indices := new int[count](_ => 0);
    for k := 0 to count
      invariant forall j | 0 <= j < k :: InRange(list[j], d.size) && indices[j] == Position(d, Normal(list[j], d.size))
    {
      var i := list[k];
      if i <= 0 {
        i := i + d.size + 1;
      }
      i := i - 1;
      if i < 0 || i >= d.size {
        assert !InRange(list[k], d.size);
        return false, first, dim;
      }
      indices[k] := if d.indices.Some? then d.indices.value[i] else i;
    }
    first := indices[0];
    for k := 0 to count
      invariant forall j | 0 <= j < k :: indices[j] == Position(d, Normal(list[j], d.size)) - first
      invariant forall j | k <= j < count :: indices[j] == Position(d, Normal(list[j], d.size))
    {
      indices[k] := indices[k] - first;
    }
    dim := Dim(count, d.stride, Some(indices[..]));
    assert indices[..] == PickedDim(d, list).indices.value;
    ok := true;
  }

  /** Either the items have come to an end with `stop`, or what is left of them goes on from here. */
  ghost predicate Continues(whole: Outcome, stop: Option<Outcome>, address: int, target: seq<Dim>, more: seq<Item>, left: seq<Dim>) {
    if stop.Some? then whole == stop.value else DimsOk(left) && whole == Finished(address, target, Select(more, left))
  }

  /** ml_array_index. */
  method IndexArray(v: View, items: seq<Item>) returns (r: Outcome)
    requires DimsOk(v.dims)
    ensures r == Apply(Index(items), v)
  {
    hide Select, Apply;
    var address, target, source: nat := v.base, [], 0;
    ghost var goal := Finished(v.base, [], Select(items, v.dims));
    for i := 0 to |items|
      invariant source <= |v.dims| && Continues(goal, None, address, target, items[i..], v.dims[source..])
    {
      assert items[i..][0] == items[i] && items[i..][1..] == items[i + 1..];
      var stop;
      stop, address, target, source := IndexItem(v, items[i], |items| - (i + 1), items[i..], address, target, source);
      if stop.Some? {
        ApplyIndex(v, items);
        return stop.value;
      }
    }
    ApplyIndex(v, items);
    SelectNothing(v.dims[source..]);
    r := Ok(View(address, target + v.dims[source..]));
  }

  lemma ApplyIndex(v: View, items: seq<Item>)
    requires DimsOk(v.dims)
    ensures Apply(Index(items), v) == Finished(v.base, [], Select(items, v.dims))
  {
    hide Select;
    if Select(items, v.dims).Sel? {
      assert [] + Select(items, v.dims).dims == Select(items, v.dims).dims;
    }
  }

  lemma SelectNothing(left: seq<Dim>)
    requires DimsOk(left)
    ensures Select([], left) == Sel(0, left)
  {
  }

  /** After the first item either the outcome is known or the others go on from the new place. */
  ghost predicate Indexed(v: View, items: seq<Item>, address0: int, target0: seq<Dim>, source0: nat,
                          stop: Option<Outcome>, address: int, target: seq<Dim>, source: nat)
  {
    && DimsOk(v.dims) && source0 <= |v.dims| && items != [] && source <= |v.dims|
    && Continues(Finished(address0, target0, Select(items, v.dims[source0..])), stop, address, target, items[1..], v.dims[source..])
  }

  /** One round of the loop over the items. */
  method IndexItem(v: View, item: Item, others: nat, ghost items: seq<Item>, address0: int, target0: seq<Dim>, source0: nat)
    returns (stop: Option<Outcome>, address: int, target: seq<Dim>, source: nat)
    requires DimsOk(v.dims) && source0 <= |v.dims| && items != [] && items[0] == item && |items| == others + 1
    ensures Indexed(v, items, address0, target0, source0, stop, address, target, source)
  {
    hide PickedDim, BetweenDim, Step, Finished;
    stop, address, target, source := None, address0, target0, source0;
    if item.Rest? {
      target, source := IndexRest(v, others, items, address, target, source);
    } else if source >= |v.dims| {
      stop := Some(Failed);
      assert Finished(address, target, TooMany) == Failed by { FinishedErrors(address, target); }
    } else if item.Tuple? {
      FinishedErrors(address, target);
      if source + |item.each| > |v.dims| {
        stop := Some(Failed);
        return;
      }
      var ok;
      ok, address := IndexTuple(v, item.each, items[1..], address, target, source);
      if !ok {
        stop := Some(Nil);
        return;
      }
      source := source + |item.each|;
    } else {
      stop, address, target, source := IndexAxis(v, item, items, address, target, source);
    }
  }

  /** `..`: as many dimensions stay as the other items leave. */
  method IndexRest(v: View, others: nat, ghost items: seq<Item>, ghost address: int, target0: seq<Dim>, source0: nat)
    returns (target: seq<Dim>, source: nat)
    requires DimsOk(v.dims) && source0 <= |v.dims| && |items| == others + 1 && items[0].Rest?
    ensures Indexed(v, items, address, target0, source0, None, address, target, source)
  {
    hide Finished;
    source := if |v.dims| - source0 > others then |v.dims| - others else source0;
    target := target0 + v.dims[source0..source];
    ghost var left, k := v.dims[source0..], source - source0;
    FinishedShifted(address, target0, Select(items[1..], left[k..]), 0, left[..k]);
    assert left[k..] == v.dims[source..] && left[..k] == v.dims[source0..source];
  }

  lemma FinishedErrors(address: int, target: seq<Dim>)
    ensures Finished(address, target, TooMany) == Failed && Finished(address, target, NoArray) == Nil
  {
  }

  /** An item that takes one dimension. */
  method IndexAxis(v: View, item: Item, ghost items: seq<Item>, address0: int, target0: seq<Dim>, source0: nat)
    returns (stop: Option<Outcome>, address: int, target: seq<Dim>, source: nat)
    requires DimsOk(v.dims) && source0 < |v.dims| && items != [] && items[0] == item && !item.Rest? && !item.Tuple?
    ensures Indexed(v, items, address0, target0, source0, stop, address, target, source)
  {
    hide PickedDim, BetweenDim, Step, Finished;
    stop, address, target, source := None, address0, target0, source0 + 1;
    var d := v.dims[source0];
    ghost var rest := Select(items[1..], v.dims[source..]);
    assert v.dims[source0..][0] == d && v.dims[source0..][1..] == v.dims[source..];
    FinishedErrors(address, target);
    match item {
      case All =>
        FinishedShifted(address, target, rest, 0, [d]);
        target := target + [d];
      case At(index) =>
        if !InRange(index, d.size) {
          stop := Some(Nil);
          return;
        }
        var step := Step(d, Normal(index, d.size));
        FinishedShifted(address, target, rest, step, []);
        assert target + [] == target;
        address := address + step;
      case Pick(list) =>
        var ok, first, dim := PickEntries(d, list);
        if !ok {
          stop := Some(Nil);
          return;
        }
        FinishedShifted(address, target, rest, d.stride * first, [dim]);
        address, target := address + d.stride * first, target + [dim];
      case Between(lo, hi) =>
        if !InRange(lo, d.size) || !InRange(hi, d.size) {
          stop := Some(Nil);
          return;
        }
        var min, max := Normal(lo, d.size), Normal(hi, d.size);
        if (max - min) + 1 < 0 {
          stop := Some(Nil);
          return;
        }
        var delta := if d.indices.Some? then 0 else d.stride * min;
        var dim := BetweenDim(d, min, max);
        FinishedShifted(address, target, rest, delta, [dim]);
        address, target := address + delta, target + [dim];
    }
  }

  /** The loop over the integers of a tuple. */
  method IndexTuple(v: View, each: seq<int>, ghost more: seq<Item>, address0: int, ghost target: seq<Dim>, source0: nat)
    returns (ok: bool, address: int)
    requires DimsOk(v.dims) && source0 + |each| <= |v.dims|
    ensures var whole := Finished(address0, target, SelectTuple(each, more, v.dims[source0..]));
            if ok then whole == Finished(address, target, Select(more, v.dims[source0 + |each|..])) else whole == Nil
  {
    hide Select, Step;
    address := address0;
    for k := 0 to |each|
      invariant Finished(address, target, SelectTuple(each[k..], more, v.dims[source0 + k..]))
             == Finished(address0, target, SelectTuple(each, more, v.dims[source0..]))
    {
      var d := v.dims[source0 + k];
      assert v.dims[source0 + k..][1..] == v.dims[source0 + (k + 1)..] && each[k..][1..] == each[k + 1..];
      if !InRange(each[k], d.size) {
        return false, address;
      }
      var step := Step(d, Normal(each[k], d.size));
      FinishedShifted(address, target, SelectTuple(each[k + 1..], more, v.dims[source0 + (k + 1)..]), step, []);
      assert target + [] == target;
      address := address + step;
    }
    assert each[|each|..] == [];
    ok := true;
  }
}
