/** Sub-arrays (src/ml_array.c, ml_array_index): indexing by integers, tuples, lists and intervals. */
module ArrayIndexing {
  import opened Options
  import opened ArrayViews

  /** `nil` or `*`, `..`, an integer, a tuple of integers, a list of integers, an interval. Indices count
      from 1, and from the end if they are not positive. */
  datatype Item = All | Rest | At(i: int) | Tuple(each: seq<int>) | Pick(list: seq<int>) | Between(lo: int, hi: int)

  datatype Selected = Sel(delta: int, dims: seq<Dim>) | NoArray | TooMany

  function Normal(i: int, size: nat): int {
    (if i <= 0 then i + size + 1 else i) - 1
  }

  predicate InRange(i: int, size: nat) {
    0 <= Normal(i, size) < size
  }

  /** The position of an index along its dimension, before the stride is applied. */
  function Position(d: Dim, i: nat): int
    requires DimOk(d) && i < d.size
  {
    if d.indices.Some? then d.indices.value[i] else i
  }

  predicate AllInRange(list: seq<int>, size: nat) {
    forall k | 0 <= k < |list| :: InRange(list[k], size)
  }

  /** A sparse dimension with the given entries, relative to the first. */
  function PickedDim(d: Dim, list: seq<int>): Dim
    requires DimOk(d) && list != [] && AllInRange(list, d.size)
  {
    var first := Position(d, Normal(list[0], d.size));
    Dim(|list|, d.stride, Some(seq(|list|, k requires 0 <= k < |list| => Position(d, Normal(list[k], d.size)) - first)))
  }

  function BetweenDim(d: Dim, min: nat, max: nat): Dim
    requires DimOk(d) && min < d.size && max < d.size && min <= max + 1
  {
    Dim(max - min + 1, d.stride, if d.indices.Some? then Some(d.indices.value[min..max + 1]) else None)
  }

  function Shifted(s: Selected, delta: int, dims: seq<Dim>): Selected {
    if s.Sel? then Sel(delta + s.delta, dims + s.dims) else s
  }

  /** What the items select from the dimensions that are left: how far the base moves and the new dimensions. */
  function Select(items: seq<Item>, left: seq<Dim>): Selected
    requires DimsOk(left)
    decreases |items|, 0
  {
    if items == [] then Sel(0, left)
    else
      var more := items[1..];
      if items[0].Rest? then
        var k := if |left| > |more| then |left| - |more| else 0;
        Shifted(Select(more, left[k..]), 0, left[..k])
      else if left == [] then TooMany
      else
        var d := left[0];
        match items[0]
        case All => Shifted(Select(more, left[1..]), 0, [d])
        case At(i) =>
          if !InRange(i, d.size) then NoArray
          else Shifted(Select(more, left[1..]), Step(d, Normal(i, d.size)), [])
        case Tuple(each) =>
          if |each| > |left| then TooMany else SelectTuple(each, more, left)
        case Pick(list) =>
          if list == [] || !AllInRange(list, d.size) then NoArray
          else Shifted(Select(more, left[1..]), d.stride * Position(d, Normal(list[0], d.size)), [PickedDim(d, list)])
        case Between(lo, hi) =>
          if !InRange(lo, d.size) || !InRange(hi, d.size) || Normal(lo, d.size) > Normal(hi, d.size) + 1 then NoArray
          else
            var min, max := Normal(lo, d.size), Normal(hi, d.size);
            Shifted(Select(more, left[1..]), if d.indices.Some? then 0 else d.stride * min, [BetweenDim(d, min, max)])
  }

  function SelectTuple(each: seq<int>, more: seq<Item>, left: seq<Dim>): Selected
    requires DimsOk(left) && |each| <= |left|
    decreases |more|, |each| + 1
  {
    if each == [] then Select(more, left)
    else if !InRange(each[0], left[0].size) then NoArray
    else Shifted(SelectTuple(each[1..], more, left[1..]), Step(left[0], Normal(each[0], left[0].size)), [])
  }

  // ---------------------------------------------------------------- what an index of the result denotes

  /** The index, in the dimensions that were left, of the cell at `idx` of what was selected. */
  function From(items: seq<Item>, left: seq<Dim>, idx: seq<nat>): seq<nat>
    requires DimsOk(left) && Select(items, left).Sel? && InShape(Select(items, left).dims, idx)
    decreases |items|, 0
  {
    if items == [] then idx
    else
      var more := items[1..];
      if items[0].Rest? then
        var k := if |left| > |more| then |left| - |more| else 0;
        SelectedParts(left[..k], Select(more, left[k..]).dims, idx);
        idx[..k] + From(more, left[k..], idx[k..])
      else
        var d, s := left[0], Select(items, left);
        match items[0]
        case All =>
          SelectedParts([d], Select(more, left[1..]).dims, idx);
          idx[..1] + From(more, left[1..], idx[1..])
        case At(i) =>
          SelectedParts([], Select(more, left[1..]).dims, idx);
          [Normal(i, d.size)] + From(more, left[1..], idx)
        case Tuple(each) => FromTuple(each, more, left, idx)
        case Pick(list) =>
          SelectedParts([PickedDim(d, list)], Select(more, left[1..]).dims, idx);
          [Normal(list[idx[0]], d.size)] + From(more, left[1..], idx[1..])
        case Between(lo, hi) =>
          SelectedParts([BetweenDim(d, Normal(lo, d.size), Normal(hi, d.size))], Select(more, left[1..]).dims, idx);
          [Normal(lo, d.size) + idx[0]] + From(more, left[1..], idx[1..])
  }

  function FromTuple(each: seq<int>, more: seq<Item>, left: seq<Dim>, idx: seq<nat>): seq<nat>
    requires DimsOk(left) && |each| <= |left|
    requires SelectTuple(each, more, left).Sel? && InShape(SelectTuple(each, more, left).dims, idx)
    decreases |more|, |each| + 1
  {
    if each == [] then From(more, left, idx)
    else
      SelectedParts([], SelectTuple(each[1..], more, left[1..]).dims, idx);
      [Normal(each[0], left[0].size)] + FromTuple(each[1..], more, left[1..], idx)
  }

  lemma SelectedParts(a: seq<Dim>, b: seq<Dim>, idx: seq<nat>)
    requires InShape(a + b, idx)
    ensures |idx| == |a| + |b| && InShape(a, idx[..|a|]) && InShape(b, idx[|a|..])
    ensures a == [] ==> idx[|a|..] == idx
    ensures |a| == 1 ==> idx[0] < a[0].size
  {
    assert forall j | 0 <= j < |a| :: (a + b)[j] == a[j];
    forall j | 0 <= j < |b| ensures idx[|a|..][j] < b[j].size {
      assert (a + b)[|a| + j] == b[j];
    }
  }

  /** An index into the selection and the index it denotes lead to the same cell. */
  ghost predicate Denotes(s: Selected, idx: seq<nat>, left: seq<Dim>, from: seq<nat>) {
    && s.Sel? && DimsOk(s.dims) && InShape(s.dims, idx) && DimsOk(left) && InShape(left, from)
    && s.delta + Offset(s.dims, idx) == Offset(left, from)
  }

  /** Putting a dimension, or none, in front of both sides. */
  lemma InFront(s: Selected, idx: seq<nat>, left: seq<Dim>, from: seq<nat>, front: seq<Dim>, m: seq<nat>, delta: int, d: Dim, n: nat)
    requires Denotes(s, idx, left, from)
    requires DimsOk(front) && InShape(front, m) && DimOk(d) && n < d.size && delta + Offset(front, m) == Step(d, n)
    ensures Denotes(Shifted(s, delta, front), m + idx, [d] + left, [n] + from)
  {
    OffsetConcat(front, s.dims, m, idx);
    OffsetOne(d, n);
    OffsetConcat([d], left, [n], from);
  }

  lemma PickedStep(d: Dim, list: seq<int>, i: nat)
    requires DimOk(d) && list != [] && AllInRange(list, d.size) && i < |list|
    ensures DimsOk([PickedDim(d, list)]) && InShape([PickedDim(d, list)], [i])
    ensures d.stride * Position(d, Normal(list[0], d.size)) + Offset([PickedDim(d, list)], [i]) == Step(d, Normal(list[i], d.size))
  {
    OffsetOne(PickedDim(d, list), i);
    var p, q := Position(d, Normal(list[i], d.size)), Position(d, Normal(list[0], d.size));
    assert d.stride * q + (p - q) * d.stride == p * d.stride;
  }

  lemma BetweenStep(d: Dim, min: nat, max: nat, i: nat)
    requires DimOk(d) && min < d.size && max < d.size && min + i <= max
    ensures DimsOk([BetweenDim(d, min, max)]) && InShape([BetweenDim(d, min, max)], [i])
    ensures (if d.indices.Some? then 0 else d.stride * min) + Offset([BetweenDim(d, min, max)], [i]) == Step(d, min + i)
  {
    OffsetOne(BetweenDim(d, min, max), i);
    assert d.stride * min + i * d.stride == (min + i) * d.stride;
  }

  lemma AtStep(d: Dim, n: nat)
    requires DimOk(d) && n < d.size
    ensures DimsOk([]) && InShape([], []) && Step(d, n) + Offset([], []) == Step(d, n)
    ensures DimsOk([d]) && InShape([d], [n]) && Offset([d], [n]) == Step(d, n)
  {
    OffsetOne(d, n);
  }

  /** Whatever is selected, every index of the result leads to the cell that the index it denotes leads to
      in the array. */
  lemma {:induction false} SelectAddress(items: seq<Item>, left: seq<Dim>, idx: seq<nat>)
    requires DimsOk(left) && Select(items, left).Sel? && InShape(Select(items, left).dims, idx)
    ensures Denotes(Select(items, left), idx, left, From(items, left, idx))
    decreases |items|, 0
  {
    hide Denotes;
    if items == [] {
      NothingSelected(left, idx);
    } else if items[0].Rest? {
      RestAddress(items, left, idx);
    } else if items[0].Tuple? {
      TupleAddress(items[0].each, items[1..], left, idx);
    } else if items[0].Pick? || items[0].Between? {
      ManyAddress(items, left, idx);
    } else {
      OneAddress(items, left, idx);
    }
  }

  lemma NothingSelected(left: seq<Dim>, idx: seq<nat>)
    requires DimsOk(left) && InShape(left, idx)
    ensures Denotes(Sel(0, left), idx, left, idx)
  {
  }

  lemma {:induction false} RestAddress(items: seq<Item>, left: seq<Dim>, idx: seq<nat>)
    requires items != [] && items[0].Rest?
    requires DimsOk(left) && Select(items, left).Sel? && InShape(Select(items, left).dims, idx)
    ensures Denotes(Select(items, left), idx, left, From(items, left, idx))
    decreases |items| - 1, 1
  {
    hide Offset, Denotes;
    var more := items[1..];
    var k := if |left| > |more| then |left| - |more| else 0;
    var s := Select(more, left[k..]);
    SelectedParts(left[..k], s.dims, idx);
    SelectAddress(more, left[k..], idx[k..]);
    KeptInFront(s, left, k, idx, From(more, left[k..], idx[k..]));
  }

  /** The first dimensions stay as they are. */
  lemma KeptInFront(s: Selected, left: seq<Dim>, k: nat, idx: seq<nat>, from: seq<nat>)
    requires k <= |left| && k <= |idx| && Denotes(s, idx[k..], left[k..], from)
    requires DimsOk(left) && InShape(left[..k], idx[..k])
    ensures Denotes(Shifted(s, 0, left[..k]), idx, left, idx[..k] + from)
  {
    hide Offset;
    OffsetConcat(left[..k], s.dims, idx[..k], idx[k..]);
    OffsetConcat(left[..k], left[k..], idx[..k], from);
    assert left[..k] + left[k..] == left && idx[..k] + idx[k..] == idx;
  }

  /** An item that keeps a dimension or takes one entry of it. */
  lemma {:induction false} OneAddress(items: seq<Item>, left: seq<Dim>, idx: seq<nat>)
    requires items != [] && (items[0].All? || items[0].At?)
    requires DimsOk(left) && Select(items, left).Sel? && InShape(Select(items, left).dims, idx)
    ensures Denotes(Select(items, left), idx, left, From(items, left, idx))
    decreases |items| - 1, 1
  {
    hide Offset, Denotes, Step, PickedDim, BetweenDim, DimOk;
    var more, d, tail := items[1..], left[0], left[1..];
    var s := Select(more, tail);
    assert left == [d] + tail && DimOk(d) && DimsOk(tail);
    match items[0]
    case All =>
      SelectedParts([d], s.dims, idx);
      SelectAddress(more, tail, idx[1..]);
      AtStep(d, idx[0]);
      InFront(s, idx[1..], tail, From(more, tail, idx[1..]), [d], [idx[0]], 0, d, idx[0]);
      assert [idx[0]] + idx[1..] == idx && idx[..1] == [idx[0]];
    case At(i) =>
      SelectedParts([], s.dims, idx);
      SelectAddress(more, tail, idx);
      AtStep(d, Normal(i, d.size));
      InFront(s, idx, tail, From(more, tail, idx), [], [], Step(d, Normal(i, d.size)), d, Normal(i, d.size));
      assert [] + idx == idx;
  }

  /** An item that takes a dimension and gives one with some of its entries. */
  lemma {:induction false} ManyAddress(items: seq<Item>, left: seq<Dim>, idx: seq<nat>)
    requires items != [] && (items[0].Pick? || items[0].Between?)
    requires DimsOk(left) && Select(items, left).Sel? && InShape(Select(items, left).dims, idx)
    ensures Denotes(Select(items, left), idx, left, From(items, left, idx))
    decreases |items| - 1, 1
  {
    hide Offset, Denotes, Step, PickedDim, BetweenDim, DimOk;
    var more, d, tail := items[1..], left[0], left[1..];
    var s := Select(more, tail);
    assert left == [d] + tail && DimOk(d) && DimsOk(tail);
    match items[0]
    case Pick(list) =>
      PickedSize(d, list);
      SelectedParts([PickedDim(d, list)], s.dims, idx);
      SelectAddress(more, tail, idx[1..]);
      PickedStep(d, list, idx[0]);
      InFront(s, idx[1..], tail, From(more, tail, idx[1..]), [PickedDim(d, list)], [idx[0]],
              d.stride * Position(d, Normal(list[0], d.size)), d, Normal(list[idx[0]], d.size));
      assert [idx[0]] + idx[1..] == idx;
    case Between(lo, hi) =>
      var min, max := Normal(lo, d.size), Normal(hi, d.size);
      BetweenSize(d, min, max);
      SelectedParts([BetweenDim(d, min, max)], s.dims, idx);
      SelectAddress(more, tail, idx[1..]);
      BetweenStep(d, min, max, idx[0]);
      InFront(s, idx[1..], tail, From(more, tail, idx[1..]), [BetweenDim(d, min, max)], [idx[0]],
              if d.indices.Some? then 0 else d.stride * min, d, min + idx[0]);
      assert [idx[0]] + idx[1..] == idx;
  }

  lemma PickedSize(d: Dim, list: seq<int>)
    requires DimOk(d) && list != [] && AllInRange(list, d.size)
    ensures PickedDim(d, list).size == |list|
  {
  }

  lemma BetweenSize(d: Dim, min: nat, max: nat)
    requires DimOk(d) && min < d.size && max < d.size && min <= max + 1
    ensures BetweenDim(d, min, max).size == max - min + 1
  {
  }

  lemma {:induction false} TupleAddress(each: seq<int>, more: seq<Item>, left: seq<Dim>, idx: seq<nat>)
    requires DimsOk(left) && |each| <= |left|
    requires SelectTuple(each, more, left).Sel? && InShape(SelectTuple(each, more, left).dims, idx)
    ensures Denotes(SelectTuple(each, more, left), idx, left, FromTuple(each, more, left, idx))
    decreases |more|, |each| + 1
  {
    hide Offset, Denotes, Step, DimOk;
    if each == [] {
      SelectAddress(more, left, idx);
    } else {
      var d, tail := left[0], left[1..];
      assert left == [d] + tail && DimOk(d) && DimsOk(tail);
      var s := SelectTuple(each[1..], more, tail);
      SelectedParts([], s.dims, idx);
      TupleAddress(each[1..], more, tail, idx);
      AtStep(d, Normal(each[0], d.size));
      InFront(s, idx, tail, FromTuple(each[1..], more, tail, idx), [], [], Step(d, Normal(each[0], d.size)), d, Normal(each[0], d.size));
      assert [] + idx == idx;
    }
  }
}
