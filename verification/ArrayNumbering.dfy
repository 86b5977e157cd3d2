/** How entries and axes are numbered (src/ml_array.c): from 1 on, from -1 backwards, and no other number
    names one. */
module ArrayNumbering {
  import opened ArrayViews
  import opened ArrayShapes
  import opened ArrayIndexing
  import opened ArrayChain
  import opened ArrayConstructors

  /** The numbers that name one of `n` entries. */
  predicate Counts(i: int, n: nat) {
    1 <= i <= n || 1 <= -i <= n
  }

  /** 1 is the first entry, -1 the last. */
  function Entry(i: int, n: nat): (k: nat)
    requires Counts(i, n)
    ensures k < n
  {
    if i > 0 then i - 1 else n + i
  }

  lemma NormalCounts(i: int, n: nat)
    ensures InRange(i, n) <==> Counts(i, n)
    ensures Counts(i, n) ==> Normal(i, n) == Entry(i, n)
  {
  }

  // ---------------------------------------------------------------- the axes in front

  function Keeps(k: nat): seq<Item> {
    seq(k, i => All)
  }

  lemma KeepsNext(k: nat, items: seq<Item>)
    requires k > 0
    ensures (Keeps(k) + items)[0] == All && (Keeps(k) + items)[1..] == Keeps(k - 1) + items
  {
    assert Keeps(k)[1..] == Keeps(k - 1);
  }

  /** `*` keeps an axis. */
  lemma {:induction false} KeepsFront(k: nat, items: seq<Item>, left: seq<Dim>)
    requires DimsOk(left) && k <= |left|
    ensures Select(Keeps(k) + items, left) == Shifted(Select(items, left[k..]), 0, left[..k])
    decreases k
  {
    hide Select, Shifted;
    if k == 0 {
      assert Keeps(0) + items == items && left[0..] == left && left[..0] == [];
      NotShifted(Select(items, left));
    } else {
      KeepsNext(k, items);
      AllKeeps(Keeps(k) + items, left);
      KeepsFront(k - 1, items, left[1..]);
      assert left[1..][k - 1..] == left[k..];
      ShiftedTwice(Select(items, left[k..]), left, k);
    }
  }

  lemma NotShifted(s: Selected)
    ensures Shifted(s, 0, []) == s
  {
    assert s.Sel? ==> [] + s.dims == s.dims;
  }

  lemma ShiftedTwice(s: Selected, left: seq<Dim>, k: nat)
    requires 0 < k <= |left|
    ensures Shifted(Shifted(s, 0, left[1..][..k - 1]), 0, [left[0]]) == Shifted(s, 0, left[..k])
  {
    if s.Sel? {
      assert [left[0]] + (left[1..][..k - 1] + s.dims) == left[..k] + s.dims;
    }
  }

  lemma AllKeeps(items: seq<Item>, left: seq<Dim>)
    requires DimsOk(left) && left != [] && items != [] && items[0] == All
    ensures Select(items, left) == Shifted(Select(items[1..], left[1..]), 0, [left[0]])
  {
    hide Normal, InRange, AllInRange, PickedDim, BetweenDim, Shifted;
  }

  /** `..` keeps the axes that the items behind it leave. */
  lemma RestKeeps(items: seq<Item>, left: seq<Dim>)
    requires DimsOk(left) && |items| <= |left|
    ensures Select([Rest] + items, left) == Select(Keeps(|left| - |items|) + items, left)
  {
    hide Normal, InRange, AllInRange, PickedDim, BetweenDim;
    KeepsFront(|left| - |items|, items, left);
    assert ([Rest] + items)[1..] == items;
  }

  /** One item behind the axes in front. */
  lemma SelectOne(k: nat, item: Item, left: seq<Dim>)
    requires DimsOk(left) && k < |left| && !item.Rest? && !item.Tuple?
    ensures Select(Keeps(k) + [item], left) == Shifted(Select([item], left[k..]), 0, left[..k])
    ensures Select([], left[k + 1..]) == Sel(0, left[k + 1..]) && [item][1..] == [] && left[k..][1..] == left[k + 1..]
  {
    hide Normal, InRange, AllInRange, PickedDim, BetweenDim;
    KeepsFront(k, [item], left);
  }

  // ---------------------------------------------------------------- an integer

  /** Along every axis: exactly the numbers that count select a cell, each its own. */
  lemma AtCounts(v: View, k: nat, i: int)
    requires DimsOk(v.dims) && k < |v.dims|
    ensures var n, r := v.dims[k].size, Apply(Index(Keeps(k) + [At(i)]), v);
            if Counts(i, n) then r == Ok(View(v.base + Step(v.dims[k], Entry(i, n)), v.dims[..k] + v.dims[k + 1..]))
            else r == Nil
  {
    NormalCounts(i, v.dims[k].size);
    hide Normal, InRange, Entry, Counts, Step;
    SelectOne(k, At(i), v.dims);
    assert v.dims[..k] + ([] + v.dims[k + 1..]) == v.dims[..k] + v.dims[k + 1..];
  }

  /** The integer i leads to the i-th entry. */
  lemma AtAddress(v: View, k: nat, i: nat, idx: seq<nat>)
    requires DimsOk(v.dims) && k < |v.dims| && 1 <= i <= v.dims[k].size
    requires InShape(v.dims[..k] + v.dims[k + 1..], idx)
    ensures |idx| == |v.dims| - 1 && InShape(v.dims, idx[..k] + [i - 1] + idx[k..])
    ensures var r := Apply(Index(Keeps(k) + [At(i)]), v);
            r.Ok? && r.view.dims == v.dims[..k] + v.dims[k + 1..] && DimsOk(r.view.dims) &&
            Address(r.view, idx) == Address(v, idx[..k] + [i - 1] + idx[k..])
  {
    hide Offset, Step, Apply, DimsOk, InShape;
    AtCounts(v, k, i);
    WholeInShape(v.dims, k, i - 1, idx);
    WholeOffset(v.dims, k, i - 1, idx);
  }

  /** The offset of an index along one axis and the others. */
  lemma WholeOffset(dims: seq<Dim>, k: nat, j: nat, idx: seq<nat>)
    requires DimsOk(dims) && k < |dims| && |idx| == |dims| - 1 && InShape(dims, idx[..k] + [j] + idx[k..])
    requires InShape(dims[..k] + dims[k + 1..], idx)
    ensures DimsOk(dims[..k] + dims[k + 1..])
    ensures Offset(dims, idx[..k] + [j] + idx[k..]) == Step(dims[k], j) + Offset(dims[..k] + dims[k + 1..], idx)
  {
    hide Offset, Step, InShape;
    var whole := idx[..k] + [j] + idx[k..];
    OffsetSplitAt(dims, whole, k);
    assert whole[..k] == idx[..k] && whole[k] == j && whole[k + 1..] == idx[k..];
    OffsetConcat(dims[..k], dims[k + 1..], idx[..k], idx[k..]);
    assert idx[..k] + idx[k..] == idx;
  }

  lemma WholeInShape(dims: seq<Dim>, k: nat, j: nat, idx: seq<nat>)
    requires k < |dims| && j < dims[k].size && InShape(dims[..k] + dims[k + 1..], idx)
    ensures |idx| == |dims| - 1 && InShape(dims, idx[..k] + [j] + idx[k..])
  {
    var rest := dims[..k] + dims[k + 1..];
    var whole := idx[..k] + [j] + idx[k..];
    forall m | 0 <= m < |dims| ensures whole[m] < dims[m].size {
      if m < k {
        assert idx[m] < rest[m].size;
      } else if m > k {
        assert idx[m - 1] < rest[m - 1].size;
      }
    }
  }

  /** The integer -i selects what i selects in the array reversed along the axis. */
  lemma AtFromEnd(v: View, k: nat, i: int)
    requires DimsOk(v.dims) && k < |v.dims| && 1 <= i <= v.dims[k].size
    ensures var w := Apply(Reverse(k + 1), v);
            w.Ok? && DimsOk(w.view.dims) && Apply(Index(Keeps(k) + [At(-i)]), v) == Apply(Index(Keeps(k) + [At(i)]), w.view)
  {
    var w := Reversed(v, k);
    assert Apply(Reverse(k + 1), v) == Ok(w);
    ReversedStep(v.dims[k], i - 1);
    assert DimsOk(w.dims) && w.dims[..k] == v.dims[..k] && w.dims[k + 1..] == v.dims[k + 1..];
    AtCounts(v, k, -i);
    AtCounts(w, k, i);
  }

  // ---------------------------------------------------------------- tuples, lists, intervals

  function Ats(each: seq<int>): seq<Item> {
    seq(|each|, k requires 0 <= k < |each| => At(each[k]))
  }

  lemma AtsNext(each: seq<int>, more: seq<Item>)
    requires each != []
    ensures (Ats(each) + more)[0] == At(each[0]) && (Ats(each) + more)[1..] == Ats(each[1..]) + more
  {
    assert Ats(each)[1..] == Ats(each[1..]);
  }

  /** A tuple is its integers one after the other, and too many of them are an error before anything else. */
  lemma TupleIsAts(each: seq<int>, more: seq<Item>, left: seq<Dim>)
    requires DimsOk(left) && left != []
    ensures Select([Tuple(each)] + more, left) == if |each| > |left| then TooMany else Select(Ats(each) + more, left)
  {
    hide Normal, InRange, AllInRange, PickedDim, BetweenDim;
    assert ([Tuple(each)] + more)[1..] == more;
    if |each| <= |left| {
      SelectTupleIsAts(each, more, left);
    }
  }

  lemma {:induction false} SelectTupleIsAts(each: seq<int>, more: seq<Item>, left: seq<Dim>)
    requires DimsOk(left) && |each| <= |left|
    ensures SelectTuple(each, more, left) == Select(Ats(each) + more, left)
    decreases |each|
  {
    hide Normal, InRange, AllInRange, PickedDim, BetweenDim;
    if each == [] {
      assert Ats(each) + more == more;
    } else {
      AtsNext(each, more);
      SelectTupleIsAts(each[1..], more, left[1..]);
    }
  }

  /** A tuple selects something exactly if each of its integers counts along its axis. */
  lemma {:induction false} TupleCounts(each: seq<int>, left: seq<Dim>)
    requires DimsOk(left) && |each| <= |left|
    ensures Select(Ats(each), left).Sel? <==> forall k | 0 <= k < |each| :: Counts(each[k], left[k].size)
    ensures !Select(Ats(each), left).Sel? ==> Select(Ats(each), left) == NoArray
    decreases |each|
  {
    hide Normal, InRange, AllInRange, PickedDim, BetweenDim, Counts;
    if each != [] {
      AtsNext(each, []);
      assert Ats(each) + [] == Ats(each) && Ats(each[1..]) + [] == Ats(each[1..]);
      TupleCounts(each[1..], left[1..]);
      NormalCounts(each[0], left[0].size);
      assert forall k | 0 < k < |each| :: each[k] == each[1..][k - 1] && left[k] == left[1..][k - 1];
    }
  }

  /** A list selects something exactly if it has entries and all of them count. */
  lemma PickCounts(v: View, k: nat, list: seq<int>)
    requires DimsOk(v.dims) && k < |v.dims|
    ensures var r := Apply(Index(Keeps(k) + [Pick(list)]), v);
            if list != [] && forall j | 0 <= j < |list| :: Counts(list[j], v.dims[k].size)
            then r.Ok? && |r.view.dims| == |v.dims| && r.view.dims[k].size == |list| && r.view.dims == v.dims[k := r.view.dims[k]]
            else r == Nil
  {
    var n := v.dims[k].size;
    forall j | 0 <= j < |list| ensures InRange(list[j], n) <==> Counts(list[j], n) {
      NormalCounts(list[j], n);
    }
    hide Normal, InRange, Entry, Counts;
    SelectOne(k, Pick(list), v.dims);
    if list != [] && AllInRange(list, n) {
      var d := PickedDim(v.dims[k], list);
      assert v.dims[..k] + ([d] + v.dims[k + 1..]) == v.dims[k := d];
    }
  }

  /** Entry j of the selection is what the j-th integer of the list selects. */
  lemma PickAddress(v: View, k: nat, list: seq<int>, idx: seq<nat>)
    requires DimsOk(v.dims) && k < |v.dims| && Apply(Index(Keeps(k) + [Pick(list)]), v).Ok?
    requires InShape(Apply(Index(Keeps(k) + [Pick(list)]), v).view.dims, idx)
    ensures |idx| == |v.dims| && idx[k] < |list| && Counts(list[idx[k]], v.dims[k].size)
    ensures var w, one := Apply(Index(Keeps(k) + [Pick(list)]), v).view, Apply(Index(Keeps(k) + [At(list[idx[k]])]), v);
            one.Ok? && DimsOk(w.dims) && DimsOk(one.view.dims) && InShape(one.view.dims, idx[..k] + idx[k + 1..]) &&
            Address(w, idx) == Address(one.view, idx[..k] + idx[k + 1..])
  {
    PickCounts(v, k, list);
    var n, j := v.dims[k].size, idx[k];
    NormalCounts(list[j], n);
    AtCounts(v, k, list[j]);
    SelectOne(k, Pick(list), v.dims);
    var w := Apply(Index(Keeps(k) + [Pick(list)]), v).view;
    PickedStep(v.dims[k], list, j);
    OneAxisAddress(v, w, k, idx, v.dims[k].stride * Position(v.dims[k], Normal(list[0], n)));
  }

  /** A view that differs from another one along one axis. */
  lemma OneAxisAddress(v: View, w: View, k: nat, idx: seq<nat>, delta: int)
    requires DimsOk(v.dims) && k < |v.dims| && |w.dims| == |v.dims| && w.dims == v.dims[k := w.dims[k]] && DimOk(w.dims[k])
    requires InShape(w.dims, idx) && w.base == v.base + delta
    ensures DimsOk(w.dims) && DimsOk(v.dims[..k] + v.dims[k + 1..]) && InShape(v.dims[..k] + v.dims[k + 1..], idx[..k] + idx[k + 1..])
    ensures Address(w, idx)
         == v.base + delta + Step(w.dims[k], idx[k]) + Offset(v.dims[..k] + v.dims[k + 1..], idx[..k] + idx[k + 1..])
  {
    hide Step;
    OffsetSplitAt(w.dims, idx, k);
    assert w.dims[..k] == v.dims[..k] && w.dims[k + 1..] == v.dims[k + 1..];
    OffsetConcat(v.dims[..k], v.dims[k + 1..], idx[..k], idx[k + 1..]);
  }

  /** An interval selects something exactly if both bounds count and the second is not before the first by
      more than one entry; it has the entries from bound to bound. */
  lemma BetweenCounts(v: View, k: nat, lo: int, hi: int)
    requires DimsOk(v.dims) && k < |v.dims|
    ensures var n, r := v.dims[k].size, Apply(Index(Keeps(k) + [Between(lo, hi)]), v);
            if Counts(lo, n) && Counts(hi, n) && Entry(lo, n) <= Entry(hi, n) + 1
            then r.Ok? && |r.view.dims| == |v.dims| && r.view.dims[k].size == Entry(hi, n) - Entry(lo, n) + 1
                 && r.view.dims == v.dims[k := r.view.dims[k]]
            else r == Nil
  {
    var n := v.dims[k].size;
    NormalCounts(lo, n);
    NormalCounts(hi, n);
    hide Normal, InRange, Entry, Counts;
    SelectOne(k, Between(lo, hi), v.dims);
    if Counts(lo, n) && Counts(hi, n) && Entry(lo, n) <= Entry(hi, n) + 1 {
      var d := BetweenDim(v.dims[k], Entry(lo, n), Entry(hi, n));
      assert v.dims[..k] + ([d] + v.dims[k + 1..]) == v.dims[k := d];
    }
  }

  lemma BetweenAddress(v: View, k: nat, lo: int, hi: int, idx: seq<nat>)
    requires DimsOk(v.dims) && k < |v.dims| && Apply(Index(Keeps(k) + [Between(lo, hi)]), v).Ok?
    requires InShape(Apply(Index(Keeps(k) + [Between(lo, hi)]), v).view.dims, idx)
    ensures Counts(lo, v.dims[k].size) && |idx| == |v.dims|
    ensures var w, whole := Apply(Index(Keeps(k) + [Between(lo, hi)]), v).view, idx[k := Entry(lo, v.dims[k].size) + idx[k]];
            DimsOk(w.dims) && InShape(v.dims, whole) && Address(w, idx) == Address(v, whole)
  {
    BetweenCounts(v, k, lo, hi);
    var n := v.dims[k].size;
    NormalCounts(lo, n);
    NormalCounts(hi, n);
    var min, max := Entry(lo, n), Entry(hi, n);
    SelectOne(k, Between(lo, hi), v.dims);
    var w := Apply(Index(Keeps(k) + [Between(lo, hi)]), v).view;
    BetweenStep(v.dims[k], min, max, idx[k]);
    OneAxisAddress(v, w, k, idx, if v.dims[k].indices.Some? then 0 else v.dims[k].stride * min);
    var whole := idx[k := min + idx[k]];
    assert v.dims[k := v.dims[k]] == v.dims;
    OneAxisAddress(v, v, k, whole, 0);
    assert whole[..k] == idx[..k] && whole[k + 1..] == idx[k + 1..];
  }

  // ---------------------------------------------------------------- axes

  /** Reversing: axis i is the i-th, axis -i the i-th from the end, anything else an error. */
  lemma ReverseAxis(v: View, i: int)
    requires DimsOk(v.dims)
    ensures Apply(Reverse(i), v) == if Counts(i, |v.dims|) then Ok(Reversed(v, Entry(i, |v.dims|))) else Failed
    ensures 1 <= i <= |v.dims| ==> Apply(Reverse(-i), v) == Apply(Reverse(|v.dims| + 1 - i), v)
  {
  }

  lemma SwapAxes(v: View, i: int, j: int)
    requires DimsOk(v.dims)
    ensures var n := |v.dims|;
            Apply(Swap(i, j), v)
              == if Counts(i, n) && Counts(j, n) then Ok(Rearranged(v, Swapped(n, Entry(i, n), Entry(j, n)))) else Failed
    ensures 1 <= i <= |v.dims| ==> Apply(Swap(-i, j), v) == Apply(Swap(|v.dims| + 1 - i, j), v)
    ensures 1 <= j <= |v.dims| ==> Apply(Swap(i, -j), v) == Apply(Swap(i, |v.dims| + 1 - j), v)
  {
  }

  lemma SplitAxis(v: View, i: int, parts: seq<int>)
    requires DimsOk(v.dims)
    ensures !Counts(i, |v.dims|) ==> Apply(Split(i, parts), v) == Failed
    ensures Counts(i, |v.dims|) && Apply(Split(i, parts), v).Ok? ==>
              AllPositive(parts) && v.dims[Entry(i, |v.dims|)].indices.None? &&
              Apply(Split(i, parts), v) == Ok(SplitView(v, Entry(i, |v.dims|), AsSizes(parts)))
    ensures 1 <= i <= |v.dims| ==> Apply(Split(-i, parts), v) == Apply(Split(|v.dims| + 1 - i, parts), v)
  {
    hide SplitView, Product;
  }

  lemma JoinAxis(v: View, i: int, count: int)
    ensures !Counts(i, |v.dims|) ==> Joined(v, i, count) == Failed
    ensures Counts(i, |v.dims|) && Joined(v, i, count).Ok? ==>
              count > 0 && Entry(i, |v.dims|) + count <= |v.dims| && Joined(v, i, count) == Ok(JoinView(v, Entry(i, |v.dims|), count))
    ensures 1 <= i <= |v.dims| ==> Joined(v, -i, count) == Joined(v, |v.dims| + 1 - i, count)
  {
    hide JoinView;
  }

  /** Permuting: entry k of the list names the axis that becomes axis k, each axis once. */
  lemma PermuteAxes(v: View, axes: seq<int>)
    requires DimsOk(v.dims) && |axes| == |v.dims| <= MAX_MASKED
    ensures var n, r := |v.dims|, Apply(Permute(axes), v);
            if (forall k | 0 <= k < n :: Counts(axes[k], n)) && (forall j, k | 0 <= j < k < n :: Entry(axes[j], n) != Entry(axes[k], n))
            then r.Ok? && r.view.base == v.base && |r.view.dims| == n && forall k | 0 <= k < n :: r.view.dims[k] == v.dims[Entry(axes[k], n)]
            else r == Failed
  {
    var n := |v.dims|;
    forall k | 0 <= k < n ensures InRange(axes[k], n) <==> Counts(axes[k], n) ensures Counts(axes[k], n) ==> Normal(axes[k], n) == Entry(axes[k], n) {
      NormalCounts(axes[k], n);
    }
    hide Normal, InRange, Entry, Counts;
  }
}
