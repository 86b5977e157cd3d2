/** What a broadcasting update does: every cell of the target is updated once, with the cell of the source
    that the inner part of its index denotes, and nothing else changes (src/ml_array.c). */
module ArrayBroadcast {
  import opened ArrayViews
  import opened ArrayUpdate

  // ---------------------------------------------------------------- all indices, in row-major order

  function Prepend(i: nat, list: seq<seq<nat>>): seq<seq<nat>> {
    seq(|list|, j requires 0 <= j < |list| => [i] + list[j])
  }

  function Indices(dims: seq<Dim>): seq<seq<nat>>
    decreases |dims|, 0, 0
  {
    if dims == [] then [[]] else IndicesFrom(dims, 0)
  }

  function IndicesFrom(dims: seq<Dim>, i: nat): seq<seq<nat>>
    requires dims != [] && i <= dims[0].size
    decreases |dims| - 1, 1, dims[0].size - i
  {
    if i == dims[0].size then [] else Prepend(i, Indices(dims[1..])) + IndicesFrom(dims, i + 1)
  }

  predicate AllInShape(dims: seq<Dim>, list: seq<seq<nat>>) {
    forall idx | idx in list :: InShape(dims, idx)
  }

  lemma PrependShape(dims: seq<Dim>, i: nat, list: seq<seq<nat>>)
    requires dims != [] && i < dims[0].size && AllInShape(dims[1..], list)
    ensures AllInShape(dims, Prepend(i, list))
  {
    forall idx | idx in Prepend(i, list) ensures InShape(dims, idx) {
      var j :| 0 <= j < |list| && idx == [i] + list[j];
      assert InShape(dims[1..], list[j]);
      forall k | 0 <= k < |dims| ensures idx[k] < dims[k].size {
        if k > 0 {
          assert idx[k] == list[j][k - 1] && dims[k] == dims[1..][k - 1];
        }
      }
    }
  }

  lemma {:induction false} IndicesShape(dims: seq<Dim>)
    ensures AllInShape(dims, Indices(dims))
    decreases |dims|, 0, 0
  {
    if dims != [] {
      IndicesFromShape(dims, 0);
    }
  }

  lemma {:induction false} IndicesFromShape(dims: seq<Dim>, i: nat)
    requires dims != [] && i <= dims[0].size
    ensures AllInShape(dims, IndicesFrom(dims, i))
    ensures forall idx | idx in IndicesFrom(dims, i) :: idx[0] >= i
    decreases |dims| - 1, 1, dims[0].size - i
  {
    if i < dims[0].size {
      IndicesShape(dims[1..]);
      PrependShape(dims, i, Indices(dims[1..]));
      IndicesFromShape(dims, i + 1);
    }
  }

  predicate NoRepeats(list: seq<seq<nat>>) {
    forall j, k | 0 <= j < k < |list| :: list[j] != list[k]
  }

  lemma {:induction false} IndicesDistinct(dims: seq<Dim>)
    ensures NoRepeats(Indices(dims))
    decreases |dims|, 0, 0
  {
    if dims != [] {
      IndicesFromDistinct(dims, 0);
    }
  }

  lemma {:induction false} IndicesFromDistinct(dims: seq<Dim>, i: nat)
    requires dims != [] && i <= dims[0].size
    ensures NoRepeats(IndicesFrom(dims, i))
    decreases |dims| - 1, 1, dims[0].size - i
  {
    if i < dims[0].size {
      var inner, more := Indices(dims[1..]), IndicesFrom(dims, i + 1);
      IndicesDistinct(dims[1..]);
      IndicesFromDistinct(dims, i + 1);
      IndicesFromShape(dims, i + 1);
      PrependDistinct(i, inner, more);
    }
  }

  lemma PrependDistinct(i: nat, inner: seq<seq<nat>>, more: seq<seq<nat>>)
    requires NoRepeats(inner) && NoRepeats(more) && forall idx | idx in more :: |idx| > 0 && idx[0] > i
    ensures NoRepeats(Prepend(i, inner) + more)
  {
    var a := Prepend(i, inner);
    forall j, k | 0 <= j < k < |a + more| ensures (a + more)[j] != (a + more)[k] {
      if k < |a| {
        assert inner[j] != inner[k] && a[j][1..] == inner[j] && a[k][1..] == inner[k];
      } else if j < |a| {
        assert a[j][0] == i && more[k - |a|] in more;
      }
    }
  }

  lemma {:induction false} IndicesComplete(dims: seq<Dim>, idx: seq<nat>)
    requires InShape(dims, idx)
    ensures idx in Indices(dims)
    decreases |dims|, 0, 0
  {
    if dims == [] {
      assert idx == [];
    } else {
      IndicesFromComplete(dims, 0, idx);
    }
  }

  lemma {:induction false} IndicesFromComplete(dims: seq<Dim>, i: nat, idx: seq<nat>)
    requires dims != [] && InShape(dims, idx) && i <= idx[0]
    ensures idx in IndicesFrom(dims, i)
    decreases |dims| - 1, 1, dims[0].size - i
  {
    if i == idx[0] {
      IndicesComplete(dims[1..], idx[1..]);
      var inner := Indices(dims[1..]);
      var j :| 0 <= j < |inner| && inner[j] == idx[1..];
      assert Prepend(i, inner)[j] == [i] + idx[1..] == idx;
    } else {
      IndicesFromComplete(dims, i + 1, idx);
    }
  }

  // ---------------------------------------------------------------- the writes as a list over the indices

  /** The part of a target index that says which source cell is used. */
  function Inner(idx: seq<nat>, degree: nat): seq<nat>
    requires degree <= |idx|
  {
    idx[|idx| - degree..]
  }

  lemma InnerShape(tdims: seq<Dim>, sdims: seq<Dim>, idx: seq<nat>)
    requires Fits(tdims, sdims) && InShape(tdims, idx)
    ensures InShape(sdims, Inner(idx, |sdims|))
  {
  }

  function WriteAt(tdims: seq<Dim>, ta: int, sdims: seq<Dim>, sa: int, idx: seq<nat>): Write
    requires Fits(tdims, sdims) && InShape(tdims, idx)
  {
    InnerShape(tdims, sdims, idx);
    Write(ta + Offset(tdims, idx), sa + Offset(sdims, Inner(idx, |sdims|)))
  }

  function WritesAt(tdims: seq<Dim>, ta: int, sdims: seq<Dim>, sa: int, list: seq<seq<nat>>): (ws: seq<Write>)
    requires Fits(tdims, sdims) && AllInShape(tdims, list)
    ensures |ws| == |list|
  {
    seq(|list|, j requires 0 <= j < |list| => assert list[j] in list; WriteAt(tdims, ta, sdims, sa, list[j]))
  }

  lemma WritesAtAppend(tdims: seq<Dim>, ta: int, sdims: seq<Dim>, sa: int, a: seq<seq<nat>>, b: seq<seq<nat>>)
    requires Fits(tdims, sdims) && AllInShape(tdims, a) && AllInShape(tdims, b)
    ensures AllInShape(tdims, a + b)
    ensures WritesAt(tdims, ta, sdims, sa, a + b) == WritesAt(tdims, ta, sdims, sa, a) + WritesAt(tdims, ta, sdims, sa, b)
  {
    hide WriteAt, InShape;
  }

  /** One step into a leading axis of the target only. */
  lemma PrefixStep(tdims: seq<Dim>, ta: int, sdims: seq<Dim>, sa: int, i: nat, idx: seq<nat>)
    requires Fits(tdims, sdims) && |sdims| < |tdims| && i < tdims[0].size && InShape(tdims[1..], idx)
    ensures Fits(tdims[1..], sdims) && InShape(tdims, [i] + idx)
    ensures WriteAt(tdims, ta, sdims, sa, [i] + idx) == WriteAt(tdims[1..], ta + Step(tdims[0], i), sdims, sa, idx)
  {
    hide Step;
    assert ([i] + idx)[1..] == idx;
    assert Inner([i] + idx, |sdims|) == Inner(idx, |sdims|);
  }

  /** One step into an axis. */
  lemma OffsetStep(dims: seq<Dim>, i: nat, idx: seq<nat>)
    requires DimsOk(dims) && |dims| > 0 && i < dims[0].size && InShape(dims[1..], idx)
    ensures DimsOk(dims[1..]) && InShape(dims, [i] + idx)
    ensures Offset(dims, [i] + idx) == Step(dims[0], i) + Offset(dims[1..], idx)
  {
    hide Step;
    assert ([i] + idx)[1..] == idx;
  }

  lemma PrefixStepAll(tdims: seq<Dim>, ta: int, sdims: seq<Dim>, sa: int, i: nat, list: seq<seq<nat>>)
    requires Fits(tdims, sdims) && |sdims| < |tdims| && i < tdims[0].size && AllInShape(tdims[1..], list)
    ensures Fits(tdims[1..], sdims) && AllInShape(tdims, Prepend(i, list))
    ensures WritesAt(tdims, ta, sdims, sa, Prepend(i, list)) == WritesAt(tdims[1..], ta + Step(tdims[0], i), sdims, sa, list)
  {
    hide WriteAt, Step, InShape;
    PrependShape(tdims, i, list);
    forall j | 0 <= j < |list|
      ensures WriteAt(tdims, ta, sdims, sa, Prepend(i, list)[j]) == WriteAt(tdims[1..], ta + Step(tdims[0], i), sdims, sa, list[j])
    {
      assert list[j] in list && Prepend(i, list)[j] in Prepend(i, list);
      PrefixStep(tdims, ta, sdims, sa, i, list[j]);
    }
  }

  lemma WholeIndex(idx: seq<nat>)
    ensures Inner(idx, |idx|) == idx
  {
  }

  lemma TailFits(tdims: seq<Dim>, sdims: seq<Dim>)
    requires Fits(tdims, sdims) && |sdims| == |tdims| > 0
    ensures Fits(tdims[1..], sdims[1..]) && tdims[0].size == sdims[0].size
  {
    SameSizes(tdims, sdims);
    hide DimOk;
    forall k | 0 <= k < |sdims[1..]| ensures tdims[1..][|tdims[1..]| - |sdims[1..]| + k].size == sdims[1..][k].size {
      assert tdims[k + 1].size == sdims[k + 1].size;
    }
  }

  lemma SameSizes(tdims: seq<Dim>, sdims: seq<Dim>)
    requires Fits(tdims, sdims) && |sdims| == |tdims|
    ensures forall k | 0 <= k < |sdims| :: tdims[k].size == sdims[k].size
  {
    hide DimsOk;
    forall k | 0 <= k < |sdims| ensures tdims[k].size == sdims[k].size {
      assert tdims[|tdims| - |sdims| + k].size == sdims[k].size;
    }
  }

  lemma SameShape(tdims: seq<Dim>, sdims: seq<Dim>, idx: seq<nat>)
    requires Fits(tdims, sdims) && |sdims| == |tdims| && InShape(tdims, idx)
    ensures |idx| == |sdims| && InShape(sdims, idx)
  {
    InnerShape(tdims, sdims, idx);
    WholeIndex(idx);
  }

  /** One write into an axis of both. */
  lemma BothStepAt(tdims: seq<Dim>, ta: int, sdims: seq<Dim>, sa: int, t: int, s: int, i: nat, idx: seq<nat>)
    requires Fits(tdims, sdims) && |sdims| == |tdims| > 0 && InShape(tdims[1..], idx) && InShape(tdims, [i] + idx)
    requires Fits(tdims[1..], sdims[1..]) && i < tdims[0].size == sdims[0].size
    requires t == Step(tdims[0], i) && s == Step(sdims[0], i)
    ensures WriteAt(tdims, ta, sdims, sa, [i] + idx) == WriteAt(tdims[1..], ta + t, sdims[1..], sa + s, idx)
  {
    hide Step, Offset, Inner, Fits, InShape;
    FitsDims(tdims, sdims);
    SameShape(tdims[1..], sdims[1..], idx);
    SameShape(tdims, sdims, [i] + idx);
    WholeIndex(idx);
    WholeIndex([i] + idx);
    OffsetStep(tdims, i, idx);
    OffsetStep(sdims, i, idx);
  }

  lemma FitsDims(tdims: seq<Dim>, sdims: seq<Dim>)
    requires Fits(tdims, sdims)
    ensures DimsOk(tdims) && DimsOk(sdims) && |sdims| <= |tdims|
  {
  }

  lemma BothStepAll(tdims: seq<Dim>, ta: int, sdims: seq<Dim>, sa: int, i: nat, list: seq<seq<nat>>)
    requires Fits(tdims, sdims) && |sdims| == |tdims| > 0 && i < tdims[0].size && AllInShape(tdims[1..], list)
    ensures Fits(tdims[1..], sdims[1..]) && AllInShape(tdims, Prepend(i, list)) && i < sdims[0].size
    ensures WritesAt(tdims, ta, sdims, sa, Prepend(i, list))
         == WritesAt(tdims[1..], ta + Step(tdims[0], i), sdims[1..], sa + Step(sdims[0], i), list)
  {
    hide WriteAt, Step, InShape, Fits;
    TailFits(tdims, sdims);
    FitsDims(tdims, sdims);
    PrependShape(tdims, i, list);
    var t, s := Step(tdims[0], i), Step(sdims[0], i);
    forall j | 0 <= j < |list|
      ensures WriteAt(tdims, ta, sdims, sa, Prepend(i, list)[j]) == WriteAt(tdims[1..], ta + t, sdims[1..], sa + s, list[j])
    {
      assert list[j] in list && Prepend(i, list)[j] in Prepend(i, list);
      BothStepAt(tdims, ta, sdims, sa, t, s, i, list[j]);
    }
  }

  /** The innermost axis, from a row of the source or from a single cell. */
  lemma {:induction false} RowIsList(tdims: seq<Dim>, ta: int, sdims: seq<Dim>, sa: int, sd: Dim, i: nat)
    requires Fits(tdims, sdims) && |tdims| == 1 && i <= tdims[0].size && DimOk(sd) && sd.size == tdims[0].size
    requires if |sdims| == 0 then sd == ConstantDim(tdims[0].size) else sd == sdims[0]
    ensures AllInShape(tdims, IndicesFrom(tdims, i))
    ensures RowWrites(tdims[0], ta, sd, sa, i) == WritesAt(tdims, ta, sdims, sa, IndicesFrom(tdims, i))
    decreases tdims[0].size - i
  {
    hide Step, WriteAt, WritesAt, AllInShape;
    IndicesFromShape(tdims, i);
    if i < tdims[0].size {
      RowIsList(tdims, ta, sdims, sa, sd, i + 1);
      assert tdims[1..] == [] && tdims == [tdims[0]];
      OnlyEmpty(i);
      if |sdims| == 1 {
        RowWrite(tdims, ta, sdims, sa, i);
      } else {
        CellWrite(tdims, ta, sdims, sa, i);
      }
      IndicesFromShape(tdims, i + 1);
      WritesAtAppend(tdims, ta, sdims, sa, [[i]], IndicesFrom(tdims, i + 1));
    }
  }

  lemma OnlyEmpty(i: nat)
    ensures Prepend(i, Indices([])) == [[i]]
  {
    var none: seq<nat> := [];
    assert Indices([]) == [none];
    assert [i] + none == [i];
  }

  /** A write of a row from a row, and from a single cell. */
  lemma RowWrite(tdims: seq<Dim>, ta: int, sdims: seq<Dim>, sa: int, i: nat)
    requires Fits(tdims, sdims) && |tdims| == |sdims| == 1 && i < tdims[0].size
    ensures AllInShape(tdims, [[i]]) && i < sdims[0].size
    ensures WritesAt(tdims, ta, sdims, sa, [[i]]) == [Write(ta + Step(tdims[0], i), sa + Step(sdims[0], i))]
  {
    hide Step;
    OffsetOne(tdims[0], i);
    OffsetOne(sdims[0], i);
    assert tdims == [tdims[0]] && sdims == [sdims[0]] && Inner([i], 1) == [i];
  }

  lemma CellWrite(tdims: seq<Dim>, ta: int, sdims: seq<Dim>, sa: int, i: nat)
    requires Fits(tdims, sdims) && |tdims| == 1 && sdims == [] && i < tdims[0].size
    ensures AllInShape(tdims, [[i]]) && Step(ConstantDim(tdims[0].size), i) == 0
    ensures WritesAt(tdims, ta, sdims, sa, [[i]]) == [Write(ta + Step(tdims[0], i), sa)]
  {
    OffsetOne(tdims[0], i);
    assert tdims == [tdims[0]] && Inner([i], 0) == [];
  }

  /** update_array goes through the indices of the target in row-major order. */
  lemma {:induction false} ArrayIsList(tdims: seq<Dim>, ta: int, sdims: seq<Dim>, sa: int, i: nat)
    requires Fits(tdims, sdims) && |tdims| > 0 && i <= tdims[0].size
    requires |sdims| == |tdims| || (|sdims| == 0 && |tdims| == 1)
    ensures AllInShape(tdims, IndicesFrom(tdims, i))
    ensures ArrayWrites(tdims, ta, sdims, sa, i) == WritesAt(tdims, ta, sdims, sa, IndicesFrom(tdims, i))
    decreases |tdims|, tdims[0].size - i
  {
    hide WritesAt, RowWrites, Step, Indices, AllInShape;
    IndicesFromShape(tdims, i);
    if |tdims| == 1 {
      RowIsList(tdims, ta, sdims, sa, if |sdims| == 0 then ConstantDim(tdims[0].size) else sdims[0], i);
    } else {
      ArrayUnfolds(tdims, ta, sdims, sa, i);
      if i == tdims[0].size {
        NoWrites(tdims, ta, sdims, sa);
      } else {
        hide ArrayWrites, IndicesFrom;
        var t, s, inner := ta + Step(tdims[0], i), sa + Step(sdims[0], i), Indices(tdims[1..]);
        IndicesUnfold(tdims, i);
        ArrayIsList(tdims[1..], t, sdims[1..], s, 0);
        ArrayIsList(tdims, ta, sdims, sa, i + 1);
        IndicesShape(tdims[1..]);
        BothStepAll(tdims, ta, sdims, sa, i, inner);
        WritesAtAppend(tdims, ta, sdims, sa, Prepend(i, inner), IndicesFrom(tdims, i + 1));
      }
    }
  }

  lemma IndicesUnfold(dims: seq<Dim>, i: nat)
    requires dims != [] && i < dims[0].size
    ensures IndicesFrom(dims, i) == Prepend(i, Indices(dims[1..])) + IndicesFrom(dims, i + 1)
    ensures |dims| > 1 ==> Indices(dims[1..]) == IndicesFrom(dims[1..], 0)
  {
  }

  lemma NoWrites(tdims: seq<Dim>, ta: int, sdims: seq<Dim>, sa: int)
    requires Fits(tdims, sdims)
    ensures WritesAt(tdims, ta, sdims, sa, []) == []
  {
  }

  /** So does update_prefix. */
  lemma {:induction false} PrefixIsList(prefix: nat, tdims: seq<Dim>, ta: int, sdims: seq<Dim>, sa: int, i: nat)
    requires Fits(tdims, sdims) && prefix < |tdims| && i <= tdims[0].size
    requires |tdims| - prefix == |sdims| || (|sdims| == 0 && |tdims| - prefix == 1)
    ensures AllInShape(tdims, IndicesFrom(tdims, i))
    ensures PrefixWrites(prefix, tdims, ta, sdims, sa, i) == WritesAt(tdims, ta, sdims, sa, IndicesFrom(tdims, i))
    decreases |tdims|, tdims[0].size - i
  {
    hide WritesAt, ArrayWrites, Step;
    IndicesFromShape(tdims, i);
    if prefix == 0 {
      ArrayIsList(tdims, ta, sdims, sa, i);
    } else {
      PrefixUnfolds(prefix, tdims, ta, sdims, sa, i);
      if i == tdims[0].size {
        NoWrites(tdims, ta, sdims, sa);
      } else {
        var t, inner := ta + Step(tdims[0], i), Indices(tdims[1..]);
        PrefixIsList(prefix - 1, tdims[1..], t, sdims, sa, 0);
        PrefixIsList(prefix, tdims, ta, sdims, sa, i + 1);
        IndicesShape(tdims[1..]);
        PrefixStepAll(tdims, ta, sdims, sa, i, inner);
        WritesAtAppend(tdims, ta, sdims, sa, Prepend(i, inner), IndicesFrom(tdims, i + 1));
      }
    }
  }

  // ---------------------------------------------------------------- cell by cell

  /** The targets of a list of writes are all different and none of them is a source. */
  predicate Independent(ws: seq<Write>) {
    && (forall j, k | 0 <= j < k < |ws| :: ws[j].target != ws[k].target)
    && (forall v, w | v in ws && w in ws :: v.target != w.source)
  }

  /** Independent writes do not see each other. */
  lemma {:induction false} PerformOne(m: seq<real>, ws: seq<Write>, op: Op, j: nat)
    requires InBounds(ws, |m|) && Independent(ws) && j < |ws|
    ensures Perform(m, ws, op)[ws[j].target] == op(m[ws[j].target], m[ws[j].source])
    decreases |ws|
  {
    var w := ws[0];
    var m' := m[w.target := op(m[w.target], m[w.source])];
    assert ws[j] in ws && w in ws;
    if j == 0 {
      assert forall k | 0 <= k < |ws[1..]| :: ws[1..][k] == ws[k + 1];
      PerformOther(m', ws[1..], op, w.target);
    } else {
      assert forall v | v in ws[1..] :: v in ws;
      PerformOne(m', ws[1..], op, j - 1);
    }
  }

  lemma {:induction false} PerformOther(m: seq<real>, ws: seq<Write>, op: Op, a: int)
    requires InBounds(ws, |m|) && 0 <= a < |m| && forall w | w in ws :: w.target != a
    ensures Perform(m, ws, op)[a] == m[a]
    decreases |ws|
  {
    if ws != [] {
      var w := ws[0];
      PerformOther(m[w.target := op(m[w.target], m[w.source])], ws[1..], op, a);
    }
  }

  // ---------------------------------------------------------------- the update

  /** Every cell of the view is in the memory. */
  ghost predicate Inside(v: View, n: nat)
    requires DimsOk(v.dims)
  {
    forall idx | InShape(v.dims, idx) :: 0 <= Address(v, idx) < n
  }

  /** Different indices lead to different cells. */
  ghost predicate Injective(v: View)
    requires DimsOk(v.dims)
  {
    forall idx, idy | InShape(v.dims, idx) && InShape(v.dims, idy) && Address(v, idx) == Address(v, idy) :: idx == idy
  }

  ghost predicate Disjoint(t: View, s: View)
    requires DimsOk(t.dims) && DimsOk(s.dims)
  {
    forall idx, idy | InShape(t.dims, idx) && InShape(s.dims, idy) :: Address(t, idx) != Address(s, idy)
  }

  lemma AllWrites(t: View, s: View, n: nat)
    requires Fits(t.dims, s.dims) && Inside(t, n) && Inside(s, n)
    ensures AllInShape(t.dims, Indices(t.dims))
    ensures InBounds(WritesAt(t.dims, t.base, s.dims, s.base, Indices(t.dims)), n)
    ensures Injective(t) && Disjoint(t, s) ==> Independent(WritesAt(t.dims, t.base, s.dims, s.base, Indices(t.dims)))
  {
    hide Indices, Offset;
    IndicesShape(t.dims);
    IndicesDistinct(t.dims);
    var list := Indices(t.dims);
    var ws := WritesAt(t.dims, t.base, s.dims, s.base, list);
    forall w | w in ws ensures exists j :: 0 <= j < |list| && w == WriteAt(t.dims, t.base, s.dims, s.base, list[j]) {
      var j :| 0 <= j < |ws| && ws[j] == w;
    }
    forall j | 0 <= j < |ws|
      ensures list[j] in list && InShape(s.dims, Inner(list[j], |s.dims|))
      ensures ws[j] == Write(Address(t, list[j]), Address(s, Inner(list[j], |s.dims|)))
    {
      assert list[j] in list;
      InnerShape(t.dims, s.dims, list[j]);
    }
  }

  /** After an update that is broadcast over the leading axes, each target cell holds the operation on what
      it held and the source cell of the inner part of its index; every other cell is as it was. */
  lemma UpdateMeaning(m: seq<real>, op: Op, t: View, s: View, prefix: nat)
    requires Fits(t.dims, s.dims) && prefix < |t.dims|
    requires |t.dims| - prefix == |s.dims| || (|s.dims| == 0 && |t.dims| - prefix == 1)
    requires Inside(t, |m|) && Inside(s, |m|) && Injective(t) && Disjoint(t, s)
    ensures var ws := PrefixWrites(prefix, t.dims, t.base, s.dims, s.base, 0);
            InBounds(ws, |m|) &&
            var m' := Perform(m, ws, op);
            (forall idx | InShape(t.dims, idx) ::
               InShape(s.dims, Inner(idx, |s.dims|)) &&
               m'[Address(t, idx)] == op(m[Address(t, idx)], m[Address(s, Inner(idx, |s.dims|))])) &&
            (forall a | 0 <= a < |m| && (forall idx | InShape(t.dims, idx) :: Address(t, idx) != a) :: m'[a] == m[a])
  {
    hide PrefixWrites, Perform, Offset, Independent, InBounds, IndicesFrom;
    PrefixIsList(prefix, t.dims, t.base, s.dims, s.base, 0);
    AllWrites(t, s, |m|);
    var list := Indices(t.dims);
    var ws := WritesAt(t.dims, t.base, s.dims, s.base, list);
    var m' := Perform(m, ws, op);
    forall idx | InShape(t.dims, idx)
      ensures InShape(s.dims, Inner(idx, |s.dims|))
      ensures m'[Address(t, idx)] == op(m[Address(t, idx)], m[Address(s, Inner(idx, |s.dims|))])
    {
      CellUpdated(m, op, t, s, ws, idx);
    }
    forall a | 0 <= a < |m| && (forall idx | InShape(t.dims, idx) :: Address(t, idx) != a) ensures m'[a] == m[a] {
      CellKept(m, op, t, s, ws, a);
    }
  }

  lemma CellUpdated(m: seq<real>, op: Op, t: View, s: View, ws: seq<Write>, idx: seq<nat>)
    requires Fits(t.dims, s.dims) && AllInShape(t.dims, Indices(t.dims)) && InShape(t.dims, idx)
    requires ws == WritesAt(t.dims, t.base, s.dims, s.base, Indices(t.dims)) && InBounds(ws, |m|) && Independent(ws)
    ensures InShape(s.dims, Inner(idx, |s.dims|))
    ensures 0 <= Address(t, idx) < |m| && 0 <= Address(s, Inner(idx, |s.dims|)) < |m|
    ensures Perform(m, ws, op)[Address(t, idx)] == op(m[Address(t, idx)], m[Address(s, Inner(idx, |s.dims|))])
  {
    hide Perform, Offset, Independent, Indices;
    IndicesComplete(t.dims, idx);
    var list := Indices(t.dims);
    var j: nat :| j < |list| && list[j] == idx;
    InnerShape(t.dims, s.dims, idx);
    assert ws[j] == WriteAt(t.dims, t.base, s.dims, s.base, idx) && ws[j] in ws;
    PerformOne(m, ws, op, j);
  }

  lemma CellKept(m: seq<real>, op: Op, t: View, s: View, ws: seq<Write>, a: int)
    requires Fits(t.dims, s.dims) && AllInShape(t.dims, Indices(t.dims)) && 0 <= a < |m|
    requires ws == WritesAt(t.dims, t.base, s.dims, s.base, Indices(t.dims)) && InBounds(ws, |m|)
    requires forall idx | InShape(t.dims, idx) :: Address(t, idx) != a
    ensures Perform(m, ws, op)[a] == m[a]
  {
    hide Perform, Offset, Indices, InBounds;
    var list := Indices(t.dims);
    forall w | w in ws ensures w.target != a {
      var j :| 0 <= j < |ws| && ws[j] == w;
      assert list[j] in list && w == WriteAt(t.dims, t.base, s.dims, s.base, list[j]);
      assert w.target == Address(t, list[j]);
    }
    PerformOther(m, ws, op, a);
  }

  // ---------------------------------------------------------------- the update method

  /** The array of degree 0 as source of an array of a higher degree makes the recursion read a dimension
      past the last one, unless an empty axis stops it before; what happens then is undefined. */
  datatype Result = Done | Incompatible | Undefined

  /** What an update of `t` from `s` leaves in the memory. */
  ghost predicate Updated(m: seq<real>, m': seq<real>, op: Op, t: View, s: View)
    requires Fits(t.dims, s.dims) && Inside(t, |m|) && Inside(s, |m|)
  {
    && |m'| == |m|
    && (forall idx | InShape(t.dims, idx) ::
          InShape(s.dims, Inner(idx, |s.dims|)) &&
          m'[Address(t, idx)] == op(m[Address(t, idx)], m[Address(s, Inner(idx, |s.dims|))]))
    && (forall a | 0 <= a < |m| && (forall idx | InShape(t.dims, idx) :: Address(t, idx) != a) :: m'[a] == m[a])
  }

  /** The loop that compares the sizes. */
  method SizesMatch(tdims: seq<Dim>, sdims: seq<Dim>) returns (ok: bool)
    requires DimsOk(tdims) && DimsOk(sdims)
    ensures ok <==> Fits(tdims, sdims)
  {
    if |sdims| > |tdims| {
      return false;
    }
    var prefix := |tdims| - |sdims|;
    for i := 0 to |sdims|
      invariant forall k | 0 <= k < i :: tdims[prefix + k].size == sdims[k].size
    {
      if tdims[prefix + i].size != sdims[i].size {
        return false;
      }
    }
    ok := true;
  }

  predicate NoneEmpty(dims: seq<Dim>) {
    forall k | 0 <= k < |dims| :: dims[k].size > 0
  }

  /** update_prefix with all axes of the target in the prefix: is there a dimension read past the last one? */
  method PastTheDimensions(dims: seq<Dim>) returns (past: bool)
    ensures past <==> NoneEmpty(dims)
    decreases |dims|
  {
    if |dims| == 0 {
      return true;
    }
    for i := 0 to dims[0].size
      invariant i > 0 ==> !NoneEmpty(dims)
    {
      past := PastTheDimensions(dims[1..]);
      if past {
        assert forall k | 0 < k < |dims| :: dims[k] == dims[1..][k - 1];
        return true;
      }
    }
    past := false;
  }

  lemma EmptyUpdated(m: seq<real>, op: Op, t: View, s: View)
    requires Fits(t.dims, s.dims) && Inside(t, |m|) && Inside(s, |m|) && !NoneEmpty(t.dims)
    ensures Updated(m, m, op, t, s)
  {
    var k :| 0 <= k < |t.dims| && t.dims[k].size == 0;
    forall idx ensures !InShape(t.dims, idx) {
      EmptyShape(t.dims, idx, k);
    }
  }

  lemma EmptyShape(dims: seq<Dim>, idx: seq<nat>, k: nat)
    requires k < |dims| && dims[k].size == 0
    ensures !InShape(dims, idx)
  {
  }

  /** update_array_fn: undefined exactly if the source has degree 0 and the target has a cell and a higher degree. */
  method UpdateArrayFn(mem: array<real>, op: Op, t: View, s: View) returns (r: Result)
    requires DimsOk(t.dims) && DimsOk(s.dims) && Inside(t, mem.Length) && Inside(s, mem.Length)
    modifies mem
    ensures r.Incompatible? <==> !Fits(t.dims, s.dims)
    ensures r.Undefined? <==> Fits(t.dims, s.dims) && |s.dims| == 0 && |t.dims| > 0 && NoneEmpty(t.dims)
    ensures !r.Done? ==> mem[..] == old(mem[..])
    ensures r.Done? && Injective(t) && Disjoint(t, s) ==> Updated(old(mem[..]), mem[..], op, t, s)
  {
    hide PrefixWrites, Perform, Injective, Disjoint, InBounds, Offset;
    ghost var before := mem[..];
    var ok := SizesMatch(t.dims, s.dims);
    if !ok {
      return Incompatible;
    }
    if |t.dims| == 0 {
      SingleCell(mem[..], op, t, s);
      mem[t.base] := op(mem[t.base], mem[s.base]);
      assert mem[..] == before[t.base := op(before[t.base], before[s.base])];
      return Done;
    }
    if |s.dims| == 0 {
      var past := PastTheDimensions(t.dims);
      if past {
        return Undefined;
      }
      EmptyUpdated(before, op, t, s);
      return Done;
    }
    PrefixInBounds(t, s, mem.Length, |t.dims| - |s.dims|);
    UpdatePrefix(mem, op, |t.dims| - |s.dims|, t.dims, t.base, s.dims, s.base);
    if Injective(t) && Disjoint(t, s) {
      UpdateMeaning(before, op, t, s, |t.dims| - |s.dims|);
    }
    r := Done;
  }

  lemma PrefixInBounds(t: View, s: View, n: nat, prefix: nat)
    requires Fits(t.dims, s.dims) && prefix < |t.dims| && Inside(t, n) && Inside(s, n)
    requires |t.dims| - prefix == |s.dims| || (|s.dims| == 0 && |t.dims| - prefix == 1)
    ensures InBounds(PrefixWrites(prefix, t.dims, t.base, s.dims, s.base, 0), n)
  {
    hide PrefixWrites, IndicesFrom, InBounds, Inside;
    PrefixIsList(prefix, t.dims, t.base, s.dims, s.base, 0);
    AllWrites(t, s, n);
  }

  lemma SingleCell(m: seq<real>, op: Op, t: View, s: View)
    requires Fits(t.dims, s.dims) && |t.dims| == 0 && Inside(t, |m|) && Inside(s, |m|)
    ensures 0 <= t.base < |m| && 0 <= s.base < |m|
    ensures Updated(m, m[t.base := op(m[t.base], m[s.base])], op, t, s)
  {
    assert InShape(t.dims, []) && Address(t, []) == t.base;
    assert InShape(s.dims, []) && Address(s, []) == s.base;
    forall idx | InShape(t.dims, idx) ensures idx == [] && Inner(idx, |s.dims|) == [] {
    }
  }

  /** The methods `set`, `add`, ... with a number: the source is the cell of the number itself. */
  method UpdateScalar(mem: array<real>, op: Op, t: View, cell: int)
    requires DimsOk(t.dims) && Inside(t, mem.Length) && 0 <= cell < mem.Length
    modifies mem
    ensures Fits(t.dims, []) && Inside(View(cell, []), mem.Length)
    ensures Injective(t) && Disjoint(t, View(cell, [])) ==> Updated(old(mem[..]), mem[..], op, t, View(cell, []))
  {
    hide PrefixWrites, Perform, Injective, Disjoint, InBounds;
    ghost var before := mem[..];
    var s := View(cell, []);
    CellInside(cell, mem.Length);
    if |t.dims| == 0 {
      SingleCell(mem[..], op, t, s);
      mem[t.base] := op(mem[t.base], mem[cell]);
      assert mem[..] == before[t.base := op(before[t.base], before[cell])];
    } else {
      PrefixInBounds(t, s, mem.Length, |t.dims| - 1);
      UpdatePrefix(mem, op, |t.dims| - 1, t.dims, t.base, [], cell);
      if Injective(t) && Disjoint(t, s) {
        UpdateMeaning(before, op, t, s, |t.dims| - 1);
      }
    }
  }

  lemma CellInside(cell: int, n: nat)
    requires 0 <= cell < n
    ensures Inside(View(cell, []), n)
  {
    forall idx | InShape(View(cell, []).dims, idx) ensures Address(View(cell, []), idx) == cell {
      assert idx == [];
    }
  }
}
