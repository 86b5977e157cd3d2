/** Updating an array in place with another one that is broadcast over its leading axes (src/ml_array.c). */
module ArrayUpdate {
  import opened Options
  import opened ArrayViews

  type Op = (real, real) -> real

  /** One `*Target = op(*Target, *Source)`. */
  datatype Write = Write(target: int, source: int)

  // ---------------------------------------------------------------- the writes, in the order they happen

  /** A source dimension that stays at one cell. */
  function ConstantDim(size: nat): Dim {
    Dim(size, 0, None)
  }

  function RowWrites(td: Dim, ta: int, sd: Dim, sa: int, i: nat): seq<Write>
    requires DimOk(td) && DimOk(sd) && td.size == sd.size && i <= td.size
    decreases td.size - i
  {
    if i == td.size then [] else [Write(ta + Step(td, i), sa + Step(sd, i))] + RowWrites(td, ta, sd, sa, i + 1)
  }

  /** The sizes of the source are those of the innermost axes of the target. */
  predicate Fits(tdims: seq<Dim>, sdims: seq<Dim>) {
    && |sdims| <= |tdims| && DimsOk(tdims) && DimsOk(sdims)
    && forall k | 0 <= k < |sdims| :: tdims[|tdims| - |sdims| + k].size == sdims[k].size
  }

  /** update_array, from the i-th entry of the outer axis on: the source has as many axes as the target, or
      none for a target of one axis. */
  function ArrayWrites(tdims: seq<Dim>, ta: int, sdims: seq<Dim>, sa: int, i: nat): seq<Write>
    requires Fits(tdims, sdims) && |tdims| > 0 && i <= tdims[0].size
    requires |sdims| == |tdims| || (|sdims| == 0 && |tdims| == 1)
    decreases |tdims|, tdims[0].size - i
  {
    if |sdims| == 0 then RowWrites(tdims[0], ta, ConstantDim(tdims[0].size), sa, i)
    else if |sdims| == 1 then RowWrites(tdims[0], ta, sdims[0], sa, i)
    else if i == tdims[0].size then []
    else
      ArrayWrites(tdims[1..], ta + Step(tdims[0], i), sdims[1..], sa + Step(sdims[0], i), 0)
      + ArrayWrites(tdims, ta, sdims, sa, i + 1)
  }

  /** update_prefix. */
  function PrefixWrites(prefix: nat, tdims: seq<Dim>, ta: int, sdims: seq<Dim>, sa: int, i: nat): seq<Write>
    requires Fits(tdims, sdims) && prefix < |tdims| && i <= tdims[0].size
    requires |tdims| - prefix == |sdims| || (|sdims| == 0 && |tdims| - prefix == 1)
    decreases |tdims|, tdims[0].size - i
  {
    if prefix == 0 then ArrayWrites(tdims, ta, sdims, sa, i)
    else if i == tdims[0].size then []
    else
      PrefixWrites(prefix - 1, tdims[1..], ta + Step(tdims[0], i), sdims, sa, 0)
      + PrefixWrites(prefix, tdims, ta, sdims, sa, i + 1)
  }

  function Perform(m: seq<real>, ws: seq<Write>, op: Op): (m': seq<real>)
    requires InBounds(ws, |m|)
    ensures |m'| == |m|
    decreases |ws|
  {
    if ws == [] then m
    else
      var w := ws[0];
      Perform(m[w.target := op(m[w.target], m[w.source])], ws[1..], op)
  }

  predicate InBounds(ws: seq<Write>, n: nat) {
    forall w | w in ws :: 0 <= w.target < n && 0 <= w.source < n
  }

  lemma {:induction false} PerformAppend(m: seq<real>, a: seq<Write>, b: seq<Write>, op: Op)
    requires InBounds(a, |m|) && InBounds(b, |m|)
    ensures InBounds(a + b, |m|) && Perform(m, a + b, op) == Perform(Perform(m, a, op), b, op)
    decreases |a|
  {
    if a == [] {
      assert a + b == b;
    } else {
      var w := a[0];
      assert (a + b)[0] == w && (a + b)[1..] == a[1..] + b;
      PerformAppend(m[w.target := op(m[w.target], m[w.source])], a[1..], b, op);
    }
  }

  // ---------------------------------------------------------------- the loops

  /** A row function: the contract of the `Update...RowFns`. */
  method UpdateRow(mem: array<real>, op: Op, td: Dim, ta: int, sd: Dim, sa: int)
    requires DimOk(td) && DimOk(sd) && td.size == sd.size && InBounds(RowWrites(td, ta, sd, sa, 0), mem.Length)
    modifies mem
    ensures mem[..] == Perform(old(mem[..]), RowWrites(td, ta, sd, sa, 0), op)
  {
    hide Step;
    for i := 0 to td.size
      invariant InBounds(RowWrites(td, ta, sd, sa, i), mem.Length)
      invariant Perform(mem[..], RowWrites(td, ta, sd, sa, i), op) == Perform(old(mem[..]), RowWrites(td, ta, sd, sa, 0), op)
    {
      var t, s := ta + Step(td, i), sa + Step(sd, i);
      ghost var ws := RowWrites(td, ta, sd, sa, i);
      assert ws[0] == Write(t, s) && ws[1..] == RowWrites(td, ta, sd, sa, i + 1) && ws[0] in ws;
      ghost var before := mem[..];
      mem[t] := op(mem[t], mem[s]);
      assert mem[..] == before[t := op(before[t], before[s])];
    }
  }

  /** Where the data pointer of a loop over a dimension stands: it moves only for strided dimensions. */
  function Cursor(base: int, d: Dim, i: nat): int {
    if d.indices.Some? then base else base + i * d.stride
  }

  /** The address of an entry, from the data pointer. */
  function Reached(cursor: int, d: Dim, i: nat): int
    requires DimOk(d) && i < d.size
  {
    if d.indices.Some? then cursor + d.indices.value[i] * d.stride else cursor
  }

  lemma CursorReaches(base: int, d: Dim, i: nat)
    requires DimOk(d) && i < d.size
    ensures Cursor(base, d, 0) == base
    ensures Reached(Cursor(base, d, i), d, i) == base + Step(d, i)
    ensures Cursor(base, d, i + 1) == Cursor(base, d, i) + if d.indices.Some? then 0 else d.stride
  {
    assert (i + 1) * d.stride == i * d.stride + d.stride;
  }

  lemma ArrayUnfolds(tdims: seq<Dim>, ta: int, sdims: seq<Dim>, sa: int, i: nat)
    requires Fits(tdims, sdims) && |sdims| == |tdims| && |sdims| > 1 && i <= tdims[0].size
    ensures Fits(tdims[1..], sdims[1..]) && DimOk(tdims[0]) && DimOk(sdims[0]) && tdims[0].size == sdims[0].size
    ensures ArrayWrites(tdims, ta, sdims, sa, i)
         == if i == tdims[0].size then []
            else ArrayWrites(tdims[1..], ta + Step(tdims[0], i), sdims[1..], sa + Step(sdims[0], i), 0) + ArrayWrites(tdims, ta, sdims, sa, i + 1)
  {
    hide Step;
  }

  lemma PrefixUnfolds(prefix: nat, tdims: seq<Dim>, ta: int, sdims: seq<Dim>, sa: int, i: nat)
    requires Fits(tdims, sdims) && 0 < prefix < |tdims| && i <= tdims[0].size
    requires |tdims| - prefix == |sdims| || (|sdims| == 0 && |tdims| - prefix == 1)
    ensures Fits(tdims[1..], sdims) && DimOk(tdims[0])
    ensures PrefixWrites(prefix, tdims, ta, sdims, sa, i)
         == if i == tdims[0].size then []
            else PrefixWrites(prefix - 1, tdims[1..], ta + Step(tdims[0], i), sdims, sa, 0) + PrefixWrites(prefix, tdims, ta, sdims, sa, i + 1)
  {
    hide Step, ArrayWrites;
  }

  method UpdateArray(mem: array<real>, op: Op, tdims: seq<Dim>, ta: int, sdims: seq<Dim>, sa: int)
    requires Fits(tdims, sdims) && |tdims| > 0 && (|sdims| == |tdims| || (|sdims| == 0 && |tdims| == 1))
    requires InBounds(ArrayWrites(tdims, ta, sdims, sa, 0), mem.Length)
    modifies mem
    ensures mem[..] == Perform(old(mem[..]), ArrayWrites(tdims, ta, sdims, sa, 0), op)
    decreases |tdims|, 1
  {
    if |sdims| == 0 {
      UpdateRow(mem, op, tdims[0], ta, ConstantDim(tdims[0].size), sa);
    } else if |sdims| == 1 {
      UpdateRow(mem, op, tdims[0], ta, sdims[0], sa);
    } else {
      UpdateRows(mem, op, tdims, ta, sdims, sa);
    }
  }

  method UpdateRows(mem: array<real>, op: Op, tdims: seq<Dim>, ta: int, sdims: seq<Dim>, sa: int)
    requires Fits(tdims, sdims) && |sdims| == |tdims| && |sdims| > 1
    requires InBounds(ArrayWrites(tdims, ta, sdims, sa, 0), mem.Length)
    modifies mem
    ensures mem[..] == Perform(old(mem[..]), ArrayWrites(tdims, ta, sdims, sa, 0), op)
    decreases |tdims|, 0
  {
    hide ArrayWrites, Fits, InBounds, Perform, Step, Cursor, Reached, DimOk;
    ArrayUnfolds(tdims, ta, sdims, sa, 0);
    var td, sd := tdims[0], sdims[0];
    var targetData, sourceData := ta, sa;
    if td.size > 0 {
      CursorReaches(ta, td, 0);
      CursorReaches(sa, sd, 0);
    }
    for i := 0 to td.size
      invariant td.size > 0 ==> targetData == Cursor(ta, td, i) && sourceData == Cursor(sa, sd, i)
      invariant InBounds(ArrayWrites(tdims, ta, sdims, sa, i), mem.Length)
      invariant Perform(mem[..], ArrayWrites(tdims, ta, sdims, sa, i), op) == Perform(old(mem[..]), ArrayWrites(tdims, ta, sdims, sa, 0), op)
    {
      CursorReaches(ta, td, i);
      CursorReaches(sa, sd, i);
      ArrayUnfolds(tdims, ta, sdims, sa, i);
      var t, s := Reached(targetData, td, i), Reached(sourceData, sd, i);
      SplitPerform(mem[..], ArrayWrites(tdims[1..], t, sdims[1..], s, 0), ArrayWrites(tdims, ta, sdims, sa, i + 1), op);
      UpdateArray(mem, op, tdims[1..], t, sdims[1..], s);
      targetData := targetData + if td.indices.Some? then 0 else td.stride;
      sourceData := sourceData + if sd.indices.Some? then 0 else sd.stride;
    }
    ArrayUnfolds(tdims, ta, sdims, sa, td.size);
    PerformNothing(mem[..], op);
  }

  lemma PerformNothing(m: seq<real>, op: Op)
    ensures InBounds([], |m|) && Perform(m, [], op) == m
  {
  }

  lemma SplitPerform(m: seq<real>, a: seq<Write>, b: seq<Write>, op: Op)
    requires InBounds(a + b, |m|)
    ensures InBounds(a, |m|) && InBounds(b, |m|) && Perform(m, a + b, op) == Perform(Perform(m, a, op), b, op)
  {
    assert (forall w | w in a :: w in a + b) && (forall w | w in b :: w in a + b);
    PerformAppend(m, a, b, op);
  }

  method UpdatePrefix(mem: array<real>, op: Op, prefix: nat, tdims: seq<Dim>, ta: int, sdims: seq<Dim>, sa: int)
    requires Fits(tdims, sdims) && prefix < |tdims|
    requires |tdims| - prefix == |sdims| || (|sdims| == 0 && |tdims| - prefix == 1)
    requires InBounds(PrefixWrites(prefix, tdims, ta, sdims, sa, 0), mem.Length)
    modifies mem
    ensures mem[..] == Perform(old(mem[..]), PrefixWrites(prefix, tdims, ta, sdims, sa, 0), op)
    decreases |tdims|, 1
  {
    if prefix == 0 {
      UpdateArray(mem, op, tdims, ta, sdims, sa);
    } else {
      UpdatePrefixes(mem, op, prefix, tdims, ta, sdims, sa);
    }
  }

  method UpdatePrefixes(mem: array<real>, op: Op, prefix: nat, tdims: seq<Dim>, ta: int, sdims: seq<Dim>, sa: int)
    requires Fits(tdims, sdims) && 0 < prefix < |tdims|
    requires |tdims| - prefix == |sdims| || (|sdims| == 0 && |tdims| - prefix == 1)
    requires InBounds(PrefixWrites(prefix, tdims, ta, sdims, sa, 0), mem.Length)
    modifies mem
    ensures mem[..] == Perform(old(mem[..]), PrefixWrites(prefix, tdims, ta, sdims, sa, 0), op)
    decreases |tdims|, 0
  {
    hide PrefixWrites, Fits, InBounds, Perform, Step, Cursor, Reached, DimOk;
    PrefixUnfolds(prefix, tdims, ta, sdims, sa, 0);
    var td := tdims[0];
    var data := ta;
    if td.size > 0 {
      CursorReaches(ta, td, 0);
    }
    for i := 0 to td.size
      invariant td.size > 0 ==> data == Cursor(ta, td, i)
      invariant InBounds(PrefixWrites(prefix, tdims, ta, sdims, sa, i), mem.Length)
      invariant Perform(mem[..], PrefixWrites(prefix, tdims, ta, sdims, sa, i), op)
             == Perform(old(mem[..]), PrefixWrites(prefix, tdims, ta, sdims, sa, 0), op)
    {
      CursorReaches(ta, td, i);
      PrefixUnfolds(prefix, tdims, ta, sdims, sa, i);
      var t := Reached(data, td, i);
      SplitPerform(mem[..], PrefixWrites(prefix - 1, tdims[1..], t, sdims, sa, 0), PrefixWrites(prefix, tdims, ta, sdims, sa, i + 1), op);
      UpdatePrefix(mem, op, prefix - 1, tdims[1..], t, sdims, sa);
      data := data + if td.indices.Some? then 0 else td.stride;
    }
    PrefixUnfolds(prefix, tdims, ta, sdims, sa, td.size);
    PerformNothing(mem[..], op);
  }
}
