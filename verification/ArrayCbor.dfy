/** Writing a typed array as CBOR and reading it back (src/ml_array.c; section 3.1.1 of RFC 8746). */
module ArrayCbor {
  import opened Options
  import opened Arithmetic
  import opened ArrayViews
  import opened ArrayShapes

  type byte = x: int | 0 <= x < 256

  datatype Format = U8 | I8 | U16 | I16 | U32 | I32 | U64 | I64 | F32 | F64

  /** MLArraySizes. */
  function ItemSize(f: Format): (n: nat)
    ensures n > 0
  {
    match f
    case U8 => 1
    case I8 => 1
    case U16 => 2
    case I16 => 2
    case U32 => 4
    case I32 => 4
    case U64 => 8
    case I64 => 8
    case F32 => 4
    case F64 => 8
  }

  function TagOf(f: Format): nat {
    match f
    case U8 => 64
    case I8 => 72
    case U16 => 69
    case I16 => 77
    case U32 => 70
    case I32 => 78
    case U64 => 71
    case I64 => 79
    case F32 => 85
    case F64 => 86
  }

  /** The format that the reader has registered for a tag. */
  function FormatOf(tag: nat): Option<Format> {
    if tag == 64 then Some(U8) else if tag == 72 then Some(I8)
    else if tag == 69 then Some(U16) else if tag == 77 then Some(I16)
    else if tag == 70 then Some(U32) else if tag == 78 then Some(I32)
    else if tag == 71 then Some(U64) else if tag == 79 then Some(I64)
    else if tag == 85 then Some(F32) else if tag == 86 then Some(F64)
    else None
  }

  /** A tagged byte string; arrays of another degree than 1 come with their sizes (tag 40). */
  datatype Item =
    | Typed(tag: nat, bytes: seq<byte>)
    | Multi(sizes: seq<nat>, tag: nat, bytes: seq<byte>)

  // ---------------------------------------------------------------- the elements, one by one

  function Bytes(mem: seq<byte>, a: int, n: nat): seq<byte>
    requires n == 0 || (0 <= a && a + n <= |mem|)
  {
    if n == 0 then [] else mem[a..a + n]
  }

  /** Every element is in the memory. */
  ghost predicate Inside(mem: seq<byte>, dims: seq<Dim>, a: int, item: nat)
    requires DimsOk(dims)
  {
    forall idx | InShape(dims, idx) :: 0 <= a + Offset(dims, idx) && a + Offset(dims, idx) + item <= |mem|
  }

  lemma InsideStep(mem: seq<byte>, dims: seq<Dim>, a: int, item: nat, i: nat)
    requires DimsOk(dims) && dims != [] && Inside(mem, dims, a, item) && i < dims[0].size
    ensures DimsOk(dims[1..]) && Inside(mem, dims[1..], a + Step(dims[0], i), item)
  {
    hide Step;
    forall idx | InShape(dims[1..], idx)
      ensures 0 <= a + Step(dims[0], i) + Offset(dims[1..], idx) && a + Step(dims[0], i) + Offset(dims[1..], idx) + item <= |mem|
    {
      var all := [i] + idx;
      assert all[1..] == idx;
      forall k | 0 <= k < |dims| ensures all[k] < dims[k].size {
        if k > 0 {
          assert dims[k] == dims[1..][k - 1];
        }
      }
      assert InShape(dims, all) && Offset(dims, all) == Step(dims[0], i) + Offset(dims[1..], idx);
    }
  }

  lemma InsideEmpty(mem: seq<byte>, a: int, item: nat)
    requires Inside(mem, [], a, item)
    ensures 0 <= a && a + item <= |mem|
  {
    assert InShape([], []) && Offset([], []) == 0;
  }

  /** The bytes of the elements from the i-th entry of the outer axis on, in row-major order. */
  ghost function Elements(mem: seq<byte>, dims: seq<Dim>, a: int, item: nat): seq<byte>
    requires DimsOk(dims) && Inside(mem, dims, a, item)
    decreases |dims|, 0, 0
  {
    if dims == [] then InsideEmpty(mem, a, item); Bytes(mem, a, item)
    else ElementsFrom(mem, dims, a, item, 0)
  }

  ghost function ElementsFrom(mem: seq<byte>, dims: seq<Dim>, a: int, item: nat, i: nat): seq<byte>
    requires DimsOk(dims) && Inside(mem, dims, a, item) && dims != [] && i <= dims[0].size
    decreases |dims| - 1, 1, dims[0].size - i
  {
    if i == dims[0].size then []
    else
      InsideStep(mem, dims, a, item, i);
      Elements(mem, dims[1..], a + Step(dims[0], i), item) + ElementsFrom(mem, dims, a, item, i + 1)
  }

  // ---------------------------------------------------------------- contiguous axes in one piece

  /** Strided axes that leave no gaps. */
  predicate Contiguous(dims: seq<Dim>, item: nat) {
    dims == RowMajor(Sizes(dims), item)
  }

  /** How many bytes the elements of some axes take. */
  function FlatSize(dims: seq<Dim>, item: nat): nat {
    item * Product(Sizes(dims))
  }

  lemma SizesTail(dims: seq<Dim>)
    requires dims != []
    ensures Sizes(dims)[1..] == Sizes(dims[1..]) && Product(Sizes(dims)) == dims[0].size * Product(Sizes(dims[1..]))
  {
  }

  lemma ContiguousTail(dims: seq<Dim>, item: nat)
    requires dims != [] && Contiguous(dims, item)
    ensures Contiguous(dims[1..], item) && dims[0].indices.None? && dims[0].stride == FlatSize(dims[1..], item)
    ensures FlatSize(dims, item) == dims[0].size * dims[0].stride
  {
    SizesTail(dims);
    var p, n := Product(Sizes(dims[1..])), dims[0].size;
    assert item * (n * p) == n * (item * p);
  }

  lemma BytesAppend(mem: seq<byte>, a: int, m: nat, n: nat)
    requires (m == 0 || (0 <= a && a + m <= |mem|)) && (n == 0 || (0 <= a + m && a + m + n <= |mem|))
    ensures m + n == 0 || (0 <= a && a + (m + n) <= |mem|)
    ensures Bytes(mem, a, m + n) == Bytes(mem, a, m) + Bytes(mem, a + m, n)
  {
  }

  /** A contiguous block holds its elements in row-major order. */
  lemma {:induction false} FlatIsElements(mem: seq<byte>, dims: seq<Dim>, a: int, item: nat)
    requires DimsOk(dims) && Inside(mem, dims, a, item) && Contiguous(dims, item)
    ensures var n := FlatSize(dims, item);
            (n == 0 || (0 <= a && a + n <= |mem|)) && Elements(mem, dims, a, item) == Bytes(mem, a, n)
    decreases |dims|, 0, 0
  {
    if dims == [] {
      InsideEmpty(mem, a, item);
      assert Product(Sizes(dims)) == 1;
    } else {
      ContiguousTail(dims, item);
      FlatFrom(mem, dims, a, item, 0);
    }
  }

  lemma {:induction false} FlatFrom(mem: seq<byte>, dims: seq<Dim>, a: int, item: nat, i: nat)
    requires DimsOk(dims) && Inside(mem, dims, a, item) && Contiguous(dims, item) && dims != [] && i <= dims[0].size
    ensures dims[0].stride >= 0
    ensures var n, s := (dims[0].size - i) * dims[0].stride, a + i * dims[0].stride;
            n >= 0 && (n == 0 || (0 <= s && s + n <= |mem|)) && ElementsFrom(mem, dims, a, item, i) == Bytes(mem, s, n)
    decreases |dims| - 1, 1, dims[0].size - i
  {
    hide Elements, Bytes, Inside, Contiguous, FlatSize;
    ContiguousTail(dims, item);
    var d, stride := dims[0], dims[0].stride;
    assert stride >= 0 by { FlatNonNegative(dims[1..], item); }
    if i < d.size {
      InsideStep(mem, dims, a, item, i);
      FlatIsElements(mem, dims[1..], a + Step(d, i), item);
      FlatFrom(mem, dims, a, item, i + 1);
      FlatStep(a, d.size, i, stride);
      BytesAppend(mem, a + i * stride, stride, (d.size - (i + 1)) * stride);
    } else {
      assert (d.size - i) * stride == 0;
      NoBytes(mem, a + i * stride);
    }
  }

  lemma NoBytes(mem: seq<byte>, a: int)
    ensures Bytes(mem, a, 0) == []
  {
  }

  lemma FlatNonNegative(dims: seq<Dim>, item: nat)
    ensures FlatSize(dims, item) >= 0
  {
  }

  lemma FlatStep(a: int, size: nat, i: nat, stride: nat)
    requires i < size
    ensures a + (i + 1) * stride == a + i * stride + stride
    ensures (size - i) * stride == stride + (size - (i + 1)) * stride && (size - (i + 1)) * stride >= 0
  {
    MulNonNegative(size - (i + 1), stride);
  }

  // ---------------------------------------------------------------- the writer

  /** What the loop over the axes from the last finds: the innermost axis that is not flat (-1 if there is
      none), the size of one contiguous piece, the size of everything. */
  method FlatPart(dims: seq<Dim>, item: nat) returns (flatDegree: int, flatSize: nat, size: nat)
    requires DimsOk(dims)
    ensures -1 <= flatDegree < |dims| && Contiguous(dims[flatDegree + 1..], item)
    ensures flatSize == FlatSize(dims[flatDegree + 1..], item) && size == FlatSize(dims, item)
  {
    hide Contiguous, FlatSize;
    flatDegree, flatSize, size := -1, item, item;
    var i := |dims|;
    assert dims[i..] == [];
    NoAxes(item);
    while i > 0
      invariant 0 <= i <= |dims| && -1 <= flatDegree < |dims|
      invariant flatDegree >= 0 ==> i <= flatDegree
      invariant Contiguous(dims[if flatDegree < 0 then i else flatDegree + 1..], item)
      invariant flatSize == FlatSize(dims[if flatDegree < 0 then i else flatDegree + 1..], item)
      invariant size == FlatSize(dims[i..], item)
    {
      i := i - 1;
      assert dims[i..][1..] == dims[i + 1..];
      SizeStep(dims[i..], item);
      if flatDegree < 0 {
        if dims[i].indices.Some? || dims[i].stride != size {
          flatDegree := i;
        } else {
          ContiguousMore(dims[i..], item);
          flatSize := size * dims[i].size;
        }
      }
      size := size * dims[i].size;
    }
    assert dims[0..] == dims;
  }

  lemma NoAxes(item: nat)
    ensures Contiguous([], item) && FlatSize([], item) == item
  {
    assert Sizes([]) == [];
  }

  lemma SizeStep(dims: seq<Dim>, item: nat)
    requires dims != []
    ensures FlatSize(dims, item) == FlatSize(dims[1..], item) * dims[0].size
  {
    SizesTail(dims);
    var p, n := Product(Sizes(dims[1..])), dims[0].size;
    assert item * (n * p) == item * p * n;
  }

  lemma ContiguousMore(dims: seq<Dim>, item: nat)
    requires dims != [] && Contiguous(dims[1..], item) && dims[0].indices.None? && dims[0].stride == FlatSize(dims[1..], item)
    ensures Contiguous(dims, item)
  {
    SizesTail(dims);
    assert dims == [dims[0]] + dims[1..];
  }

  /** The axes before the contiguous ones. */
  ghost predicate Split(dims: seq<Dim>, degree: int, flatSize: nat, item: nat) {
    -1 <= degree < |dims| && Contiguous(dims[degree + 1..], item) && flatSize == FlatSize(dims[degree + 1..], item)
  }

  lemma SplitTail(dims: seq<Dim>, degree: int, flatSize: nat, item: nat)
    requires Split(dims, degree, flatSize, item) && degree >= 0
    ensures dims != [] && Split(dims[1..], degree - 1, flatSize, item)
  {
    hide Contiguous, FlatSize;
    assert dims[1..][degree..] == dims[degree + 1..];
  }

  /** ml_cbor_write_array_typed: the contiguous pieces one after the other are the elements in row-major
      order. */
  method WritePieces(degree: int, flatSize: nat, dims: seq<Dim>, address: int, mem: array<byte>, out: seq<byte>, ghost item: nat)
    returns (out': seq<byte>)
    requires DimsOk(dims) && Inside(mem[..], dims, address, item) && Split(dims, degree, flatSize, item)
    ensures out' == out + Elements(mem[..], dims, address, item)
    decreases |dims|
  {
    hide Inside, Split, Elements, ElementsFrom, Bytes, Contiguous, FlatSize;
    if degree < 0 {
      AllFlat(dims, degree, flatSize, item);
      FlatIsElements(mem[..], dims, address, item);
      out' := RawBytes(mem, address, flatSize, out);
    } else {
      SplitTail(dims, degree, flatSize, item);
      var d := dims[0];
      out' := out;
      var data := address;
      for i := 0 to d.size
        invariant data == address + (if d.indices.Some? then 0 else i * d.stride)
        invariant out' + ElementsFrom(mem[..], dims, address, item, i) == out + ElementsFrom(mem[..], dims, address, item, 0)
      {
        InsideStep(mem[..], dims, address, item, i);
        var a := if d.indices.Some? then data + d.indices.value[i] * d.stride else data;
        assert a == address + Step(d, i);
        ElementsUnfold(mem[..], dims, address, item, i);
        out' := WritePieces(degree - 1, flatSize, dims[1..], a, mem, out', item);
        assert (i + 1) * d.stride == i * d.stride + d.stride;
        data := data + if d.indices.Some? then 0 else d.stride;
      }
      ElementsUnfold(mem[..], dims, address, item, d.size);
      ElementsStart(mem[..], dims, address, item);
    }
  }

  lemma AllFlat(dims: seq<Dim>, degree: int, flatSize: nat, item: nat)
    requires Split(dims, degree, flatSize, item) && degree < 0
    ensures Contiguous(dims, item) && flatSize == FlatSize(dims, item)
  {
    assert dims[0..] == dims;
  }

  lemma ElementsStart(mem: seq<byte>, dims: seq<Dim>, a: int, item: nat)
    requires DimsOk(dims) && Inside(mem, dims, a, item) && dims != []
    ensures Elements(mem, dims, a, item) == ElementsFrom(mem, dims, a, item, 0)
  {
  }

  lemma ElementsUnfold(mem: seq<byte>, dims: seq<Dim>, a: int, item: nat, i: nat)
    requires DimsOk(dims) && Inside(mem, dims, a, item) && dims != [] && i <= dims[0].size
    ensures i < dims[0].size ==> Inside(mem, dims[1..], a + Step(dims[0], i), item)
    ensures ElementsFrom(mem, dims, a, item, i)
         == if i == dims[0].size then []
            else Elements(mem, dims[1..], a + Step(dims[0], i), item) + ElementsFrom(mem, dims, a, item, i + 1)
  {
    hide Elements, Step, Inside;
    if i < dims[0].size {
      InsideStep(mem, dims, a, item, i);
    }
  }

  method RawBytes(mem: array<byte>, a: int, n: nat, out: seq<byte>) returns (out': seq<byte>)
    requires n == 0 || (0 <= a && a + n <= mem.Length)
    ensures out' == out + Bytes(mem[..], a, n)
  {
    out' := out;
    if n > 0 {
      out' := out + mem[a..a + n];
    }
  }

  /** `ml_cbor_write` for a typed array: the announced number of bytes and the elements. */
  method WriteArray(f: Format, dims: seq<Dim>, base: int, mem: array<byte>) returns (t: Item, announced: nat)
    requires DimsOk(dims) && Inside(mem[..], dims, base, ItemSize(f))
    ensures t.tag == TagOf(f) && t.bytes == Elements(mem[..], dims, base, ItemSize(f)) && announced == |t.bytes|
    ensures if |dims| == 1 then t.Typed? else t.Multi? && t.sizes == Sizes(dims)
  {
    hide Inside, Elements, FlatSize, Contiguous;
    var item := ItemSize(f);
    var degree, flatSize;
    degree, flatSize, announced := FlatPart(dims, item);
    var bytes := WritePieces(degree, flatSize, dims, base, mem, [], item);
    ElementsLength(mem[..], dims, base, item);
    t := if |dims| == 1 then Typed(TagOf(f), bytes) else Multi(Sizes(dims), TagOf(f), bytes);
  }

  lemma {:induction false} ElementsLength(mem: seq<byte>, dims: seq<Dim>, a: int, item: nat)
    requires DimsOk(dims) && Inside(mem, dims, a, item)
    ensures |Elements(mem, dims, a, item)| == FlatSize(dims, item)
    decreases |dims|, 0, 0
  {
    hide Inside, FlatSize;
    if dims == [] {
      InsideEmpty(mem, a, item);
      NoAxes(item);
    } else {
      hide Elements, ElementsFrom;
      ElementsStart(mem, dims, a, item);
      ElementsFromLength(mem, dims, a, item, 0);
      SizeStep(dims, item);
    }
  }

  lemma {:induction false} ElementsFromLength(mem: seq<byte>, dims: seq<Dim>, a: int, item: nat, i: nat)
    requires DimsOk(dims) && Inside(mem, dims, a, item) && dims != [] && i <= dims[0].size
    ensures |ElementsFrom(mem, dims, a, item, i)| == (dims[0].size - i) * FlatSize(dims[1..], item)
    decreases |dims| - 1, 1, dims[0].size - i
  {
    hide Inside, Elements, Step, FlatSize;
    ElementsUnfold(mem, dims, a, item, i);
    if i < dims[0].size {
      ElementsLength(mem, dims[1..], a + Step(dims[0], i), item);
      ElementsFromLength(mem, dims, a, item, i + 1);
      var n, p := dims[0].size - i, FlatSize(dims[1..], item);
      assert n * p == p + (n - 1) * p;
    } else {
      assert (dims[0].size - i) * FlatSize(dims[1..], item) == 0;
    }
  }

  // ---------------------------------------------------------------- the reader

  datatype Read = Array(format: Format, view: View, bytes: seq<byte>) | Invalid

  /** A byte string with a format tag is an array of one axis over the bytes. */
  function ReadTyped(tag: nat, bytes: seq<byte>): Read {
    match FormatOf(tag)
    case None => Invalid
    case Some(f) => Array(f, View(0, [Dim(|bytes| / ItemSize(f), ItemSize(f), None)]), bytes)
  }

  /** ml_cbor_read_typed_array_fn and ml_cbor_read_multi_array_fn: the sizes must account for every byte. */
  method ReadArray(t: Item) returns (r: Read)
    ensures t.Typed? ==> r == ReadTyped(t.tag, t.bytes)
    ensures t.Multi? ==>
      match FormatOf(t.tag)
      case None => r == Invalid
      case Some(f) =>
        r == if ItemSize(f) * Product(t.sizes) == |t.bytes| then Array(f, View(0, RowMajor(t.sizes, ItemSize(f))), t.bytes) else Invalid
  {
    r := ReadTyped(t.tag, t.bytes);
    if t.Typed? || r.Invalid? {
      return;
    }
    var item := ItemSize(r.format);
    var dims := new Dim[|t.sizes|](_ => Dim(0, 0, None));
    var stride: nat := item;
    var k := |t.sizes|;
    assert t.sizes[k..] == [];
    while k > 0
      invariant 0 <= k <= |t.sizes| && stride == item * Product(t.sizes[k..])
      invariant dims[k..] == RowMajor(t.sizes[k..], item)
    {
      k := k - 1;
      assert t.sizes[k..][1..] == t.sizes[k + 1..];
      dims[k] := Dim(t.sizes[k], stride, None);
      assert dims[k..] == [dims[k]] + dims[k + 1..];
      StrideStep(item, t.sizes[k], Product(t.sizes[k + 1..]));
      stride := stride * t.sizes[k];
    }
    assert t.sizes[0..] == t.sizes && dims[0..] == dims[..];
    if stride != |t.bytes| {
      return Invalid;
    }
    r := Array(r.format, View(0, dims[..]), t.bytes);
  }

  lemma StrideStep(item: nat, n: nat, p: nat)
    ensures item * p * n == item * (n * p)
  {
  }

  lemma TagsMatch(f: Format)
    ensures FormatOf(TagOf(f)) == Some(f)
  {
  }

  // ---------------------------------------------------------------- writing and reading back

  lemma WithinSizes(dims: seq<Dim>, idx: seq<nat>)
    requires InShape(dims, idx)
    ensures Within(Sizes(dims), idx)
  {
  }

  /** Where the bytes of an element are among the bytes of all elements. */
  ghost predicate FoundAt(all: seq<byte>, pos: int, one: seq<byte>) {
    0 <= pos && pos + |one| <= |all| && all[pos..pos + |one|] == one
  }

  lemma FoundInFront(a: seq<byte>, b: seq<byte>, pos: int, one: seq<byte>)
    requires FoundAt(a, pos, one)
    ensures FoundAt(a + b, pos, one)
  {
  }

  lemma FoundBehind(a: seq<byte>, b: seq<byte>, pos: int, one: seq<byte>)
    requires FoundAt(b, pos, one)
    ensures FoundAt(a + b, |a| + pos, one)
  {
    assert (a + b)[|a| + pos..|a| + pos + |one|] == b[pos..pos + |one|];
  }

  lemma InsideAt(mem: seq<byte>, dims: seq<Dim>, a: int, item: nat, idx: seq<nat>)
    requires DimsOk(dims) && Inside(mem, dims, a, item) && InShape(dims, idx)
    ensures 0 <= a + Offset(dims, idx) && a + Offset(dims, idx) + item <= |mem|
  {
  }

  /** The element at `idx` is at the row-major position of `idx`. */
  lemma {:induction false} ElementAt(mem: seq<byte>, dims: seq<Dim>, a: int, item: nat, idx: seq<nat>)
    requires DimsOk(dims) && Inside(mem, dims, a, item) && InShape(dims, idx)
    ensures Within(Sizes(dims), idx)
    ensures 0 <= a + Offset(dims, idx) && a + Offset(dims, idx) + item <= |mem|
    ensures FoundAt(Elements(mem, dims, a, item), Flattened(Sizes(dims), idx) * item, Bytes(mem, a + Offset(dims, idx), item))
    decreases |dims|, 0, 0
  {
    WithinSizes(dims, idx);
    InsideAt(mem, dims, a, item, idx);
    if dims == [] {
      assert Elements(mem, dims, a, item)[0..] == Bytes(mem, a, item);
    } else {
      hide Elements, Bytes, Inside, FoundAt;
      ElementFromAt(mem, dims, a, item, 0, idx);
      SizesTail(dims);
      ElementsStart(mem, dims, a, item);
      PositionSplits(idx[0], Product(Sizes(dims[1..])), Flattened(Sizes(dims[1..]), idx[1..]), item);
    }
  }

  lemma PositionSplits(k: nat, p: nat, f: nat, item: nat)
    ensures k * (item * p) + f * item == (k * p + f) * item
  {
  }

  lemma {:induction false} ElementFromAt(mem: seq<byte>, dims: seq<Dim>, a: int, item: nat, i: nat, idx: seq<nat>)
    requires DimsOk(dims) && Inside(mem, dims, a, item) && InShape(dims, idx) && dims != [] && i <= idx[0]
    ensures 0 <= a + Offset(dims, idx) && a + Offset(dims, idx) + item <= |mem|
    ensures Within(Sizes(dims[1..]), idx[1..])
    ensures FoundAt(ElementsFrom(mem, dims, a, item, i),
                    (idx[0] - i) * FlatSize(dims[1..], item) + Flattened(Sizes(dims[1..]), idx[1..]) * item,
                    Bytes(mem, a + Offset(dims, idx), item))
    decreases |dims| - 1, 1, dims[0].size - i
  {
    hide Inside, Elements, FlatSize, FoundAt, Bytes, Flattened;
    InsideAt(mem, dims, a, item, idx);
    ElementsUnfold(mem, dims, a, item, i);
    var first, rest := Elements(mem, dims[1..], a + Step(dims[0], i), item), ElementsFrom(mem, dims, a, item, i + 1);
    if i == idx[0] {
      ElementAt(mem, dims[1..], a + Step(dims[0], i), item, idx[1..]);
      assert a + Step(dims[0], i) + Offset(dims[1..], idx[1..]) == a + Offset(dims, idx);
      assert (idx[0] - i) * FlatSize(dims[1..], item) == 0;
      FoundInFront(first, rest, Flattened(Sizes(dims[1..]), idx[1..]) * item, Bytes(mem, a + Offset(dims, idx), item));
    } else {
      ElementFromAt(mem, dims, a, item, i + 1, idx);
      ElementsLength(mem, dims[1..], a + Step(dims[0], i), item);
      var p, f := FlatSize(dims[1..], item), Flattened(Sizes(dims[1..]), idx[1..]) * item;
      assert p + ((idx[0] - (i + 1)) * p + f) == (idx[0] - i) * p + f;
      FoundBehind(first, rest, (idx[0] - (i + 1)) * p + f, Bytes(mem, a + Offset(dims, idx), item));
    }
  }

  /** The array that was read has the same shape and the same elements. */
  ghost predicate SameArray(mem: seq<byte>, f: Format, dims: seq<Dim>, base: int, r: Read)
    requires DimsOk(dims) && Inside(mem, dims, base, ItemSize(f))
  {
    && r.Array? && r.format == f && DimsOk(r.view.dims) && Sizes(r.view.dims) == Sizes(dims)
    && (forall idx | InShape(dims, idx) :: SameElement(mem, f, dims, base, r, idx))
  }

  ghost predicate SameElement(mem: seq<byte>, f: Format, dims: seq<Dim>, base: int, r: Read, idx: seq<nat>)
    requires DimsOk(dims) && InShape(dims, idx) && r.Array? && DimsOk(r.view.dims)
  {
    var item := ItemSize(f);
    && InShape(r.view.dims, idx)
    && 0 <= base + Offset(dims, idx) && base + Offset(dims, idx) + item <= |mem|
    && FoundAt(r.bytes, Address(r.view, idx), Bytes(mem, base + Offset(dims, idx), item))
  }

  /** Whatever the strides and lists of positions: what is written reads back as an array of the same shape
      with the same elements. */
  method WriteAndRead(f: Format, dims: seq<Dim>, base: int, mem: array<byte>) returns (r: Read)
    requires DimsOk(dims) && Inside(mem[..], dims, base, ItemSize(f))
    ensures SameArray(mem[..], f, dims, base, r) && r.bytes == Elements(mem[..], dims, base, ItemSize(f))
  {
    hide Inside, Elements, SameElement, Product, RowMajor, Sizes;
    TagsMatch(f);
    var t, announced := WriteArray(f, dims, base, mem);
    ElementsLength(mem[..], dims, base, ItemSize(f));
    r := ReadArray(t);
    if |dims| == 1 {
      OneAxis(dims, ItemSize(f), |t.bytes|);
    }
    assert r == Array(f, View(0, RowMajor(Sizes(dims), ItemSize(f))), t.bytes);
    RowMajorOk(Sizes(dims), ItemSize(f));
    SizesOfRowMajor(Sizes(dims), ItemSize(f));
    forall idx | InShape(dims, idx) ensures SameElement(mem[..], f, dims, base, r, idx) {
      ReadElement(mem[..], f, dims, base, r, idx);
    }
  }

  lemma OneAxis(dims: seq<Dim>, item: nat, n: nat)
    requires |dims| == 1 && item > 0 && n == FlatSize(dims, item)
    ensures RowMajor(Sizes(dims), item) == [Dim(n / item, item, None)]
  {
    var sizes := [dims[0].size];
    assert Sizes(dims) == sizes && sizes[1..] == [];
    assert Product(sizes) == dims[0].size && RowMajor(sizes, item) == [Dim(dims[0].size, item * Product([]), None)];
    DivideExactly(item, dims[0].size);
  }

  lemma DivideExactly(item: nat, size: nat)
    requires item > 0
    ensures (item * size) / item == size
  {
    var n := item * size;
    var q, r := n / item, n % item;
    assert n == item * q + r;
    QuotientUnique(item, q, r, size, 0);
    QuotientUnique(item, size, 0, q, r);
  }

  lemma SizesOfRowMajor(sizes: seq<nat>, stride: int)
    ensures Sizes(RowMajor(sizes, stride)) == sizes
  {
    RowMajorOk(sizes, stride);
  }

  lemma ReadElement(mem: seq<byte>, f: Format, dims: seq<Dim>, base: int, r: Read, idx: seq<nat>)
    requires DimsOk(dims) && Inside(mem, dims, base, ItemSize(f)) && InShape(dims, idx)
    requires r == Array(f, View(0, RowMajor(Sizes(dims), ItemSize(f))), Elements(mem, dims, base, ItemSize(f)))
    requires DimsOk(r.view.dims)
    ensures SameElement(mem, f, dims, base, r, idx)
  {
    hide Inside, Elements, FoundAt, Bytes;
    WithinSizes(dims, idx);
    RowMajorOffset(Sizes(dims), ItemSize(f), idx);
    ElementAt(mem, dims, base, ItemSize(f), idx);
  }
}
