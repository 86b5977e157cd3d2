/** The numbers in a typed array (src/ml_array.c): what the tag says about the bytes of an element (section 2.1
    of RFC 8746), and that writing and reading back keeps every number of every format. */
module ArrayNumbers {
  import opened Arithmetic
  import opened ArrayViews
  import opened ArrayShapes
  import opened ArrayCbor

  // ---------------------------------------------------------------- the bits of a tag

  /** A tag is 0b010_f_s_e_ll: floating-point, signed, little-endian, length. */
  function FloatBit(tag: nat): nat {
    (tag / 16) % 2
  }

  function SignBit(tag: nat): nat {
    (tag / 8) % 2
  }

  function EndianBit(tag: nat): nat {
    (tag / 4) % 2
  }

  function Power2(n: nat): nat {
    if n == 0 then 1 else 2 * Power2(n - 1)
  }

  /** The bytes of one element. */
  function Length(tag: nat): nat {
    Power2(FloatBit(tag) + tag % 4)
  }

  predicate IsFloat(f: Format) {
    f == F32 || f == F64
  }

  predicate IsSigned(f: Format) {
    f == I8 || f == I16 || f == I32 || f == I64
  }

  /** The formats keep to the layout; elements of several bytes are little-endian. */
  lemma TagLayout(f: Format)
    ensures TagOf(f) / 32 == 2 && Length(TagOf(f)) == ItemSize(f)
    ensures FloatBit(TagOf(f)) == (if IsFloat(f) then 1 else 0) && SignBit(TagOf(f)) == if IsSigned(f) then 1 else 0
    ensures EndianBit(TagOf(f)) == if Length(TagOf(f)) > 1 then 1 else 0
  {
    assert Power2(0) == 1 && Power2(1) == 2 && Power2(2) == 4 && Power2(3) == 8;
  }

  // ---------------------------------------------------------------- numbers

  function Power256(n: nat): (p: nat)
    ensures p > 0
  {
    if n == 0 then 1 else 256 * Power256(n - 1)
  }

  /** The first byte counts least. */
  function LittleEndian(b: seq<byte>): nat {
    if b == [] then 0 else b[0] + 256 * LittleEndian(b[1..])
  }

  function Reverse(b: seq<byte>): seq<byte> {
    if b == [] then [] else Reverse(b[1..]) + [b[0]]
  }

  /** Floats by their fields. */
  datatype Number = Whole(n: int) | Float(sign: nat, exponent: nat, fraction: nat)

  /** The width of the fraction of a float (binary16, 32, 64, 128 of IEEE 754). */
  function FractionBits(length: nat): nat {
    if length == 2 then 10 else if length == 4 then 23 else if length == 8 then 52 else 112
  }

  function Quotient(a: nat, b: nat): nat
    requires b > 0
  {
    a / b
  }

  function Remainder(a: nat, b: nat): nat
    requires b > 0
  {
    a % b
  }

  /** What the bytes of an element denote, by the tag alone. */
  function NumberOf(tag: nat, b: seq<byte>): Number {
    var u := LittleEndian(if EndianBit(tag) == 1 then b else Reverse(b));
    var all := Power256(|b|);
    if FloatBit(tag) == 1 then
      var fraction := PositivePower(FractionBits(|b|));
      Float(Quotient(2 * u, all), Remainder(Quotient(u, fraction), PositivePower(8 * |b| - 1 - FractionBits(|b|))), Remainder(u, fraction))
    else if SignBit(tag) == 1 && 2 * u >= all then Whole(u - all)
    else Whole(u)
  }

  function PositivePower(n: int): (p: nat)
    ensures p > 0
  {
    if n <= 0 then 1 else 2 * PositivePower(n - 1)
  }

  /** The numbers of each format, in plain figures. */
  predicate IsNumber(f: Format, x: Number) {
    match f
    case U8 => x.Whole? && 0 <= x.n < 256
    case I8 => x.Whole? && -128 <= x.n < 128
    case U16 => x.Whole? && 0 <= x.n < 0x1_0000
    case I16 => x.Whole? && -0x8000 <= x.n < 0x8000
    case U32 => x.Whole? && 0 <= x.n < 0x1_0000_0000
    case I32 => x.Whole? && -0x8000_0000 <= x.n < 0x8000_0000
    case U64 => x.Whole? && 0 <= x.n < 0x1_0000_0000_0000_0000
    case I64 => x.Whole? && -0x8000_0000_0000_0000 <= x.n < 0x8000_0000_0000_0000
    case F32 => x.Float? && x.sign < 2 && x.exponent < 256 && x.fraction < 0x80_0000
    case F64 => x.Float? && x.sign < 2 && x.exponent < 2048 && x.fraction < 0x10_0000_0000_0000
  }

  lemma {:induction false} LittleEndianBound(b: seq<byte>)
    ensures LittleEndian(b) < Power256(|b|)
  {
    if b != [] {
      LittleEndianBound(b[1..]);
    }
  }

  function ToBytes(u: nat, n: nat): (b: seq<byte>)
    ensures |b| == n
  {
    if n == 0 then [] else [u % 256] + ToBytes(u / 256, n - 1)
  }

  lemma {:induction false} ToBytesBack(u: nat, n: nat)
    requires u < Power256(n)
    ensures LittleEndian(ToBytes(u, n)) == u
  {
    if n > 0 {
      ToBytesBack(u / 256, n - 1);
      assert ToBytes(u, n)[1..] == ToBytes(u / 256, n - 1);
    }
  }

  /** Different bytes denote different unsigned numbers. */
  lemma {:induction false} LittleEndianInjective(a: seq<byte>, b: seq<byte>)
    requires |a| == |b| && LittleEndian(a) == LittleEndian(b)
    ensures a == b
  {
    if a != [] {
      assert a[0] == LittleEndian(a) % 256 && b[0] == LittleEndian(b) % 256;
      LittleEndianInjective(a[1..], b[1..]);
      assert a == [a[0]] + a[1..] && b == [b[0]] + b[1..];
    }
  }

  lemma Powers()
    ensures Power256(1) == 256 && Power256(2) == 0x1_0000 && Power256(4) == 0x1_0000_0000 && Power256(8) == 0x1_0000_0000_0000_0000
    ensures PositivePower(23) == 0x80_0000 && PositivePower(8) == 256
    ensures PositivePower(52) == 0x10_0000_0000_0000 && PositivePower(11) == 2048
  {
    hide Power256, PositivePower;
    FirstPowers();
    SquareOf256(1);
    SquareOf256(2);
    SquareOf256(4);
    PowerSum(10, 1);
    PowerSum(10, 10);
    PowerSum(20, 3);
    PowerSum(20, 20);
    PowerSum(40, 10);
    PowerSum(50, 2);
  }

  lemma FirstPowers()
    ensures Power256(1) == 256 && PositivePower(1) == 2 && PositivePower(2) == 4 && PositivePower(3) == 8
    ensures PositivePower(8) == 256 && PositivePower(10) == 1024
  {
    assert Power256(0) == 1;
    assert PositivePower(5) == 32 && PositivePower(7) == 128;
  }

  lemma {:induction false} SumOf256(m: nat, n: nat)
    ensures Power256(m + n) == Power256(m) * Power256(n)
  {
    if n > 0 {
      SumOf256(m, n - 1);
      assert Power256(m + n) == 256 * Power256(m + (n - 1)) && Power256(n) == 256 * Power256(n - 1);
      hide Power256;
      Scaled(256, Power256(m), Power256(n - 1));
    }
  }

  lemma SquareOf256(n: nat)
    ensures Power256(2 * n) == Power256(n) * Power256(n)
  {
    SumOf256(n, n);
  }

  lemma Scaled(k: nat, p: nat, q: nat)
    ensures k * (p * q) == p * (k * q)
  {
  }

  lemma PowerNext(n: int)
    requires n > 0
    ensures PositivePower(n) == 2 * PositivePower(n - 1)
  {
  }

  lemma {:induction false} PowerSum(m: nat, n: nat)
    ensures PositivePower(m + n) == PositivePower(m) * PositivePower(n)
  {
    if n > 0 {
      PowerSum(m, n - 1);
      PowerNext(m + n);
      PowerNext(n);
      hide PositivePower;
      Scaled(2, PositivePower(m), PositivePower(n - 1));
    }
  }

  /** The number with its bytes as one unsigned number `u`. */
  function FromUnsigned(f: Format, u: nat): Number {
    match f
    case F32 => Float(u / 0x8000_0000, (u / 0x80_0000) % 256, u % 0x80_0000)
    case F64 => Float(u / 0x8000_0000_0000_0000, (u / 0x10_0000_0000_0000) % 2048, u % 0x10_0000_0000_0000)
    case I8 => Whole(if u >= 128 then u - 256 else u)
    case I16 => Whole(if u >= 0x8000 then u - 0x1_0000 else u)
    case I32 => Whole(if u >= 0x8000_0000 then u - 0x1_0000_0000 else u)
    case I64 => Whole(if u >= 0x8000_0000_0000_0000 then u - 0x1_0000_0000_0000_0000 else u)
    case _ => Whole(u)
  }

  /** How many unsigned numbers the bytes of an element can hold. */
  function Capacity(f: Format): nat {
    match f
    case U8 => 256
    case I8 => 256
    case U16 => 0x1_0000
    case I16 => 0x1_0000
    case U32 => 0x1_0000_0000
    case I32 => 0x1_0000_0000
    case F32 => 0x1_0000_0000
    case _ => 0x1_0000_0000_0000_0000
  }

  lemma NumberIs(f: Format, b: seq<byte>)
    requires |b| == Length(TagOf(f))
    ensures NumberOf(TagOf(f), b) == FromUnsigned(f, LittleEndian(b)) && LittleEndian(b) < Capacity(f) == Power256(|b|)
  {
    hide Length, LittleEndian, NumberOf, FloatBit, SignBit;
    TagLayout(f);
    CapacityIs(f);
    LittleEndianBound(b);
    BytesInOrder(TagOf(f), b);
    if IsFloat(f) {
      FloatIs(f, b);
    } else {
      WholeIs(TagOf(f), b);
    }
  }

  lemma CapacityIs(f: Format)
    ensures Capacity(f) == Power256(ItemSize(f))
  {
    hide Power256;
    Powers();
  }

  lemma BytesInOrder(tag: nat, b: seq<byte>)
    requires |b| > 0 && EndianBit(tag) == if |b| > 1 then 1 else 0
    ensures (if EndianBit(tag) == 1 then b else Reverse(b)) == b
  {
    hide EndianBit;
    if |b| == 1 {
      assert b[1..] == [] && Reverse(b[1..]) == [];
    }
  }

  lemma WholeIs(tag: nat, b: seq<byte>)
    requires FloatBit(tag) == 0 && (if EndianBit(tag) == 1 then b else Reverse(b)) == b
    ensures NumberOf(tag, b)
         == Whole(if SignBit(tag) == 1 && 2 * LittleEndian(b) >= Power256(|b|) then LittleEndian(b) - Power256(|b|) else LittleEndian(b))
  {
    hide LittleEndian, Power256, FloatBit, SignBit, EndianBit, Reverse;
  }

  lemma FloatIs(f: Format, b: seq<byte>)
    requires IsFloat(f) && FloatBit(TagOf(f)) == 1 && |b| == ItemSize(f) && LittleEndian(b) < Power256(|b|)
    requires (if EndianBit(TagOf(f)) == 1 then b else Reverse(b)) == b
    ensures NumberOf(TagOf(f), b) == FromUnsigned(f, LittleEndian(b))
  {
    hide LittleEndian, Power256, PositivePower, FloatBit, EndianBit, Reverse;
    Powers();
    HalfOfAll(LittleEndian(b), Power256(|b|));
  }

  lemma HalfOfAll(u: nat, all: nat)
    requires u < all && all % 2 == 0 && all > 0
    ensures (2 * u) / all == if u < all / 2 then 0 else 1
  {
  }

  /** The bytes of an element always denote a number of the format. */
  lemma BytesDenote(f: Format, b: seq<byte>)
    requires |b| == Length(TagOf(f))
    ensures IsNumber(f, NumberOf(TagOf(f), b))
  {
    hide LittleEndian, Power256, NumberOf, Length;
    NumberIs(f, b);
  }

  function ToUnsigned(f: Format, x: Number): int {
    match f
    case F32 => if x.Float? then x.sign * 0x8000_0000 + x.exponent * 0x80_0000 + x.fraction else 0
    case F64 => if x.Float? then x.sign * 0x8000_0000_0000_0000 + x.exponent * 0x10_0000_0000_0000 + x.fraction else 0
    case _ => if x.Float? then 0 else if x.n < 0 then x.n + Capacity(f) else x.n
  }

  lemma UnsignedBack(f: Format, x: Number)
    requires IsNumber(f, x)
    ensures 0 <= ToUnsigned(f, x) < Capacity(f) && FromUnsigned(f, ToUnsigned(f, x)) == x
  {
    if f == F32 {
      FieldsBack(x.sign, x.exponent, x.fraction, 256, 0x80_0000);
    } else if f == F64 {
      FieldsBack(x.sign, x.exponent, x.fraction, 2048, 0x10_0000_0000_0000);
    } else {
      WholeBack(f, x);
    }
  }

  lemma WholeBack(f: Format, x: Number)
    requires IsNumber(f, x) && !IsFloat(f)
    ensures 0 <= ToUnsigned(f, x) < Capacity(f) && FromUnsigned(f, ToUnsigned(f, x)) == x
  {
  }

  lemma TwoFields(e: nat, r: nat, m: nat, n: nat)
    requires e < m && r < n
    ensures 0 <= e * n + r < m * n
  {
    MulMonotone(n, e + 1, m);
    MulNonNegative(e, n);
    assert n * (e + 1) == e * n + n && n * m == m * n;
  }

  /** Three fields in one number. */
  lemma FieldsBack(s: nat, e: nat, r: nat, m: nat, n: nat)
    requires s < 2 && e < m && r < n
    ensures var u := s * (m * n) + e * n + r;
            0 <= u < 2 * (m * n) && m * n > 0 && u / (m * n) == s && (u / n) % m == e && u % n == r
  {
    var p, low := m * n, e * n + r;
    TwoFields(e, r, m, n);
    HighField(s, low, p);
    Regroup(s, e, r, m, n);
    ModUnique(s * p + low, n, s * m + e, r);
    ModUnique(s * m + e, m, s, e);
  }

  lemma HighField(s: nat, low: nat, p: nat)
    requires s < 2 && low < p
    ensures 0 <= s * p + low < 2 * p && (s * p + low) / p == s
  {
    ModUnique(s * p + low, p, s, low);
  }

  lemma Regroup(s: int, e: int, r: int, m: int, n: int)
    ensures s * (m * n) + (e * n + r) == n * (s * m + e) + r
  {
    assert s * (m * n) == n * (s * m);
  }

  lemma FieldsSplit(u: nat, m: nat, n: nat)
    requires m > 0 && n > 0
    ensures m * n > 0 && (u / (m * n)) * (m * n) + ((u / n) % m) * n + u % n == u
  {
    var q, r := u / n, u % n;
    Divided(u, n);
    Divided(q, m);
    var s, e := q / m, q % m;
    TwoFields(e, r, m, n);
    Regroup(s, e, r, m, n);
    assert m * (q / m) == s * m;
    ModUnique(u, m * n, s, e * n + r);
  }

  lemma Divided(x: nat, n: nat)
    requires n > 0
    ensures x == n * (x / n) + x % n && x / n >= 0 && 0 <= x % n < n
  {
  }

  lemma UnsignedIs(f: Format, u: nat)
    requires u < Capacity(f)
    ensures ToUnsigned(f, FromUnsigned(f, u)) == u
  {
    match f
    case F32 => FieldsSplit(u, 256, 0x80_0000);
    case F64 => FieldsSplit(u, 2048, 0x10_0000_0000_0000);
    case _ =>
  }

  /** Every number of the format has its bytes. */
  lemma EveryNumber(f: Format, x: Number) returns (b: seq<byte>)
    requires IsNumber(f, x)
    ensures |b| == Length(TagOf(f)) && NumberOf(TagOf(f), b) == x
  {
    hide LittleEndian, Power256, NumberOf, Length, FromUnsigned, ToUnsigned, Capacity;
    UnsignedBack(f, x);
    b := ToBytes(ToUnsigned(f, x), Length(TagOf(f)));
    NumberIs(f, b);
    ToBytesBack(ToUnsigned(f, x), Length(TagOf(f)));
  }

  /** And only those. */
  lemma NumberInjective(f: Format, a: seq<byte>, b: seq<byte>)
    requires |a| == |b| == Length(TagOf(f)) && NumberOf(TagOf(f), a) == NumberOf(TagOf(f), b)
    ensures a == b
  {
    hide LittleEndian, Power256, NumberOf, Length, FromUnsigned, ToUnsigned, Capacity;
    NumberIs(f, a);
    NumberIs(f, b);
    UnsignedIs(f, LittleEndian(a));
    UnsignedIs(f, LittleEndian(b));
    LittleEndianInjective(a, b);
  }

  // ---------------------------------------------------------------- writing and reading back

  /** The number at an address. */
  function NumberAt(tag: nat, mem: seq<byte>, a: nat): Number
    requires a + Length(tag) <= |mem|
  {
    NumberOf(tag, mem[a..a + Length(tag)])
  }

  ghost predicate SameNumber(f: Format, mem: seq<byte>, dims: seq<Dim>, base: int, r: Read, idx: seq<nat>)
    requires DimsOk(dims) && InShape(dims, idx) && Inside(mem, dims, base, Length(TagOf(f)))
    requires r.Array? && DimsOk(r.view.dims)
  {
    && InShape(r.view.dims, idx)
    && 0 <= Address(r.view, idx) && Address(r.view, idx) + Length(TagOf(r.format)) <= |r.bytes|
    && NumberAt(TagOf(r.format), r.bytes, Address(r.view, idx)) == NumberAt(TagOf(f), mem, base + Offset(dims, idx))
  }

  /** An array whose elements are in the memory is announced with all their bytes, and reads back as an
      array of the same format and shape with the same number at every index. */
  method WriteAndReadNumbers(f: Format, dims: seq<Dim>, base: int, mem: array<byte>) returns (announced: nat, r: Read)
    requires DimsOk(dims) && Inside(mem[..], dims, base, Length(TagOf(f)))
    ensures announced == Length(TagOf(f)) * Product(Sizes(dims))
    ensures r.Array? && r.format == f && |r.bytes| == announced && DimsOk(r.view.dims) && Sizes(r.view.dims) == Sizes(dims)
    ensures forall idx | InShape(dims, idx) :: SameNumber(f, mem[..], dims, base, r, idx)
  {
    hide Inside, Elements, SameElement, Length, NumberAt, Product;
    TagLayout(f);
    var t;
    t, announced := WriteArray(f, dims, base, mem);
    ElementsLength(mem[..], dims, base, ItemSize(f));
    r := WriteAndRead(f, dims, base, mem);
    forall idx | InShape(dims, idx) ensures SameNumber(f, mem[..], dims, base, r, idx) {
      SameBytes(f, mem[..], dims, base, r, idx);
    }
  }

  lemma SameBytes(f: Format, mem: seq<byte>, dims: seq<Dim>, base: int, r: Read, idx: seq<nat>)
    requires DimsOk(dims) && InShape(dims, idx) && Inside(mem, dims, base, Length(TagOf(f)))
    requires r.Array? && r.format == f && DimsOk(r.view.dims) && SameElement(mem, f, dims, base, r, idx)
    ensures SameNumber(f, mem, dims, base, r, idx)
  {
    hide Inside, Length, NumberOf, Offset;
    TagLayout(f);
  }
}
