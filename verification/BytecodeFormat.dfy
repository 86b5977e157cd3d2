/** Instructions, their operand layouts and the byte format of a serialised closure
    (src/ml_bytecode.c, src/ml_opcodes.c). */
module BytecodeFormat {
  import opened Vlq

  type uint32 = x: int | 0 <= x < 0x1_0000_0000
  type int32 = x: int | -0x8000_0000 <= x < 0x8000_0000

  /** A cell offset or a table index that fits an `int`. */
  type index = x: int | 0 <= x < 0x8000_0000

  /** The identity of a constant. */
  type Val = int

  type Bytes = seq<byte>

  // ---------------------------------------------------------------- opcodes and operand layouts

  datatype InstType =
    | TClosure | TCount | TCountChars | TCountCount | TCountCountDecl | TCountDecl | TDecl
    | TInst | TInstConfig | TInstCount | TInstCountDecl | TNone | TSwitch
    | TValue | TValueCount | TValueCountData

  const LINK: nat := 21
  const NUM_OPCODES: nat := 70

  /** MLInstTypes. */
  function TypeOf(op: nat): InstType
    requires op < NUM_OPCODES
  {
    if op in {9, 10} then TClosure
    else if op in {3, 4, 18, 19, 27, 29, 37, 38, 39, 42, 43, 49, 57, 61, 62, 65, 67} then TCount
    else if op == 50 then TCountChars
    else if op in {20, 44, 66} then TCountCount
    else if op == 11 then TCountCountDecl
    else if op in {12, 28, 69} then TCountDecl
    else if op == 68 then TDecl
    else if op in {0, 14, 16, 21, 32, 36, 60} then TInst
    else if op == 15 then TInstConfig
    else if op == 1 then TInstCount
    else if op in {7, 8} then TInstCountDecl
    else if op == 56 then TSwitch
    else if op in {24, 25, 45} then TValue
    else if op in {5, 26, 58} then TValueCount
    else if op in {6, 59} then TValueCountData
    else TNone
  }

  /** The operands of an instruction, for any representation T of jump targets and D of declarations. */
  datatype Operands<T, D> =
    | None
    | Inst(target: T)
    | InstConfig(target: T, name: Bytes)
    | InstCount(target: T, count: int32)
    | InstCountDecl(target: T, count: int32, decl: D)
    | CountCount(count: int32, count2: int32)
    | Count(count: int32)
    | Value(value: Val)
    | ValueCount(value: Val, count: int32)
    | ValueCountData(value: Val, count: int32)
    | CountChars(chars: Bytes)
    | Decl(decl: D)
    | CountDecl(count: int32, decl: D)
    | CountCountDecl(count: int32, count2: int32, decl: D)
    | Closure(value: Val, upvalues: seq<int32>)
    | Switch(targets: seq<T>)
  {
    function Type(): InstType {
      match this
      case None => TNone
      case Inst(_) => TInst
      case InstConfig(_, _) => TInstConfig
      case InstCount(_, _) => TInstCount
      case InstCountDecl(_, _, _) => TInstCountDecl
      case CountCount(_, _) => TCountCount
      case Count(_) => TCount
      case Value(_) => TValue
      case ValueCount(_, _) => TValueCount
      case ValueCountData(_, _) => TValueCountData
      case CountChars(_) => TCountChars
      case Decl(_) => TDecl
      case CountDecl(_, _) => TCountDecl
      case CountCountDecl(_, _, _) => TCountCountDecl
      case Closure(_, _) => TClosure
      case Switch(_) => TSwitch
    }

    /** How many cells the instruction takes. */
    function Cells(): (n: nat)
      ensures n > 0
    {
      match this
      case None => 1
      case Inst(_) => 2
      case InstConfig(_, _) => 3
      case InstCount(_, _) => 3
      case InstCountDecl(_, _, _) => 4
      case CountCount(_, _) => 3
      case Count(_) => 2
      case Value(_) => 2
      case ValueCount(_, _) => 3
      case ValueCountData(_, _) => 4
      case CountChars(_) => 3
      case Decl(_) => 2
      case CountDecl(_, _) => 3
      case CountCountDecl(_, _, _) => 4
      case Closure(_, upvalues) => 2 + |upvalues|
      case Switch(_) => 3
    }

    /** The instructions it may jump to or name as a handler, in order. */
    function Targets(): seq<T> {
      match this
      case Inst(t) => [t]
      case InstConfig(t, _) => [t]
      case InstCount(t, _) => [t]
      case InstCountDecl(t, _, _) => [t]
      case Switch(ts) => ts
      case _ => []
    }

    function HasDecl(): bool {
      InstCountDecl? || Decl? || CountDecl? || CountCountDecl?
    }

    /** The constants it puts into the value list. */
    function Constants(): seq<Val> {
      match this
      case Value(v) => [v]
      case ValueCount(v, _) => [v]
      case ValueCountData(v, _) => [v]
      case Closure(v, _) => [v]
      case _ => []
    }
  }

  datatype Instruction<T, D> = Instruction(opcode: nat, line: uint32, ops: Operands<T, D>)

  /** The operands fit the opcode; LINK is no instruction of its own. */
  predicate WellTyped<T, D>(i: Instruction<T, D>) {
    i.opcode < NUM_OPCODES && i.opcode != LINK && i.ops.Type() == TypeOf(i.opcode)
  }

  /** Replaces targets and declarations. */
  function Mapped<T, D, U, E>(ops: Operands<T, D>, f: T -> U, g: D -> E): (r: Operands<U, E>)
    ensures r.Type() == ops.Type() && r.Cells() == ops.Cells() && r.Constants() == ops.Constants()
    ensures |r.Targets()| == |ops.Targets()| && r.HasDecl() == ops.HasDecl()
    ensures forall k | 0 <= k < |r.Targets()| :: r.Targets()[k] == f(ops.Targets()[k])
  {
    match ops
    case None => None
    case Inst(t) => Inst(f(t))
    case InstConfig(t, name) => InstConfig(f(t), name)
    case InstCount(t, c) => InstCount(f(t), c)
    case InstCountDecl(t, c, d) => InstCountDecl(f(t), c, g(d))
    case CountCount(c, c2) => CountCount(c, c2)
    case Count(c) => Count(c)
    case Value(v) => Value(v)
    case ValueCount(v, c) => ValueCount(v, c)
    case ValueCountData(v, c) => ValueCountData(v, c)
    case CountChars(chars) => CountChars(chars)
    case Decl(d) => Decl(g(d))
    case CountDecl(c, d) => CountDecl(c, g(d))
    case CountCountDecl(c, c2, d) => CountCountDecl(c, c2, g(d))
    case Closure(v, upvalues) => Closure(v, upvalues)
    case Switch(ts) => Switch(seq(|ts|, k requires 0 <= k < |ts| => f(ts[k])))
  }

  /** An instruction of flat code: targets are cell offsets, declarations are table indices. */
  type FlatInst = Instruction<index, index>

  type FlatOps = Operands<index, index>

  // ---------------------------------------------------------------- writing

  /** A number in front of `rest`. */
  function PutNum(v: int64, rest: Bytes): Bytes {
    Encode(v) + rest
  }

  /** A length and the bytes themselves, in front of `rest`. */
  function PutString(s: Bytes, rest: Bytes): Bytes
    requires |s| < 0x8000_0000
  {
    PutNum(|s|, s + rest)
  }

  function PutCounts(vs: seq<int32>, rest: Bytes): Bytes {
    if vs == [] then rest else PutNum(vs[0], PutCounts(vs[1..], rest))
  }

  function PutIndices(vs: seq<index>, rest: Bytes): Bytes {
    if vs == [] then rest else PutNum(vs[0], PutIndices(vs[1..], rest))
  }

  /** Lengths that fit the `int` variables of the decoder. */
  predicate Encodable<T, D>(ops: Operands<T, D>) {
    match ops
    case InstConfig(_, name) => |name| < 0x8000_0000
    case CountChars(chars) => |chars| < 0x8000_0000
    case Closure(_, upvalues) => |upvalues| < 0x8000_0000
    case Switch(targets) => |targets| < 0x8000_0000
    case _ => true
  }

  function PutOps(ops: FlatOps, rest: Bytes): Bytes
    requires Encodable(ops)
  {
    match ops
    case None => rest
    case Inst(t) => PutNum(t, rest)
    case InstConfig(t, name) => PutNum(t, PutString(name, rest))
    case InstCount(t, c) => PutNum(t, PutNum(c, rest))
    case InstCountDecl(t, c, d) => PutNum(t, PutNum(c, PutNum(d, rest)))
    case CountCount(c, c2) => PutNum(c, PutNum(c2, rest))
    case Count(c) => PutNum(c, rest)
    case Value(v) => rest
    case ValueCount(v, c) => PutNum(c, rest)
    case ValueCountData(v, c) => PutNum(c, rest)
    case CountChars(chars) => PutString(chars, rest)
    case Decl(d) => PutNum(d, rest)
    case CountDecl(c, d) => PutNum(c, PutNum(d, rest))
    case CountCountDecl(c, c2, d) => PutNum(c, PutNum(c2, PutNum(d, rest)))
    case Closure(v, upvalues) => PutNum(|upvalues|, PutCounts(upvalues, rest))
    case Switch(ts) => PutNum(|ts|, PutIndices(ts, rest))
  }

  // ---------------------------------------------------------------- reading

  datatype Error = Truncated | VersionMismatch | UnknownConfig | MissingArgument | Undefined

  datatype Result<+T> = Success(value: T) | Failure(error: Error) {
    predicate IsFailure() {
      Failure?
    }

    function PropagateFailure<U>(): Result<U>
      requires Failure?
    {
      Failure(error)
    }

    function Extract(): T
      requires Success?
    {
      value
    }
  }

  /** VLQ64_NEXT. */
  function NextNum(bytes: Bytes): (r: Result<(int64, Bytes)>)
    ensures r.Success? ==> |r.value.1| < |bytes|
  {
    if |bytes| <= 0 then Failure(Truncated)
    else
      var (v, n) := Decode(bytes);
      if |bytes| < n then Failure(Truncated) else Success((v, bytes[n..]))
  }

  /** The conversion of an `int64_t` to an `int`. */
  function ToInt32(v: int64): (x: int32)
    ensures -0x8000_0000 <= v < 0x8000_0000 ==> x == v
  {
    var u := v % 0x1_0000_0000;
    if u >= 0x8000_0000 then u - 0x1_0000_0000 else u
  }

  function NextCount(bytes: Bytes): (r: Result<(int32, Bytes)>)
    ensures r.Success? ==> |r.value.1| < |bytes|
  {
    var (v, rest) :- NextNum(bytes);
    Success((ToInt32(v), rest))
  }

  /** An offset or an index. The C code forms an address from one out of range; that is undefined. */
  function NextIndex(bytes: Bytes): (r: Result<(index, Bytes)>)
    ensures r.Success? ==> |r.value.1| < |bytes|
  {
    var (v, rest) :- NextNum(bytes);
    if 0 <= v < 0x8000_0000 then Success((v, rest)) else Failure(Undefined)
  }

  /** VLQ64_NEXT_STRING. A negative length is copied without a check; that is undefined. */
  function NextString(bytes: Bytes): (r: Result<(Bytes, Bytes)>)
    ensures r.Success? ==> |r.value.1| < |bytes|
  {
    var (n, rest) :- NextCount(bytes);
    if |rest| < n then Failure(Truncated)
    else if n < 0 then Failure(Undefined)
    else Success((rest[..n], rest[n..]))
  }

  function NextCounts(bytes: Bytes, n: nat): (r: Result<(seq<int32>, Bytes)>)
    ensures r.Success? ==> |r.value.0| == n && |r.value.1| <= |bytes|
  {
    if n == 0 then Success(([], bytes))
    else
      var (v, rest) :- NextCount(bytes);
      var (vs, rest') :- NextCounts(rest, n - 1);
      Success(([v] + vs, rest'))
  }

  function NextIndices(bytes: Bytes, n: nat): (r: Result<(seq<index>, Bytes)>)
    ensures r.Success? ==> |r.value.0| == n && |r.value.1| <= |bytes|
  {
    if n == 0 then Success(([], bytes))
    else
      var (v, rest) :- NextIndex(bytes);
      var (vs, rest') :- NextIndices(rest, n - 1);
      Success(([v] + vs, rest'))
  }

  /** NEXT_VALUE. */
  function NextValue(values: seq<Val>): Result<(Val, seq<Val>)> {
    if values == [] then Failure(MissingArgument) else Success((values[0], values[1..]))
  }

  /** The characters of a COUNT_CHARS instruction: the C code copies them without checking that they
      are there, which is undefined if they are not. */
  function NextChars(bytes: Bytes): (r: Result<(Bytes, Bytes)>)
    ensures r.Success? ==> |r.value.1| < |bytes|
  {
    var (n, rest) :- NextCount(bytes);
    if n < 0 || |rest| < n then Failure(Undefined) else Success((rest[..n], rest[n..]))
  }

  datatype OpsRead = OpsRead(ops: FlatOps, bytes: Bytes, values: seq<Val>)

  /** The operands of one instruction, as the switch of `decode_closure_info` reads them. */
  function NextOps(t: InstType, bytes: Bytes, values: seq<Val>, configs: set<Bytes>): (r: Result<OpsRead>)
    ensures r.Success? ==> r.value.ops.Type() == t && |r.value.bytes| <= |bytes|
  {
    match t
    case TInst => NextJump(t, bytes, values, configs)
    case TInstConfig => NextJump(t, bytes, values, configs)
    case TInstCount => NextJump(t, bytes, values, configs)
    case TInstCountDecl => NextJump(t, bytes, values, configs)
    case TValue => NextConstant(t, bytes, values)
    case TValueCount => NextConstant(t, bytes, values)
    case TValueCountData => NextConstant(t, bytes, values)
    case TClosure => NextConstant(t, bytes, values)
    case TCountCount => NextTwoCounts(t, bytes, values)
    case TCountCountDecl => NextTwoCounts(t, bytes, values)
    case _ => NextPlain(t, bytes, values)
  }

  function NextJump(t: InstType, bytes: Bytes, values: seq<Val>, configs: set<Bytes>): (r: Result<OpsRead>)
    requires t in {TInst, TInstConfig, TInstCount, TInstCountDecl}
    ensures r.Success? ==> r.value.ops.Type() == t && |r.value.bytes| <= |bytes|
  {
    var (target, b1) :- NextIndex(bytes);
    match t
    case TInst => Success(OpsRead(Inst(target), b1, values))
    case TInstConfig =>
      var (name, b2) :- NextString(b1);
      if name !in configs then Failure(UnknownConfig)
      else Success(OpsRead(InstConfig(target, name), b2, values))
    case TInstCount =>
      var (c, b2) :- NextCount(b1);
      Success(OpsRead(InstCount(target, c), b2, values))
    case TInstCountDecl =>
      var (c, b2) :- NextCount(b1);
      var (d, b3) :- NextIndex(b2);
      Success(OpsRead(InstCountDecl(target, c, d), b3, values))
  }

  function NextConstant(t: InstType, bytes: Bytes, values: seq<Val>): (r: Result<OpsRead>)
    requires t in {TValue, TValueCount, TValueCountData, TClosure}
    ensures r.Success? ==> r.value.ops.Type() == t && |r.value.bytes| <= |bytes|
  {
    var (v, vs) :- NextValue(values);
    match t
    case TValue => Success(OpsRead(Value(v), bytes, vs))
    case TValueCount =>
      var (c, b1) :- NextCount(bytes);
      Success(OpsRead(ValueCount(v, c), b1, vs))
    case TValueCountData =>
      var (c, b1) :- NextCount(bytes);
      Success(OpsRead(ValueCountData(v, c), b1, vs))
    case TClosure =>
      var (n, b1) :- NextCount(bytes);
      var (upvalues, b2) :- NextCounts(b1, if n < 0 then 0 else n);
      Success(OpsRead(Closure(v, upvalues), b2, vs))
  }

  function NextTwoCounts(t: InstType, bytes: Bytes, values: seq<Val>): (r: Result<OpsRead>)
    requires t in {TCountCount, TCountCountDecl}
    ensures r.Success? ==> r.value.ops.Type() == t && |r.value.bytes| <= |bytes|
  {
    var (c, b1) :- NextCount(bytes);
    var (c2, b2) :- NextCount(b1);
    match t
    case TCountCount => Success(OpsRead(CountCount(c, c2), b2, values))
    case TCountCountDecl =>
      var (d, b3) :- NextIndex(b2);
      Success(OpsRead(CountCountDecl(c, c2, d), b3, values))
  }

  function NextPlain(t: InstType, bytes: Bytes, values: seq<Val>): (r: Result<OpsRead>)
    requires t in {TNone, TCount, TCountChars, TDecl, TCountDecl, TSwitch}
    ensures r.Success? ==> r.value.ops.Type() == t && |r.value.bytes| <= |bytes|
  {
    match t
    case TNone => Success(OpsRead(None, bytes, values))
    case TCount =>
      var (c, b1) :- NextCount(bytes);
      Success(OpsRead(Count(c), b1, values))
    case TCountChars =>
      var (chars, b1) :- NextChars(bytes);
      Success(OpsRead(CountChars(chars), b1, values))
    case TDecl =>
      var (d, b1) :- NextIndex(bytes);
      Success(OpsRead(Decl(d), b1, values))
    case TCountDecl =>
      var (c, b1) :- NextCount(bytes);
      var (d, b2) :- NextIndex(b1);
      Success(OpsRead(CountDecl(c, d), b2, values))
    case TSwitch =>
      var (n, b1) :- NextCount(bytes);
      var (targets, b2) :- NextIndices(b1, if n < 0 then 0 else n);
      Success(OpsRead(Switch(targets), b2, values))
  }

  // ---------------------------------------------------------------- reading back

  lemma NumBack(v: int64, rest: Bytes)
    requires -0x80_0000_0000_0000 <= v < 0x80_0000_0000_0000
    ensures NextNum(PutNum(v, rest)) == Success((v, rest))
  {
    hide Encode, Decode;
    RoundTripSmall(v, rest);
    assert (Encode(v) + rest)[|Encode(v)|..] == rest;
  }

  lemma CountBack(c: int32, rest: Bytes)
    ensures NextCount(PutNum(c, rest)) == Success((c, rest))
  {
    hide NextNum, PutNum;
    NumBack(c, rest);
  }

  lemma IndexBack(i: index, rest: Bytes)
    ensures NextIndex(PutNum(i, rest)) == Success((i, rest))
  {
    hide NextNum, PutNum;
    NumBack(i, rest);
  }

  lemma StringBack(s: Bytes, rest: Bytes)
    requires |s| < 0x8000_0000
    ensures NextString(PutString(s, rest)) == Success((s, rest))
    ensures NextChars(PutString(s, rest)) == Success((s, rest))
  {
    hide NextCount, PutNum;
    CountBack(|s|, s + rest);
    assert (s + rest)[..|s|] == s && (s + rest)[|s|..] == rest;
  }

  lemma {:induction false} CountsBack(vs: seq<int32>, rest: Bytes)
    ensures NextCounts(PutCounts(vs, rest), |vs|) == Success((vs, rest))
  {
    hide NextCount, PutNum;
    if vs == [] {
    } else {
      CountBack(vs[0], PutCounts(vs[1..], rest));
      CountsBack(vs[1..], rest);
      assert [vs[0]] + vs[1..] == vs;
    }
  }

  lemma {:induction false} IndicesBack(vs: seq<index>, rest: Bytes)
    ensures NextIndices(PutIndices(vs, rest), |vs|) == Success((vs, rest))
  {
    hide NextIndex, PutNum;
    if vs == [] {
    } else {
      IndexBack(vs[0], PutIndices(vs[1..], rest));
      IndicesBack(vs[1..], rest);
      assert [vs[0]] + vs[1..] == vs;
    }
  }

  lemma JumpBack(ops: FlatOps, rest: Bytes, values: seq<Val>, configs: set<Bytes>)
    requires ops.Inst? || ops.InstConfig? || ops.InstCount? || ops.InstCountDecl?
    requires Encodable(ops) && (ops.InstConfig? ==> ops.name in configs)
    ensures NextJump(ops.Type(), PutOps(ops, rest), values, configs) == Success(OpsRead(ops, rest, values))
  {
    hide NextCount, NextIndex, NextString, PutNum, PutString;
    match ops
    case Inst(t) => IndexBack(t, rest);
    case InstConfig(t, name) =>
      IndexBack(t, PutString(name, rest));
      StringBack(name, rest);
    case InstCount(t, c) =>
      IndexBack(t, PutNum(c, rest));
      CountBack(c, rest);
    case InstCountDecl(t, c, d) =>
      IndexBack(t, PutNum(c, PutNum(d, rest)));
      CountBack(c, PutNum(d, rest));
      IndexBack(d, rest);
  }

  lemma ConstantBack(ops: FlatOps, rest: Bytes, values: seq<Val>)
    requires ops.Value? || ops.ValueCount? || ops.ValueCountData? || ops.Closure?
    requires Encodable(ops)
    ensures NextConstant(ops.Type(), PutOps(ops, rest), ops.Constants() + values) == Success(OpsRead(ops, rest, values))
  {
    hide NextCount, NextCounts, PutNum, PutCounts;
    assert ([ops.value] + values)[1..] == values;
    match ops
    case Value(v) =>
    case ValueCount(v, c) => CountBack(c, rest);
    case ValueCountData(v, c) => CountBack(c, rest);
    case Closure(v, upvalues) =>
      CountBack(|upvalues|, PutCounts(upvalues, rest));
      CountsBack(upvalues, rest);
  }

  lemma TwoCountsBack(ops: FlatOps, rest: Bytes, values: seq<Val>)
    requires ops.CountCount? || ops.CountCountDecl?
    ensures NextTwoCounts(ops.Type(), PutOps(ops, rest), values) == Success(OpsRead(ops, rest, values))
  {
    hide NextCount, NextIndex, PutNum;
    match ops
    case CountCount(c, c2) =>
      CountBack(c, PutNum(c2, rest));
      CountBack(c2, rest);
    case CountCountDecl(c, c2, d) =>
      CountBack(c, PutNum(c2, PutNum(d, rest)));
      CountBack(c2, PutNum(d, rest));
      IndexBack(d, rest);
  }

  lemma PlainBack(ops: FlatOps, rest: Bytes, values: seq<Val>)
    requires ops.Type() in {TNone, TCount, TCountChars, TDecl, TCountDecl, TSwitch}
    requires Encodable(ops)
    ensures NextPlain(ops.Type(), PutOps(ops, rest), values) == Success(OpsRead(ops, rest, values))
  {
    hide NextCount, NextIndex, NextChars, NextIndices, PutNum, PutString, PutIndices;
    match ops
    case None =>
    case Count(c) => CountBack(c, rest);
    case CountChars(chars) => StringBack(chars, rest);
    case Decl(d) => IndexBack(d, rest);
    case CountDecl(c, d) =>
      CountBack(c, PutNum(d, rest));
      IndexBack(d, rest);
    case Switch(ts) =>
      CountBack(|ts|, PutIndices(ts, rest));
      IndicesBack(ts, rest);
  }

  /** Reading the operands of an instruction gives back what was written and takes exactly its bytes
      and its constants. */
  lemma OpsBack(ops: FlatOps, rest: Bytes, values: seq<Val>, configs: set<Bytes>)
    requires Encodable(ops) && (ops.InstConfig? ==> ops.name in configs)
    ensures NextOps(ops.Type(), PutOps(ops, rest), ops.Constants() + values, configs)
         == Success(OpsRead(ops, rest, values))
  {
    hide PutOps, NextJump, NextConstant, NextTwoCounts, NextPlain, Encodable;
    assert ops.Constants() == [] ==> ops.Constants() + values == values;
    match ops
    case Inst(_) => JumpBack(ops, rest, values, configs);
    case InstConfig(_, _) => JumpBack(ops, rest, values, configs);
    case InstCount(_, _) => JumpBack(ops, rest, values, configs);
    case InstCountDecl(_, _, _) => JumpBack(ops, rest, values, configs);
    case Value(_) => ConstantBack(ops, rest, values);
    case ValueCount(_, _) => ConstantBack(ops, rest, values);
    case ValueCountData(_, _) => ConstantBack(ops, rest, values);
    case Closure(_, _) => ConstantBack(ops, rest, values);
    case CountCount(_, _) => TwoCountsBack(ops, rest, values);
    case CountCountDecl(_, _, _) => TwoCountsBack(ops, rest, values);
    case _ => PlainBack(ops, rest, values);
  }
}
