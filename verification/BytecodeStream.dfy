/** The byte string of a whole closure: header, table of declarations, instructions with line
    numbers as differences (src/ml_bytecode.c). */
module BytecodeStream {
  import opened BytecodeFormat

  const VERSION: int := 5
  const LINES: int := 0x1_0000_0000

  datatype Header = Header(
    name: Bytes, source: Bytes, startLine: int32, frameSize: int32,
    params: seq<Bytes>, numUpValues: int32, flags: int32)

  /** A record of the table of declarations; `next` is an index into the table or -1. */
  datatype DeclRecord = DeclRecord(info: DeclInfo, next: int32)

  datatype DeclInfo = DeclInfo(ident: Bytes, line: int32, index: int32, flags: int32)

  /** Everything the byte string says; `line` is the line in force before the first instruction. */
  datatype Flat = Flat(
    header: Header, decls: seq<DeclRecord>, scope: int32,
    size: int32, ret: index, line: uint32, insts: seq<FlatInst>)

  // ---------------------------------------------------------------- writing

  function PutStrings(ss: seq<Bytes>, rest: Bytes): Bytes
    requires forall s | s in ss :: |s| < 0x8000_0000
  {
    if ss == [] then rest else PutString(ss[0], PutStrings(ss[1..], rest))
  }

  predicate HeaderOk(h: Header) {
    && |h.name| < 0x8000_0000 && |h.source| < 0x8000_0000 && |h.params| < 0x8000_0000
    && (forall s | s in h.params :: |s| < 0x8000_0000)
    && 0 <= h.flags < 4
  }

  function PutHeader(h: Header, rest: Bytes): Bytes
    requires HeaderOk(h)
  {
    PutNum(VERSION, PutString(h.name, PutString(h.source, PutNum(h.startLine, PutNum(h.frameSize,
      PutNum(|h.params|, PutNum(h.numUpValues, PutNum(h.flags, PutStrings(h.params, rest)))))))))
  }

  predicate RecordOk(d: DeclRecord) {
    |d.info.ident| < 0x8000_0000
  }

  function PutRecord(d: DeclRecord, rest: Bytes): Bytes
    requires RecordOk(d)
  {
    PutString(d.info.ident, PutCounts([d.next, d.info.line, d.info.index, d.info.flags], rest))
  }

  function PutRecords(ds: seq<DeclRecord>, rest: Bytes): Bytes
    requires forall d | d in ds :: RecordOk(d)
  {
    if ds == [] then rest else PutRecord(ds[0], PutRecords(ds[1..], rest))
  }

  /** The difference of two line numbers, in unsigned 32-bit arithmetic. */
  function LineDelta(to: uint32, from: uint32): (d: uint32)
    ensures (from + d) % LINES == to
  {
    (to - from) % LINES
  }

  predicate InstOk(i: FlatInst) {
    WellTyped(i) && Encodable(i.ops)
  }

  /** A LINK opcode announces a change of line. */
  function PutInst(line: uint32, i: FlatInst, rest: Bytes): Bytes
    requires InstOk(i)
  {
    var body := PutNum(i.opcode, PutOps(i.ops, rest));
    if i.line != line then PutNum(LINK, PutNum(LineDelta(i.line, line), body)) else body
  }

  function PutInsts(line: uint32, insts: seq<FlatInst>): Bytes
    requires forall i | i in insts :: InstOk(i)
    decreases |insts|
  {
    if insts == [] then [] else PutInst(line, insts[0], PutInsts(insts[0].line, insts[1..]))
  }

  /** The values that go into the list of constants. */
  function Constants(insts: seq<FlatInst>): seq<Val> {
    if insts == [] then [] else insts[0].ops.Constants() + Constants(insts[1..])
  }

  function Cells(insts: seq<FlatInst>): nat {
    if insts == [] then 0 else insts[0].ops.Cells() + Cells(insts[1..])
  }

  predicate FlatOk(f: Flat) {
    && HeaderOk(f.header)
    && |f.decls| < 0x8000_0000 && (forall d | d in f.decls :: RecordOk(d))
    && (forall i | i in f.insts :: InstOk(i))
    && f.size == Cells(f.insts)
  }

  function PutClosure(f: Flat): Bytes
    requires FlatOk(f)
  {
    PutHeader(f.header, PutNum(|f.decls|, PutRecords(f.decls, PutNum(f.scope, PutNum(f.size, PutNum(f.ret,
      PutNum(LineDelta(f.line, f.header.startLine % LINES), PutInsts(f.line, f.insts))))))))
  }

  // ---------------------------------------------------------------- reading

  function NextStrings(bytes: Bytes, n: nat): Result<(seq<Bytes>, Bytes)> {
    if n == 0 then Success(([], bytes))
    else
      var (s, b1) :- NextString(bytes);
      var (ss, b2) :- NextStrings(b1, n - 1);
      Success(([s] + ss, b2))
  }

  function NextHeader(bytes: Bytes): Result<(Header, Bytes)> {
    var (version, b0) :- NextCount(bytes);
    if version != VERSION then Failure(VersionMismatch)
    else
      var (name, b1) :- NextString(b0);
      var (source, b2) :- NextString(b1);
      var (startLine, b3) :- NextCount(b2);
      var (frameSize, b4) :- NextCount(b3);
      var (numParams, b5) :- NextCount(b4);
      var (numUpValues, b6) :- NextCount(b5);
      var (flags, b7) :- NextCount(b6);
      var (params, b8) :- NextStrings(b7, if numParams < 0 then 0 else numParams);
      Success((Header(name, source, startLine, frameSize, params, numUpValues, flags % 4), b8))
  }

  function NextRecord(bytes: Bytes): Result<(DeclRecord, Bytes)> {
    var (ident, b1) :- NextString(bytes);
    var (ns, b2) :- NextCounts(b1, 4);
    Success((DeclRecord(DeclInfo(ident, ns[1], ns[2], ns[3]), ns[0]), b2))
  }

  function NextRecords(bytes: Bytes, n: nat): Result<(seq<DeclRecord>, Bytes)>
    decreases n
  {
    if n == 0 then Success(([], bytes))
    else
      var (d, b1) :- NextRecord(bytes);
      var (ds, b2) :- NextRecords(b1, n - 1);
      Success(([d] + ds, b2))
  }

  /** One round of the instruction loop: a change of line or an instruction. */
  datatype Item =
    | Line(line: uint32, bytes: Bytes)
    | Op(inst: FlatInst, bytes: Bytes, values: seq<Val>)

  function NextItem(line: uint32, bytes: Bytes, values: seq<Val>, configs: set<Bytes>): (r: Result<Item>)
    ensures r.Success? ==> |r.value.bytes| < |bytes|
  {
    var (op, b1) :- NextCount(bytes);
    if op == LINK then
      var (d, b2) :- NextNum(b1);
      Success(Line((line + d) % LINES, b2))
    else if !(0 <= op < NUM_OPCODES) then Failure(Undefined)
    else
      var read :- NextOps(TypeOf(op), b1, values, configs);
      Success(Op(Instruction(op, line, read.ops), read.bytes, read.values))
  }

  /** The code array of `size` cells: the instruction that starts at each offset. */
  type FlatCode = map<nat, FlatInst>

  /** The instruction loop from cell `pos` on, `code` having been filled in so far. An instruction that
      does not fit into what is left of the array is written past its end, which is undefined. */
  function ReadInsts(pos: nat, size: int32, line: uint32, bytes: Bytes, values: seq<Val>, configs: set<Bytes>,
                     code: FlatCode): Result<FlatCode>
    decreases |bytes|
  {
    if pos >= size then Success(code)
    else
      var item :- NextItem(line, bytes, values, configs);
      match item
      case Line(newLine, rest) => ReadInsts(pos, size, newLine, rest, values, configs, code)
      case Op(inst, rest, vs) =>
        var next := pos + inst.ops.Cells();
        if next > size then Failure(Undefined)
        else ReadInsts(next, size, line, rest, vs, configs, code[pos := inst])
  }

  /** A closure as the decoder leaves it. */
  datatype Decoded = Decoded(header: Header, decls: seq<DeclRecord>, scope: int32, size: int32, ret: index, code: FlatCode)

  function ReadClosure(bytes: Bytes, values: seq<Val>, configs: set<Bytes>): Result<Decoded> {
    var (header, b1) :- NextHeader(bytes);
    var (numDecls, b2) :- NextCount(b1);
    var (decls, b3) :- NextRecords(b2, if numDecls < 0 then 0 else numDecls);
    var (scope, b4) :- NextCount(b3);
    var (size, b5) :- NextCount(b4);
    var (ret, b6) :- NextIndex(b5);
    var (delta, b7) :- NextNum(b6);
    var code :- ReadInsts(0, size, (header.startLine + delta) % LINES, b7, values, configs, map[]);
    Success(Decoded(header, decls, scope, size, ret, code))
  }

  // ---------------------------------------------------------------- reading back

  lemma {:induction false} StringsBack(ss: seq<Bytes>, rest: Bytes)
    requires forall s | s in ss :: |s| < 0x8000_0000
    ensures NextStrings(PutStrings(ss, rest), |ss|) == Success((ss, rest))
  {
    hide NextString, PutString;
    if ss == [] {
    } else {
      StringBack(ss[0], PutStrings(ss[1..], rest));
      StringsBack(ss[1..], rest);
      assert [ss[0]] + ss[1..] == ss;
    }
  }

  lemma HeaderBack(h: Header, rest: Bytes)
    requires HeaderOk(h)
    ensures NextHeader(PutHeader(h, rest)) == Success((h, rest))
  {
    hide NextString, PutString, NextStrings, PutStrings, NextCount, PutNum;
    var b8 := PutStrings(h.params, rest);
    var b7 := PutNum(h.flags, b8);
    var b6 := PutNum(h.numUpValues, b7);
    var b5 := PutNum(|h.params|, b6);
    var b4 := PutNum(h.frameSize, b5);
    var b3 := PutNum(h.startLine, b4);
    var b2 := PutString(h.source, b3);
    var b1 := PutString(h.name, b2);
    CountBack(VERSION, b1);
    StringBack(h.name, b2);
    StringBack(h.source, b3);
    CountBack(h.startLine, b4);
    CountBack(h.frameSize, b5);
    CountBack(|h.params|, b6);
    CountBack(h.numUpValues, b7);
    CountBack(h.flags, b8);
    StringsBack(h.params, rest);
  }

  lemma RecordBack(d: DeclRecord, rest: Bytes)
    requires RecordOk(d)
    ensures NextRecord(PutRecord(d, rest)) == Success((d, rest))
  {
    hide NextString, PutString, NextCounts, PutCounts;
    var ns: seq<int32> := [d.next, d.info.line, d.info.index, d.info.flags];
    StringBack(d.info.ident, PutCounts(ns, rest));
    CountsBack(ns, rest);
  }

  lemma {:induction false} RecordsBack(ds: seq<DeclRecord>, rest: Bytes)
    requires forall d | d in ds :: RecordOk(d)
    ensures NextRecords(PutRecords(ds, rest), |ds|) == Success((ds, rest))
  {
    hide NextRecord, PutRecord;
    if ds == [] {
    } else {
      RecordBack(ds[0], PutRecords(ds[1..], rest));
      RecordsBack(ds[1..], rest);
      assert [ds[0]] + ds[1..] == ds;
    }
  }

  lemma OpBack(i: FlatInst, rest: Bytes, values: seq<Val>, configs: set<Bytes>)
    requires InstOk(i) && (i.ops.InstConfig? ==> i.ops.name in configs)
    ensures NextItem(i.line, PutNum(i.opcode, PutOps(i.ops, rest)), i.ops.Constants() + values, configs)
         == Success(Op(i, rest, values))
  {
    hide NextCount, PutNum, NextOps, PutOps, TypeOf, Encodable;
    CountBack(i.opcode, PutOps(i.ops, rest));
    OpsBack(i.ops, rest, values, configs);
  }

  lemma LineBack(line: uint32, to: uint32, rest: Bytes, values: seq<Val>, configs: set<Bytes>)
    ensures NextItem(line, PutNum(LINK, PutNum(LineDelta(to, line), rest)), values, configs) == Success(Line(to, rest))
  {
    hide NextCount, PutNum, NextNum, NextOps;
    var d := LineDelta(to, line);
    CountBack(LINK, PutNum(d, rest));
    NumBack(d, rest);
  }

  /** The instructions of a list, each at the offset the sizes of the earlier ones give it. */
  function Layout(insts: seq<FlatInst>, pos: nat, code: FlatCode): FlatCode {
    if insts == [] then code else Layout(insts[1..], pos + insts[0].ops.Cells(), code[pos := insts[0]])
  }

  predicate Configured(insts: seq<FlatInst>, configs: set<Bytes>) {
    forall i | i in insts :: i.ops.InstConfig? ==> i.ops.name in configs
  }

  lemma InstBack(pos: nat, size: int32, line: uint32, i: FlatInst, rest: Bytes, values: seq<Val>, configs: set<Bytes>,
                 code: FlatCode)
    requires InstOk(i) && (i.ops.InstConfig? ==> i.ops.name in configs)
    requires pos + i.ops.Cells() <= size
    ensures ReadInsts(pos, size, line, PutInst(line, i, rest), i.ops.Constants() + values, configs, code)
         == ReadInsts(pos + i.ops.Cells(), size, i.line, rest, values, configs, code[pos := i])
  {
    hide NextItem, PutNum, PutOps, TypeOf, Encodable;
    var body := PutNum(i.opcode, PutOps(i.ops, rest));
    var vs := i.ops.Constants() + values;
    OpBack(i, rest, values, configs);
    assert ReadInsts(pos, size, i.line, body, vs, configs, code)
        == ReadInsts(pos + i.ops.Cells(), size, i.line, rest, values, configs, code[pos := i]);
    if i.line != line {
      LineBack(line, i.line, body, vs, configs);
    }
  }

  lemma {:induction false} InstsBack(pos: nat, size: int32, line: uint32, insts: seq<FlatInst>, configs: set<Bytes>, code: FlatCode)
    requires (forall i | i in insts :: InstOk(i)) && Configured(insts, configs)
    requires pos + Cells(insts) == size
    ensures ReadInsts(pos, size, line, PutInsts(line, insts), Constants(insts), configs, code)
         == Success(Layout(insts, pos, code))
    decreases |insts|
  {
    hide PutInst, InstOk, ReadInsts;
    if insts == [] {
      ReadNone(pos, size, line, configs, code);
    } else {
      var i, more := insts[0], insts[1..];
      assert i in insts && Configured(more, configs);
      InstBack(pos, size, line, i, PutInsts(i.line, more), Constants(more), configs, code);
      InstsBack(pos + i.ops.Cells(), size, i.line, more, configs, code[pos := i]);
    }
  }

  lemma ReadNone(pos: nat, size: int32, line: uint32, configs: set<Bytes>, code: FlatCode)
    requires pos == size
    ensures ReadInsts(pos, size, line, [], [], configs, code) == Success(code)
  {
  }

  /** Decoding the encoding of a flat closure gives back every part of it. */
  lemma ClosureBack(f: Flat, configs: set<Bytes>)
    requires FlatOk(f) && Configured(f.insts, configs)
    ensures ReadClosure(PutClosure(f), Constants(f.insts), configs)
         == Success(Decoded(f.header, f.decls, f.scope, f.size, f.ret, Layout(f.insts, 0, map[])))
  {
    hide NextHeader, PutHeader, NextRecords, PutRecords, NextCount, NextIndex, NextNum, PutNum, PutInsts, ReadInsts,
         HeaderOk, RecordOk, InstOk, Cells;
    var delta := LineDelta(f.line, f.header.startLine % LINES);
    var b7 := PutInsts(f.line, f.insts);
    var b6 := PutNum(delta, b7);
    var b5 := PutNum(f.ret, b6);
    var b4 := PutNum(f.size, b5);
    var b3 := PutNum(f.scope, b4);
    var b2 := PutRecords(f.decls, b3);
    var b1 := PutNum(|f.decls|, b2);
    HeaderBack(f.header, b1);
    CountBack(|f.decls|, b2);
    RecordsBack(f.decls, b3);
    CountBack(f.scope, b4);
    CountBack(f.size, b5);
    IndexBack(f.ret, b6);
    NumBack(delta, b7);
    StartLineBack(f.header.startLine, delta);
    InstsBack(0, f.size, f.line, f.insts, configs, map[]);
  }

  lemma StartLineBack(startLine: int32, delta: uint32)
    ensures (startLine + delta) % LINES == (startLine % LINES + delta) % LINES
  {
  }
}
