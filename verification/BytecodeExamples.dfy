/** Operands in serialised code, byte by byte: which number comes first in each layout
    (src/ml_bytecode.c). */
module BytecodeExamples {
  import opened Vlq
  import opened BytecodeFormat
  import opened BytecodeStream
  import opened BytecodeDispatch
  import M = FrameMachine

  /** A byte up to 240 is a whole number: even ones stand for 0, 1, 2, ..., odd ones for -1, -2, ... */
  function Small(b: byte): int32 {
    if b % 2 == 0 then b / 2 else -((b + 1) / 2)
  }

  lemma SmallNumber(b: byte, rest: Bytes)
    requires b <= 240
    ensures NextNum([b] + rest) == Success((Small(b), rest))
  {
    assert ([b] + rest)[1..] == rest;
  }

  lemma SmallCount(b: byte, rest: Bytes)
    requires b <= 240
    ensures NextCount([b] + rest) == Success((Small(b), rest))
    ensures b % 2 == 0 ==> NextIndex([b] + rest) == Success((b / 2, rest))
  {
    hide NextNum;
    SmallNumber(b, rest);
  }

  /** A target comes before the counts, a declaration after them. */
  lemma JumpBytes(t: byte, c: byte, d: byte, rest: Bytes, values: seq<Val>, configs: set<Bytes>)
    requires t <= 240 && t % 2 == 0 && c <= 240 && d <= 240 && d % 2 == 0
    ensures NextOps(TInst, [t] + rest, values, configs) == Success(OpsRead(Inst(t / 2), rest, values))
    ensures NextOps(TInstCount, [t] + ([c] + rest), values, configs) == Success(OpsRead(InstCount(t / 2, Small(c)), rest,
        values))
    ensures NextOps(TInstCountDecl, [t] + ([c] + ([d] + rest)), values, configs)
         == Success(OpsRead(InstCountDecl(t / 2, Small(c), d / 2), rest, values))
  {
    hide NextCount, NextIndex, Small;
    SmallCount(t, rest);
    SmallCount(t, [c] + rest);
    SmallCount(t, [c] + ([d] + rest));
    SmallCount(c, rest);
    SmallCount(c, [d] + rest);
    SmallCount(d, rest);
  }

  lemma CountBytes(c: byte, c2: byte, d: byte, rest: Bytes, values: seq<Val>, configs: set<Bytes>)
    requires c <= 240 && c2 <= 240 && d <= 240 && d % 2 == 0
    ensures NextOps(TNone, rest, values, configs) == Success(OpsRead(None, rest, values))
    ensures NextOps(TCount, [c] + rest, values, configs) == Success(OpsRead(Count(Small(c)), rest, values))
    ensures NextOps(TCountCount, [c] + ([c2] + rest), values, configs)
         == Success(OpsRead(CountCount(Small(c), Small(c2)), rest, values))
    ensures NextOps(TCountCountDecl, [c] + ([c2] + ([d] + rest)), values, configs)
         == Success(OpsRead(CountCountDecl(Small(c), Small(c2), d / 2), rest, values))
    ensures NextOps(TCountDecl, [c] + ([d] + rest), values, configs) == Success(OpsRead(CountDecl(Small(c), d / 2), rest,
        values))
    ensures NextOps(TDecl, [d] + rest, values, configs) == Success(OpsRead(Decl(d / 2), rest, values))
  {
    hide NextCount, NextIndex, Small;
    SmallCount(c, rest);
    SmallCount(c, [c2] + rest);
    SmallCount(c, [c2] + ([d] + rest));
    SmallCount(c, [d] + rest);
    SmallCount(c2, rest);
    SmallCount(c2, [d] + rest);
    SmallCount(d, rest);
  }

  /** A constant is not among the bytes but in the list beside them. */
  lemma ConstantBytes(c: byte, rest: Bytes, v: Val, values: seq<Val>, configs: set<Bytes>)
    requires c <= 240
    ensures NextOps(TValue, rest, [v] + values, configs) == Success(OpsRead(Value(v), rest, values))
    ensures NextOps(TValueCount, [c] + rest, [v] + values, configs) == Success(OpsRead(ValueCount(v, Small(c)), rest,
        values))
    ensures NextOps(TValueCountData, [c] + rest, [v] + values, configs)
         == Success(OpsRead(ValueCountData(v, Small(c)), rest, values))
  {
    hide NextCount, NextIndex, Small;
    SmallCount(c, rest);
    assert ([v] + values)[1..] == values;
  }

  /** An opcode is a small number; its operands follow. */
  lemma PlainItem(line: uint32, op: nat, rest: Bytes, values: seq<Val>, configs: set<Bytes>)
    requires op < NUM_OPCODES && op != LINK && TypeOf(op) == TNone
    ensures NextItem(line, [2 * op] + rest, values, configs) == Success(Op(Instruction(op, line, None), rest, values))
  {
    hide NextCount, NextOps, TypeOf;
    SmallCount(2 * op, rest);
    CountBytes(0, 0, 0, rest, values, configs);
  }

  lemma CountedItem(line: uint32, op: nat, c: byte, rest: Bytes, values: seq<Val>, configs: set<Bytes>)
    requires op < NUM_OPCODES && op != LINK && TypeOf(op) == TCount && c <= 240
    ensures NextItem(line, [2 * op] + ([c] + rest), values, configs)
         == Success(Op(Instruction(op, line, Count(Small(c))), rest, values))
  {
    hide NextCount, NextOps, TypeOf;
    SmallCount(2 * op, [c] + rest);
    CountBytes(c, 0, 0, rest, values, configs);
  }

  /** `call 2` and `return`: four is the opcode of a call, whose count follows. */
  lemma CallExample(line: uint32, c: Images)
    ensures var call, ret := Instruction(4, line, Count(2)), Instruction(48, line, None);
            && ReadInsts(0, 3, line, [8] + ([4] + ([96] + [])), [], {}, map[]) == Success(map[0 := call, 2 := ret])
            && DispatchOf(c, call) == Runs(M.Call(2)) && DispatchOf(c, ret) == Runs(M.Return)
  {
    hide NextItem, ReadInsts, DispatchOf;
    var call, ret := Instruction(4, line, Count(2)), Instruction(48, line, None);
    CountedItem(line, 4, 4, [96] + [], [], {});
    PlainItem(line, 48, [], [], {});
    var none: FlatCode, one: FlatCode := map[], map[0 := call];
    assert none[0 := call] == one && one[2 := ret] == map[0 := call, 2 := ret];
    CallRead(line, call, ret, none, one);
    CallRuns(line, c);
  }

  lemma CallRuns(line: uint32, c: Images)
    ensures DispatchOf(c, Instruction(4, line, Count(2))) == Runs(M.Call(2))
    ensures DispatchOf(c, Instruction(48, line, None)) == Runs(M.Return)
  {
  }

  lemma CallRead(line: uint32, call: FlatInst, ret: FlatInst, none: FlatCode, one: FlatCode)
    requires call.ops == Count(2) && ret.ops == None && none[0 := call] == one
    requires NextItem(line, [8] + ([4] + ([96] + [])), [], {}) == Success(Op(call, [96] + [], []))
    requires NextItem(line, [96] + [], [], {}) == Success(Op(ret, [], []))
    ensures ReadInsts(0, 3, line, [8] + ([4] + ([96] + [])), [], {}, none) == Success(one[2 := ret])
  {
    hide NextItem;
    assert ReadInsts(2, 3, line, [96] + [], [], {}, one) == ReadInsts(3, 3, line, [], [], {}, one[2 := ret]);
  }

  // ---------------------------------------------------------------- whole closures

  lemma SmallPut(v: int64, rest: Bytes)
    requires 0 <= v <= 120
    ensures PutNum(v, rest) == [2 * v] + rest
  {
  }

  /** Version 5, name, source, first line, frame size, number of parameters, of upvalues, flags, parameters. */
  lemma HeaderBytes(h: Header, rest: Bytes)
    requires |h.name| == 1 && |h.source| == 1 && |h.params| == 1 && |h.params[0]| == 1 && 0 <= h.flags < 4
    requires 0 <= h.startLine <= 120 && 0 <= h.frameSize <= 120 && 0 <= h.numUpValues <= 120
    ensures PutHeader(h, rest) ==
            [10] + ([2] + (h.name + ([2] + (h.source + ([2 * h.startLine] + ([2 * h.frameSize] + ([2] + ([2 * h.numUpValues]
              + ([2 * h.flags] + ([2] + (h.params[0] + rest)))))))))))
  {
    hide PutNum;
    var b8 := PutStrings(h.params, rest);
    assert h.params[1..] == [] && PutStrings(h.params[1..], rest) == rest;
    assert b8 == PutString(h.params[0], rest);
    SmallPut(1, h.params[0] + rest);
    SmallPut(h.flags, b8);
    var b7 := [2 * h.flags] + b8;
    SmallPut(h.numUpValues, b7);
    var b6 := [2 * h.numUpValues] + b7;
    SmallPut(1, b6);
    var b5 := [2] + b6;
    SmallPut(h.frameSize, b5);
    var b4 := [2 * h.frameSize] + b5;
    SmallPut(h.startLine, b4);
    var b3 := [2 * h.startLine] + b4;
    SmallPut(1, h.source + b3);
    var b2 := [2] + (h.source + b3);
    SmallPut(1, h.name + b2);
    SmallPut(5, [2] + (h.name + b2));
  }

  /** A declaration: name, next, line, index, flags. */
  lemma RecordBytes(d: DeclRecord, rest: Bytes)
    requires |d.info.ident| == 1 && 0 <= d.next <= 120 && 0 <= d.info.line <= 120 && 0 <= d.info.index <= 120
    requires 0 <= d.info.flags <= 120
    ensures PutRecord(d, rest) == [2] + (d.info.ident + ([2 * d.next] + ([2 * d.info.line] + ([2 * d.info.index]
              + ([2 * d.info.flags] + rest)))))
  {
    hide PutNum;
    var ns: seq<int32> := [d.next, d.info.line, d.info.index, d.info.flags];
    var b4 := [2 * d.info.flags] + rest;
    var b3 := [2 * d.info.index] + b4;
    var b2 := [2 * d.info.line] + b3;
    SmallPut(d.info.flags, rest);
    SmallPut(d.info.index, b4);
    SmallPut(d.info.line, b3);
    SmallPut(d.next, b2);
    SmallPut(1, d.info.ident + ([2 * d.next] + b2));
    assert ns[3..] == [d.info.flags] && ns[3..][1..] == [];
    assert PutCounts(ns[3..], rest) == b4;
    assert ns[2..][1..] == ns[3..] && PutCounts(ns[2..], rest) == b3;
    assert ns[1..][1..] == ns[2..] && PutCounts(ns[1..], rest) == b2;
    assert PutCounts(ns, rest) == [2 * d.next] + b2;
  }

  /** Twenty-one announces a change of line and how far it goes. */
  lemma LineBytes(line: uint32, i: FlatInst, rest: Bytes)
    requires InstOk(i) && line < i.line <= line + 120 && 0 <= i.opcode <= 120
    ensures PutInst(line, i, rest) == [42] + ([2 * (i.line - line)] + ([2 * i.opcode] + PutOps(i.ops, rest)))
    ensures PutInst(i.line, i, rest) == [2 * i.opcode] + PutOps(i.ops, rest)
  {
    hide PutNum, PutOps, TypeOf, Encodable;
    var body := [2 * i.opcode] + PutOps(i.ops, rest);
    SmallPut(i.opcode, PutOps(i.ops, rest));
    SmallPut(i.line - line, body);
    SmallPut(21, [2 * (i.line - line)] + body);
  }

  /** Behind the header: the declarations, the one in scope, the number of cells, the offset of RETURN, how far
      the first line is, and the instructions. */
  lemma ClosureBytes(f: Flat)
    requires FlatOk(f) && |f.decls| <= 120 && 0 <= f.scope <= 120 && 0 <= f.size <= 120 && 0 <= f.ret <= 120
    requires 0 <= f.header.startLine <= f.line <= f.header.startLine + 120
    ensures PutClosure(f) ==
            PutHeader(f.header, [2 * |f.decls|] + PutRecords(f.decls, [2 * f.scope] + ([2 * f.size] + ([2 * f.ret]
              + ([2 * (f.line - f.header.startLine)] + PutInsts(f.line, f.insts))))))
  {
    hide PutNum, PutHeader, PutRecords, PutInsts, HeaderOk, RecordOk, InstOk, Cells;
    var delta := f.line - f.header.startLine;
    var b7 := PutInsts(f.line, f.insts);
    var b6 := [2 * delta] + b7;
    var b5 := [2 * f.ret] + b6;
    var b4 := [2 * f.size] + b5;
    SmallPut(delta, b7);
    SmallPut(f.ret, b6);
    SmallPut(f.size, b5);
    SmallPut(f.scope, b4);
    SmallPut(|f.decls|, PutRecords(f.decls, [2 * f.scope] + b4));
  }
}
