/** Writing a closure and reading it back (src/ml_bytecode.c). */
module BytecodeSerialise {
  import opened BytecodeFormat
  import opened BytecodeStream
  import opened BytecodeWalk
  import opened BytecodeLabels
  import opened BytecodeDecls
  import opened BytecodeEncoder
  import Finite

  // ---------------------------------------------------------------- what is written

  /** The offset that the label of `t` leads to: 0 for a label that no visited address carries. */
  function OffsetFor(marks: Marks, labels: Labels, t: Addr): index {
    var mark := if t in marks then marks[t] else 0;
    if mark in labels then labels[mark] else 0
  }

  function Targeter(marks: Marks, labels: Labels): Addr -> index {
    t => OffsetFor(marks, labels, t)
  }

  /** The index of a declaration; NULL is in no table and is written as 0. */
  function Indexer(table: Table): Decls -> index {
    d => if d in table then table[d] else 0
  }

  /** What a target ought to be written as: its offset if the walk visits it, otherwise 0. */
  ghost function TargetOf(code: Memory, path: seq<Addr>): Addr -> index
    requires |path| > 0
  {
    t => if t in path[..|path| - 1] && OffsetOf(code, path, t) < 0x8000_0000 then OffsetOf(code, path, t) else 0
  }

  ghost function FlatFor(c: Closure, path: seq<Addr>, table: Table, records: seq<DeclRecord>): Flat
    requires |path| > 0 && c.entry in c.code && Off(c.code, path, |path| - 1) < 0x8000_0000
    requires ReturnUpTo(c.code, path, |path| - 1, c.ret) < 0x8000_0000
  {
    Flat(c.header.(flags := c.header.flags % 4), records,
         if c.decls.NoDecls? then -1 else Indexer(table)(c.decls),
         Off(c.code, path, |path| - 1), ReturnUpTo(c.code, path, |path| - 1, c.ret), LineOf(c.code[c.entry]),
         Flatten(c.code, path, 0, TargetOf(c.code, path), Indexer(table)))
  }

  // ---------------------------------------------------------------- second pass: instructions

  method EmitCounts(buffer: Bytes, vs: seq<int32>, ghost rest: Bytes) returns (buffer': Bytes)
    ensures buffer' + rest == buffer + PutCounts(vs, rest)
  {
    hide PutNum;
    buffer' := buffer;
    for i := 0 to |vs|
      invariant buffer' + PutCounts(vs[i..], rest) == buffer + PutCounts(vs, rest)
    {
      assert vs[i..][1..] == vs[i + 1..];
      buffer' := EmitNum(buffer', vs[i], PutCounts(vs[i + 1..], rest));
    }
  }

  method EmitTargets(buffer: Bytes, ts: seq<Addr>, marks: Marks, labels: Labels, ghost vs: seq<index>, ghost rest: Bytes)
    returns (buffer': Bytes)
    requires |vs| == |ts| && forall k | 0 <= k < |ts| :: vs[k] == OffsetFor(marks, labels, ts[k])
    ensures buffer' + rest == buffer + PutIndices(vs, rest)
  {
    hide PutNum, OffsetFor;
    buffer' := buffer;
    for i := 0 to |ts|
      invariant buffer' + PutIndices(vs[i..], rest) == buffer + PutIndices(vs, rest)
    {
      assert vs[i..][1..] == vs[i + 1..];
      buffer' := EmitNum(buffer', OffsetFor(marks, labels, ts[i]), PutIndices(vs[i + 1..], rest));
    }
  }

  ghost function Written(ops: Operands<Addr, Decls>, marks: Marks, labels: Labels, table: Table): FlatOps {
    Mapped(ops, Targeter(marks, labels), Indexer(table))
  }

  /** Operands with one jump target. */
  method EmitJump(buffer: Bytes, ops: Operands<Addr, Decls>, marks: Marks, labels: Labels, table: Table, ghost rest: Bytes)
    returns (buffer': Bytes)
    requires ops.Inst? || ops.InstConfig? || ops.InstCount? || ops.InstCountDecl?
    requires Encodable(ops) && Encodable(Written(ops, marks, labels, table))
    ensures buffer' + rest == buffer + PutOps(Written(ops, marks, labels, table), rest)
  {
    hide PutNum, PutString, OffsetFor;
    match ops {
      case Inst(t) =>
        buffer' := EmitNum(buffer, OffsetFor(marks, labels, t), rest);
      case InstConfig(t, name) =>
        buffer' := EmitNum(buffer, OffsetFor(marks, labels, t), PutString(name, rest));
        buffer' := EmitString(buffer', name, rest);
      case InstCount(t, c) =>
        buffer' := EmitNum(buffer, OffsetFor(marks, labels, t), PutNum(c, rest));
        buffer' := EmitNum(buffer', c, rest);
      case InstCountDecl(t, c, d) =>
        var i: index := if d in table then table[d] else 0;
        buffer' := EmitNum(buffer, OffsetFor(marks, labels, t), PutNum(c, PutNum(i, rest)));
        buffer' := EmitNum(buffer', c, PutNum(i, rest));
        buffer' := EmitNum(buffer', i, rest);
    }
  }

  /** Operands that put a constant into the list of values. */
  method EmitConstant(buffer: Bytes, values: seq<Val>, ops: Operands<Addr, Decls>, ghost flat: FlatOps, ghost rest: Bytes)
    returns (buffer': Bytes, values': seq<Val>)
    requires ops.Value? || ops.ValueCount? || ops.ValueCountData? || ops.Closure?
    requires Encodable(ops) && Encodable(flat) && exists f: Addr -> index, g: Decls -> index :: flat == Mapped(ops, f, g)
    ensures buffer' + rest == buffer + PutOps(flat, rest)
    ensures values' == values + ops.Constants()
  {
    hide PutNum, PutCounts;
    buffer', values' := buffer, values + [ops.value];
    match ops {
      case Value(_) =>
      case ValueCount(_, c) =>
        buffer' := EmitNum(buffer, c, rest);
      case ValueCountData(_, c) =>
        buffer' := EmitNum(buffer, c, rest);
      case Closure(_, upvalues) =>
        buffer' := EmitNum(buffer, |upvalues|, PutCounts(upvalues, rest));
        buffer' := EmitCounts(buffer', upvalues, rest);
    }
  }

  /** Operands that are numbers or characters only, and tables of targets. */
  method EmitPlain(buffer: Bytes, ops: Operands<Addr, Decls>, marks: Marks, labels: Labels, table: Table, ghost rest: Bytes)
    returns (buffer': Bytes)
    requires ops.Type() in {TNone, TCountCount, TCount, TCountChars, TDecl, TCountDecl, TCountCountDecl, TSwitch}
    requires Encodable(ops) && Encodable(Written(ops, marks, labels, table))
    ensures buffer' + rest == buffer + PutOps(Written(ops, marks, labels, table), rest)
  {
    hide PutNum, PutString, PutIndices, OffsetFor;
    match ops {
      case None =>
        buffer' := buffer;
      case CountCount(c, c2) =>
        buffer' := EmitNum(buffer, c, PutNum(c2, rest));
        buffer' := EmitNum(buffer', c2, rest);
      case Count(c) =>
        buffer' := EmitNum(buffer, c, rest);
      case CountChars(chars) =>
        buffer' := EmitString(buffer, chars, rest);
      case Decl(d) =>
        buffer' := EmitNum(buffer, if d in table then table[d] else 0, rest);
      case CountDecl(c, d) =>
        var i: index := if d in table then table[d] else 0;
        buffer' := EmitNum(buffer, c, PutNum(i, rest));
        buffer' := EmitNum(buffer', i, rest);
      case CountCountDecl(c, c2, d) =>
        var i: index := if d in table then table[d] else 0;
        buffer' := EmitNum(buffer, c, PutNum(c2, PutNum(i, rest)));
        buffer' := EmitNum(buffer', c2, PutNum(i, rest));
        buffer' := EmitNum(buffer', i, rest);
      case Switch(ts) =>
        ghost var vs := Written(ops, marks, labels, table).targets;
        buffer' := EmitNum(buffer, |ts|, PutIndices(vs, rest));
        buffer' := EmitTargets(buffer', ts, marks, labels, vs, rest);
    }
  }

  method EmitOps(buffer: Bytes, values: seq<Val>, ops: Operands<Addr, Decls>, marks: Marks, labels: Labels, table: Table, ghost rest: Bytes)
    returns (buffer': Bytes, values': seq<Val>)
    requires Encodable(ops) && Encodable(Written(ops, marks, labels, table))
    ensures buffer' + rest == buffer + PutOps(Written(ops, marks, labels, table), rest)
    ensures values' == values + ops.Constants()
  {
    hide PutOps, Encodable;
    values' := values;
    match ops {
      case Inst(_) => buffer' := EmitJump(buffer, ops, marks, labels, table, rest);
      case InstConfig(_, _) => buffer' := EmitJump(buffer, ops, marks, labels, table, rest);
      case InstCount(_, _) => buffer' := EmitJump(buffer, ops, marks, labels, table, rest);
      case InstCountDecl(_, _, _) => buffer' := EmitJump(buffer, ops, marks, labels, table, rest);
      case Value(_) => buffer', values' := EmitConstant(buffer, values, ops, Written(ops, marks, labels, table), rest);
      case ValueCount(_, _) => buffer', values' := EmitConstant(buffer, values, ops, Written(ops, marks, labels, table), rest);
      case ValueCountData(_, _) => buffer', values' := EmitConstant(buffer, values, ops, Written(ops, marks, labels, table), rest);
      case Closure(_, _) => buffer', values' := EmitConstant(buffer, values, ops, Written(ops, marks, labels, table), rest);
      case _ => buffer' := EmitPlain(buffer, ops, marks, labels, table, rest);
    }
  }

  method EmitInst(buffer: Bytes, values: seq<Val>, line: uint32, inst: LinkedInst, marks: Marks, labels: Labels, table: Table,
                  ghost flat: FlatInst, ghost rest: Bytes)
    returns (buffer': Bytes, values': seq<Val>)
    requires InstReady(inst) && InstOk(flat) && flat == FlatOf(inst, Targeter(marks, labels), Indexer(table))
    ensures buffer' + rest == buffer + PutInst(line, flat, rest)
    ensures values' == values + flat.ops.Constants()
  {
    hide PutNum, PutOps, TypeOf, Encodable, Mapped;
    ghost var body := PutNum(inst.opcode, PutOps(flat.ops, rest));
    buffer' := buffer;
    if inst.line != line {
      var delta := LineDelta(inst.line, line);
      buffer' := EmitNum(buffer', LINK, PutNum(delta, body));
      buffer' := EmitNum(buffer', delta, body);
    }
    assert buffer' + body == buffer + PutInst(line, flat, rest);
    buffer' := EmitNum(buffer', inst.opcode, PutOps(flat.ops, rest));
    buffer', values' := EmitOps(buffer', values, inst.ops, marks, labels, table, rest);
  }

  lemma FlatReady(inst: LinkedInst, f: Addr -> index, g: Decls -> index)
    requires InstReady(inst)
    ensures InstOk(FlatOf(inst, f, g))
  {
    hide TypeOf;
  }

  lemma {:induction false} FlattenOk(code: Memory, path: seq<Addr>, i: nat, f: Addr -> index, g: Decls -> index, all: set<Decls>)
    requires i < |path| && CodeReady(code, path, all)
    ensures forall inst | inst in Flatten(code, path, i, f, g) :: InstOk(inst)
    decreases |path| - i
  {
    hide InstOk, InstReady, FlatOf;
    if i < |path| - 1 {
      FlattenOk(code, path, i + 1, f, g, all);
      if Starts(code, path, i) {
        FlatReady(code[path[i]].inst, f, g);
      }
    }
  }

  lemma InstsCons(line: uint32, x: FlatInst, more: seq<FlatInst>)
    requires InstOk(x) && forall i | i in more :: InstOk(i)
    ensures PutInsts(line, [x] + more) == PutInst(line, x, PutInsts(x.line, more))
    ensures Constants([x] + more) == x.ops.Constants() + Constants(more)
  {
    hide InstOk, PutInst;
    assert ([x] + more)[1..] == more;
  }

  method EmitCode(buffer: Bytes, code: Memory, entry: Addr, halt: Addr, line0: uint32, marks: Marks, labels: Labels, table: Table,
                  ghost path: seq<Addr>, ghost all: set<Decls>)
    returns (buffer': Bytes, values: seq<Val>)
    requires IsWalk(code, path, halt) && |path| > 0 && path[0] == entry && CodeReady(code, path, all)
    requires forall inst | inst in Flatten(code, path, 0, Targeter(marks, labels), Indexer(table)) :: InstOk(inst)
    ensures buffer' == buffer + PutInsts(line0, Flatten(code, path, 0, Targeter(marks, labels), Indexer(table)))
    ensures values == Constants(Flatten(code, path, 0, Targeter(marks, labels), Indexer(table)))
  {
    hide IsWalk, CodeReady, InstReady, InstOk, FlatOf, Targeter, Indexer, PutInst, PutInsts, Constants, Flatten;
    ghost var f, g := Targeter(marks, labels), Indexer(table);
    ghost var insts := Flatten(code, path, 0, f, g);
    var inst, line := entry, line0;
    buffer', values := buffer, [];
    ghost var i: nat := 0;
    while inst != halt
      invariant i < |path| && inst == path[i]
      invariant forall x | x in Flatten(code, path, i, f, g) :: InstOk(x)
      invariant buffer' + PutInsts(line, Flatten(code, path, i, f, g)) == buffer + PutInsts(line0, insts)
      invariant values + Constants(Flatten(code, path, i, f, g)) == Constants(insts)
      decreases |path| - i
    {
      WalkGoesOn(code, path, halt, i);
      StepOfWalk(code, path, halt, i);
      FlattenNext(code, path, i, f, g);
      match code[inst] {
        case Link(_, target) =>
          assert [] + Flatten(code, path, i + 1, f, g) == Flatten(code, path, i + 1, f, g);
          inst := target;
        case Code(here) =>
          ReadyAt(code, path, all, i);
          ghost var x, more := FlatOf(here, f, g), Flatten(code, path, i + 1, f, g);
          FlattenOk(code, path, i + 1, f, g, all);
          FlatReady(here, f, g);
          InstsCons(line, x, more);
          buffer', values := EmitInst(buffer', values, line, here, marks, labels, table, x, PutInsts(x.line, more));
          line := here.line;
          inst := inst + here.ops.Cells();
      }
      i := i + 1;
    }
    LastOfWalk(code, path, halt, i);
    NothingLeft(code, path, f, g, line);
  }

  lemma NothingLeft(code: Memory, path: seq<Addr>, f: Addr -> index, g: Decls -> index, line: uint32)
    requires |path| > 0
    ensures PutInsts(line, Flatten(code, path, |path| - 1, f, g)) == []
    ensures Constants(Flatten(code, path, |path| - 1, f, g)) == []
  {
  }

  // ---------------------------------------------------------------- the labels are right

  /** Looking up the label of a target gives its offset if it is visited, otherwise 0. */
  lemma LabelsFindOffsets(code: Memory, path: seq<Addr>, halt: Addr, marks: Marks, count: nat, labels: Labels, t: Addr)
    requires IsWalk(code, path, halt) && Off(code, path, |path| - 1) < 0x8000_0000
    requires MarksOk(marks, count) && LabelsOk(code, path, |path| - 1, marks, labels) && t in marks
    ensures OffsetFor(marks, labels, t) == TargetOf(code, path)(t)
  {
    hide Off;
    if t in path[..|path| - 1] {
      var k: nat :| k < |path| - 1 && path[k] == t;
      IndexUnique(code, path, halt, k);
      OffsetsFit(code, path, k);
    }
  }

  lemma SameFlat(inst: LinkedInst, f: Addr -> index, f': Addr -> index, g: Decls -> index)
    requires forall t | t in inst.ops.Targets() :: f(t) == f'(t)
    ensures FlatOf(inst, f, g) == FlatOf(inst, f', g)
  {
    match inst.ops
    case Switch(ts) =>
      assert Mapped(inst.ops, f, g).targets == Mapped(inst.ops, f', g).targets;
    case _ =>
  }

  lemma {:induction false} SameFlatten(code: Memory, path: seq<Addr>, i: nat, f: Addr -> index, f': Addr -> index, g: Decls -> index)
    requires i < |path|
    requires forall k | Starts(code, path, k) :: forall t | t in code[path[k]].inst.ops.Targets() :: f(t) == f'(t)
    ensures Flatten(code, path, i, f, g) == Flatten(code, path, i, f', g)
    decreases |path| - i
  {
    hide FlatOf;
    if i < |path| - 1 {
      SameFlatten(code, path, i + 1, f, f', g);
      if Starts(code, path, i) {
        SameFlat(code[path[i]].inst, f, f', g);
      }
    }
  }

  lemma SameCode(code: Memory, path: seq<Addr>, halt: Addr, marks: Marks, count: nat, labels: Labels, g: Decls -> index)
    requires IsWalk(code, path, halt) && |path| > 0 && Off(code, path, |path| - 1) < 0x8000_0000
    requires MarksOk(marks, count) && MarkedUpTo(code, path, |path| - 1, marks)
    requires LabelsOk(code, path, |path| - 1, marks, labels)
    ensures Flatten(code, path, 0, Targeter(marks, labels), g) == Flatten(code, path, 0, TargetOf(code, path), g)
  {
    hide IsWalk, Off, MarksOk, LabelsOk, OffsetFor, TargetOf, Flatten;
    var f, f' := Targeter(marks, labels), TargetOf(code, path);
    forall k | Starts(code, path, k)
      ensures forall t | t in code[path[k]].inst.ops.Targets() :: f(t) == f'(t)
    {
      forall t | t in code[path[k]].inst.ops.Targets() ensures f(t) == f'(t) {
        LabelsFindOffsets(code, path, halt, marks, count, labels, t);
      }
    }
    SameFlatten(code, path, 0, f, f', g);
  }

  // ---------------------------------------------------------------- the whole closure

  method EmitHeader(h: Header, ghost rest: Bytes) returns (buffer: Bytes)
    requires HeaderOk(h)
    ensures buffer + rest == PutHeader(h, rest)
  {
    hide PutNum, PutString, PutStrings;
    ghost var b8 := PutStrings(h.params, rest);
    ghost var b7 := PutNum(h.flags, b8);
    ghost var b6 := PutNum(h.numUpValues, b7);
    ghost var b5 := PutNum(|h.params|, b6);
    ghost var b4 := PutNum(h.frameSize, b5);
    ghost var b3 := PutNum(h.startLine, b4);
    ghost var b2 := PutString(h.source, b3);
    ghost var b1 := PutString(h.name, b2);
    buffer := EmitNum([], VERSION, b1);
    buffer := EmitString(buffer, h.name, b2);
    buffer := EmitString(buffer, h.source, b3);
    buffer := EmitNum(buffer, h.startLine, b4);
    buffer := EmitNum(buffer, h.frameSize, b5);
    buffer := EmitNum(buffer, |h.params|, b6);
    buffer := EmitNum(buffer, h.numUpValues, b7);
    buffer := EmitNum(buffer, h.flags, b8);
    assert buffer + b8 == [] + PutHeader(h, rest) == PutHeader(h, rest);
    buffer := EmitStrings(buffer, h.params, rest);
  }

  method EmitStrings(buffer: Bytes, ss: seq<Bytes>, ghost rest: Bytes) returns (buffer': Bytes)
    requires forall s | s in ss :: |s| < 0x8000_0000
    ensures buffer' + rest == buffer + PutStrings(ss, rest)
  {
    hide PutString;
    buffer' := buffer;
    for i := 0 to |ss|
      invariant buffer' + PutStrings(ss[i..], rest) == buffer + PutStrings(ss, rest)
    {
      assert ss[i..][1..] == ss[i + 1..];
      buffer' := EmitString(buffer', ss[i], PutStrings(ss[i + 1..], rest));
    }
  }

  /** The numbers and the declarations between the header and the instructions. */
  method EmitMiddle(buffer: Bytes, declBytes: Bytes, numDecls: int32, scope: int32, size: index, ret: index, delta: uint32,
                    ghost records: seq<DeclRecord>, ghost rest: Bytes)
    returns (buffer': Bytes)
    requires RecordsOk(records) && declBytes == PutRecords(records, []) && numDecls == |records|
    ensures buffer' + rest == buffer + Middle(records, scope, size, ret, delta, rest)
  {
    hide PutNum, PutRecords, RecordOk;
    ghost var b6 := PutNum(delta, rest);
    ghost var b5 := PutNum(ret, b6);
    ghost var b4 := PutNum(size, b5);
    ghost var b3 := PutNum(scope, b4);
    buffer' := EmitNum(buffer, numDecls, PutRecords(records, b3));
    assert [] + b3 == b3;
    RecordsPrefix(records, [], b3);
    assert (buffer' + declBytes) + b3 == buffer' + (declBytes + b3);
    buffer' := buffer' + declBytes;
    buffer' := EmitNum(buffer', scope, b4);
    buffer' := EmitNum(buffer', size, b5);
    buffer' := EmitNum(buffer', ret, b6);
    buffer' := EmitNum(buffer', delta, rest);
  }

  function Middle(records: seq<DeclRecord>, scope: int32, size: index, ret: index, delta: uint32, rest: Bytes): Bytes
    requires |records| < 0x8000_0000 && forall d | d in records :: RecordOk(d)
  {
    PutNum(|records|, PutRecords(records, PutNum(scope, PutNum(size, PutNum(ret, PutNum(delta, rest))))))
  }

  lemma ReturnFits(code: Memory, path: seq<Addr>, i: nat, ret: Addr)
    requires i < |path| && Off(code, path, |path| - 1) < 0x8000_0000
    ensures ReturnUpTo(code, path, i, ret) < 0x8000_0000
  {
    if i > 0 {
      ReturnFits(code, path, i - 1, ret);
      OffsetsFit(code, path, i - 1);
    }
  }

  /** The table stands for the declarations of the closure, and the bytes and constants are those of its
      flat form. */
  ghost predicate SerialisedAs(c: Closure, path: seq<Addr>, bytes: Bytes, values: seq<Val>, table: Table, records: seq<DeclRecord>) {
    && |path| > 0 && c.entry in c.code && Off(c.code, path, |path| - 1) < 0x8000_0000
    && ReturnUpTo(c.code, path, |path| - 1, c.ret) < 0x8000_0000
    && TableOk(table, records) && TabledUpTo(c.code, path, |path| - 1, table)
    && (c.decls.Scope? ==> c.decls in table)
    && var flat := FlatFor(c, path, table, records);
       FlatOk(flat) && bytes == PutClosure(flat) && values == Constants(flat.insts)
  }

  /** `ml_cbor_write` for a closure: the byte string and the list of constants are those of the flat
      closure, in which every target that is visited is written as its offset. */
  method Serialise(c: Closure, ghost path: seq<Addr>, ghost all: set<Decls>)
    returns (bytes: Bytes, values: seq<Val>, ghost table: Table, ghost records: seq<DeclRecord>)
    requires Ready(c, path, all)
    ensures SerialisedAs(c, path, bytes, values, table, records)
  {
    hide IsWalk, CodeReady, DeclsReady, MarksOk, MarkedUpTo, LabelsOk, TabledUpTo, TableOk, Off, ReturnUpTo, TargetSet,
         HeaderOk, InstOk, PutHeader, PutInsts, PutRecords, Flatten, Constants, Cells, Targeter, TargetOf, Middle, RecordOk,
         LineDelta, LineOf, PutNum;
    WalkNonEmpty(c.code, path, c.halt);
    ReturnFits(c.code, path, |path| - 1, c.ret);
    var header := c.header.(flags := c.header.flags % 4);
    var line := LineOf(c.code[c.entry]);
    var delta := LineDelta(line, header.startLine % LINES);
    var marks; ghost var count;
    marks, count := FindLabels(c.code, c.entry, c.halt, path);
    var labels, size, ret, scope, declBytes, numbered;
    labels, size, ret, scope, declBytes, numbered, records := Survey(c.code, c.entry, c.ret, c.halt, marks, c.decls, path, count, all);
    table := numbered;
    SmallTable(numbered, records, all);
    ghost var flat := FlatFor(c, path, table, records);
    SameCode(c.code, path, c.halt, marks, count, labels, Indexer(table));
    FlattenOk(c.code, path, 0, TargetOf(c.code, path), Indexer(table), all);
    FlattenCells(c.code, path, 0, TargetOf(c.code, path), Indexer(table));
    OffStart(c.code, path);
    assert FlatOk(flat);
    ghost var code := PutInsts(line, flat.insts);
    ghost var middle := Middle(records, scope, size, ret, delta, code);
    bytes := EmitHeader(header, middle);
    bytes := EmitMiddle(bytes, declBytes, |numbered|, scope, size, ret, delta, records, code);
    ClosureParts(flat, delta, code, middle);
    bytes, values := EmitCode(bytes, c.code, c.entry, c.halt, line, marks, labels, numbered, path, all);
  }

  lemma WalkNonEmpty(code: Memory, path: seq<Addr>, halt: Addr)
    requires IsWalk(code, path, halt)
    ensures |path| > 0
  {
  }

  lemma SmallTable(table: Table, records: seq<DeclRecord>, all: set<Decls>)
    requires TableOk(table, records) && table.Keys <= all && DeclsReady(all)
    ensures |table| == |records| < 0x8000_0000
  {
    Finite.SubsetSmaller(table.Keys, all);
    assert |table.Keys| == |table|;
  }

  lemma ClosureParts(f: Flat, delta: uint32, code: Bytes, middle: Bytes)
    requires FlatOk(f) && delta == LineDelta(f.line, f.header.startLine % LINES) && code == PutInsts(f.line, f.insts)
    requires f.size >= 0 && middle == Middle(f.decls, f.scope, f.size, f.ret, delta, code)
    ensures PutClosure(f) == PutHeader(f.header, middle)
  {
  }
}
