/** Which instruction of the frame runner an opcode with its operands is (src/ml_bytecode.c,
    src/ml_opcodes.h). */
module BytecodeDispatch {
  import opened BytecodeFormat
  import opened BytecodeStream
  import M = FrameMachine
  import W = FrameCells

  /** What the constants of a closure are, how many upvalues a closure takes, and under which number the
      machine knows an instruction that it does not spell out. */
  datatype Images = Images(value: Val -> M.Ordinary, upvalues: Val -> nat, number: (nat, FlatOps) -> nat)

  /** `Leaves`: the frame is suspended or gives way to the callee of a tail call; the number counts the cells
      that are read. `Unchecked`: a count that the C code does not check. `Misfit`: the dispatch reads
      operands that are not there. */
  datatype Dispatch = Runs(inst: M.Inst) | Leaves(cells: nat) | Unchecked | Misfit

  function AtLeast0(count: int): nat {
    if count < 0 then 0 else count
  }

  /** The labels of the dispatch table, operand layout by operand layout. */
  function DispatchOf(c: Images, i: FlatInst): Dispatch {
    var n := c.number(i.opcode, i.ops);
    match i.ops
    case None => Plain(i.opcode, n)
    case Inst(t) => Jump(i.opcode, t)
    case InstConfig(t, _) => if i.opcode == 15 then Runs(M.Prim(n, [t], 3)) else Misfit
    case InstCount(t, count) => if i.opcode == 1 then Runs(M.AndPop(t, AtLeast0(count))) else Misfit
    case InstCountDecl(t, count, _) => Handler(i.opcode, t, count)
    case CountCount(_, _) => if i.opcode in {20, 44, 66} then Runs(M.Prim(n, [], 3)) else Misfit
    case Count(count) => Counted(i.opcode, count, n)
    case Value(v) => Constant(i.opcode, c.value(v))
    case ValueCount(v, count) => ConstantCall(i.opcode, c.value(v), count, n)
    case ValueCountData(v, count) => MethodCall(i.opcode, c.value(v), count)
    case CountChars(_) => if i.opcode == 50 then Runs(M.Prim(n, [], 3)) else Misfit
    case Decl(_) => if i.opcode == 68 then Runs(M.With) else Misfit
    case CountDecl(count, _) => if i.opcode == 12 then Runs(M.Exit(AtLeast0(count)))
                                else if i.opcode in {28, 69} then Runs(M.Prim(n, [], 3))
                                else Misfit
    case CountCountDecl(_, _, _) => if i.opcode == 11 then Runs(M.Prim(n, [], 4)) else Misfit
    case Closure(v, _) => if i.opcode in {9, 10} then Runs(M.Prim(n, [], 2 + c.upvalues(v))) else Misfit
    case Switch(ts) => if i.opcode == 56 then Runs(M.Switch(ts)) else Misfit
  }

  function Plain(op: nat, n: nat): Dispatch {
    match op
    case 2 => Runs(M.Assign)
    case 13 => Runs(M.For)
    case 17 => Runs(M.IterKey)
    case 33 => Runs(M.LoadNil)
    case 34 => Runs(M.NilPush)
    case 35 => Runs(M.Not)
    case 40 => Runs(M.Pop)
    case 41 => Runs(M.Push)
    case 47 => Runs(M.Retry)
    case 48 => Runs(M.Return)
    case 51 => Runs(M.StringAddOne)
    case 55 => Leaves(1)
    case 63 => Runs(M.IterValue(1))
    case 64 => Runs(M.IterValue(2))
    case _ => if op in {22, 23, 30, 31, 46, 52, 53, 54} then Runs(M.Prim(n, [], 1)) else Misfit
  }

  function Jump(op: nat, t: index): Dispatch {
    match op
    case 0 => Runs(M.And(t))
    case 14 => Runs(M.Goto(t))
    case 16 => Runs(M.Iter(t))
    case 21 => Runs(M.Link(t))
    case 32 => Runs(M.IterNext(t))
    case 36 => Runs(M.Or(t))
    case 60 => Runs(M.Try(t))
    case _ => Misfit
  }

  function Handler(op: nat, t: index, count: int32): Dispatch {
    if op !in {7, 8} then Misfit
    else if count < 0 then Unchecked
    else if op == 7 then Runs(M.Catch(t, count))
    else Runs(M.CatchX(t, count))
  }

  /** Locals are counted downwards from the top of the stack. */
  function Counted(op: nat, count: int, n: nat): Dispatch {
    match op
    case 3 => if count < 0 then Runs(M.AssignLocal(-count)) else Unchecked
    case 4 => if count < 0 then Unchecked else Runs(M.Call(count))
    case 27 => if count < 0 then Runs(M.Local(-count)) else Unchecked
    case 29 => if count < 0 then Runs(M.LocalPush(-count)) else Unchecked
    case 49 => if count < 0 then Unchecked else Runs(M.StringAdd(count))
    case 57 => if count < 0 then Unchecked else Leaves(2)
    case _ => if op in {18, 19, 37, 38, 39, 42, 43, 61, 62, 65, 67} then Runs(M.Prim(n, [], 2)) else Misfit
  }

  function Constant(op: nat, v: M.Ordinary): Dispatch {
    match op
    case 24 => Runs(M.Load(v))
    case 25 => Runs(M.LoadPush(v))
    case 45 => Runs(M.Resolve(v))
    case _ => Misfit
  }

  function ConstantCall(op: nat, v: M.Ordinary, count: int32, n: nat): Dispatch {
    match op
    case 5 => if count < 0 then Unchecked else Runs(M.CallConst(v, count))
    case 26 => Runs(M.Prim(n, [], 3))
    case 58 => if count < 0 then Unchecked else Leaves(3)
    case _ => Misfit
  }

  function MethodCall(op: nat, v: M.Ordinary, count: int32): Dispatch {
    if op !in {6, 59} then Misfit
    else if count < 0 then Unchecked
    else if op == 6 then Runs(M.CallMethod(v, count))
    else Leaves(4)
  }

  // ---------------------------------------------------------------- operands and dispatch

  /** The dispatch finds the operands it reads exactly when the layout is that of the opcode. */
  lemma FitsExactly(c: Images, i: FlatInst)
    requires i.opcode != LINK
    ensures DispatchOf(c, i).Misfit? <==> !WellTyped(i)
  {
  }

  /** A closure instruction has as many upvalue operands as its closure takes. */
  predicate ClosureFits(c: Images, i: FlatInst) {
    i.ops.Closure? ==> |i.ops.upvalues| == c.upvalues(i.ops.value)
  }

  /** The operands of an instruction take the cells that the machine knows, and name the same addresses. */
  ghost predicate SameShape(i: FlatInst, inst: M.Inst) {
    && W.Width(inst) == i.ops.Cells() && W.Targets(inst) == i.ops.Targets()
    && (inst.Retry? <==> i.opcode == 47) && (inst.Return? <==> i.opcode == 48) && (inst.Link? <==> i.opcode == LINK)
  }

  lemma PlainFits(c: Images, i: FlatInst)
    requires i.ops.None? && DispatchOf(c, i).Runs?
    ensures SameShape(i, DispatchOf(c, i).inst)
  {
  }

  lemma JumpFits(c: Images, i: FlatInst)
    requires i.ops.Inst? || i.ops.InstConfig? || i.ops.InstCount? || i.ops.InstCountDecl? || i.ops.Switch?
    requires DispatchOf(c, i).Runs?
    ensures SameShape(i, DispatchOf(c, i).inst)
  {
  }

  lemma ValueFits(c: Images, i: FlatInst)
    requires i.ops.Value? || i.ops.ValueCount? || i.ops.ValueCountData? || i.ops.Closure?
    requires DispatchOf(c, i).Runs? && ClosureFits(c, i)
    ensures SameShape(i, DispatchOf(c, i).inst)
  {
  }

  lemma CountFits(c: Images, i: FlatInst)
    requires i.ops.Count? || i.ops.CountCount? || i.ops.CountChars? || i.ops.CountDecl? || i.ops.CountCountDecl? || i.ops.Decl?
    requires DispatchOf(c, i).Runs?
    ensures SameShape(i, DispatchOf(c, i).inst)
  {
  }

  lemma Fits(c: Images, i: FlatInst)
    requires DispatchOf(c, i).Runs? && ClosureFits(c, i)
    ensures SameShape(i, DispatchOf(c, i).inst)
  {
    hide DispatchOf, SameShape, ClosureFits;
    match i.ops
    case None => PlainFits(c, i);
    case Inst(_) | InstConfig(_, _) | InstCount(_, _) | InstCountDecl(_, _, _) | Switch(_) => JumpFits(c, i);
    case Value(_) | ValueCount(_, _) | ValueCountData(_, _) | Closure(_, _) => ValueFits(c, i);
    case _ => CountFits(c, i);
  }

  /** Where a step of an instruction leads: behind it, to one of its targets, or to a handler. */
  ghost predicate Lands<H>(i: FlatInst, c: M.Core<H>, out: M.Out<H>) {
    var next, targets := c.inst + i.ops.Cells(), i.ops.Targets();
    match out
    case Silent(_) => i.opcode == LINK
    case Next(d) => (d.inst == next || d.inst in targets || (i.opcode == 47 && d.inst == c.onError))
                    && (d.onError == c.onError || d.onError in targets)
    case Catching(_, d) => d.inst == next && d.onError in targets
    case Raise(d) => d.inst == d.onError && (d.onError == c.onError || d.onError in targets)
    case Calling(_, d) => (if targets == [] then d.inst == next else d.inst in targets) && d.onError == c.onError
    case Returned(_) => i.opcode == 48
    case Crash => true
  }

  /** Whatever the state of the frame, an instruction goes on behind its cells, at one of its targets or at the
      handler. */
  lemma StepLands<H>(c: Images, i: FlatInst, code: M.Code, prim: M.Prims<H>, core: M.Core<H>)
    requires DispatchOf(c, i).Runs? && ClosureFits(c, i)
    requires core.inst in code && code[core.inst] == DispatchOf(c, i).inst
    ensures Lands(i, core, M.Step(code, prim, core))
  {
    hide DispatchOf, M.Step, ClosureFits;
    Fits(c, i);
    W.StepOnward(code, prim, core);
    if M.Step(code, prim, core).Calling? && !code[core.inst].IterNext? {
      CallingTargets(code, prim, core);
    }
  }

  /** Of the instructions that leave the frame only NEXT names an address. */
  lemma CallingTargets<H>(code: M.Code, prim: M.Prims<H>, core: M.Core<H>)
    requires core.inst in code && M.Step(code, prim, core).Calling? && !code[core.inst].IterNext?
    ensures W.Targets(code[core.inst]) == []
  {
    hide M.OutStep, M.Dropped;
  }

  lemma LeavesBehind(c: Images, i: FlatInst)
    requires DispatchOf(c, i).Leaves?
    ensures DispatchOf(c, i).cells == i.ops.Cells()
  {
  }

  // ---------------------------------------------------------------- decoded code

  /** The instructions fit their opcodes and fill the first `pos` cells one behind the other. */
  ghost predicate Filled(code: FlatCode, pos: nat) {
    forall a | a in code :: WellTyped(code[a]) && a < pos
      && (a + code[a].ops.Cells() == pos || a + code[a].ops.Cells() in code)
  }

  lemma ItemTyped(line: uint32, bytes: Bytes, values: seq<Val>, configs: set<Bytes>)
    ensures var r := NextItem(line, bytes, values, configs); r.Success? && r.value.Op? ==> WellTyped(r.value.inst)
  {
    hide NextCount, NextNum, NextOps, TypeOf;
  }

  /** Decoded code holds nothing but instructions that dispatch: each fits its opcode, and where it ends the
      next one starts, or the code is over. */
  lemma {:induction false} DecodedFilled(pos: nat, size: int32, line: uint32, bytes: Bytes, values: seq<Val>,
                                         configs: set<Bytes>,
                                         code: FlatCode)
    requires Filled(code, pos)
    ensures var r := ReadInsts(pos, size, line, bytes, values, configs, code);
            r.Success? ==> Filled(r.value, if pos < size then size else pos)
    decreases |bytes|
  {
    hide NextItem, WellTyped;
    if pos < size {
      var item := NextItem(line, bytes, values, configs);
      ItemTyped(line, bytes, values, configs);
      if item.Success? {
        match item.value
        case Line(newLine, rest) => DecodedFilled(pos, size, newLine, rest, values, configs, code);
        case Op(inst, rest, vs) =>
          var next := pos + inst.ops.Cells();
          if next <= size {
            FilledOn(code, pos, inst);
            DecodedFilled(next, size, line, rest, vs, configs, code[pos := inst]);
          }
      }
    }
  }

  lemma FilledOn(code: FlatCode, pos: nat, inst: FlatInst)
    requires Filled(code, pos) && WellTyped(inst)
    ensures Filled(code[pos := inst], pos + inst.ops.Cells())
  {
    hide WellTyped;
  }

  lemma ClosureFilled(bytes: Bytes, values: seq<Val>, configs: set<Bytes>)
    requires ReadClosure(bytes, values, configs).Success?
    ensures var d := ReadClosure(bytes, values, configs).value; Filled(d.code, if 0 < d.size then d.size else 0)
  {
    hide NextHeader, NextCount, NextRecords, NextIndex, NextNum, ReadInsts, Filled;
    var header := NextHeader(bytes).value;
    var numDecls := NextCount(header.1).value;
    var decls := NextRecords(numDecls.1, if numDecls.0 < 0 then 0 else numDecls.0).value;
    var scope := NextCount(decls.1).value;
    var size := NextCount(scope.1).value;
    var ret := NextIndex(size.1).value;
    var delta := NextNum(ret.1).value;
    NothingFilled();
    DecodedFilled(0, size.0, (header.0.startLine + delta.0) % LINES, delta.1, values, configs, map[]);
  }

  lemma NothingFilled()
    ensures Filled(map[], 0)
  {
  }

  /** A decoded closure: every instruction dispatches with exactly its operands, and every step of it leads to
      the instruction behind it, to a target or to the handler. */
  lemma DecodedLands<H>(c: Images, bytes: Bytes, values: seq<Val>, configs: set<Bytes>, code: M.Code, prim: M.Prims<H>,
                        core: M.Core<H>)
    requires var r := ReadClosure(bytes, values, configs);
             r.Success? && core.inst in r.value.code && ClosureFits(c, r.value.code[core.inst])
    requires var i := ReadClosure(bytes, values, configs).value.code[core.inst];
             DispatchOf(c, i).Runs? ==> core.inst in code && code[core.inst] == DispatchOf(c, i).inst
    ensures var d := ReadClosure(bytes, values, configs).value;
            var i := d.code[core.inst];
            && !DispatchOf(c, i).Misfit?
            && (core.inst + i.ops.Cells() == d.size || core.inst + i.ops.Cells() in d.code)
            && (DispatchOf(c, i).Runs? ==> Lands(i, core, M.Step(code, prim, core)))
  {
    hide ReadClosure, DispatchOf, Lands, M.Step, ClosureFits, TypeOf;
    var i := ReadClosure(bytes, values, configs).value.code[core.inst];
    ClosureFilled(bytes, values, configs);
    FitsExactly(c, i);
    if DispatchOf(c, i).Runs? {
      StepLands(c, i, code, prim, core);
    }
  }
}
