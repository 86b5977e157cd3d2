/** The code of a function, written as bytes and read back, still computes the value of its body
    (src/ml_compiler.c, src/ml_bytecode.c). */
module ExpressionBytes {
  import M = FrameMachine
  import W = FrameCells
  import opened BytecodeFormat
  import opened BytecodeStream
  import opened BytecodeDispatch
  import E = Expressions
  import C = ExpressionCode
  import R = ExpressionRun
  import X = ExpressionCorrect
  import P = ExpressionProgram

  /** The instruction with its operands is `inst` in the dispatch of the frame runner. */
  ghost predicate Means(c: Images, i: FlatInst, inst: M.Inst) {
    InstOk(i) && ClosureFits(c, i) && DispatchOf(c, i) == Runs(inst)
  }

  ghost predicate Assembled(c: Images, insts: seq<FlatInst>, program: seq<M.Inst>) {
    && |insts| == |program| && (forall i | i in insts :: InstOk(i))
    && forall j | 0 <= j < |insts| :: Means(c, insts[j], program[j])
  }

  /** The frame runner finds the decoded instructions at their offsets. */
  ghost predicate Loads(c: Images, flat: FlatCode, code: M.Code) {
    forall a | a in flat :: DispatchOf(c, flat[a]).Runs? ==> a in code && code[a] == DispatchOf(c, flat[a]).inst
  }

  /** The compiler reserves as many cells as the decoder counts. */
  lemma WidthIsCells(c: Images, i: FlatInst, inst: M.Inst)
    requires Means(c, i, inst)
    ensures W.Width(inst) == i.ops.Cells()
  {
    hide DispatchOf, W.Width;
    Fits(c, i);
  }

  lemma {:induction false} LayoutKeeps(insts: seq<FlatInst>, pos: nat, code: FlatCode, a: nat)
    requires a in code && a < pos
    ensures a in Layout(insts, pos, code) && Layout(insts, pos, code)[a] == code[a]
    decreases |insts|
  {
    if insts != [] {
      LayoutKeeps(insts[1..], pos + insts[0].ops.Cells(), code[pos := insts[0]], a);
    }
  }

  lemma {:induction false} LayoutLaid(c: Images, insts: seq<FlatInst>, program: seq<M.Inst>, pos: nat, flat: FlatCode,
                                      code: M.Code)
    requires Assembled(c, insts, program) && Loads(c, Layout(insts, pos, flat), code)
    ensures R.Laid(code, pos, program)
    decreases |insts|
  {
    hide DispatchOf, InstOk, ClosureFits, W.Width;
    if insts != [] {
      var i, next := insts[0], pos + insts[0].ops.Cells();
      assert Means(c, i, program[0]);
      WidthIsCells(c, i, program[0]);
      LayoutKeeps(insts[1..], next, flat[pos := i], pos);
      assert Assembled(c, insts[1..], program[1..]) by {
        forall j | 0 <= j < |insts[1..]| ensures Means(c, insts[1..][j], program[1..][j]) {
          assert Means(c, insts[j + 1], program[j + 1]);
        }
      }
      LayoutLaid(c, insts[1..], program[1..], next, flat[pos := i], code);
    }
  }

  /** A function is compiled, its instructions are written as bytes and constants, and these are read back:
      that succeeds, and a frame that runs the result ends exactly with what the body evaluates to. */
  lemma BytesCompute<H(!new)>(k: R.Kit<H>, c: Images, e: E.Expr, names: map<string, nat>, env: E.Env, args: seq<M.Value>,
                              r: M.Value, m: E.Memory<H>, v: M.Value, insts: seq<FlatInst>, line: uint32,
                                configs: set<Bytes>)
    requires Assembled(c, insts, P.FunctionCode(e, 0, names, |args|))
    requires Configured(insts, configs) && Cells(insts) < 0x8000_0000
    requires E.Scoped(e, env.Keys) && X.Agrees(C.Scope(|args|, names, C.Size(e)), env, args) && X.Builds(k)
    ensures var read := ReadInsts(0, Cells(insts), line, PutInsts(line, insts), Constants(insts), configs, map[]);
            && read.Success?
            && (Loads(c, read.value, k.code) ==>
                  (P.Ends(k, R.Here(0, args, C.Size(e), r, m), v) <==>
                   exists fuel: nat :: P.Answers(E.Eval(k.world, e, env, m, fuel), v)))
  {
    hide ReadInsts, PutInsts, Loads, Means, Cells, E.Eval, C.Size, X.Builds, X.Agrees, E.Scoped, InstOk, P.FunctionCode,
         P.Answers, P.Ends;
    InstsBack(0, Cells(insts), line, insts, configs, map[]);
    var flat := Layout(insts, 0, map[]);
    if Loads(c, flat, k.code) {
      LayoutLaid(c, insts, P.FunctionCode(e, 0, names, |args|), 0, map[], k.code);
      P.ProgramExactly(k, e, 0, names, env, args, r, m, v);
    }
  }
}
