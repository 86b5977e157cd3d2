/** The code of an expression computes its value: a run from its first instruction ends behind it with the
    value in Result, the stack and the handler as they were, or at the handler with the error
    (src/ml_compiler.c, src/ml_bytecode.c). */
module ExpressionCorrect {
  import opened FrameMachine
  import opened FrameCells
  import opened Expressions
  import opened ExpressionCode
  import opened ExpressionRun
  import opened ExpressionLayout

  /** Every local is on the stack where the compiler thinks it is. */
  ghost predicate Agrees(s: Scope, env: Env, stack: seq<Value>) {
    && |stack| == s.top && env.Keys == s.names.Keys
    && forall x | x in env :: s.names[x] < s.top && stack[s.names[x]] == env[x]
  }

  /** The instructions for strings treat the buffer on top of the stack as the world says. */
  ghost predicate Builds<H(!new)>(k: Kit<H>) {
    forall r: Value, stack: seq<Value>, heap: H :: BuildsAt(k, r, stack, heap)
  }

  ghost predicate BuildsAt<H>(k: Kit<H>, r: Value, stack: seq<Value>, heap: H) {
    var strings := k.world.strings;
    && k.prim(STRING_NEW, r, stack, heap).Fine? && Makes(k.prim(STRING_NEW, r, stack, heap), strings.make(heap))
    && (stack != [] ==>
          var buffer := stack[|stack| - 1];
          && Takes(k.prim(STRING_POP, r, stack, heap), strings.finish(buffer, heap))
          && Ends(k.prim(STRING_END, r, stack, heap), strings.finish(buffer, heap))
          && forall chars: nat :: Adds(k.prim(AddsText(chars), r, stack, heap), strings.add(chars, buffer, heap)))
  }

  ghost predicate Makes<H>(out: PrimOut<H>, made: (Ordinary, H)) {
    out.Fine? && out.pops == 0 && out.pushes == [made.0] && out.heap == made.1
  }

  ghost predicate Adds<H>(out: PrimOut<H>, heap: H) {
    out.Fine? && out.pops == 0 && out.pushes == [] && out.heap == heap
  }

  ghost predicate Takes<H>(out: PrimOut<H>, made: (Ordinary, H)) {
    out.Fine? && out.result == made.0 && out.pops == 1 && out.pushes == [] && out.heap == made.1
  }

  ghost predicate Ends<H>(out: PrimOut<H>, made: (Ordinary, H)) {
    out.Fine? && out.pops == 1 && out.pushes == [made.0] && out.heap == made.1
  }

  lemma AgreesUp(s: Scope, env: Env, stack: seq<Value>, v: Value)
    requires Agrees(s, env, stack)
    ensures Agrees(s.Up(), env, stack + [v])
  {
  }

  lemma AgreesBind(s: Scope, env: Env, stack: seq<Value>, x: string, v: Ordinary)
    requires Agrees(s, env, stack)
    ensures Agrees(s.Bind(x), env[x := v], stack + [v])
  {
  }

  lemma AgreesOld(s: Scope, env: Env, stack: seq<Value>, x: string)
    requires Agrees(s, env, stack) && x in env
    ensures Agrees(OldScope(x, s), env[OLD := env[x]], stack)
  {
  }

  lemma LocalAt(s: Scope, env: Env, stack: seq<Value>, x: string)
    requires Agrees(s, env, stack) && x in env
    ensures 0 < s.Depth(x) <= |stack| && stack[|stack| - s.Depth(x)] == env[x]
  {
  }

  /** The code is in place, and the compiler accepts the expression. */
  ghost predicate Ready<H(!new)>(k: Kit<H>, e: Expr, a: Addr, s: Scope, env: Env, stack: seq<Value>) {
    Laid(k.code, a, Compile(e, a, s)) && Scoped(e, env.Keys) && Agrees(s, env, stack) && Builds(k)
  }

  ghost predicate Right<H>(k: Kit<H>, e: Expr, a: Addr, s: Scope, env: Env, stack: seq<Value>, r: Value, m: Memory<H>,
                           fuel: nat) {
    Does(k, Here(a, stack, s.onError, r, m), Eval(k.world, e, env, m, fuel), a + Size(e), stack, s.onError, fuel)
  }

  lemma FailsAt<H>(k: Kit<H>, s0: State<H>, stack: seq<Value>, h: Addr, id: nat, kind: nat, m: Memory<H>, exit: Addr,
                   fuel: nat)
    requires Leads(k, s0, Here(h, stack, h, Error(id, kind), m))
    ensures Does(k, s0, Failed(id, kind, m), exit, stack, h, fuel)
  {
    assert stack + [] == stack;
    assert Leads(k, s0, Here(h, stack + [], h, Error(id, kind), m));
  }

  lemma EvalOf<H>(w: World<H>, e: Expr, env: Env, m: Memory<H>, fuel: nat)
    ensures e.Negation? ==> Eval(w, e, env, m, fuel) == EvalNegation(w, e, env, m, fuel)
    ensures e.Conjunction? ==> Eval(w, e, env, m, fuel) == EvalConjunction(w, e, env, m, fuel)
    ensures e.Disjunction? ==> Eval(w, e, env, m, fuel) == EvalDisjunction(w, e, env, m, fuel)
    ensures e.Alternative? ==> Eval(w, e, env, m, fuel) == EvalAlternative(w, e, env, m, fuel)
    ensures e.Sequence? ==> Eval(w, e, env, m, fuel) == EvalSequence(w, e, env, m, fuel)
    ensures e.Binding? ==> Eval(w, e, env, m, fuel) == EvalLocals(w, e.locals, env, m, fuel)
    ensures e.Selection? ==> Eval(w, e, env, m, fuel) == EvalSelection(w, e, env, m, fuel)
    ensures e.Application? ==> Eval(w, e, env, m, fuel) == EvalApplication(w, e, env, m, fuel)
    ensures e.Loop? ==> Eval(w, e, env, m, fuel) == EvalLoop(w, e, env, m, fuel)
    ensures e.Assignment? ==> Eval(w, e, env, m, fuel) == EvalAssignment(w, e, env, m, fuel)
    ensures e.Resolution? ==> Eval(w, e, env, m, fuel) == EvalResolution(w, e, env, m, fuel)
    ensures e.Text? ==> Eval(w, e, env, m, fuel) == EvalText(w, e.parts, env, m, fuel)
    ensures e.Rescue? ==> Eval(w, e, env, m, fuel) == EvalRescue(w, e, env, m, fuel)
    ensures e.Finally? ==> Eval(w, e, env, m, fuel) == EvalFinally(w, e, env, m, fuel)
  {
    hide EvalNegation, EvalConjunction, EvalDisjunction, EvalAlternative, EvalSequence, EvalSelection, EvalApplication,
         EvalLoop, EvalAssignment, EvalResolution, EvalText, EvalRescue, EvalFinally, EvalLocals, EvalCase, EvalArgs,
           EvalParts, Rounds, MustThen;
  }

  lemma NegationCorrect<H(!new)>(k: Kit<H>, e: Expr, a: Addr, s: Scope, env: Env, stack: seq<Value>, r: Value, m: Memory<H>,
                                 fuel: nat)
    requires e.Negation? && Ready(k, e, a, s, env, stack)
    ensures Right(k, e, a, s, env, stack, r, m, fuel)
    decreases fuel, e, 0
  {
    hide Laid, Leads, Lasts, Fails, Is, Compile, PushCode, Size, PushSize, Eval, Agrees, Builds, Ask;
    EvalOf(k.world, e, env, m, fuel);
    CompileOf(e, a, s);
    SizeOf(e);
    NegationLaid(k.code, e, a, s);
    Correct(k, e.operand, a, s, env, stack, r, m, fuel);
    var o := Eval(k.world, e.operand, env, m, fuel);
    if o.Done? {
      RunNot(k, a + Size(e.operand), stack, s.onError, o.value, o.memory);
      LeadsOn(k, Here(a, stack, s.onError, r, m), Here(a + Size(e.operand), stack, s.onError, o.value, o.memory),
              Here(a + Size(e), stack, s.onError, if o.value == Nil then Some else Nil, o.memory));
    }
  }

  lemma ConjunctionCorrect<H(!new)>(k: Kit<H>, e: Expr, a: Addr, s: Scope, env: Env, stack: seq<Value>, r: Value,
                                    m: Memory<H>, fuel: nat)
    requires e.Conjunction? && Ready(k, e, a, s, env, stack)
    ensures Right(k, e, a, s, env, stack, r, m, fuel)
    decreases fuel, e, 0
  {
    hide Laid, Leads, Lasts, Fails, Is, Compile, PushCode, Size, PushSize, Eval, Agrees, Builds, Ask;
    EvalOf(k.world, e, env, m, fuel);
    CompileOf(e, a, s);
    SizeOf(e);
    ConjunctionLaid(k.code, e, a, s);
    Correct(k, e.left, a, s, env, stack, r, m, fuel);
    var o, b := Eval(k.world, e.left, env, m, fuel), a + Size(e.left);
    if o.Done? {
      var next := if o.value == Nil then a + Size(e) else b + 2;
      RunAnd(k, b, stack, s.onError, o.value, o.memory, a + Size(e));
      LeadsOn(k, Here(a, stack, s.onError, r, m), Here(b, stack, s.onError, o.value, o.memory),
              Here(next, stack, s.onError, o.value, o.memory));
      if o.value != Nil {
        Correct(k, e.right, b + 2, s, env, stack, o.value, o.memory, fuel);
        DoesOn(k, Here(a, stack, s.onError, r, m), Here(b + 2, stack, s.onError, o.value, o.memory),
               Eval(k.world, e.right, env, o.memory, fuel), a + Size(e), stack, s.onError, fuel);
      }
    }
  }

  lemma DisjunctionCorrect<H(!new)>(k: Kit<H>, e: Expr, a: Addr, s: Scope, env: Env, stack: seq<Value>, r: Value,
                                    m: Memory<H>, fuel: nat)
    requires e.Disjunction? && Ready(k, e, a, s, env, stack)
    ensures Right(k, e, a, s, env, stack, r, m, fuel)
    decreases fuel, e, 0
  {
    hide Laid, Leads, Lasts, Fails, Is, Compile, PushCode, Size, PushSize, Eval, Agrees, Builds, Ask;
    EvalOf(k.world, e, env, m, fuel);
    CompileOf(e, a, s);
    SizeOf(e);
    DisjunctionLaid(k.code, e, a, s);
    Correct(k, e.left, a, s, env, stack, r, m, fuel);
    var o, b := Eval(k.world, e.left, env, m, fuel), a + Size(e.left);
    if o.Done? {
      var next := if o.value != Nil then a + Size(e) else b + 2;
      RunOr(k, b, stack, s.onError, o.value, o.memory, a + Size(e));
      LeadsOn(k, Here(a, stack, s.onError, r, m), Here(b, stack, s.onError, o.value, o.memory),
              Here(next, stack, s.onError, o.value, o.memory));
      if o.value == Nil {
        Correct(k, e.right, b + 2, s, env, stack, o.value, o.memory, fuel);
        DoesOn(k, Here(a, stack, s.onError, r, m), Here(b + 2, stack, s.onError, o.value, o.memory),
               Eval(k.world, e.right, env, o.memory, fuel), a + Size(e), stack, s.onError, fuel);
      }
    }
  }

  lemma AlternativeCorrect<H(!new)>(k: Kit<H>, e: Expr, a: Addr, s: Scope, env: Env, stack: seq<Value>, r: Value,
                                    m: Memory<H>, fuel: nat)
    requires e.Alternative? && Ready(k, e, a, s, env, stack)
    ensures Right(k, e, a, s, env, stack, r, m, fuel)
    decreases fuel, e, 0
  {
    hide Laid, Leads, Lasts, Fails, Is, Compile, PushCode, Size, PushSize, Eval, Agrees, Builds, Ask;
    EvalOf(k.world, e, env, m, fuel);
    CompileOf(e, a, s);
    LongSizeOf(e);
    AlternativeLaid(k.code, e, a, s);
    var s0, h := Here(a, stack, s.onError, r, m), s.onError;
    Correct(k, e.test, a, s, env, stack, r, m, fuel);
    var o, b := Eval(k.world, e.test, env, m, fuel), a + Size(e.test);
    var no, x := b + 2 + Size(e.body) + 2, a + Size(e);
    if o.Done? {
      RunAnd(k, b, stack, h, o.value, o.memory, no);
      LeadsOn(k, s0, Here(b, stack, h, o.value, o.memory), Here(if o.value == Nil then no else b + 2, stack, h, o.value,
                                                                o.memory));
      if o.value == Nil {
        Correct(k, e.other, no, s, env, stack, o.value, o.memory, fuel);
        DoesOn(k, s0, Here(no, stack, h, o.value, o.memory), Eval(k.world, e.other, env, o.memory, fuel), x, stack, h, fuel);
      } else {
        Correct(k, e.body, b + 2, s, env, stack, o.value, o.memory, fuel);
        var o1 := Eval(k.world, e.body, env, o.memory, fuel);
        DoesOn(k, s0, Here(b + 2, stack, h, o.value, o.memory), o1, no - 2, stack, h, fuel);
        if o1.Done? {
          RunGoto(k, no - 2, stack, h, o1.value, o1.memory, x);
          DoesThen(k, s0, o1, no - 2, stack, x, stack, h, fuel);
        }
      }
    }
  }

  lemma SequenceCorrect<H(!new)>(k: Kit<H>, e: Expr, a: Addr, s: Scope, env: Env, stack: seq<Value>, r: Value, m: Memory<H>,
                                 fuel: nat)
    requires e.Sequence? && Ready(k, e, a, s, env, stack)
    ensures Right(k, e, a, s, env, stack, r, m, fuel)
    decreases fuel, e, 0
  {
    hide Laid, Leads, Lasts, Fails, Is, Compile, PushCode, Size, PushSize, Eval, Agrees, Builds, Ask;
    EvalOf(k.world, e, env, m, fuel);
    CompileOf(e, a, s);
    SizeOf(e);
    SequenceLaid(k.code, e, a, s);
    var s0, h := Here(a, stack, s.onError, r, m), s.onError;
    Correct(k, e.first, a, s, env, stack, r, m, fuel);
    var o, b := Eval(k.world, e.first, env, m, fuel), a + Size(e.first);
    if o.Done? {
      Correct(k, e.second, b, s, env, stack, o.value, o.memory, fuel);
      DoesOn(k, s0, Here(b, stack, h, o.value, o.memory), Eval(k.world, e.second, env, o.memory, fuel), a + Size(e), stack,
             h, fuel);
    }
  }

  lemma ResolutionCorrect<H(!new)>(k: Kit<H>, e: Expr, a: Addr, s: Scope, env: Env, stack: seq<Value>, r: Value,
                                   m: Memory<H>, fuel: nat)
    requires e.Resolution? && Ready(k, e, a, s, env, stack)
    ensures Right(k, e, a, s, env, stack, r, m, fuel)
    decreases fuel, e, 0
  {
    hide Laid, Leads, Lasts, Fails, Is, Compile, PushCode, Size, PushSize, Eval, Agrees, Builds, Ask;
    EvalOf(k.world, e, env, m, fuel);
    CompileOf(e, a, s);
    SizeOf(e);
    ResolutionLaid(k.code, e, a, s);
    var s0, h := Here(a, stack, s.onError, r, m), s.onError;
    Correct(k, e.of, a, s, env, stack, r, m, fuel);
    var o, b := Eval(k.world, e.of, env, m, fuel), a + Size(e.of);
    if o.Done? {
      RunResolve(k, b, stack, h, o.value, o.memory, fuel, e.member);
      DoesOn(k, s0, Here(b, stack, h, o.value, o.memory), Ask(k.world, Symbol, [o.value, e.member], o.memory), b + 2, stack,
             h, fuel);
    }
  }

  lemma BindingCorrect<H(!new)>(k: Kit<H>, e: Expr, a: Addr, s: Scope, env: Env, stack: seq<Value>, r: Value, m: Memory<H>,
                                fuel: nat)
    requires e.Binding? && Ready(k, e, a, s, env, stack)
    ensures Right(k, e, a, s, env, stack, r, m, fuel)
    decreases fuel, e, 0
  {
    hide Laid, Leads, Lasts, Fails, Is, Compile, PushCode, Size, PushSize, Eval, Agrees, Builds, Ask;
    EvalOf(k.world, e, env, m, fuel);
    CompileOf(e, a, s);
    SizeOf(e);
    BindingLaid(k.code, e, a, s);
    var s0, h := Here(a, stack, s.onError, r, m), s.onError;
    LocalsCorrect(k, e.locals, a, s, env, stack, r, m, fuel);
    var o, b := EvalLocals(k.world, e.locals, env, m, fuel), a + LocalsSize(e.locals);
    if o.Done? {
      var over: seq<Value> :| |over| == LocalCount(e.locals) && Leads(k, s0, Here(b, stack + over, h, o.value, o.memory));
      RunExit(k, b, stack + over, h, o.value, o.memory, |over|);
      assert (stack + over)[..|stack + over| - |over|] == stack;
      LeadsOn(k, s0, Here(b, stack + over, h, o.value, o.memory), Here(b + 3, stack, h, o.value, o.memory));
    }
  }

  /** The locals have been pushed when the body has its value. */
  ghost predicate LocalsRight<H>(k: Kit<H>, locals: Locals, a: Addr, s: Scope, env: Env, stack: seq<Value>, r: Value,
                                 m: Memory<H>, fuel: nat) {
    var s0, o := Here(a, stack, s.onError, r, m), EvalLocals(k.world, locals, env, m, fuel);
    if o.Done? then
      exists over: seq<Value> ::
        |over| == LocalCount(locals) && Leads(k, s0, Here(a + LocalsSize(locals), stack + over, s.onError, o.value,
                                                          o.memory))
    else Does(k, s0, o, a, stack, s.onError, fuel)
  }

  lemma LocalsCorrect<H(!new)>(k: Kit<H>, locals: Locals, a: Addr, s: Scope, env: Env, stack: seq<Value>, r: Value,
                               m: Memory<H>, fuel: nat)
    requires Laid(k.code, a, LocalsCode(locals, a, s)) && LocalsScoped(locals, env.Keys) && Agrees(s, env, stack)
             && Builds(k)
    ensures LocalsRight(k, locals, a, s, env, stack, r, m, fuel)
    decreases fuel, locals, 0
  {
    hide Laid, Leads, Lasts, Fails, Is, Compile, PushCode, Size, PushSize, Eval, Agrees, Builds, Ask, ArgsSize, PartsSize,
         EvalArgs, EvalParts;
    var s0, h := Here(a, stack, s.onError, r, m), s.onError;
    if locals.Body? {
      Correct(k, locals.body, a, s, env, stack, r, m, fuel);
      var o := Eval(k.world, locals.body, env, m, fuel);
      assert stack + [] == stack;
      assert o.Done? ==> Leads(k, s0, Here(a + Size(locals.body), stack + [], h, o.value, o.memory));
    } else {
      LocalsLaid(k.code, locals, a, s);
      Correct(k, locals.value, a, s, env, stack, r, m, fuel);
      var o, b := Eval(k.world, locals.value, env, m, fuel), a + Size(locals.value);
      if o.Done? {
        LocalPushed(k, locals, a, s, env, stack, r, m, o.value, o.memory, fuel);
      }
    }
  }

  lemma LocalPushed<H(!new)>(k: Kit<H>, locals: Locals, a: Addr, s: Scope, env: Env, stack: seq<Value>, r: Value,
                             m: Memory<H>, v: Ordinary, m1: Memory<H>, fuel: nat)
    requires locals.Local? && Agrees(s, env, stack) && Builds(k) && LocalsScoped(locals.rest, env.Keys + {locals.name})
    requires var b := a + Size(locals.value);
             && Leads(k, Here(a, stack, s.onError, r, m), Here(b, stack, s.onError, v, m1)) && Is(k.code, b, With)
             && Laid(k.code, b + 2, LocalsCode(locals.rest, b + 2, s.Bind(locals.name)))
    requires Eval(k.world, locals.value, env, m, fuel) == Done(v, m1)
    ensures LocalsRight(k, locals, a, s, env, stack, r, m, fuel)
    decreases fuel, locals, 0, 0
  {
    hide Laid, Leads, Lasts, Fails, Is, Compile, PushCode, Size, PushSize, Eval, Agrees, Builds, Ask, ArgsSize, PartsSize,
         EvalArgs, EvalParts;
    var s0, h := Here(a, stack, s.onError, r, m), s.onError;
    var b := a + Size(locals.value);
    var s1 := Here(b + 2, stack + [v], h, v, m1);
    RunWith(k, b, stack, h, v, m1);
    LeadsOn(k, s0, Here(b, stack, h, v, m1), s1);
    AgreesBind(s, env, stack, locals.name, v);
    assert env[locals.name := v].Keys == env.Keys + {locals.name};
    LocalsCorrect(k, locals.rest, b + 2, s.Bind(locals.name), env[locals.name := v], stack + [v], v, m1, fuel);
    var o := EvalLocals(k.world, locals.rest, env[locals.name := v], m1, fuel);
    assert EvalLocals(k.world, locals, env, m, fuel) == o;
    if o.Done? {
      var x := b + 2 + LocalsSize(locals.rest);
      var over: seq<Value> :| |over| == LocalCount(locals.rest) && Leads(k, s1, Here(x, stack + [v] + over, h, o.value,
          o.memory));
      assert stack + [v] + over == stack + ([v] + over);
      LeadsOn(k, s0, s1, Here(x, stack + ([v] + over), h, o.value, o.memory));
    } else {
      DoesOn(k, s0, s1, o, a, stack + [v], h, fuel);
      DoesThen(k, s0, o, a, stack + [v], a, stack, h, fuel);
    }
  }

  lemma SelectionCorrect<H(!new)>(k: Kit<H>, e: Expr, a: Addr, s: Scope, env: Env, stack: seq<Value>, r: Value,
                                  m: Memory<H>, fuel: nat)
    requires e.Selection? && Ready(k, e, a, s, env, stack)
    ensures Right(k, e, a, s, env, stack, r, m, fuel)
    decreases fuel, e, 0
  {
    hide Laid, Leads, Lasts, Fails, Is, Compile, PushCode, Size, PushSize, Eval, Agrees, Builds, Ask, CasesCode, CasesSize,
         EvalCase, CaseAddrs;
    EvalOf(k.world, e, env, m, fuel);
    CompileOf(e, a, s);
    SizeOf(e);
    SelectionLaid(k.code, e, a, s);
    var s0, h := Here(a, stack, s.onError, r, m), s.onError;
    Correct(k, e.on, a, s, env, stack, r, m, fuel);
    var o, b := Eval(k.world, e.on, env, m, fuel), a + Size(e.on);
    if o.Done? {
      var s1, ts := Here(b, stack, h, o.value, o.memory), CaseAddrs(e.cases, b + 3);
      AddrsOfCases(e.cases, b + 3);
      if o.value.Data? {
        var to := ts[Chosen(o.value.x, |ts|)];
        RunSwitch(k, b, stack, h, o.value.x, o.memory, ts);
        LeadsOn(k, s0, s1, Here(to, stack, h, o.value, o.memory));
        CasesCorrect(k, e.cases, o.value.x, b + 3, a + Size(e), s, env, stack, o.value, o.memory, fuel);
        DoesOn(k, s0, Here(to, stack, h, o.value, o.memory), EvalCase(k.world, e.cases, o.value.x, env, o.memory, fuel),
               a + Size(e), stack, h, fuel);
      } else {
        RunSwitchElse(k, b, stack, h, o.value, o.memory, ts);
        FailsAt(k, s1, stack, h, o.memory.errors, TYPE_ERROR, Memory(o.memory.heap, o.memory.errors + 1), a + Size(e), fuel);
        DoesOn(k, s0, s1, Eval(k.world, e, env, m, fuel), a + Size(e), stack, h, fuel);
      }
    }
  }

  function Chosen(x: int, n: nat): nat
    requires n > 0
  {
    if 0 <= x < n then x else n - 1
  }

  lemma AddrsOfCases(cases: Cases, a: Addr)
    ensures CaseAddrs(cases, a) != []
    ensures cases.Case? ==> forall x: int :: var ts, more := CaseAddrs(cases, a), CaseAddrs(cases.rest,
        a + Size(cases.body) + 2);
              more != [] && ts[Chosen(x, |ts|)] == if x == 0 then a else more[Chosen(x - 1, |more|)]
  {
    hide Size;
  }

  lemma CasesCorrect<H(!new)>(k: Kit<H>, cases: Cases, x: int, a: Addr, end: Addr, s: Scope, env: Env, stack: seq<Value>,
                              r: Value, m: Memory<H>, fuel: nat)
    requires Laid(k.code, a, CasesCode(cases, a, end, s)) && end == a + CasesSize(cases)
    requires CasesScoped(cases, env.Keys) && Agrees(s, env, stack) && Builds(k) && CaseAddrs(cases, a) != []
    ensures var ts := CaseAddrs(cases, a);
            Does(k, Here(ts[Chosen(x, |ts|)], stack, s.onError, r, m), EvalCase(k.world, cases, x, env, m, fuel), end,
                 stack, s.onError, fuel)
    decreases fuel, cases, 0
  {
    hide Laid, Leads, Lasts, Fails, Is, Compile, PushCode, Size, PushSize, Eval, Agrees, Builds, Ask, ArgsSize, PartsSize,
         EvalArgs, EvalParts;
    var h := s.onError;
    AddrsOfCases(cases, a);
    if cases.Last? {
      Correct(k, cases.body, a, s, env, stack, r, m, fuel);
    } else {
      CasesLaid(k.code, cases, a, end, s);
      var b := a + Size(cases.body) + 2;
      if x != 0 {
        CasesCorrect(k, cases.rest, x - 1, b, end, s, env, stack, r, m, fuel);
      } else {
        Correct(k, cases.body, a, s, env, stack, r, m, fuel);
        var o := Eval(k.world, cases.body, env, m, fuel);
        if o.Done? {
          RunGoto(k, b - 2, stack, h, o.value, o.memory, end);
          DoesThen(k, Here(a, stack, h, r, m), o, b - 2, stack, end, stack, h, fuel);
        }
      }
    }
  }

  // ---------------------------------------------------------------- pushed values and arguments

  ghost predicate PushRight<H>(k: Kit<H>, e: Expr, a: Addr, s: Scope, env: Env, stack: seq<Value>, r: Value, m: Memory<H>,
                               fuel: nat) {
    Pushes(k, Here(a, stack, s.onError, r, m), Eval(k.world, e, env, m, fuel), a + PushSize(e), stack, s.onError, fuel)
  }

  lemma LeafCorrect<H(!new)>(k: Kit<H>, e: Expr, a: Addr, s: Scope, env: Env, stack: seq<Value>, r: Value, m: Memory<H>,
                             fuel: nat)
    requires (e.Nothing? || e.Constant? || e.Variable?) && Ready(k, e, a, s, env, stack)
    ensures Right(k, e, a, s, env, stack, r, m, fuel)
  {
    hide Leads, Lasts, Fails, Agrees, Builds;
    match e
    case Nothing => RunLoadNil(k, a, stack, s.onError, r, m);
    case Constant(v, _) => RunLoad(k, a, stack, s.onError, r, m, v);
    case Variable(x) => LocalAt(s, env, stack, x); RunLocal(k, a, stack, s.onError, r, m, s.Depth(x));
  }

  lemma PushLeaf<H(!new)>(k: Kit<H>, e: Expr, a: Addr, s: Scope, env: Env, stack: seq<Value>, r: Value, m: Memory<H>,
                          fuel: nat)
    requires (e.Nothing? || e.Constant? || e.Variable?) && Laid(k.code, a, PushCode(e, a, s)) && Scoped(e, env.Keys)
             && Agrees(s, env, stack)
    ensures PushRight(k, e, a, s, env, stack, r, m, fuel)
  {
    hide Leads, Lasts, Fails, Agrees;
    match e
    case Nothing => RunNilPush(k, a, stack, s.onError, r, m);
    case Constant(v, _) => RunLoadPush(k, a, stack, s.onError, r, m, v);
    case Variable(x) => LocalAt(s, env, stack, x); RunLocalPush(k, a, stack, s.onError, r, m, s.Depth(x));
  }

  lemma PushAfter<H(!new)>(k: Kit<H>, e: Expr, a: Addr, s: Scope, env: Env, stack: seq<Value>, r: Value, m: Memory<H>,
                           fuel: nat)
    requires Right(k, e, a, s, env, stack, r, m, fuel) && Is(k.code, a + Size(e), Push)
    requires PushSize(e) == Size(e) + 1
    ensures PushRight(k, e, a, s, env, stack, r, m, fuel)
  {
    hide Leads, Lasts, Fails, Eval, Is, Size, PushSize;
    var o, b, h := Eval(k.world, e, env, m, fuel), a + Size(e), s.onError;
    if o.Done? {
      RunPush(k, b, stack, h, o.value, o.memory);
      LeadsOn(k, Here(a, stack, h, r, m), Here(b, stack, h, o.value, o.memory), Here(b + 1, stack + [o.value], h, o.value,
          o.memory));
    }
  }

  lemma PushCorrect<H(!new)>(k: Kit<H>, e: Expr, a: Addr, s: Scope, env: Env, stack: seq<Value>, r: Value, m: Memory<H>,
                             fuel: nat)
    requires Laid(k.code, a, PushCode(e, a, s)) && Scoped(e, env.Keys) && Agrees(s, env, stack) && Builds(k)
    ensures PushRight(k, e, a, s, env, stack, r, m, fuel)
    decreases fuel, e, 3
  {
    hide Laid, Compile, TextCode, Size, Scoped, Agrees, Builds, Right, PushRight, Eval, PartsSize, Pushes;
    if e.Nothing? || e.Constant? || e.Variable? {
      PushLeaf(k, e, a, s, env, stack, r, m, fuel);
    } else if e.Text? {
      TextPushed(k, e, a, s, env, stack, r, m, fuel);
    } else {
      Parts2(k.code, a, Compile(e, a, s), Push);
      SizeIs(e, a, s);
      Correct(k, e, a, s, env, stack, r, m, fuel);
      PushAfter(k, e, a, s, env, stack, r, m, fuel);
    }
  }

  /** The values of the arguments are pushed, or the call is skipped with what was pushed for it dropped. */
  ghost predicate Passes<H>(k: Kit<H>, s0: State<H>, given: Given<H>, n: nat, exit: Addr, end: Addr, index: nat,
                            stack: seq<Value>,
                            h: Addr, fuel: nat) {
    match given
    case Given(vs, m) => |vs| == n && exists r: Value :: Leads(k, s0, Here(exit, stack + vs, h, r, m))
    case Skipped(m) => index <= |stack| && Leads(k, s0, Here(end, stack[..|stack| - index], h, Nil, m))
    case Stopped(o) => !o.Done? && Does(k, s0, o, exit, stack, h, fuel)
  }

  lemma PassesOn<H>(k: Kit<H>, s0: State<H>, s1: State<H>, given: Given<H>, n: nat, exit: Addr, end: Addr, index: nat,
                    stack: seq<Value>, v: Ordinary, h: Addr, fuel: nat)
    requires Leads(k, s0, s1) && Passes(k, s1, given, n, exit, end, index + 1, stack + [v], h, fuel)
    ensures Passes(k, s0, Onto(v, given), n + 1, exit, end, index, stack, h, fuel)
  {
    hide Leads, Lasts, Fails;
    match given
    case Given(vs, m) =>
      var r: Value :| Leads(k, s1, Here(exit, stack + [v] + vs, h, r, m));
      assert stack + [v] + vs == stack + ([v] + vs);
      LeadsOn(k, s0, s1, Here(exit, stack + ([v] + vs), h, r, m));
    case Skipped(m) =>
      assert (stack + [v])[..|stack + [v]| - (index + 1)] == stack[..|stack| - index];
      LeadsOn(k, s0, s1, Here(end, stack[..|stack| - index], h, Nil, m));
    case Stopped(o) =>
      DoesOn(k, s0, s1, o, exit, stack + [v], h, fuel);
      DoesThen(k, s0, o, exit, stack + [v], exit, stack, h, fuel);
  }

  ghost predicate ArgsRight<H>(k: Kit<H>, args: Args, a: Addr, end: Addr, index: nat, s: Scope, env: Env, stack: seq<Value>,
                               r: Value, m: Memory<H>, fuel: nat) {
    Passes(k, Here(a, stack, s.onError, r, m), EvalArgs(k.world, args, env, m, fuel), Count(args), a + ArgsSize(args), end,
           index, stack,
           s.onError, fuel)
  }

  ghost predicate ArgsReady<H(!new)>(k: Kit<H>, args: Args, a: Addr, end: Addr, index: nat, s: Scope, env: Env,
                                     stack: seq<Value>) {
    Laid(k.code, a, ArgsCode(args, a, end, index, s)) && ArgsScoped(args, env.Keys) && Agrees(s, env, stack) && Builds(k)
      && index <= |stack|
  }

  lemma ArgsCorrect<H(!new)>(k: Kit<H>, args: Args, a: Addr, end: Addr, index: nat, s: Scope, env: Env, stack: seq<Value>,
                             r: Value, m: Memory<H>, fuel: nat)
    requires ArgsReady(k, args, a, end, index, s, env, stack)
    ensures ArgsRight(k, args, a, end, index, s, env, stack, r, m, fuel)
    decreases fuel, args, 2
  {
    hide Laid, Leads, Lasts, Fails, Is, Compile, PushCode, Size, PushSize, Eval, Agrees, Builds, Ask, PartsSize, EvalParts;
    match args
    case NoArgs =>
      Stays(k, Here(a, stack, s.onError, r, m));
      assert stack + [] == stack;
      assert Leads(k, Here(a, stack, s.onError, r, m), Here(a, stack + [], s.onError, r, m));
    case Arg(_, _) => ArgCorrect(k, args, a, end, index, s, env, stack, r, m, fuel);
    case Guarded(_, _, _) => GuardedCorrect(k, args, a, end, index, s, env, stack, r, m, fuel);
  }

  lemma ArgCorrect<H(!new)>(k: Kit<H>, args: Args, a: Addr, end: Addr, index: nat, s: Scope, env: Env, stack: seq<Value>,
                            r: Value, m: Memory<H>, fuel: nat)
    requires args.Arg? && ArgsReady(k, args, a, end, index, s, env, stack)
    ensures ArgsRight(k, args, a, end, index, s, env, stack, r, m, fuel)
    decreases fuel, args, 1
  {
    hide Laid, Leads, Lasts, Fails, Is, Compile, PushCode, Size, PushSize, Eval, Agrees, Builds, Ask, PartsSize, EvalParts,
         Onto;
    var s0, h := Here(a, stack, s.onError, r, m), s.onError;
    ArgLaid(k.code, args, a, end, index, s);
    PushCorrect(k, args.value, a, s, env, stack, r, m, fuel);
    var o, b := Eval(k.world, args.value, env, m, fuel), a + PushSize(args.value);
    if o.Done? {
      var r1: Value :| Leads(k, s0, Here(b, stack + [o.value], h, r1, o.memory));
      AgreesUp(s, env, stack, o.value);
      ArgsCorrect(k, args.rest, b, end, index + 1, s.Up(), env, stack + [o.value], r1, o.memory, fuel);
      PassesOn(k, s0, Here(b, stack + [o.value], h, r1, o.memory), EvalArgs(k.world, args.rest, env, o.memory, fuel),
               Count(args.rest),
               a + ArgsSize(args), end, index, stack, o.value, h, fuel);
    }
  }

  lemma GuardedCorrect<H(!new)>(k: Kit<H>, args: Args, a: Addr, end: Addr, index: nat, s: Scope, env: Env,
                                stack: seq<Value>, r: Value, m: Memory<H>, fuel: nat)
    requires args.Guarded? && ArgsReady(k, args, a, end, index, s, env, stack)
    ensures ArgsRight(k, args, a, end, index, s, env, stack, r, m, fuel)
    decreases fuel, args, 1
  {
    hide Laid, Leads, Lasts, Fails, Is, Compile, PushCode, Size, PushSize, Eval, Agrees, Builds, Ask, PartsSize, EvalParts,
         AfterGuard;
    var s0, h := Here(a, stack, s.onError, r, m), s.onError;
    GuardedLaid(k.code, args, a, end, index, s);
    PushCorrect(k, args.value, a, s, env, stack, r, m, fuel);
    var o, g := Eval(k.world, args.value, env, m, fuel), a + PushSize(args.value);
    if o.Done? {
      var r1: Value :| Leads(k, s0, Here(g, stack + [o.value], h, r1, o.memory));
      GuardCorrect(k, args, a, end, index, s, env, stack, r1, o.value, o.memory, fuel);
      var s1 := Here(g, stack + [o.value], h, r1, o.memory);
      PassesLater(k, s0, s1, EvalArgs(k.world, args, env, m, fuel), Count(args), a + ArgsSize(args), end, index, stack, h,
                  fuel);
    }
  }

  lemma PassesLater<H>(k: Kit<H>, s0: State<H>, s1: State<H>, given: Given<H>, n: nat, exit: Addr, end: Addr, index: nat,
                       stack: seq<Value>, h: Addr, fuel: nat)
    requires Leads(k, s0, s1) && Passes(k, s1, given, n, exit, end, index, stack, h, fuel)
    ensures Passes(k, s0, given, n, exit, end, index, stack, h, fuel)
  {
    hide Leads, Lasts, Fails;
    match given
    case Given(vs, m) =>
      var r: Value :| Leads(k, s1, Here(exit, stack + vs, h, r, m));
      LeadsOn(k, s0, s1, Here(exit, stack + vs, h, r, m));
    case Skipped(m) => LeadsOn(k, s0, s1, Here(end, stack[..|stack| - index], h, Nil, m));
    case Stopped(o) => DoesOn(k, s0, s1, o, exit, stack, h, fuel);
  }

  lemma GuardCorrect<H(!new)>(k: Kit<H>, args: Args, a: Addr, end: Addr, index: nat, s: Scope, env: Env, stack: seq<Value>,
                              r: Value, v: Ordinary, m: Memory<H>, fuel: nat)
    requires args.Guarded? && ArgsReady(k, args, a, end, index, s, env, stack)
    ensures Passes(k, Here(a + PushSize(args.value), stack + [v], s.onError, r, m), AfterGuard(k.world, args, env, v, m,
        fuel),
                   Count(args), a + ArgsSize(args), end, index, stack, s.onError, fuel)
    decreases fuel, args, 0
  {
    hide Laid, Leads, Lasts, Fails, Is, Compile, PushCode, Size, PushSize, Eval, Agrees, Builds, Ask, PartsSize, EvalArgs,
         EvalParts, Onto, ArgsCode;
    var g, h := a + PushSize(args.value), s.onError;
    var s0, x := Here(g, stack + [v], h, r, m), g + Size(args.guard);
    GuardedLaid(k.code, args, a, end, index, s);
    AgreesBind(s, env, stack, IT, v);
    assert env[IT := v].Keys == env.Keys + {IT};
    Correct(k, args.guard, g, s.Bind(IT), env[IT := v], stack + [v], r, m, fuel);
    var o := Eval(k.world, args.guard, env[IT := v], m, fuel);
    if o.Done? {
      RunAndPop(k, x, stack + [v], h, o.value, o.memory, end, index + 1);
      var s1 := Here(x, stack + [v], h, o.value, o.memory);
      if o.value == Nil {
        assert (stack + [v])[..|stack + [v]| - (index + 1)] == stack[..|stack| - index];
        LeadsOn(k, s0, s1, Here(end, stack[..|stack| - index], h, Nil, o.memory));
      } else {
        LeadsOn(k, s0, s1, Here(x + 3, stack + [v], h, o.value, o.memory));
        AgreesUp(s, env, stack, v);
        ArgsCorrect(k, args.rest, x + 3, end, index + 1, s.Up(), env, stack + [v], o.value, o.memory, fuel);
        PassesOn(k, s0, Here(x + 3, stack + [v], h, o.value, o.memory), EvalArgs(k.world, args.rest, env, o.memory, fuel),
                 Count(args.rest),
                 a + ArgsSize(args), end, index, stack, v, h, fuel);
      }
    } else {
      DoesThen(k, s0, o, x, stack + [v], a + ArgsSize(args), stack, h, fuel);
    }
  }

  lemma ApplicationCorrect<H(!new)>(k: Kit<H>, e: Expr, a: Addr, s: Scope, env: Env, stack: seq<Value>, r: Value,
                                    m: Memory<H>, fuel: nat)
    requires e.Application? && Ready(k, e, a, s, env, stack)
    ensures Right(k, e, a, s, env, stack, r, m, fuel)
    decreases fuel, e, 0
  {
    hide Laid, Leads, Lasts, Fails, Is, Compile, PushCode, Size, PushSize, Eval, Agrees, Builds, Ask;
    EvalOf(k.world, e, env, m, fuel);
    CompileOf(e, a, s);
    LongSizeOf(e);
    ApplicationLaid(k.code, e, a, s);
    if e.fn.Constant? {
      ConstantIs(k.world, e.fn, env, m, fuel);
      ConstantApplied(k, e, a, s, env, stack, r, m, fuel);
    } else {
      ValueApplied(k, e, a, s, env, stack, r, m, fuel);
    }
  }

  lemma ConstantApplied<H(!new)>(k: Kit<H>, e: Expr, a: Addr, s: Scope, env: Env, stack: seq<Value>, r: Value, m: Memory<H>,
                                 fuel: nat)
    requires e.Application? && e.fn.Constant? && Is(k.code, a + ArgsSize(e.args), ConstantCall(e.fn, Count(e.args)))
    requires ArgsReady(k, e.args, a, a + Size(e), 0, s, env, stack)
    ensures Does(k, Here(a, stack, s.onError, r, m), Applied(k.world, e.fn.value, EvalArgs(k.world, e.args, env, m, fuel)),
                 a + Size(e), stack, s.onError, fuel)
    decreases fuel, e, 0, 0
  {
    hide Laid, Leads, Lasts, Fails, Is, Compile, PushCode, Size, PushSize, Eval, Agrees, Builds, Ask, ArgsSize, PartsSize,
         EvalArgs, EvalParts;
    var s0, h := Here(a, stack, s.onError, r, m), s.onError;
    LongSizeOf(e);
    ArgsCorrect(k, e.args, a, a + Size(e), 0, s, env, stack, r, m, fuel);
    var given, b := EvalArgs(k.world, e.args, env, m, fuel), a + ArgsSize(e.args);
    if given.Given? {
      var r1: Value :| Leads(k, s0, Here(b, stack + given.values, h, r1, given.memory));
      if e.fn.isMethod {
        RunCallMethod(k, b, stack, h, r1, given.memory, fuel, e.fn.value, given.values);
      } else {
        RunCallConst(k, b, stack, h, r1, given.memory, fuel, e.fn.value, given.values);
      }
      DoesOn(k, s0, Here(b, stack + given.values, h, r1, given.memory), Ask(k.world, Invoke, [e.fn.value] + given.values,
          given.memory),
             a + Size(e), stack, h, fuel);
    } else if given.Skipped? {
      assert stack[..|stack| - 0] == stack;
    }
  }

  lemma ValueApplied<H(!new)>(k: Kit<H>, e: Expr, a: Addr, s: Scope, env: Env, stack: seq<Value>, r: Value, m: Memory<H>,
                              fuel: nat)
    requires e.Application? && !e.fn.Constant? && Laid(k.code, a, PushCode(e.fn, a, s)) && Scoped(e, env.Keys) && Agrees(s,
        env, stack) && Builds(k)
    requires var b := a + PushSize(e.fn);
             Is(k.code, b + ArgsSize(e.args), Call(Count(e.args))) && Laid(k.code, b, ArgsCode(e.args, b, a + Size(e), 1,
                 s.Up()))
    ensures Does(k, Here(a, stack, s.onError, r, m), EvalApplication(k.world, e, env, m, fuel), a + Size(e), stack,
                 s.onError, fuel)
    decreases fuel, e, 0, 0
  {
    hide Laid, Leads, Lasts, Fails, Is, Compile, PushCode, Size, PushSize, Eval, Agrees, Builds, Ask, ArgsSize, PartsSize,
         EvalArgs, EvalParts, Applied, Passes;
    var s0, h := Here(a, stack, s.onError, r, m), s.onError;
    LongSizeOf(e);
    PushCorrect(k, e.fn, a, s, env, stack, r, m, fuel);
    var o, b := Eval(k.world, e.fn, env, m, fuel), a + PushSize(e.fn);
    if o.Done? {
      var r1: Value :| Leads(k, s0, Here(b, stack + [o.value], h, r1, o.memory));
      AgreesUp(s, env, stack, o.value);
      ArgsCorrect(k, e.args, b, a + Size(e), 1, s.Up(), env, stack + [o.value], r1, o.memory, fuel);
      var given := EvalArgs(k.world, e.args, env, o.memory, fuel);
      CallGiven(k, o.value, given, Count(e.args), b, b + ArgsSize(e.args), a + Size(e), stack, h, r1, o.memory, fuel);
      DoesOn(k, s0, Here(b, stack + [o.value], h, r1, o.memory), Applied(k.world, o.value, given), a + Size(e), stack, h,
             fuel);
    }
  }

  lemma CallGiven<H>(k: Kit<H>, fn: Ordinary, given: Given<H>, n: nat, b: Addr, c: Addr, end: Addr, stack: seq<Value>,
                     h: Addr,
                     r: Value, m: Memory<H>, fuel: nat)
    requires Passes(k, Here(b, stack + [fn], h, r, m), given, n, c, end, 1, stack + [fn], h, fuel)
    requires Is(k.code, c, Call(n)) && end == c + 2
    ensures Does(k, Here(b, stack + [fn], h, r, m), Applied(k.world, fn, given), end, stack, h, fuel)
  {
    hide Leads, Lasts, Fails, Is, Ask;
    var s1 := Here(b, stack + [fn], h, r, m);
    match given
    case Given(vs, m1) =>
      var r1: Value :| Leads(k, s1, Here(c, stack + [fn] + vs, h, r1, m1));
      RunCall(k, c, stack, h, r1, m1, fuel, fn, vs);
      DoesOn(k, s1, Here(c, stack + [fn] + vs, h, r1, m1), Ask(k.world, Invoke, [fn] + vs, m1), end, stack, h, fuel);
    case Skipped(_) => assert (stack + [fn])[..|stack + [fn]| - 1] == stack;
    case Stopped(o) => DoesThen(k, s1, o, c, stack + [fn], end, stack, h, fuel);
  }

  // ---------------------------------------------------------------- assignments, errors

  lemma AssignmentCorrect<H(!new)>(k: Kit<H>, e: Expr, a: Addr, s: Scope, env: Env, stack: seq<Value>, r: Value,
                                   m: Memory<H>, fuel: nat)
    requires e.Assignment? && Ready(k, e, a, s, env, stack)
    ensures Right(k, e, a, s, env, stack, r, m, fuel)
    decreases fuel, e, 0
  {
    hide Laid, Leads, Lasts, Fails, Is, Compile, PushCode, Size, PushSize, Eval, Agrees, Builds, Ask;
    EvalOf(k.world, e, env, m, fuel);
    CompileOf(e, a, s);
    LongSizeOf(e);
    AssignmentLaid(k.code, e, a, s);
    if e.target.Variable? {
      LocalAssigned(k, e, a, s, env, stack, r, m, fuel);
    } else {
      ValueAssigned(k, e, a, s, env, stack, r, m, fuel);
    }
  }

  lemma LocalAssigned<H(!new)>(k: Kit<H>, e: Expr, a: Addr, s: Scope, env: Env, stack: seq<Value>, r: Value, m: Memory<H>,
                               fuel: nat)
    requires e.Assignment? && e.target.Variable? && Laid(k.code, a, Compile(e.source, a, OldScope(e.target.name, s)))
    requires Is(k.code, a + Size(e.source), AssignLocal(s.Depth(e.target.name))) && Scoped(e, env.Keys) && Agrees(s, env,
        stack) && Builds(k)
    ensures Does(k, Here(a, stack, s.onError, r, m), EvalAssignment(k.world, e, env, m, fuel), a + Size(e), stack,
                 s.onError, fuel)
    decreases fuel, e, 0, 0
  {
    hide Laid, Leads, Lasts, Fails, Is, Compile, PushCode, Size, PushSize, Eval, Agrees, Builds, Ask, ArgsSize, PartsSize,
         EvalArgs, EvalParts;
    var s0, h := Here(a, stack, s.onError, r, m), s.onError;
    LongSizeOf(e);
    VariableIs(k.world, e.target, env, m, fuel);
    var x, b := e.target.name, a + Size(e.source);
    AgreesOld(s, env, stack, x);
    LocalAt(s, env, stack, x);
    assert env[OLD := env[x]].Keys == env.Keys + {OLD};
    Correct(k, e.source, a, OldScope(x, s), env[OLD := env[x]], stack, r, m, fuel);
    var o := Eval(k.world, e.source, env[OLD := env[x]], m, fuel);
    if o.Done? {
      RunAssignLocal(k, b, stack, h, o.value, o.memory, fuel, s.Depth(x));
      DoesOn(k, s0, Here(b, stack, h, o.value, o.memory), Ask(k.world, Store, [env[x], o.value], o.memory), b + 2, stack, h,
             fuel);
    }
  }

  lemma ValueAssigned<H(!new)>(k: Kit<H>, e: Expr, a: Addr, s: Scope, env: Env, stack: seq<Value>, r: Value, m: Memory<H>,
                               fuel: nat)
    requires e.Assignment? && !e.target.Variable? && Laid(k.code, a, PushCode(e.target, a, s))
    requires var b := a + PushSize(e.target);
             Laid(k.code, b, Compile(e.source, b, s.Bind(OLD))) && Is(k.code, b + Size(e.source), Assign)
    requires Scoped(e, env.Keys) && Agrees(s, env, stack) && Builds(k)
    ensures Does(k, Here(a, stack, s.onError, r, m), EvalAssignment(k.world, e, env, m, fuel), a + Size(e), stack,
                 s.onError, fuel)
    decreases fuel, e, 0, 0
  {
    hide Laid, Leads, Lasts, Fails, Is, Compile, PushCode, Size, PushSize, Eval, Agrees, Builds, Ask, ArgsSize, PartsSize,
         EvalArgs, EvalParts;
    var s0, h := Here(a, stack, s.onError, r, m), s.onError;
    LongSizeOf(e);
    PushCorrect(k, e.target, a, s, env, stack, r, m, fuel);
    var t, b := Eval(k.world, e.target, env, m, fuel), a + PushSize(e.target);
    if t.Done? {
      var r1: Value :| Leads(k, s0, Here(b, stack + [t.value], h, r1, t.memory));
      var s1, x := Here(b, stack + [t.value], h, r1, t.memory), b + Size(e.source);
      AgreesBind(s, env, stack, OLD, t.value);
      assert env[OLD := t.value].Keys == env.Keys + {OLD};
      Correct(k, e.source, b, s.Bind(OLD), env[OLD := t.value], stack + [t.value], r1, t.memory, fuel);
      var o := Eval(k.world, e.source, env[OLD := t.value], t.memory, fuel);
      if o.Done? {
        RunAssign(k, x, stack, h, o.value, o.memory, fuel, t.value);
        LeadsOn(k, s0, s1, Here(x, stack + [t.value], h, o.value, o.memory));
        DoesOn(k, s0, Here(x, stack + [t.value], h, o.value, o.memory), Ask(k.world, Store, [t.value, o.value], o.memory),
               x + 1, stack, h, fuel);
      } else {
        DoesOn(k, s0, s1, o, x, stack + [t.value], h, fuel);
        DoesThen(k, s0, o, x, stack + [t.value], x, stack, h, fuel);
      }
    }
  }

  lemma ConstantIs<H>(w: World<H>, e: Expr, env: Env, m: Memory<H>, fuel: nat)
    requires e.Constant?
    ensures Eval(w, e, env, m, fuel) == Done(e.value, m)
  {
  }

  lemma VariableIs<H>(w: World<H>, e: Expr, env: Env, m: Memory<H>, fuel: nat)
    requires e.Variable? && e.name in env
    ensures Eval(w, e, env, m, fuel) == Done(env[e.name], m)
  {
  }

  lemma AgreesHandler(s: Scope, env: Env, stack: seq<Value>, h: Addr)
    requires Agrees(s, env, stack)
    ensures Agrees(s.(onError := h), env, stack)
  {
  }

  lemma RescueCorrect<H(!new)>(k: Kit<H>, e: Expr, a: Addr, s: Scope, env: Env, stack: seq<Value>, r: Value, m: Memory<H>,
                               fuel: nat)
    requires e.Rescue? && Ready(k, e, a, s, env, stack)
    ensures Right(k, e, a, s, env, stack, r, m, fuel)
    decreases fuel, e, 0
  {
    hide Laid, Leads, Lasts, Fails, Is, Compile, PushCode, Size, PushSize, Eval, Agrees, Builds, Ask;
    EvalOf(k.world, e, env, m, fuel);
    CompileOf(e, a, s);
    LongSizeOf(e);
    RescueLaid(k.code, e, a, s);
    var s0, h := Here(a, stack, s.onError, r, m), s.onError;
    var b := a + 2 + Size(e.body);
    var t := b + 4;
    RunTry(k, a, stack, h, r, m, t);
    AgreesHandler(s, env, stack, t);
    Correct(k, e.body, a + 2, s.(onError := t), env, stack, r, m, fuel);
    var o, s1 := Eval(k.world, e.body, env, m, fuel), Here(a + 2, stack, t, r, m);
    if o.Done? {
      RunTry(k, b, stack, t, o.value, o.memory, h);
      RunGoto(k, b + 2, stack, h, o.value, o.memory, a + Size(e));
      LeadsOn(k, s0, s1, Here(b, stack, t, o.value, o.memory));
      LeadsOn(k, s0, Here(b, stack, t, o.value, o.memory), Here(b + 2, stack, h, o.value, o.memory));
      LeadsOn(k, s0, Here(b + 2, stack, h, o.value, o.memory), Here(a + Size(e), stack, h, o.value, o.memory));
    } else if o.Unfinished? {
      LastsOn(k, s0, s1, fuel);
    } else {
      Rescued(k, e, t, a + Size(e), s, env, stack, s1, o, fuel);
      DoesOn(k, s0, s1, EvalRescue(k.world, e, env, m, fuel), a + Size(e), stack, h, fuel);
    }
  }

  lemma Rescued<H(!new)>(k: Kit<H>, e: Expr, t: Addr, x: Addr, s: Scope, env: Env, stack: seq<Value>, s1: State<H>,
                         o: Outcome<H>, fuel: nat)
    requires e.Rescue? && o.Failed? && Does(k, s1, o, t, stack, t, fuel) && Is(k.code, t, Catch(s.onError, s.top))
    requires var b := t + 4 + Size(e.handler);
             && Laid(k.code, t + 4, Compile(e.handler, t + 4, s.Bind(e.name)))
             && Is(k.code, b, Exit(1)) && Is(k.code, b + 3, Goto(x))
    requires Scoped(e.handler, env.Keys + {e.name}) && Agrees(s, env, stack) && Builds(k)
    ensures Does(k, s1, Eval(k.world, e.handler, env[e.name := Caught(o.id, o.kind)], o.memory, fuel), x, stack, s.onError,
                 fuel)
    decreases fuel, e, 0, 0
  {
    hide Laid, Leads, Lasts, Is, Compile, PushCode, Size, PushSize, Eval, Agrees, Builds, Ask, ArgsSize, PartsSize,
         EvalArgs, EvalParts;
    var h, v, b := s.onError, Caught(o.id, o.kind), t + 4 + Size(e.handler);
    var env1 := env[e.name := v];
    var over := Overhang(k, s1, stack, t, o.id, o.kind, o.memory);
    TopIs(s, env, stack);
    RunCatch(k, t, stack + over, t, o.memory, h, s.top, o.id, o.kind);
    assert (stack + over)[..s.top] == stack;
    var s2 := Here(t + 4, stack + [v], h, v, o.memory);
    LeadsOn(k, s1, Here(t, stack + over, t, Error(o.id, o.kind), o.memory), s2);
    AgreesBind(s, env, stack, e.name, v);
    assert env1.Keys == env.Keys + {e.name};
    Correct(k, e.handler, t + 4, s.Bind(e.name), env1, stack + [v], v, o.memory, fuel);
    var o1 := Eval(k.world, e.handler, env1, o.memory, fuel);
    DoesOn(k, s1, s2, o1, b, stack + [v], h, fuel);
    if o1.Done? {
      RunExit(k, b, stack + [v], h, o1.value, o1.memory, 1);
      assert (stack + [v])[..|stack + [v]| - 1] == stack;
      RunGoto(k, b + 3, stack, h, o1.value, o1.memory, x);
      LeadsOn(k, Here(b, stack + [v], h, o1.value, o1.memory), Here(b + 3, stack, h, o1.value, o1.memory), Here(x, stack, h,
          o1.value, o1.memory));
    }
    DoesThen(k, s1, o1, b, stack + [v], x, stack, h, fuel);
  }

  lemma TopIs(s: Scope, env: Env, stack: seq<Value>)
    requires Agrees(s, env, stack)
    ensures |stack| == s.top
  {
  }

  lemma Overhang<H>(k: Kit<H>, s1: State<H>, stack: seq<Value>, t: Addr, id: nat, kind: nat,
                    m: Memory<H>) returns (over: seq<Value>)
    requires Fails(k, s1, stack, t, Error(id, kind), m)
    ensures Leads(k, s1, Here(t, stack + over, t, Error(id, kind), m))
  {
    over :| Leads(k, s1, Here(t, stack + over, t, Error(id, kind), m));
  }

  lemma FinallyCorrect<H(!new)>(k: Kit<H>, e: Expr, a: Addr, s: Scope, env: Env, stack: seq<Value>, r: Value, m: Memory<H>,
                                fuel: nat)
    requires e.Finally? && Ready(k, e, a, s, env, stack)
    ensures Right(k, e, a, s, env, stack, r, m, fuel)
    decreases fuel, e, 1
  {
    hide Laid, Leads, Lasts, Fails, Is, Compile, PushCode, Size, PushSize, Eval, Agrees, Builds, Ask;
    EvalOf(k.world, e, env, m, fuel);
    CompileOf(e, a, s);
    LongSizeOf(e);
    FinallyLaid(k.code, e, a, s);
    var s0, h := Here(a, stack, s.onError, r, m), s.onError;
    var n := a + 2 + Size(e.body) + 1;
    var t := n + Size(e.must) + 5;
    RunTry(k, a, stack, h, r, m, t);
    AgreesHandler(s, env, stack, t);
    Correct(k, e.body, a + 2, s.(onError := t), env, stack, r, m, fuel);
    var o, s1 := Eval(k.world, e.body, env, m, fuel), Here(a + 2, stack, t, r, m);
    if o.Done? {
      MustAfter(k, e, n, a + Size(e), s, env, stack, o, fuel);
      LeadsOn(k, s0, s1, Here(n - 1, stack, t, o.value, o.memory));
      DoesOn(k, s0, Here(n - 1, stack, t, o.value, o.memory), EvalFinally(k.world, e, env, m, fuel), a + Size(e), stack, h,
             fuel);
    } else if o.Unfinished? {
      LastsOn(k, s0, s1, fuel);
    } else {
      MustAnyway(k, e, t, a + Size(e), s, env, stack, s1, o, fuel);
      DoesOn(k, s0, s1, EvalFinally(k.world, e, env, m, fuel), a + Size(e), stack, h, fuel);
    }
  }

  lemma MustAfter<H(!new)>(k: Kit<H>, e: Expr, n: Addr, x: Addr, s: Scope, env: Env, stack: seq<Value>, o: Outcome<H>,
                           fuel: nat)
    requires e.Finally? && o.Done? && n > 0 && x == n + Size(e.must) + 10 + Size(e.must) + 2
    requires var p := n + Size(e.must);
             var t := p + 5;
             && Is(k.code, n - 1, Push) && Laid(k.code, n, Compile(e.must, n, s.(onError := t).Up()))
             && Is(k.code, p, Pop) && Is(k.code, p + 1, Try(s.onError)) && Is(k.code, p + 3, Goto(x)) && MustAt(k.code,
                 e.must, t, s)
    requires Scoped(e.must, env.Keys) && Agrees(s, env, stack) && Builds(k)
    ensures var t := n + Size(e.must) + 5;
            Does(k, Here(n - 1, stack, t, o.value, o.memory), MustDone(k.world, e.must, env, o, fuel), x, stack, s.onError,
                 fuel)
    decreases fuel, e, 0
  {
    hide Laid, Leads, Lasts, Fails, Is, Compile, PushCode, Size, PushSize, Eval, Agrees, Builds, Ask, ArgsSize, PartsSize,
         EvalArgs, EvalParts, MustAt, MustThen;
    var p, h := n + Size(e.must), s.onError;
    var t, v := p + 5, o.value;
    var s0, s1 := Here(n - 1, stack, t, v, o.memory), Here(n, stack + [v], t, v, o.memory);
    RunPush(k, n - 1, stack, t, v, o.memory);
    AgreesHandler(s, env, stack, t);
    AgreesUp(s.(onError := t), env, stack, v);
    Correct(k, e.must, n, s.(onError := t).Up(), env, stack + [v], v, o.memory, fuel);
    var o1 := Eval(k.world, e.must, env, o.memory, fuel);
    if o1.Done? {
      LeadsOn(k, s0, s1, Here(p, stack + [v], t, o1.value, o1.memory));
      MustPassed(k, p, stack, v, t, h, o1.value, o1.memory, x);
      LeadsOn(k, s0, Here(p, stack + [v], t, o1.value, o1.memory), Here(x, stack, h, v, o1.memory));
    } else if o1.Failed? {
      DoesOn(k, s0, s1, o1, p, stack + [v], t, fuel);
      DoesThen(k, s0, o1, p, stack + [v], p, stack, t, fuel);
      MustAnyway(k, e, t, x, s, env, stack, s0, o1, fuel);
    } else {
      LastsOn(k, s0, s1, fuel);
    }
  }

  lemma MustPassed<H>(k: Kit<H>, p: Addr, stack: seq<Value>, v: Value, t: Addr, h: Addr, r: Value, m: Memory<H>, x: Addr)
    requires Is(k.code, p, Pop) && Is(k.code, p + 1, Try(h)) && Is(k.code, p + 3, Goto(x))
    ensures Leads(k, Here(p, stack + [v], t, r, m), Here(x, stack, h, v, m))
  {
    hide Leads, Is;
    RunPop(k, p, stack + [v], t, r, m, v);
    assert (stack + [v])[..|stack + [v]| - 1] == stack;
    RunTry(k, p + 1, stack, t, v, m, h);
    RunGoto(k, p + 3, stack, h, v, m, x);
    LeadsOn(k, Here(p, stack + [v], t, r, m), Here(p + 1, stack, t, v, m), Here(p + 3, stack, h, v, m));
    LeadsOn(k, Here(p, stack + [v], t, r, m), Here(p + 3, stack, h, v, m), Here(x, stack, h, v, m));
  }

  lemma MustAnyway<H(!new)>(k: Kit<H>, e: Expr, t: Addr, x: Addr, s: Scope, env: Env, stack: seq<Value>, s1: State<H>,
                            o: Outcome<H>, fuel: nat)
    requires e.Finally? && o.Failed? && Does(k, s1, o, t, stack, t, fuel) && MustAt(k.code, e.must, t, s)
    requires Scoped(e.must, env.Keys) && Agrees(s, env, stack) && Builds(k)
    ensures Does(k, s1, MustThen(k.world, e.must, env, o, fuel), x, stack, s.onError, fuel)
    decreases fuel, e, 0, 0
  {
    hide Laid, Leads, Lasts, Is, Compile, PushCode, Size, PushSize, Eval, Agrees, Builds, Ask, ArgsSize, PartsSize,
         EvalArgs, EvalParts;
    var h, error, q := s.onError, Error(o.id, o.kind), t + 5 + Size(e.must);
    var over := Overhang(k, s1, stack, t, o.id, o.kind, o.memory);
    TopIs(s, env, stack);
    RunCatchX(k, t, stack + over, t, error, o.memory, h, s.top);
    assert (stack + over)[..s.top] == stack;
    LeadsOn(k, s1, Here(t, stack + over, t, error, o.memory), Here(t + 4, stack, h, error, o.memory));
    RunPush(k, t + 4, stack, h, error, o.memory);
    var s2 := Here(t + 5, stack + [error], h, error, o.memory);
    LeadsOn(k, s1, Here(t + 4, stack, h, error, o.memory), s2);
    AgreesUp(s, env, stack, error);
    Correct(k, e.must, t + 5, s.Up(), env, stack + [error], error, o.memory, fuel);
    var o1 := Eval(k.world, e.must, env, o.memory, fuel);
    if o1.Done? {
      LeadsOn(k, s1, s2, Here(q, stack + [error], h, o1.value, o1.memory));
      RunPop(k, q, stack + [error], h, o1.value, o1.memory, error);
      assert (stack + [error])[..|stack + [error]| - 1] == stack;
      LeadsOn(k, s1, Here(q, stack + [error], h, o1.value, o1.memory), Here(q + 1, stack, h, error, o1.memory));
      RunRetry(k, q + 1, stack, h, error, o1.memory);
      LeadsOn(k, s1, Here(q + 1, stack, h, error, o1.memory), Here(h, stack, h, error, o1.memory));
      FailsAt(k, s1, stack, h, o.id, o.kind, o1.memory, x, fuel);
    } else {
      DoesOn(k, s1, s2, o1, q, stack + [error], h, fuel);
      DoesThen(k, s1, o1, q, stack + [error], x, stack, h, fuel);
    }
  }

  /** The code behind the handler of a `must`. */
  ghost predicate MustAt(code: Code, must: Expr, t: Addr, s: Scope) {
    var q := t + 5 + Size(must);
    && Is(code, t, CatchX(s.onError, s.top)) && Is(code, t + 4, Push) && Laid(code, t + 5, Compile(must, t + 5, s.Up()))
    && Is(code, q, Pop) && Is(code, q + 1, Retry)
  }

  // ---------------------------------------------------------------- loops

  lemma LoopCorrect<H(!new)>(k: Kit<H>, e: Expr, a: Addr, s: Scope, env: Env, stack: seq<Value>, r: Value, m: Memory<H>,
                             fuel: nat)
    requires e.Loop? && Ready(k, e, a, s, env, stack)
    ensures Right(k, e, a, s, env, stack, r, m, fuel)
    decreases fuel, e, 1
  {
    hide Laid, Leads, Lasts, Fails, Is, Compile, PushCode, Size, PushSize, Eval, Agrees, Builds, Ask;
    EvalOf(k.world, e, env, m, fuel);
    CompileOf(e, a, s);
    LongSizeOf(e);
    LoopLaid(k.code, e, a, s);
    var s0, h := Here(a, stack, s.onError, r, m), s.onError;
    var i := a + Size(e.items) + 1;
    Correct(k, e.items, a, s, env, stack, r, m, fuel);
    var o := Eval(k.world, e.items, env, m, fuel);
    if o.Done? {
      var s1, o1 := Here(i - 1, stack, h, o.value, o.memory), Ask(k.world, Iterate, [o.value], o.memory);
      RunFor(k, i - 1, stack, h, o.value, o.memory, fuel);
      DoesOn(k, s0, s1, o1, i, stack, h, fuel);
      if o1.Done? {
        RoundsCorrect(k, e, a, s, env, stack, o1.value, o1.memory, fuel);
        DoesOn(k, s0, Here(i, stack, h, o1.value, o1.memory), Rounds(k.world, e, o1.value, env, o1.memory, fuel),
               a + Size(e), stack, h, fuel);
      }
    }
  }

  /** What the rounds of a loop need. */
  ghost predicate LoopReady<H(!new)>(k: Kit<H>, e: Expr, a: Addr, s: Scope, env: Env, stack: seq<Value>)
    requires e.Loop?
  {
    LoopAt(k.code, e, a, s) && Scoped(e, env.Keys) && Agrees(s, env, stack) && Builds(k)
  }

  lemma IterEnds<H>(k: Kit<H>, i: Addr, stack: seq<Value>, h: Addr, m: Memory<H>, x: Addr)
    requires Is(k.code, i, Iter(x))
    ensures Leads(k, Here(i, stack, h, Nil, m), Here(x, stack, h, Nil, m))
  {
    hide Leads, Is;
    RunIter(k, i, stack, h, Nil, m, x);
  }

  lemma IterGoesOn<H>(k: Kit<H>, i: Addr, stack: seq<Value>, h: Addr, v: Value, m: Memory<H>, x: Addr)
    requires Is(k.code, i, Iter(x)) && v != Nil
    ensures Advance(k.code, k.prim, k.world.callee, Here(i, stack, h, v, m)) == Here(i + 2, stack + [v], h, v, m)
  {
  }

  /** A step more: what is left after it may last one step less. */
  lemma DoesNext<H>(k: Kit<H>, s0: State<H>, o: Outcome<H>, exit: Addr, stack: seq<Value>, h: Addr, fuel: nat)
    requires fuel > 0 && Does(k, Advance(k.code, k.prim, k.world.callee, s0), o, exit, stack, h, fuel - 1)
    ensures Does(k, s0, o, exit, stack, h, fuel)
  {
    hide Advance, Leads, Lasts;
    if o.Unfinished? {
      LastsLonger(k, s0, fuel - 1);
    } else {
      Once(k, s0);
      DoesOn(k, s0, Advance(k.code, k.prim, k.world.callee, s0), o, exit, stack, h, fuel);
    }
  }

  lemma NotYet<H>(k: Kit<H>, s0: State<H>)
    requires s0.Running?
    ensures Lasts(k, s0, 0)
  {
    assert From(k, s0, 0) == s0;
  }

  lemma RoundsCorrect<H(!new)>(k: Kit<H>, e: Expr, a: Addr, s: Scope, env: Env, stack: seq<Value>, v: Ordinary,
                               m: Memory<H>, fuel: nat)
    requires e.Loop? && LoopReady(k, e, a, s, env, stack)
    ensures Does(k, Here(a + Size(e.items) + 1, stack, s.onError, v, m), Rounds(k.world, e, v, env, m, fuel), a + Size(e),
                 stack, s.onError, fuel)
    decreases fuel, e, 0
  {
    hide Laid, Leads, Lasts, Fails, Is, Compile, PushCode, Size, PushSize, Eval, Agrees, Builds, Ask, ArgsSize, PartsSize,
         EvalArgs, EvalParts, Round, Scoped, Advance;
    var i, h := a + Size(e.items) + 1, s.onError;
    if v == Nil {
      IterEnds(k, i, stack, h, m, a + Size(e));
    } else if fuel == 0 {
      NotYet(k, Here(i, stack, h, v, m));
    } else {
      IterGoesOn(k, i, stack, h, v, m, a + Size(e));
      RoundCorrect(k, e, a, s, env, stack, v, m, fuel);
      DoesNext(k, Here(i, stack, h, v, m), Rounds(k.world, e, v, env, m, fuel), a + Size(e), stack, h, fuel);
    }
  }

  lemma RoundCorrect<H(!new)>(k: Kit<H>, e: Expr, a: Addr, s: Scope, env: Env, stack: seq<Value>, v: Ordinary, m: Memory<H>,
                              fuel: nat)
    requires e.Loop? && fuel > 0 && LoopReady(k, e, a, s, env, stack)
    ensures var i := a + Size(e.items) + 1;
            Does(k, Here(i + 2, stack + [v], s.onError, v, m), Round(k.world, e, v, env, m, fuel), a + Size(e), stack,
                 s.onError, fuel - 1)
    decreases fuel, e, 0, 3
  {
    hide Laid, Leads, Lasts, Fails, Is, Compile, PushCode, Size, PushSize, Eval, Agrees, Builds, Ask, ArgsSize, PartsSize,
         EvalArgs, EvalParts, AskKey, ValuePlace, Below, Keyed;
    var i, h := a + Size(e.items) + 1, s.onError;
    var s0, o := Here(i + 2, stack + [v], h, v, m), AskKey(k.world, e.key, v, m);
    KeyCorrect(k, e, a, s, stack, v, m, fuel - 1);
    if o.Done? {
      var r1: Value :| Leads(k, s0, Here(ValuePlace(e, a), Below(e, stack, v, o.value), h, r1, o.memory));
      KeyedCorrect(k, e, a, s, env, stack, v, o.value, r1, o.memory, fuel);
      DoesOn(k, s0, Here(ValuePlace(e, a), Below(e, stack, v, o.value), h, r1, o.memory), Keyed(k.world, e, v, o.value, env,
          o.memory, fuel),
             a + Size(e), stack, h, fuel - 1);
    }
  }

  /** What is on the stack when the value of a round is asked for: the iterator, and the key if there is one. */
  function Below(e: Expr, stack: seq<Value>, v: Ordinary, key: Ordinary): seq<Value>
    requires e.Loop?
  {
    if e.key.Key? then stack + [v] + [key] else stack + [v]
  }

  function ValuePlace(e: Expr, a: Addr): Addr
    requires e.Loop?
  {
    a + Size(e.items) + 3 + if e.key.Key? then 3 else 0
  }

  lemma KeyCorrect<H>(k: Kit<H>, e: Expr, a: Addr, s: Scope, stack: seq<Value>, v: Ordinary, m: Memory<H>, fuel: nat)
    requires e.Loop? && LoopAt(k.code, e, a, s)
    ensures var i, o := a + Size(e.items) + 1, AskKey(k.world, e.key, v, m);
            var s0 := Here(i + 2, stack + [v], s.onError, v, m);
            if o.Done? then exists r: Value :: Leads(k, s0, Here(ValuePlace(e, a), Below(e, stack, v, o.value), s.onError,
                                                                 r, o.memory))
            else Does(k, s0, o, a + Size(e), stack, s.onError, fuel)
  {
    hide Leads, Lasts, Fails, Is, Ask, Laid, Compile, Size, LoopScope;
    var i, h := a + Size(e.items) + 1, s.onError;
    var s0, o := Here(i + 2, stack + [v], h, v, m), AskKey(k.world, e.key, v, m);
    if e.key.Key? {
      RunIterKey(k, i + 2, stack, h, v, m, fuel, v);
      if o.Done? {
        RunWith(k, i + 3, stack + [v], h, o.value, o.memory);
        LeadsOn(k, s0, Here(i + 3, stack + [v], h, o.value, o.memory), Here(i + 5, stack + [v] + [o.value], h, o.value,
            o.memory));
        assert Leads(k, s0, Here(ValuePlace(e, a), Below(e, stack, v, o.value), h, o.value, o.memory));
      } else {
        DoesThen(k, s0, o, i + 3, stack + [v], a + Size(e), stack, h, fuel);
      }
    } else {
      Stays(k, s0);
      assert Leads(k, s0, Here(ValuePlace(e, a), Below(e, stack, v, o.value), h, v, o.memory));
    }
  }

  lemma KeyedCorrect<H(!new)>(k: Kit<H>, e: Expr, a: Addr, s: Scope, env: Env, stack: seq<Value>, v: Ordinary,
                              key: Ordinary, r: Value, m: Memory<H>, fuel: nat)
    requires e.Loop? && fuel > 0 && LoopReady(k, e, a, s, env, stack)
    ensures Does(k, Here(ValuePlace(e, a), Below(e, stack, v, key), s.onError, r, m), Keyed(k.world, e, v, key, env, m,
        fuel), a + Size(e), stack,
                 s.onError, fuel - 1)
    decreases fuel, e, 0, 2
  {
    hide Laid, Leads, Lasts, Fails, Is, Compile, PushCode, Size, PushSize, Eval, Agrees, Builds, Ask, ArgsSize, PartsSize,
         EvalArgs, EvalParts, Valued, LoopScope;
    var b, h, below := ValuePlace(e, a), s.onError, Below(e, stack, v, key);
    var s0, o, x := Here(b, below, h, r, m), Ask(k.world, ValueOf, [v], m), a + Size(e);
    RunIterValue(k, b, below, h, r, m, fuel - 1, if e.key.Key? then 2 else 1);
    if o.Done? {
      RunWith(k, b + 1, below, h, o.value, o.memory);
      var s1 := Here(b + 3, below + [o.value], h, o.value, o.memory);
      LeadsOn(k, s0, Here(b + 1, below, h, o.value, o.memory), s1);
      BodyCorrect(k, e, a, s, env, stack, v, key, o.value, o.memory, fuel);
      DoesOn(k, s0, s1, Valued(k.world, e, v, key, o.value, env, o.memory, fuel), x, stack, h, fuel - 1);
    } else {
      assert stack <= below;
      DoesThen(k, s0, o, b + 1, below, x, stack, h, fuel - 1);
    }
  }

  lemma BodyCorrect<H(!new)>(k: Kit<H>, e: Expr, a: Addr, s: Scope, env: Env, stack: seq<Value>, v: Ordinary, key: Ordinary,
                             x: Ordinary, m: Memory<H>, fuel: nat)
    requires e.Loop? && fuel > 0 && LoopReady(k, e, a, s, env, stack)
    ensures Does(k, Here(ValuePlace(e, a) + 3, Below(e, stack, v, key) + [x], s.onError, x, m), Valued(k.world, e, v, key,
        x, env, m, fuel),
                 a + Size(e), stack, s.onError, fuel - 1)
    decreases fuel, e, 0, 1
  {
    hide Laid, Leads, Lasts, Fails, Is, Compile, PushCode, Size, PushSize, Eval, Agrees, Builds, Ask, ArgsSize, PartsSize,
         EvalArgs, EvalParts, LoopScope, InRound;
    var b, h, full := ValuePlace(e, a) + 3, s.onError, Below(e, stack, v, key) + [x];
    var env1 := InRound(e.key, e.name, env, key, x);
    var s0, o := Here(b, full, h, x, m), Eval(k.world, e.body, env1, m, fuel - 1);
    AgreesRound(e, s, env, stack, v, key, x);
    Correct(k, e.body, b, LoopScope(e, s), env1, full, x, m, fuel - 1);
    if o.Done? {
      var c := b + Size(e.body);
      BodyEnds(k, e, c, stack, h, v, key, x, o.value, o.memory);
      var s1, o1 := Here(c + 3, stack + [v], h, o.value, o.memory), Ask(k.world, Advancing, [v], o.memory);
      LeadsOn(k, s0, Here(c, full, h, o.value, o.memory), s1);
      RunIterNext(k, c + 3, stack, h, o.value, o.memory, fuel - 1, v, a + Size(e.items) + 1);
      DoesOn(k, s0, s1, o1, a + Size(e.items) + 1, stack, h, fuel - 1);
      if o1.Done? {
        RoundsCorrect(k, e, a, s, env, stack, o1.value, o1.memory, fuel - 1);
        DoesOn(k, s0, Here(a + Size(e.items) + 1, stack, h, o1.value, o1.memory), Rounds(k.world, e, o1.value, env,
            o1.memory, fuel - 1),
               a + Size(e), stack, h, fuel - 1);
      }
    } else {
      assert stack <= full;
      DoesThen(k, s0, o, b + Size(e.body), full, a + Size(e), stack, h, fuel - 1);
    }
  }

  lemma AgreesRound(e: Expr, s: Scope, env: Env, stack: seq<Value>, v: Ordinary, key: Ordinary, x: Ordinary)
    requires e.Loop? && Agrees(s, env, stack)
    ensures Agrees(LoopScope(e, s), InRound(e.key, e.name, env, key, x), Below(e, stack, v, key) + [x])
    ensures InRound(e.key, e.name, env, key, x).Keys == env.Keys + (if e.key.Key? then {e.key.name} else {}) + {e.name}
    ensures LoopScope(e, s).onError == s.onError
  {
    hide Agrees;
    AgreesUp(s, env, stack, v);
    if e.key.Key? {
      AgreesBind(s.Up(), env, stack + [v], e.key.name, key);
      AgreesBind(s.Up().Bind(e.key.name), env[e.key.name := key], stack + [v] + [key], e.name, x);
    } else {
      AgreesBind(s.Up(), env, stack + [v], e.name, x);
    }
  }

  lemma BodyEnds<H>(k: Kit<H>, e: Expr, c: Addr, stack: seq<Value>, h: Addr, v: Ordinary, key: Ordinary, x: Ordinary,
                    r: Value, m: Memory<H>)
    requires e.Loop? && Is(k.code, c, Exit(if e.key.Key? then 2 else 1))
    ensures Leads(k, Here(c, Below(e, stack, v, key) + [x], h, r, m), Here(c + 3, stack + [v], h, r, m))
  {
    hide Leads, Is;
    var full, n := Below(e, stack, v, key) + [x], if e.key.Key? then 2 else 1;
    RunExit(k, c, full, h, r, m, n);
    assert full[..|full| - n] == stack + [v];
  }

  // ---------------------------------------------------------------- strings

  lemma PrimMoves<H>(k: Kit<H>, a: Addr, stack: seq<Value>, h: Addr, r: Value, m: Memory<H>, op: nat, cells: nat)
    requires Is(k.code, a, Prim(op, [], cells)) && k.prim(op, r, stack, m.heap).Fine?
    ensures var out := k.prim(op, r, stack, m.heap);
            Leads(k, Here(a, stack, h, r, m), Here(a + cells, Dropped(stack, out.pops) + out.pushes, h, out.result,
                                                   m.(heap := out.heap)))
  {
    hide Leads;
    Once(k, Here(a, stack, h, r, m));
  }

  lemma BuildsHere<H(!new)>(k: Kit<H>, r: Value, stack: seq<Value>, heap: H)
    requires Builds(k)
    ensures BuildsAt(k, r, stack, heap)
  {
  }

  ghost predicate PartsReady<H(!new)>(k: Kit<H>, parts: Parts, a: Addr, s: Scope, env: Env, stack: seq<Value>) {
    Laid(k.code, a, PartsCode(parts, a, s)) && PartsScoped(parts, env.Keys) && Agrees(s, env, stack) && Builds(k)
  }

  ghost predicate Full<H>(k: Kit<H>, s0: State<H>, buffer: Ordinary, x: Addr, stack: seq<Value>, h: Addr, r: Value,
                          m: Memory<H>, o: Outcome<H>) {
    var made := k.world.strings.finish(buffer, m.heap);
    Leads(k, s0, Here(x, stack + [buffer], h, r, m)) && o == Done(made.0, m.(heap := made.1))
  }

  /** Behind the parts of a string the buffer is on top of the stack, and what is in it is the string. */
  ghost predicate PartsRight<H(!new)>(k: Kit<H>, parts: Parts, buffer: Ordinary, a: Addr, s: Scope, env: Env,
                                      stack: seq<Value>, r: Value,
                                m: Memory<H>, fuel: nat) {
    var s0, x, o := Here(a, stack + [buffer], s.onError, r, m), a + PartsSize(parts), EvalParts(k.world, parts, buffer, env,
        m, fuel);
    if o.Done? then exists r1: Value, m1: Memory<H> :: Full(k, s0, buffer, x, stack, s.onError, r1, m1, o)
    else Does(k, s0, o, x, stack, s.onError, fuel)
  }

  lemma PartsOn<H(!new)>(k: Kit<H>, s0: State<H>, parts: Parts, buffer: Ordinary, a: Addr, s: Scope, env: Env,
                         stack: seq<Value>, r: Value, m: Memory<H>, fuel: nat, parts0: Parts, a0: Addr, r0: Value,
                         m0: Memory<H>)
    requires s0 == Here(a0, stack + [buffer], s.onError, r0, m0) && Leads(k, s0, Here(a, stack + [buffer], s.onError, r, m))
    requires PartsRight(k, parts, buffer, a, s, env, stack, r, m, fuel)
    requires EvalParts(k.world, parts0, buffer, env, m0, fuel) == EvalParts(k.world, parts, buffer, env, m, fuel)
    requires a0 + PartsSize(parts0) == a + PartsSize(parts)
    ensures PartsRight(k, parts0, buffer, a0, s, env, stack, r0, m0, fuel)
  {
    hide Leads, Lasts, Fails, EvalParts, PartsSize;
    var s1, x, o := Here(a, stack + [buffer], s.onError, r, m), a + PartsSize(parts), EvalParts(k.world, parts, buffer, env,
        m, fuel);
    if o.Done? {
      var r1: Value, m1 :| Full(k, s1, buffer, x, stack, s.onError, r1, m1, o);
      LeadsOn(k, s0, s1, Here(x, stack + [buffer], s.onError, r1, m1));
      assert Full(k, s0, buffer, x, stack, s.onError, r1, m1, o);
      assert Full(k, Here(a0, stack + [buffer], s.onError, r0, m0), buffer, a0 + PartsSize(parts0), stack, s.onError, r1, m1,
                  EvalParts(k.world, parts0, buffer, env, m0, fuel));
    } else {
      DoesOn(k, s0, s1, o, x, stack, s.onError, fuel);
    }
  }

  lemma NoPartsCorrect<H(!new)>(k: Kit<H>, parts: Parts, buffer: Ordinary, a: Addr, s: Scope, env: Env, stack: seq<Value>,
                                r: Value, m: Memory<H>, fuel: nat)
    requires parts.NoParts?
    ensures PartsRight(k, parts, buffer, a, s, env, stack, r, m, fuel)
  {
    hide Leads, Lasts, Fails;
    var s0 := Here(a, stack + [buffer], s.onError, r, m);
    Stays(k, s0);
    assert Full(k, s0, buffer, a + PartsSize(parts), stack, s.onError, r, m, EvalParts(k.world, parts, buffer, env, m,
        fuel));
  }

  lemma PartsCorrect<H(!new)>(k: Kit<H>, parts: Parts, buffer: Ordinary, a: Addr, s: Scope, env: Env, stack: seq<Value>,
                              r: Value, m: Memory<H>, fuel: nat)
    requires PartsReady(k, parts, a, s, env, stack + [buffer])
    ensures PartsRight(k, parts, buffer, a, s, env, stack, r, m, fuel)
    decreases fuel, parts, 1
  {
    hide Laid, Leads, Lasts, Fails, Is, Compile, PushCode, Size, PushSize, Eval, Agrees, Builds, Ask, ArgsSize, EvalArgs;
    match parts
    case NoParts => NoPartsCorrect(k, parts, buffer, a, s, env, stack, r, m, fuel);
    case Chars(_, _) => CharsCorrect(k, parts, buffer, a, s, env, stack, r, m, fuel);
    case Filled(_, _) => FilledCorrect(k, parts, buffer, a, s, env, stack, r, m, fuel);
  }

  lemma CharsCorrect<H(!new)>(k: Kit<H>, parts: Parts, buffer: Ordinary, a: Addr, s: Scope, env: Env, stack: seq<Value>,
                              r: Value, m: Memory<H>, fuel: nat)
    requires parts.Chars? && PartsReady(k, parts, a, s, env, stack + [buffer])
    ensures PartsRight(k, parts, buffer, a, s, env, stack, r, m, fuel)
    decreases fuel, parts, 0
  {
    hide Laid, Leads, Lasts, Fails, Is, Compile, PushCode, Size, PushSize, Eval, Agrees, Builds, Ask, ArgsSize, EvalArgs,
         PartsRight;
    var s0, h := Here(a, stack + [buffer], s.onError, r, m), s.onError;
    CharsLaid(k.code, parts, a, s);
    BuildsHere(k, r, stack + [buffer], m.heap);
    var out, m1 := k.prim(AddsText(parts.chars), r, stack + [buffer], m.heap), m.(heap := k.world.strings.add(parts.chars,
        buffer, m.heap));
    assert Adds(out, m1.heap);
    PrimMoves(k, a, stack + [buffer], h, r, m, AddsText(parts.chars), 3);
    assert Dropped(stack + [buffer], 0) + [] == stack + [buffer];
    PartsCorrect(k, parts.rest, buffer, a + 3, s, env, stack, out.result, m1, fuel);
    PartsOn(k, s0, parts.rest, buffer, a + 3, s, env, stack, out.result, m1, fuel, parts, a, r, m);
  }

  lemma FilledCorrect<H(!new)>(k: Kit<H>, parts: Parts, buffer: Ordinary, a: Addr, s: Scope, env: Env, stack: seq<Value>,
                               r: Value, m: Memory<H>, fuel: nat)
    requires parts.Filled? && PartsReady(k, parts, a, s, env, stack + [buffer])
    ensures PartsRight(k, parts, buffer, a, s, env, stack, r, m, fuel)
    decreases fuel, parts, 0
  {
    hide Laid, Leads, Lasts, Fails, Is, Compile, PushCode, Size, PushSize, Eval, Agrees, Builds, Ask, ArgsSize, EvalArgs,
         Passes, Adding, Width, Appended;
    var s0, h, b := Here(a, stack + [buffer], s.onError, r, m), s.onError, a + ArgsSize(parts.args);
    FilledLaid(k.code, parts, a, s);
    ArgsCorrect(k, parts.args, a, a, 0, s, env, stack + [buffer], r, m, fuel);
    var given := EvalArgs(k.world, parts.args, env, m, fuel);
    PlainGiven(k.world, parts.args, env, m, fuel);
    var o, n := Appended(k.world, buffer, given), b + Width(Adding(parts.args));
    AppendGiven(k, parts.args, buffer, given, a, b, stack, h, r, m, fuel);
    if o.Done? {
      PartsCorrect(k, parts.rest, buffer, n, s, env, stack, o.value, o.memory, fuel);
      PartsOn(k, s0, parts.rest, buffer, n, s, env, stack, o.value, o.memory, fuel, parts, a, r, m);
    } else {
      DoesThen(k, s0, o, n, stack + [buffer], a + PartsSize(parts), stack, h, fuel);
    }
  }

  lemma PlainGiven<H>(w: World<H>, args: Args, env: Env, m: Memory<H>, fuel: nat)
    requires Plain(args)
    ensures !EvalArgs(w, args, env, m, fuel).Skipped?
    decreases args
  {
    hide Eval;
    if args.Arg? {
      var o := Eval(w, args.value, env, m, fuel);
      if o.Done? {
        PlainGiven(w, args.rest, env, o.memory, fuel);
      }
    }
  }

  lemma AppendGiven<H>(k: Kit<H>, args: Args, buffer: Ordinary, given: Given<H>, a: Addr, b: Addr, stack: seq<Value>,
                       h: Addr, r: Value,
                       m: Memory<H>, fuel: nat)
    requires Passes(k, Here(a, stack + [buffer], h, r, m), given, Count(args), b, a, 0, stack + [buffer], h, fuel)
             && !given.Skipped?
    requires args.Arg? && Is(k.code, b, Adding(args))
    ensures Does(k, Here(a, stack + [buffer], h, r, m), Appended(k.world, buffer, given), b + Width(Adding(args)),
                 stack + [buffer], h, fuel)
  {
    hide Leads, Lasts, Fails, Is, Ask;
    var s0, n := Here(a, stack + [buffer], h, r, m), b + Width(Adding(args));
    match given
    case Given(vs, m1) =>
      var r1: Value :| Leads(k, s0, Here(b, stack + [buffer] + vs, h, r1, m1));
      if Count(args) > 1 {
        RunStringAdd(k, b, stack, h, r1, m1, fuel, buffer, vs);
      } else {
        assert vs == [vs[0]] && stack + [buffer] + vs == stack + [buffer, vs[0]] && [buffer] + vs == [buffer, vs[0]];
        RunStringAddOne(k, b, stack, h, r1, m1, fuel, buffer, vs[0]);
      }
      DoesOn(k, s0, Here(b, stack + [buffer] + vs, h, r1, m1), Ask(k.world, Append, [buffer] + vs, m1), n, stack + [buffer],
             h, fuel);
    case Stopped(o) =>
  }

  /** A buffer has been pushed, and the parts of the string are added to it. */
  ghost predicate TextBegun<H(!new)>(k: Kit<H>, parts: Parts, buffer: Ordinary, a: Addr, s: Scope, env: Env,
                                     stack: seq<Value>, r: Value,
                                     m: Memory<H>, m1: Memory<H>, fuel: nat) {
    var b, s1 := a + 1, s.Up();
    exists r1: Value ::
      && Leads(k, Here(a, stack, s.onError, r, m), Here(b, stack + [buffer], s.onError, r1, m1))
      && PartsRight(k, parts, buffer, b, s1, env, stack, r1, m1, fuel)
  }

  lemma TextBuilt<H(!new)>(k: Kit<H>, e: Expr, a: Addr, s: Scope, env: Env, stack: seq<Value>, r: Value, m: Memory<H>,
                           fuel: nat)
    requires e.Text? && Laid(k.code, a + 1, PartsCode(e.parts, a + 1, s.Up())) && Is(k.code, a, Prim(STRING_NEW, [], 1))
    requires PartsScoped(e.parts, env.Keys) && Agrees(s, env, stack) && Builds(k)
    ensures TextBegun(k, e.parts, k.world.strings.make(m.heap).0, a, s, env, stack, r, m,
                      m.(heap := k.world.strings.make(m.heap).1), fuel)
    decreases fuel, e, 0
  {
    hide Laid, Leads, Lasts, Fails, Is, Compile, PushCode, Size, PushSize, Eval, Agrees, Builds, Ask, ArgsSize, PartsSize,
         EvalArgs, EvalParts, PartsRight;
    var buffer := k.world.strings.make(m.heap).0;
    BuildsHere(k, r, stack, m.heap);
    var out, m1 := k.prim(STRING_NEW, r, stack, m.heap), m.(heap := k.world.strings.make(m.heap).1);
    PrimMoves(k, a, stack, s.onError, r, m, STRING_NEW, 1);
    assert Dropped(stack, 0) + [buffer] == stack + [buffer];
    AgreesUp(s, env, stack, buffer);
    PartsCorrect(k, e.parts, buffer, a + 1, s.Up(), env, stack, out.result, m1, fuel);
  }

  lemma TextCorrect<H(!new)>(k: Kit<H>, e: Expr, a: Addr, s: Scope, env: Env, stack: seq<Value>, r: Value, m: Memory<H>,
                             fuel: nat)
    requires e.Text? && Ready(k, e, a, s, env, stack)
    ensures Right(k, e, a, s, env, stack, r, m, fuel)
    decreases fuel, e, 1
  {
    hide Laid, Leads, Lasts, Fails, Is, Compile, PushCode, Size, PushSize, Eval, Agrees, Builds, Ask, PartsCode, PartsSize,
         EvalParts;
    EvalOf(k.world, e, env, m, fuel);
    CompileOf(e, a, s);
    SizeOf(e);
    TextLaid(k.code, e.parts, STRING_POP, a, s);
    var s0, h := Here(a, stack, s.onError, r, m), s.onError;
    TextBuilt(k, e, a, s, env, stack, r, m, fuel);
    var buffer := k.world.strings.make(m.heap).0;
    var m1, o, x := m.(heap := k.world.strings.make(m.heap).1), EvalText(k.world, e.parts, env, m, fuel),
      a + 1 + PartsSize(e.parts);
    var r1: Value :| Leads(k, s0, Here(a + 1, stack + [buffer], h, r1, m1)) && PartsRight(k, e.parts, buffer, a + 1, s.Up(),
        env, stack, r1, m1, fuel);
    var s1 := Here(a + 1, stack + [buffer], h, r1, m1);
    if o.Done? {
      var r2: Value, m2 :| Full(k, s1, buffer, x, stack, h, r2, m2, o);
      BuildsHere(k, r2, stack + [buffer], m2.heap);
      PrimMoves(k, x, stack + [buffer], h, r2, m2, STRING_POP, 1);
      assert Dropped(stack + [buffer], 1) + [] == stack;
      LeadsOn(k, s0, s1, Here(x, stack + [buffer], h, r2, m2));
      LeadsOn(k, s0, Here(x, stack + [buffer], h, r2, m2), Here(x + 1, stack, h, o.value, o.memory));
    } else {
      DoesOn(k, s0, s1, o, x, stack, h, fuel);
    }
  }

  lemma TextPushed<H(!new)>(k: Kit<H>, e: Expr, a: Addr, s: Scope, env: Env, stack: seq<Value>, r: Value, m: Memory<H>,
                            fuel: nat)
    requires e.Text? && Laid(k.code, a, PushCode(e, a, s)) && Scoped(e, env.Keys) && Agrees(s, env, stack) && Builds(k)
    ensures PushRight(k, e, a, s, env, stack, r, m, fuel)
    decreases fuel, e, 1
  {
    hide Laid, Leads, Lasts, Fails, Is, Compile, Size, Eval, Agrees, Builds, Ask, ArgsSize, PartsSize, EvalArgs, EvalParts;
    EvalOf(k.world, e, env, m, fuel);
    SizeOf(e);
    TextLaid(k.code, e.parts, STRING_END, a, s);
    var s0, h := Here(a, stack, s.onError, r, m), s.onError;
    TextBuilt(k, e, a, s, env, stack, r, m, fuel);
    var buffer := k.world.strings.make(m.heap).0;
    var m1, o, x := m.(heap := k.world.strings.make(m.heap).1), EvalText(k.world, e.parts, env, m, fuel),
      a + 1 + PartsSize(e.parts);
    var r1: Value :| Leads(k, s0, Here(a + 1, stack + [buffer], h, r1, m1)) && PartsRight(k, e.parts, buffer, a + 1, s.Up(),
        env, stack, r1, m1, fuel);
    var s1 := Here(a + 1, stack + [buffer], h, r1, m1);
    if o.Done? {
      var r2: Value, m2 :| Full(k, s1, buffer, x, stack, h, r2, m2, o);
      BuildsHere(k, r2, stack + [buffer], m2.heap);
      PrimMoves(k, x, stack + [buffer], h, r2, m2, STRING_END, 1);
      assert Dropped(stack + [buffer], 1) + [o.value] == stack + [o.value];
      LeadsOn(k, s0, s1, Here(x, stack + [buffer], h, r2, m2));
      LeadsOn(k, s0, Here(x, stack + [buffer], h, r2, m2), Here(x + 1, stack + [o.value], h, k.prim(STRING_END, r2,
          stack + [buffer], m2.heap).result, o.memory));
    } else {
      DoesOn(k, s0, s1, o, x, stack, h, fuel);
    }
  }

  lemma Correct<H(!new)>(k: Kit<H>, e: Expr, a: Addr, s: Scope, env: Env, stack: seq<Value>, r: Value, m: Memory<H>,
                         fuel: nat)
    requires Ready(k, e, a, s, env, stack)
    ensures Right(k, e, a, s, env, stack, r, m, fuel)
    decreases fuel, e, 2
  {
    hide Ready, Right;
    match e
    case Negation(_) => NegationCorrect(k, e, a, s, env, stack, r, m, fuel);
    case Conjunction(_, _) => ConjunctionCorrect(k, e, a, s, env, stack, r, m, fuel);
    case Disjunction(_, _) => DisjunctionCorrect(k, e, a, s, env, stack, r, m, fuel);
    case Alternative(_, _, _) => AlternativeCorrect(k, e, a, s, env, stack, r, m, fuel);
    case Sequence(_, _) => SequenceCorrect(k, e, a, s, env, stack, r, m, fuel);
    case Binding(_) => BindingCorrect(k, e, a, s, env, stack, r, m, fuel);
    case Selection(_, _) => SelectionCorrect(k, e, a, s, env, stack, r, m, fuel);
    case Application(_, _) => ApplicationCorrect(k, e, a, s, env, stack, r, m, fuel);
    case Loop(_, _, _, _) => LoopCorrect(k, e, a, s, env, stack, r, m, fuel);
    case Assignment(_, _) => AssignmentCorrect(k, e, a, s, env, stack, r, m, fuel);
    case Resolution(_, _) => ResolutionCorrect(k, e, a, s, env, stack, r, m, fuel);
    case Text(_) => TextCorrect(k, e, a, s, env, stack, r, m, fuel);
    case Rescue(_, _, _) => RescueCorrect(k, e, a, s, env, stack, r, m, fuel);
    case Finally(_, _) => FinallyCorrect(k, e, a, s, env, stack, r, m, fuel);
    case _ => LeafCorrect(k, e, a, s, env, stack, r, m, fuel);
  }
}
