/** Functions whose body is an expression: what their frame ends with (src/ml_compiler.c, src/ml_bytecode.c). */
module ExpressionProgram {
  import opened FrameMachine
  import opened FrameCells
  import opened Expressions
  import opened ExpressionCode
  import opened ExpressionRun
  import opened ExpressionLayout
  import opened ExpressionCorrect

  /** The body, and a RETURN that is the handler where no other is in force. */
  function FunctionCode(e: Expr, a: Addr, names: map<string, nat>, top: nat): seq<Inst> {
    Compile(e, a, Scope(top, names, a + Size(e))) + [Return]
  }

  /** A frame for the function can be entered with its arguments on the stack. */
  ghost predicate Entry<H(!new)>(k: Kit<H>, e: Expr, a: Addr, names: map<string, nat>, env: Env, args: seq<Value>) {
    && Laid(k.code, a, FunctionCode(e, a, names, |args|)) && Scoped(e, env.Keys)
    && Agrees(Scope(|args|, names, a + Size(e)), env, args) && Builds(k)
  }

  /** The frame ends with a value or an error. */
  ghost predicate Ends<H>(k: Kit<H>, s: State<H>, v: Value) {
    exists n: nat :: From(k, s, n) == Finished(v)
  }

  predicate Answers<H>(o: Outcome<H>, v: Value) {
    match o
    case Done(value, _) => v == value
    case Failed(id, kind, _) => v == Error(id, kind)
    case Unfinished => false
  }

  lemma LeadsToEnd<H>(k: Kit<H>, s: State<H>, a: Addr, stack: seq<Value>, h: Addr, r: Value, m: Memory<H>)
    requires Leads(k, s, Here(a, stack, h, r, m)) && Is(k.code, a, Return)
    ensures Ends(k, s, r)
  {
    hide Leads;
    Once(k, Here(a, stack, h, r, m));
    LeadsOn(k, s, Here(a, stack, h, r, m), Finished(r));
    LeadsEnds(k, s, r);
  }

  lemma LeadsEnds<H>(k: Kit<H>, s: State<H>, r: Value)
    requires Leads(k, s, Finished(r))
    ensures Ends(k, s, r)
  {
  }

  /** A frame stays what it is once it has stopped. */
  lemma Later<H>(k: Kit<H>, s: State<H>, n: nat, n': nat)
    requires n <= n' && !From(k, s, n).Running?
    ensures From(k, s, n') == From(k, s, n)
  {
    RunAdd(k.code, k.prim, k.world.callee, s, n, n' - n);
    RunStays(k.code, k.prim, k.world.callee, From(k, s, n), n' - n);
  }

  lemma EndsOnce<H>(k: Kit<H>, s: State<H>, n: nat, n': nat)
    requires From(k, s, n).Finished? && !From(k, s, n').Running?
    ensures From(k, s, n') == From(k, s, n)
  {
    hide From;
    if n <= n' {
      Later(k, s, n, n');
    } else {
      Later(k, s, n', n);
    }
  }

  /** A frame that enters the function ends with what the body evaluates to; while the evaluation takes more
      rounds of loops than `fuel`, it is still running after as many steps. */
  lemma ProgramRuns<H(!new)>(k: Kit<H>, e: Expr, a: Addr, names: map<string, nat>, env: Env, args: seq<Value>, r: Value,
                             m: Memory<H>, fuel: nat)
    requires Entry(k, e, a, names, env, args)
    ensures var s, o := Here(a, args, a + Size(e), r, m), Eval(k.world, e, env, m, fuel);
            if o.Unfinished? then Lasts(k, s, fuel) else Ends(k, s, if o.Done? then o.value else Error(o.id, o.kind))
  {
    hide Compile, Size, Eval, Scoped, Agrees, Builds, Leads, Lasts, Ends, Laid, Is, Fails;
    var x := a + Size(e);
    var scope, s, o := Scope(|args|, names, x), Here(a, args, x, r, m), Eval(k.world, e, env, m, fuel);
    SizeIs(e, a, scope);
    Parts2(k.code, a, Compile(e, a, scope), Return);
    Correct(k, e, a, scope, env, args, r, m, fuel);
    if o.Done? {
      LeadsToEnd(k, s, x, args, x, o.value, o.memory);
    } else if o.Failed? {
      var over := Overhang(k, s, args, x, o.id, o.kind, o.memory);
      LeadsToEnd(k, s, x, args + over, x, Error(o.id, o.kind), o.memory);
    }
  }

  /** The frame ends with `v` exactly if the evaluation answers `v` with some number of rounds. It never
      crashes. */
  lemma ProgramExactly<H(!new)>(k: Kit<H>, e: Expr, a: Addr, names: map<string, nat>, env: Env, args: seq<Value>, r: Value,
                                m: Memory<H>, v: Value)
    requires Entry(k, e, a, names, env, args)
    ensures var s := Here(a, args, a + Size(e), r, m);
            && (Ends(k, s, v) <==> exists fuel: nat :: Answers(Eval(k.world, e, env, m, fuel), v))
            && forall n: nat :: From(k, s, n) != Crashed
  {
    hide Size, Eval, Entry, From;
    var s := Here(a, args, a + Size(e), r, m);
    if Ends(k, s, v) {
      var n: nat :| From(k, s, n) == Finished(v);
      Settled(k, e, a, names, env, args, r, m, n);
      assert Answers(Eval(k.world, e, env, m, n + 1), v);
    }
    if fuel: nat :| Answers(Eval(k.world, e, env, m, fuel), v) {
      ProgramRuns(k, e, a, names, env, args, r, m, fuel);
    }
    forall n: nat ensures From(k, s, n) != Crashed {
      if !From(k, s, n).Running? {
        Settled(k, e, a, names, env, args, r, m, n);
      }
    }
  }

  lemma Settled<H(!new)>(k: Kit<H>, e: Expr, a: Addr, names: map<string, nat>, env: Env, args: seq<Value>, r: Value,
                         m: Memory<H>, n: nat)
    requires Entry(k, e, a, names, env, args)
    requires !From(k, Here(a, args, a + Size(e), r, m), n).Running?
    ensures var t := From(k, Here(a, args, a + Size(e), r, m), n);
            t.Finished? && Answers(Eval(k.world, e, env, m, n + 1), t.result)
  {
    hide Size, Eval, Entry, From;
    var s := Here(a, args, a + Size(e), r, m);
    ProgramRuns(k, e, a, names, env, args, r, m, n + 1);
    if Lasts(k, s, n + 1) {
      var n1: nat :| n1 >= n + 1 && From(k, s, n1).Running?;
      Later(k, s, n, n1);
      assert false;
    }
    var o := Eval(k.world, e, env, m, n + 1);
    var v := if o.Done? then o.value else Error(o.id, o.kind);
    var n2: nat :| From(k, s, n2) == Finished(v);
    EndsOnce(k, s, n2, n);
  }

  // ---------------------------------------------------------------- examples

  /** The code of `nil and 7`. */
  lemma NilAndCode()
    ensures FunctionCode(Conjunction(Nothing, Constant(Data(7), false)), 0, map[], 0)
         == [LoadNil, And(5), Load(Data(7)), Return]
  {
    var e, s := Conjunction(Nothing, Constant(Data(7), false)), Scope(0, map[], 5);
    assert Size(e.left) == 1 && Size(e.right) == 2 && Size(e) == 5;
    assert Compile(e.left, 0, s) == [LoadNil] && Compile(e.right, 3, s) == [Load(Data(7))];
  }

  /** It ends with nil, and with nothing else. */
  lemma NilAndSeven<H(!new)>(k: Kit<H>, r: Value, m: Memory<H>, v: Value)
    requires k.code == map[0 := LoadNil, 1 := And(5), 3 := Load(Data(7)), 5 := Return] && Builds(k)
    ensures Ends(k, Here(0, [], 5, r, m), v) <==> v == Nil
  {
    hide Builds, Ends, Compile, Size, FunctionCode, Eval, Laid;
    var e := Conjunction(Nothing, Constant(Data(7), false));
    NilAndEntry(k, e);
    NilAndSize(e);
    ProgramExactly(k, e, 0, map[], map[], [], r, m, v);
    NilAndValue(k.world, e, m, 0);
    assert v == Nil ==> Answers(Eval(k.world, e, map[], m, 0), v);
    if fuel: nat :| Answers(Eval(k.world, e, map[], m, fuel), v) {
      NilAndValue(k.world, e, m, fuel);
      assert v == Nil;
    }
    assert Here(0, [], 0 + Size(e), r, m) == Here(0, [], 5, r, m);
  }

  lemma NilAndEntry<H(!new)>(k: Kit<H>, e: Expr)
    requires e == Conjunction(Nothing, Constant(Data(7), false))
    requires k.code == map[0 := LoadNil, 1 := And(5), 3 := Load(Data(7)), 5 := Return] && Builds(k)
    ensures Entry(k, e, 0, map[], map[], [])
  {
    hide Builds, Compile, Size, FunctionCode, Laid;
    NilAndCode();
    NilAndLaid(k.code);
    NilAndSize(e);
    var none: Env := map[];
    assert none.Keys == {};
  }

  lemma NilAndLaid(code: Code)
    requires code == map[0 := LoadNil, 1 := And(5), 3 := Load(Data(7)), 5 := Return]
    ensures Laid(code, 0, [LoadNil, And(5), Load(Data(7)), Return])
  {
    var program := [LoadNil, And(5), Load(Data(7)), Return];
    assert program[1..][1..][1..][1..] == [];
    assert Laid(code, 5, program[1..][1..][1..]);
    assert Laid(code, 3, program[1..][1..]);
    assert Laid(code, 1, program[1..]);
  }

  lemma NilAndSize(e: Expr)
    requires e == Conjunction(Nothing, Constant(Data(7), false))
    ensures Size(e) == 5 && Scoped(e, {})
  {
  }

  lemma NilAndValue<H>(w: World<H>, e: Expr, m: Memory<H>, fuel: nat)
    requires e == Conjunction(Nothing, Constant(Data(7), false))
    ensures Eval(w, e, map[], m, fuel) == Done(Nil, m)
  {
    assert Eval(w, e.left, map[], m, fuel) == Done(Nil, m);
    EvalOf(w, e, map[], m, fuel);
  }

  /** The code of `do nil::member on error do error end`: the handler starts at 9, its error is the local at
      the bottom of the stack. */
  lemma RescueExample(e: Expr, member: Ordinary)
    requires e == Rescue(Resolution(Nothing, member), "error", Variable("error"))
    ensures FunctionCode(e, 0, map[], 0)
         == [Try(9), LoadNil, Resolve(member), Try(20), Goto(20), Catch(20, 0), Inst.Local(1), Exit(1), Goto(20), Return]
  {
    hide Compile, Size;
    var s := Scope(0, map[], 20);
    LongSizeOf(e);
    CompileOf(e, 0, s);
    RescueBody(member, s.(onError := 9));
    RescueHandler(e.name, s.Bind(e.name));
    assert FunctionCode(e, 0, map[], 0) == RescueCode(e, 0, s) + [Return];
  }

  lemma RescueBody(member: Ordinary, s: Scope)
    ensures Size(Resolution(Nothing, member)) == 3
    ensures Compile(Resolution(Nothing, member), 2, s) == [LoadNil, Resolve(member)]
  {
    assert Size(Nothing) == 1 && Compile(Nothing, 2, s) == [LoadNil];
  }

  lemma RescueHandler(x: string, s: Scope)
    requires s.Depth(x) == 1
    ensures Size(Variable(x)) == 2 && Compile(Variable(x), 13, s) == [Inst.Local(1)]
  {
  }
}
