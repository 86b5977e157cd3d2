/** Runs of laid out code: where single instructions lead, and what it means that code does what an
    expression says (src/ml_bytecode.c, src/ml_compiler.c). */
module ExpressionRun {
  import opened FrameMachine
  import opened FrameCells
  import opened Expressions
  import opened ExpressionCode

  /** Code with everything it runs in. */
  datatype Kit<!H> = Kit(code: Code, prim: Prims<H>, world: World<H>)

  // ---------------------------------------------------------------- where code is

  function Total(insts: seq<Inst>): nat {
    if insts == [] then 0 else Width(insts[0]) + Total(insts[1..])
  }

  ghost predicate Is(code: Code, a: Addr, i: Inst) {
    a in code && code[a] == i
  }

  /** The instructions stand one behind the other from an address on. */
  ghost predicate Laid(code: Code, a: Addr, insts: seq<Inst>)
    decreases |insts|
  {
    insts == [] || (a in code && code[a] == insts[0] && Laid(code, a + Width(insts[0]), insts[1..]))
  }

  lemma {:induction false} LaidParts(code: Code, a: Addr, x: seq<Inst>, y: seq<Inst>)
    ensures Total(x + y) == Total(x) + Total(y)
    ensures Laid(code, a, x + y) <==> Laid(code, a, x) && Laid(code, a + Total(x), y)
    decreases |x|
  {
    if x == [] {
      assert x + y == y;
    } else {
      assert (x + y)[1..] == x[1..] + y;
      LaidParts(code, a + Width(x[0]), x[1..], y);
    }
  }

  // ---------------------------------------------------------------- runs

  function Here<H>(a: Addr, stack: seq<Value>, onError: Addr, result: Value, m: Memory<H>): State<H> {
    Running(Core(a, stack, onError, result, m.heap, m.errors))
  }

  function From<H>(k: Kit<H>, s: State<H>, n: nat): State<H> {
    Run(k.code, k.prim, k.world.callee, s, n)
  }

  /** Some number of steps leads from one state to the other. */
  ghost predicate Leads<H>(k: Kit<H>, s: State<H>, t: State<H>) {
    exists n: nat :: From(k, s, n) == t
  }

  /** The frame is still running after at least `fuel` steps. */
  ghost predicate Lasts<H>(k: Kit<H>, s: State<H>, fuel: nat) {
    exists n: nat :: n >= fuel && From(k, s, n).Running?
  }

  /** The error arrives at the handler; the stack has not shrunk below what it was. */
  ghost predicate Fails<H>(k: Kit<H>, s: State<H>, stack: seq<Value>, onError: Addr, error: Value, m: Memory<H>) {
    exists over: seq<Value> :: Leads(k, s, Here(onError, stack + over, onError, error, m))
  }

  /** The frame reaches the exit with the value of the outcome, and stack and handler as they were. */
  ghost predicate Does<H>(k: Kit<H>, s: State<H>, o: Outcome<H>, exit: Addr, stack: seq<Value>, onError: Addr, fuel: nat) {
    match o
    case Done(v, m) => Leads(k, s, Here(exit, stack, onError, v, m))
    case Failed(id, kind, m) => Fails(k, s, stack, onError, Error(id, kind), m)
    case Unfinished => Lasts(k, s, fuel)
  }

  /** The same for code that pushes the value; what is in Result does not matter. */
  ghost predicate Pushes<H>(k: Kit<H>, s: State<H>, o: Outcome<H>, exit: Addr, stack: seq<Value>, onError: Addr, fuel: nat) {
    if o.Done? then exists r: Value :: Leads(k, s, Here(exit, stack + [o.value], onError, r, o.memory))
    else Does(k, s, o, exit, stack, onError, fuel)
  }

  lemma Once<H>(k: Kit<H>, s: State<H>)
    ensures Leads(k, s, Advance(k.code, k.prim, k.world.callee, s))
  {
    hide Advance;
    var t := Advance(k.code, k.prim, k.world.callee, s);
    assert Run(k.code, k.prim, k.world.callee, s, 1) == Run(k.code, k.prim, k.world.callee, t, 0) == t;
    assert From(k, s, 1) == t;
  }

  lemma Stays<H>(k: Kit<H>, s: State<H>)
    ensures Leads(k, s, s)
  {
    assert From(k, s, 0) == s;
  }

  lemma LeadsOn<H>(k: Kit<H>, s: State<H>, t: State<H>, u: State<H>)
    requires Leads(k, s, t) && Leads(k, t, u)
    ensures Leads(k, s, u)
  {
    var n: nat :| From(k, s, n) == t;
    var n': nat :| From(k, t, n') == u;
    RunAdd(k.code, k.prim, k.world.callee, s, n, n');
    assert From(k, s, n + n') == u;
  }

  lemma LastsOn<H>(k: Kit<H>, s: State<H>, t: State<H>, fuel: nat)
    requires Leads(k, s, t) && Lasts(k, t, fuel)
    ensures Lasts(k, s, fuel)
  {
    var n: nat :| From(k, s, n) == t;
    var n': nat :| n' >= fuel && From(k, t, n').Running?;
    RunAdd(k.code, k.prim, k.world.callee, s, n, n');
    assert From(k, s, n + n').Running?;
  }

  /** A step in front makes a run longer by one. */
  lemma LastsLonger<H>(k: Kit<H>, s: State<H>, fuel: nat)
    requires Lasts(k, Advance(k.code, k.prim, k.world.callee, s), fuel)
    ensures Lasts(k, s, fuel + 1)
  {
    hide Advance;
    var n: nat :| n >= fuel && From(k, Advance(k.code, k.prim, k.world.callee, s), n).Running?;
    assert From(k, s, n + 1).Running?;
  }

  lemma DoesOn<H>(k: Kit<H>, s: State<H>, t: State<H>, o: Outcome<H>, exit: Addr, stack: seq<Value>, onError: Addr,
                  fuel: nat)
    requires Leads(k, s, t) && Does(k, t, o, exit, stack, onError, fuel)
    ensures Does(k, s, o, exit, stack, onError, fuel)
  {
    hide Leads, Lasts;
    if o.Done? {
      LeadsOn(k, s, t, Here(exit, stack, onError, o.value, o.memory));
    } else if o.Failed? {
      var over :| Leads(k, t, Here(onError, stack + over, onError, Error(o.id, o.kind), o.memory));
      LeadsOn(k, s, t, Here(onError, stack + over, onError, Error(o.id, o.kind), o.memory));
    } else {
      LastsOn(k, s, t, fuel);
    }
  }

  /** The value is taken on to another exit. */
  lemma DoesThen<H>(k: Kit<H>, s: State<H>, o: Outcome<H>, exit: Addr, stack: seq<Value>, exit': Addr, stack': seq<Value>,
                    onError: Addr, fuel: nat)
    requires Does(k, s, o, exit, stack, onError, fuel) && stack' <= stack
    requires o.Done? ==> Leads(k, Here(exit, stack, onError, o.value, o.memory), Here(exit', stack', onError, o.value,
        o.memory))
    ensures Does(k, s, o, exit', stack', onError, fuel)
  {
    hide Leads, Lasts;
    if o.Done? {
      LeadsOn(k, s, Here(exit, stack, onError, o.value, o.memory), Here(exit', stack', onError, o.value, o.memory));
    } else if o.Failed? {
      FailsBelow(k, s, stack, stack', onError, Error(o.id, o.kind), o.memory);
    }
  }

  lemma FailsBelow<H>(k: Kit<H>, s: State<H>, stack: seq<Value>, stack': seq<Value>, onError: Addr, error: Value,
                      m: Memory<H>)
    requires Fails(k, s, stack, onError, error, m) && stack' <= stack
    ensures Fails(k, s, stack', onError, error, m)
  {
    hide Leads;
    var over :| Leads(k, s, Here(onError, stack + over, onError, error, m));
    assert stack + over == stack' + (stack[|stack'|..] + over);
  }

  // ---------------------------------------------------------------- where single instructions lead

  lemma Moves<H>(k: Kit<H>, c: Core<H>, c': Core<H>)
    requires Step(k.code, k.prim, c) == Next(c')
    ensures Leads(k, Running(c), Running(c'))
  {
    hide Step, Leads;
    Once(k, Running(c));
  }

  lemma RunLoadNil<H>(k: Kit<H>, a: Addr, stack: seq<Value>, h: Addr, r: Value, m: Memory<H>)
    requires Is(k.code, a, LoadNil)
    ensures Leads(k, Here(a, stack, h, r, m), Here(a + 1, stack, h, Nil, m))
  {
    hide Leads, OutStep, SwitchStep, CatchStep, PrimStep;
    Moves(k, Here(a, stack, h, r, m).core, Here(a + 1, stack, h, Nil, m).core);
  }

  lemma RunNilPush<H>(k: Kit<H>, a: Addr, stack: seq<Value>, h: Addr, r: Value, m: Memory<H>)
    requires Is(k.code, a, NilPush)
    ensures Leads(k, Here(a, stack, h, r, m), Here(a + 1, stack + [Nil], h, Nil, m))
  {
    hide Leads, OutStep, SwitchStep, CatchStep, PrimStep;
    Moves(k, Here(a, stack, h, r, m).core, Here(a + 1, stack + [Nil], h, Nil, m).core);
  }

  lemma RunLoad<H>(k: Kit<H>, a: Addr, stack: seq<Value>, h: Addr, r: Value, m: Memory<H>, v: Ordinary)
    requires Is(k.code, a, Load(v))
    ensures Leads(k, Here(a, stack, h, r, m), Here(a + 2, stack, h, v, m))
  {
    hide Leads, OutStep, SwitchStep, CatchStep, PrimStep;
    Moves(k, Here(a, stack, h, r, m).core, Here(a + 2, stack, h, v, m).core);
  }

  lemma RunLoadPush<H>(k: Kit<H>, a: Addr, stack: seq<Value>, h: Addr, r: Value, m: Memory<H>, v: Ordinary)
    requires Is(k.code, a, LoadPush(v))
    ensures Leads(k, Here(a, stack, h, r, m), Here(a + 2, stack + [v], h, v, m))
  {
    hide Leads, OutStep, SwitchStep, CatchStep, PrimStep;
    Moves(k, Here(a, stack, h, r, m).core, Here(a + 2, stack + [v], h, v, m).core);
  }

  lemma RunLocal<H>(k: Kit<H>, a: Addr, stack: seq<Value>, h: Addr, r: Value, m: Memory<H>, d: nat)
    requires Is(k.code, a, Inst.Local(d)) && 0 < d <= |stack|
    ensures Leads(k, Here(a, stack, h, r, m), Here(a + 2, stack, h, stack[|stack| - d], m))
  {
    hide Leads, OutStep, SwitchStep, CatchStep, PrimStep;
    Moves(k, Here(a, stack, h, r, m).core, Here(a + 2, stack, h, stack[|stack| - d], m).core);
  }

  lemma RunLocalPush<H>(k: Kit<H>, a: Addr, stack: seq<Value>, h: Addr, r: Value, m: Memory<H>, d: nat)
    requires Is(k.code, a, LocalPush(d)) && 0 < d <= |stack|
    ensures Leads(k, Here(a, stack, h, r, m), Here(a + 2, stack + [stack[|stack| - d]], h, stack[|stack| - d], m))
  {
    hide Leads, OutStep, SwitchStep, CatchStep, PrimStep;
    Moves(k, Here(a, stack, h, r, m).core, Here(a + 2, stack + [stack[|stack| - d]], h, stack[|stack| - d], m).core);
  }

  lemma RunNot<H>(k: Kit<H>, a: Addr, stack: seq<Value>, h: Addr, r: Value, m: Memory<H>)
    requires Is(k.code, a, Not)
    ensures Leads(k, Here(a, stack, h, r, m), Here(a + 1, stack, h, if r == Nil then Some else Nil, m))
  {
    hide Leads, OutStep, SwitchStep, CatchStep, PrimStep;
    Moves(k, Here(a, stack, h, r, m).core, Here(a + 1, stack, h, if r == Nil then Some else Nil, m).core);
  }

  lemma RunAnd<H>(k: Kit<H>, a: Addr, stack: seq<Value>, h: Addr, r: Value, m: Memory<H>, t: Addr)
    requires Is(k.code, a, And(t))
    ensures Leads(k, Here(a, stack, h, r, m), Here(if r == Nil then t else a + 2, stack, h, r, m))
  {
    hide Leads, OutStep, SwitchStep, CatchStep, PrimStep;
    Moves(k, Here(a, stack, h, r, m).core, Here(if r == Nil then t else a + 2, stack, h, r, m).core);
  }

  lemma RunOr<H>(k: Kit<H>, a: Addr, stack: seq<Value>, h: Addr, r: Value, m: Memory<H>, t: Addr)
    requires Is(k.code, a, Or(t))
    ensures Leads(k, Here(a, stack, h, r, m), Here(if r == Nil then a + 2 else t, stack, h, r, m))
  {
    hide Leads, OutStep, SwitchStep, CatchStep, PrimStep;
    Moves(k, Here(a, stack, h, r, m).core, Here(if r == Nil then a + 2 else t, stack, h, r, m).core);
  }

  lemma RunAndPop<H>(k: Kit<H>, a: Addr, stack: seq<Value>, h: Addr, r: Value, m: Memory<H>, t: Addr, n: nat)
    requires Is(k.code, a, AndPop(t, n)) && n <= |stack|
    ensures Leads(k, Here(a, stack, h, r, m), Here(if r == Nil then t else a + 3,
                                                   if r == Nil then stack[..|stack| - n] else stack, h, r, m))
  {
    hide Leads, OutStep, SwitchStep, CatchStep, PrimStep;
    Moves(k, Here(a, stack, h, r, m).core, Here(if r == Nil then t else a + 3,
                                                if r == Nil then stack[..|stack| - n] else stack, h, r, m).core);
  }

  lemma RunPush<H>(k: Kit<H>, a: Addr, stack: seq<Value>, h: Addr, r: Value, m: Memory<H>)
    requires Is(k.code, a, Push)
    ensures Leads(k, Here(a, stack, h, r, m), Here(a + 1, stack + [r], h, r, m))
  {
    hide Leads, OutStep, SwitchStep, CatchStep, PrimStep;
    Moves(k, Here(a, stack, h, r, m).core, Here(a + 1, stack + [r], h, r, m).core);
  }

  lemma RunWith<H>(k: Kit<H>, a: Addr, stack: seq<Value>, h: Addr, r: Value, m: Memory<H>)
    requires Is(k.code, a, With)
    ensures Leads(k, Here(a, stack, h, r, m), Here(a + 2, stack + [r], h, r, m))
  {
    hide Leads, OutStep, SwitchStep, CatchStep, PrimStep;
    Moves(k, Here(a, stack, h, r, m).core, Here(a + 2, stack + [r], h, r, m).core);
  }

  lemma RunPop<H>(k: Kit<H>, a: Addr, stack: seq<Value>, h: Addr, r: Value, m: Memory<H>, v: Value)
    requires Is(k.code, a, Pop) && stack != [] && v == stack[|stack| - 1]
    ensures Leads(k, Here(a, stack, h, r, m), Here(a + 1, stack[..|stack| - 1], h, v, m))
  {
    hide Leads, OutStep, SwitchStep, CatchStep, PrimStep;
    Moves(k, Here(a, stack, h, r, m).core, Here(a + 1, stack[..|stack| - 1], h, v, m).core);
  }

  lemma RunExit<H>(k: Kit<H>, a: Addr, stack: seq<Value>, h: Addr, r: Value, m: Memory<H>, n: nat)
    requires Is(k.code, a, Exit(n)) && n <= |stack|
    ensures Leads(k, Here(a, stack, h, r, m), Here(a + 3, stack[..|stack| - n], h, r, m))
  {
    hide Leads, OutStep, SwitchStep, CatchStep, PrimStep;
    Moves(k, Here(a, stack, h, r, m).core, Here(a + 3, stack[..|stack| - n], h, r, m).core);
  }

  lemma RunGoto<H>(k: Kit<H>, a: Addr, stack: seq<Value>, h: Addr, r: Value, m: Memory<H>, t: Addr)
    requires Is(k.code, a, Goto(t))
    ensures Leads(k, Here(a, stack, h, r, m), Here(t, stack, h, r, m))
  {
    hide Leads, OutStep, SwitchStep, CatchStep, PrimStep;
    Moves(k, Here(a, stack, h, r, m).core, Here(t, stack, h, r, m).core);
  }

  lemma RunTry<H>(k: Kit<H>, a: Addr, stack: seq<Value>, h: Addr, r: Value, m: Memory<H>, t: Addr)
    requires Is(k.code, a, Try(t))
    ensures Leads(k, Here(a, stack, h, r, m), Here(a + 2, stack, t, r, m))
  {
    hide Leads, OutStep, SwitchStep, CatchStep, PrimStep;
    Moves(k, Here(a, stack, h, r, m).core, Here(a + 2, stack, t, r, m).core);
  }

  lemma RunRetry<H>(k: Kit<H>, a: Addr, stack: seq<Value>, h: Addr, r: Value, m: Memory<H>)
    requires Is(k.code, a, Retry)
    ensures Leads(k, Here(a, stack, h, r, m), Here(h, stack, h, r, m))
  {
    hide Leads, OutStep, SwitchStep, CatchStep, PrimStep;
    Moves(k, Here(a, stack, h, r, m).core, Here(h, stack, h, r, m).core);
  }

  lemma RunIter<H>(k: Kit<H>, a: Addr, stack: seq<Value>, h: Addr, r: Value, m: Memory<H>, t: Addr)
    requires Is(k.code, a, Iter(t))
    ensures Leads(k, Here(a, stack, h, r, m), Here(if r == Nil then t else a + 2, if r == Nil then stack else stack + [r],
                                                   h, r, m))
  {
    hide Leads, OutStep, SwitchStep, CatchStep, PrimStep;
    Moves(k, Here(a, stack, h, r, m).core, Here(if r == Nil then t else a + 2, if r == Nil then stack else stack + [r], h,
                                                r, m).core);
  }

  lemma RunCatchX<H>(k: Kit<H>, a: Addr, stack: seq<Value>, h: Addr, r: Value, m: Memory<H>, t: Addr, n: nat)
    requires Is(k.code, a, CatchX(t, n)) && r.Error? && n <= |stack|
    ensures Leads(k, Here(a, stack, h, r, m), Here(a + 4, stack[..n], t, r, m))
  {
    hide Leads, OutStep, SwitchStep, CatchStep, PrimStep;
    Moves(k, Here(a, stack, h, r, m).core, Here(a + 4, stack[..n], t, r, m).core);
  }

  lemma RunCatch<H>(k: Kit<H>, a: Addr, stack: seq<Value>, h: Addr, m: Memory<H>, t: Addr, n: nat, id: nat, kind: nat)
    requires Is(k.code, a, Catch(t, n)) && n <= |stack|
    ensures Leads(k, Here(a, stack, h, Error(id, kind), m), Here(a + 4, stack[..n] + [Caught(id, kind)], t, Caught(id,
        kind), m))
  {
    hide Leads;
    Once(k, Here(a, stack, h, Error(id, kind), m));
  }

  /** Case `x` of a switch, the last one if there is none. */
  lemma RunSwitch<H>(k: Kit<H>, a: Addr, stack: seq<Value>, h: Addr, x: int, m: Memory<H>, ts: seq<Addr>)
    requires Is(k.code, a, Switch(ts)) && ts != []
    ensures Leads(k, Here(a, stack, h, Data(x), m), Here(ts[if 0 <= x < |ts| then x else |ts| - 1], stack, h, Data(x), m))
  {
    hide Leads;
    Once(k, Here(a, stack, h, Data(x), m));
  }

  lemma RunSwitchElse<H>(k: Kit<H>, a: Addr, stack: seq<Value>, h: Addr, r: Value, m: Memory<H>, ts: seq<Addr>)
    requires Is(k.code, a, Switch(ts)) && !r.Data?
    ensures Leads(k, Here(a, stack, h, r, m), Here(h, stack, h, Error(m.errors, TYPE_ERROR), Memory(m.heap, m.errors + 1)))
  {
    hide Leads;
    Once(k, Here(a, stack, h, r, m));
  }

  // ---------------------------------------------------------------- instructions that leave the frame

  lemma Asks<H>(k: Kit<H>, c: Core<H>, service: Service, args: seq<Value>, c': Core<H>, fuel: nat)
    requires Step(k.code, k.prim, c) == Calling(Request(service, args), c')
    requires c'.heap == c.heap && c'.errors == c.errors
    ensures Does(k, Running(c), Ask(k.world, service, args, Memory(c.heap, c.errors)), c'.inst, c'.stack, c'.onError, fuel)
  {
    hide Step, Leads, Lasts;
    Once(k, Running(c));
    var o := Ask(k.world, service, args, Memory(c.heap, c.errors));
    if o.Failed? {
      assert c'.stack + [] == c'.stack;
      assert Leads(k, Running(c), Here(c'.onError, c'.stack + [], c'.onError, Error(o.id, o.kind), o.memory));
    }
  }

  lemma RunFor<H>(k: Kit<H>, a: Addr, stack: seq<Value>, h: Addr, r: Value, m: Memory<H>, fuel: nat)
    requires Is(k.code, a, For)
    ensures Does(k, Here(a, stack, h, r, m), Ask(k.world, Iterate, [r], m), a + 1, stack, h, fuel)
  {
    hide Does;
    var c := Here(a, stack, h, r, m).core;
    assert [] + stack[|stack|..] + [r] == [r];
    assert stack[..|stack|] == stack;
    Asks(k, c, Iterate, [r], Core(a + 1, stack, h, r, m.heap, m.errors), fuel);
  }

  lemma RunIterNext<H>(k: Kit<H>, a: Addr, stack: seq<Value>, h: Addr, r: Value, m: Memory<H>, fuel: nat, i: Value, t: Addr)
    requires Is(k.code, a, IterNext(t))
    ensures Does(k, Here(a, stack + [i], h, r, m), Ask(k.world, Advancing, [i], m), t, stack, h, fuel)
  {
    hide Does;
    var c := Here(a, stack + [i], h, r, m).core;
    assert (stack + [i])[|stack + [i]| - |[i]|..] == [i];
    assert Dropped(stack + [i], |[i]|) == stack;
    assert [] + [i] + [] == [i];
    Asks(k, c, Advancing, [i], Core(t, stack, h, r, m.heap, m.errors), fuel);
  }

  lemma RunIterValue<H>(k: Kit<H>, a: Addr, stack: seq<Value>, h: Addr, r: Value, m: Memory<H>, fuel: nat, d: nat)
    requires Is(k.code, a, IterValue(d))
    requires 0 < d <= |stack|
    ensures Does(k, Here(a, stack, h, r, m), Ask(k.world, ValueOf, [stack[|stack| - d]], m), a + 1, stack, h, fuel)
  {
    hide Does;
    var c := Here(a, stack, h, r, m).core;
    assert [stack[|stack| - d]] + stack[|stack|..] + [] == [stack[|stack| - d]];
    assert stack[..|stack|] == stack;
    Asks(k, c, ValueOf, [stack[|stack| - d]], Core(a + 1, stack, h, r, m.heap, m.errors), fuel);
  }

  lemma RunIterKey<H>(k: Kit<H>, a: Addr, stack: seq<Value>, h: Addr, r: Value, m: Memory<H>, fuel: nat, i: Value)
    requires Is(k.code, a, IterKey)
    ensures Does(k, Here(a, stack + [i], h, r, m), Ask(k.world, KeyOf, [i], m), a + 1, stack + [i], h, fuel)
  {
    hide Does;
    var c := Here(a, stack + [i], h, r, m).core;
    assert (stack + [i])[|stack + [i]| - |[i]|..] == [i];
    assert [] + [i] + [] == [i];
    assert (stack + [i])[..|stack + [i]|] == stack + [i];
    Asks(k, c, KeyOf, [i], Core(a + 1, stack + [i], h, r, m.heap, m.errors), fuel);
  }

  lemma RunAssign<H>(k: Kit<H>, a: Addr, stack: seq<Value>, h: Addr, r: Value, m: Memory<H>, fuel: nat, target: Value)
    requires Is(k.code, a, Assign)
    ensures Does(k, Here(a, stack + [target], h, r, m), Ask(k.world, Store, [target, r], m), a + 1, stack, h, fuel)
  {
    hide Does;
    var c := Here(a, stack + [target], h, r, m).core;
    assert (stack + [target])[|stack + [target]| - |[target]|..] == [target];
    assert Dropped(stack + [target], |[target]|) == stack;
    assert [] + [target] + [r] == [target, r];
    Asks(k, c, Store, [target, r], Core(a + 1, stack, h, r, m.heap, m.errors), fuel);
  }

  lemma RunAssignLocal<H>(k: Kit<H>, a: Addr, stack: seq<Value>, h: Addr, r: Value, m: Memory<H>, fuel: nat, d: nat)
    requires Is(k.code, a, AssignLocal(d))
    requires 0 < d <= |stack|
    ensures Does(k, Here(a, stack, h, r, m), Ask(k.world, Store, [stack[|stack| - d], r], m), a + 2, stack, h, fuel)
  {
    hide Does;
    var c := Here(a, stack, h, r, m).core;
    assert [stack[|stack| - d]] + stack[|stack|..] + [r] == [stack[|stack| - d], r];
    assert stack[..|stack|] == stack;
    Asks(k, c, Store, [stack[|stack| - d], r], Core(a + 2, stack, h, r, m.heap, m.errors), fuel);
  }

  lemma RunResolve<H>(k: Kit<H>, a: Addr, stack: seq<Value>, h: Addr, r: Value, m: Memory<H>, fuel: nat, member: Ordinary)
    requires Is(k.code, a, Resolve(member))
    ensures Does(k, Here(a, stack, h, r, m), Ask(k.world, Symbol, [r, member], m), a + 2, stack, h, fuel)
  {
    hide Does;
    var c := Here(a, stack, h, r, m).core;
    assert [] + stack[|stack|..] + [r, member] == [r, member];
    assert stack[..|stack|] == stack;
    Asks(k, c, Symbol, [r, member], Core(a + 2, stack, h, r, m.heap, m.errors), fuel);
  }

  lemma RunStringAdd<H>(k: Kit<H>, a: Addr, stack: seq<Value>, h: Addr, r: Value, m: Memory<H>, fuel: nat, buffer: Value,
                        vs: seq<Value>)
    requires Is(k.code, a, StringAdd(|vs|))
    ensures Does(k, Here(a, stack + [buffer] + vs, h, r, m), Ask(k.world, Append, [buffer] + vs, m), a + 2,
                 stack + [buffer], h, fuel)
  {
    hide Does;
    var c := Here(a, stack + [buffer] + vs, h, r, m).core;
    assert (stack + [buffer] + vs)[|stack|..] == [buffer] + vs;
    assert [] + ([buffer] + vs) + [] == [buffer] + vs;
    assert Dropped(stack + [buffer] + vs, |vs|) == stack + [buffer];
    Asks(k, c, Append, [buffer] + vs, Core(a + 2, stack + [buffer], h, r, m.heap, m.errors), fuel);
  }

  lemma RunStringAddOne<H>(k: Kit<H>, a: Addr, stack: seq<Value>, h: Addr, r: Value, m: Memory<H>, fuel: nat, buffer: Value,
                           v: Value)
    requires Is(k.code, a, StringAddOne)
    ensures Does(k, Here(a, stack + [buffer, v], h, r, m), Ask(k.world, Append, [buffer, v], m), a + 1, stack + [buffer], h,
                 fuel)
  {
    hide Does;
    var c := Here(a, stack + [buffer, v], h, r, m).core;
    assert (stack + [buffer, v])[|stack|..] == [buffer, v];
    assert [] + [buffer, v] + [] == [buffer, v];
    assert Dropped(stack + [buffer, v], 1) == stack + [buffer];
    Asks(k, c, Append, [buffer, v], Core(a + 1, stack + [buffer], h, r, m.heap, m.errors), fuel);
  }

  lemma RunCall<H>(k: Kit<H>, a: Addr, stack: seq<Value>, h: Addr, r: Value, m: Memory<H>, fuel: nat, fn: Value,
                   vs: seq<Value>)
    requires Is(k.code, a, Call(|vs|))
    ensures Does(k, Here(a, stack + [fn] + vs, h, r, m), Ask(k.world, Invoke, [fn] + vs, m), a + 2, stack, h, fuel)
  {
    hide Does;
    var c := Here(a, stack + [fn] + vs, h, r, m).core;
    assert (stack + [fn] + vs)[|stack|..] == [fn] + vs;
    assert [] + ([fn] + vs) + [] == [fn] + vs;
    assert Dropped(stack + [fn] + vs, |vs| + 1) == stack;
    Asks(k, c, Invoke, [fn] + vs, Core(a + 2, stack, h, r, m.heap, m.errors), fuel);
  }

  lemma RunCallConst<H>(k: Kit<H>, a: Addr, stack: seq<Value>, h: Addr, r: Value, m: Memory<H>, fuel: nat, fn: Ordinary,
                        vs: seq<Value>)
    requires Is(k.code, a, CallConst(fn, |vs|))
    ensures Does(k, Here(a, stack + vs, h, r, m), Ask(k.world, Invoke, [fn] + vs, m), a + 3, stack, h, fuel)
  {
    hide Does;
    var c := Here(a, stack + vs, h, r, m).core;
    assert (stack + vs)[|stack|..] == vs;
    assert [fn] + vs + [] == [fn] + vs;
    assert Dropped(stack + vs, |vs|) == stack;
    Asks(k, c, Invoke, [fn] + vs, Core(a + 3, stack, h, r, m.heap, m.errors), fuel);
  }

  lemma RunCallMethod<H>(k: Kit<H>, a: Addr, stack: seq<Value>, h: Addr, r: Value, m: Memory<H>, fuel: nat, fn: Ordinary,
                         vs: seq<Value>)
    requires Is(k.code, a, CallMethod(fn, |vs|))
    ensures Does(k, Here(a, stack + vs, h, r, m), Ask(k.world, Invoke, [fn] + vs, m), a + 4, stack, h, fuel)
  {
    hide Does;
    var c := Here(a, stack + vs, h, r, m).core;
    assert (stack + vs)[|stack|..] == vs;
    assert [fn] + vs + [] == [fn] + vs;
    assert Dropped(stack + vs, |vs|) == stack;
    Asks(k, c, Invoke, [fn] + vs, Core(a + 4, stack, h, r, m.heap, m.errors), fuel);
  }
}
