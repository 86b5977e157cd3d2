/** The code the compiler emits for expressions (src/ml_compiler.c). */
module ExpressionCode {
  import opened FrameMachine
  import opened FrameCells
  import opened Expressions

  /** What the compiler knows at a place: how many cells of the stack are in use, where the locals are, and
      the handler in force. */
  datatype Scope = Scope(top: nat, names: map<string, nat>, onError: Addr) {
    function Up(): Scope {
      this.(top := top + 1)
    }

    function Bind(x: string): Scope {
      this.(top := top + 1, names := names[x := top])
    }

    /** How far below the top a local is. */
    function Depth(x: string): nat {
      if x in names && names[x] < top then top - names[x] else 0
    }
  }

  const STRING_NEW: nat := 53
  const STRING_POP: nat := 54
  const STRING_END: nat := 52

  /** The number under which the machine knows the addition of a piece of text. */
  function AddsText(chars: nat): nat {
    70 + chars
  }

  function Count(args: Args): nat {
    match args
    case NoArgs => 0
    case Arg(_, rest) => 1 + Count(rest)
    case Guarded(_, _, rest) => 1 + Count(rest)
  }

  function LocalCount(locals: Locals): nat {
    match locals
    case Body(_) => 0
    case Local(_, _, rest) => 1 + LocalCount(rest)
  }

  function Size(e: Expr): nat
    decreases e, 0
  {
    match e
    case Nothing => 1
    case Constant(_, _) => 2
    case Variable(_) => 2
    case Negation(e1) => Size(e1) + 1
    case Conjunction(l, r) => Size(l) + 2 + Size(r)
    case Disjunction(l, r) => Size(l) + 2 + Size(r)
    case Alternative(t, b, o) => Size(t) + 2 + Size(b) + 2 + Size(o)
    case Sequence(e1, e2) => Size(e1) + Size(e2)
    case Binding(locals) => LocalsSize(locals) + 3
    case Selection(on, cases) => Size(on) + 3 + CasesSize(cases)
    case Application(fn, args) => if fn.Constant? then ArgsSize(args) + CallSize(fn) else PushSize(fn) + ArgsSize(args) + 2
    case Loop(key, _, items, body) => Size(items) + 3 + (if key.Key? then 3 else 0) + 3 + Size(body) + 5
    case Assignment(target, source) => if target.Variable? then Size(source) + 2 else PushSize(target) + Size(source) + 1
    case Resolution(e1, _) => Size(e1) + 2
    case Text(parts) => 1 + PartsSize(parts) + 1
    case Rescue(body, _, handler) => 2 + Size(body) + 8 + Size(handler) + 5
    case Finally(body, must) => 2 + Size(body) + 1 + Size(must) + 10 + Size(must) + 2
  }

  function CallSize(fn: Expr): nat {
    if fn.Constant? && fn.isMethod then 4 else 3
  }

  /** The size of code that pushes its value as well. */
  function PushSize(e: Expr): nat
    decreases e, 1
  {
    match e
    case Nothing => 1
    case Constant(_, _) => 2
    case Variable(_) => 2
    case Text(_) => Size(e)
    case _ => Size(e) + 1
  }

  function LocalsSize(locals: Locals): nat {
    match locals
    case Body(e) => Size(e)
    case Local(_, e, rest) => Size(e) + 2 + LocalsSize(rest)
  }

  function CasesSize(cases: Cases): nat {
    match cases
    case Last(e) => Size(e)
    case Case(e, rest) => Size(e) + 2 + CasesSize(rest)
  }

  function ArgsSize(args: Args): nat {
    match args
    case NoArgs => 0
    case Arg(e, rest) => PushSize(e) + ArgsSize(rest)
    case Guarded(e, guard, rest) => PushSize(e) + Size(guard) + 3 + ArgsSize(rest)
  }

  function PartsSize(parts: Parts): nat {
    match parts
    case NoParts => 0
    case Chars(_, rest) => 3 + PartsSize(rest)
    case Filled(args, rest) => ArgsSize(args) + Width(Adding(args)) + PartsSize(rest)
  }

  function Adding(args: Args): Inst {
    if Count(args) > 1 then StringAdd(Count(args)) else StringAddOne
  }

  /** The code of an expression at an address. */
  function Compile(e: Expr, a: Addr, s: Scope): seq<Inst>
    decreases e, 1
  {
    match e
    case Nothing => [LoadNil]
    case Constant(v, _) => [Load(v)]
    case Variable(x) => [Inst.Local(s.Depth(x))]
    case Negation(e1) => Compile(e1, a, s) + [Not]
    case Conjunction(_, _) => ConjunctionCode(e, a, s)
    case Disjunction(_, _) => DisjunctionCode(e, a, s)
    case Alternative(_, _, _) => AlternativeCode(e, a, s)
    case Sequence(e1, e2) => Compile(e1, a, s) + Compile(e2, a + Size(e1), s)
    case Binding(locals) => LocalsCode(locals, a, s) + [Exit(LocalCount(locals))]
    case Selection(_, _) => SelectionCode(e, a, s)
    case Application(_, _) => ApplicationCode(e, a, s)
    case Loop(_, _, _, _) => LoopCode(e, a, s)
    case Assignment(_, _) => AssignmentCode(e, a, s)
    case Resolution(e1, member) => Compile(e1, a, s) + [Resolve(member)]
    case Text(parts) => TextCode(parts, STRING_POP, a, s)
    case Rescue(_, _, _) => RescueCode(e, a, s)
    case Finally(_, _) => FinallyCode(e, a, s)
  }

  function ConjunctionCode(e: Expr, a: Addr, s: Scope): seq<Inst>
    requires e.Conjunction?
    decreases e, 0
  {
    Compile(e.left, a, s) + [And(a + Size(e))] + Compile(e.right, a + Size(e.left) + 2, s)
  }

  function DisjunctionCode(e: Expr, a: Addr, s: Scope): seq<Inst>
    requires e.Disjunction?
    decreases e, 0
  {
    Compile(e.left, a, s) + [Or(a + Size(e))] + Compile(e.right, a + Size(e.left) + 2, s)
  }

  function AlternativeCode(e: Expr, a: Addr, s: Scope): seq<Inst>
    requires e.Alternative?
    decreases e, 0
  {
    var yes := a + Size(e.test) + 2;
    var no := yes + Size(e.body) + 2;
    Compile(e.test, a, s) + [And(no)] + Compile(e.body, yes, s) + [Goto(a + Size(e))] + Compile(e.other, no, s)
  }

  function SelectionCode(e: Expr, a: Addr, s: Scope): seq<Inst>
    requires e.Selection?
    decreases e, 0
  {
    var b := a + Size(e.on) + 3;
    Compile(e.on, a, s) + [Switch(CaseAddrs(e.cases, b))] + CasesCode(e.cases, b, a + Size(e), s)
  }

  function ApplicationCode(e: Expr, a: Addr, s: Scope): seq<Inst>
    requires e.Application?
    decreases e, 0
  {
    if e.fn.Constant? then ArgsCode(e.args, a, a + Size(e), 0, s) + [ConstantCall(e.fn, Count(e.args))]
    else PushCode(e.fn, a, s) + ArgsCode(e.args, a + PushSize(e.fn), a + Size(e), 1, s.Up()) + [Call(Count(e.args))]
  }

  function ConstantCall(fn: Expr, count: nat): Inst
    requires fn.Constant?
  {
    if fn.isMethod then CallMethod(fn.value, count) else CallConst(fn.value, count)
  }

  /** The loop variables are on top of the iterator. */
  function LoopScope(e: Expr, s: Scope): Scope
    requires e.Loop?
  {
    (if e.key.Key? then s.Up().Bind(e.key.name) else s.Up()).Bind(e.name)
  }

  function LoopCode(e: Expr, a: Addr, s: Scope): seq<Inst>
    requires e.Loop?
    decreases e, 0
  {
    var i := a + Size(e.items) + 1;
    var b := i + 2 + (if e.key.Key? then 3 else 0) + 3;
    Compile(e.items, a, s) + [For, Iter(a + Size(e))] + (if e.key.Key? then [IterKey, With,
        IterValue(2)] else [IterValue(1)])
    + [With] + Compile(e.body, b, LoopScope(e, s)) + [Exit(if e.key.Key? then 2 else 1), IterNext(i)]
  }

  /** In an assignment to a local, `old` is the local. */
  function OldScope(x: string, s: Scope): Scope {
    if x in s.names then s.(names := s.names[OLD := s.names[x]]) else s
  }

  function AssignmentCode(e: Expr, a: Addr, s: Scope): seq<Inst>
    requires e.Assignment?
    decreases e, 0
  {
    if e.target.Variable? then
      var x := e.target.name;
      Compile(e.source, a, OldScope(x, s)) + [AssignLocal(s.Depth(x))]
    else PushCode(e.target, a, s) + Compile(e.source, a + PushSize(e.target), s.Bind(OLD)) + [Assign]
  }

  function RescueCode(e: Expr, a: Addr, s: Scope): seq<Inst>
    requires e.Rescue?
    decreases e, 0
  {
    var h := a + 2 + Size(e.body) + 4;
    [Try(h)] + Compile(e.body, a + 2, s.(onError := h)) + [Try(s.onError), Goto(a + Size(e))]
    + [Catch(s.onError, s.top)] + Compile(e.handler, h + 4, s.Bind(e.name)) + [Exit(1), Goto(a + Size(e))]
  }

  function FinallyCode(e: Expr, a: Addr, s: Scope): seq<Inst>
    requires e.Finally?
    decreases e, 0
  {
    var n := a + 2 + Size(e.body) + 1;
    var h := n + Size(e.must) + 5;
    [Try(h)] + Compile(e.body, a + 2, s.(onError := h)) + [Push] + Compile(e.must, n, s.(onError := h).Up())
    + [Pop, Try(s.onError)] + [Goto(a + Size(e)), CatchX(s.onError, s.top)] + [Push]
    + Compile(e.must, h + 5, s.Up()) + [Pop, Retry]
  }

  /** The code that pushes the value of an expression. */
  function PushCode(e: Expr, a: Addr, s: Scope): seq<Inst>
    decreases e, 2
  {
    match e
    case Nothing => [NilPush]
    case Constant(v, _) => [LoadPush(v)]
    case Variable(x) => [LocalPush(s.Depth(x))]
    case Text(parts) => TextCode(parts, STRING_END, a, s)
    case _ => Compile(e, a, s) + [Push]
  }

  function LocalsCode(locals: Locals, a: Addr, s: Scope): seq<Inst> {
    match locals
    case Body(e) => Compile(e, a, s)
    case Local(x, e, rest) => Compile(e, a, s) + [With] + LocalsCode(rest, a + Size(e) + 2, s.Bind(x))
  }

  function CaseAddrs(cases: Cases, a: Addr): seq<Addr> {
    match cases
    case Last(_) => [a]
    case Case(e, rest) => [a] + CaseAddrs(rest, a + Size(e) + 2)
  }

  function CasesCode(cases: Cases, a: Addr, end: Addr, s: Scope): seq<Inst> {
    match cases
    case Last(e) => Compile(e, a, s)
    case Case(e, rest) => Compile(e, a, s) + [Goto(end)] + CasesCode(rest, a + Size(e) + 2, end, s)
  }

  /** `index` counts the cells pushed for the call so far; a guard that fails drops them and the argument. */
  function ArgsCode(args: Args, a: Addr, end: Addr, index: nat, s: Scope): seq<Inst> {
    match args
    case NoArgs => []
    case Arg(e, rest) => PushCode(e, a, s) + ArgsCode(rest, a + PushSize(e), end, index + 1, s.Up())
    case Guarded(e, guard, rest) =>
      var g := a + PushSize(e);
      PushCode(e, a, s) + Compile(guard, g, s.Bind(IT)) + [AndPop(end, index + 1)]
      + ArgsCode(rest, g + Size(guard) + 3, end, index + 1, s.Up())
  }

  /** A string: a buffer is pushed, filled, and in the end taken or replaced by the string. */
  function TextCode(parts: Parts, last: nat, a: Addr, s: Scope): seq<Inst>
    decreases parts, 1
  {
    [Prim(STRING_NEW, [], 1)] + PartsCode(parts, a + 1, s.Up()) + [Prim(last, [], 1)]
  }

  function PartsCode(parts: Parts, a: Addr, s: Scope): seq<Inst>
    decreases parts, 0
  {
    match parts
    case NoParts => []
    case Chars(chars, rest) => [Prim(AddsText(chars), [], 3)] + PartsCode(rest, a + 3, s)
    case Filled(args, rest) =>
      ArgsCode(args, a, a, 0, s) + [Adding(args)] + PartsCode(rest, a + ArgsSize(args) + Width(Adding(args)), s)
  }
}
