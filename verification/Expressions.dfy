/** Expressions and what they mean (src/ml_compiler.c). */
module Expressions {
  import opened FrameMachine

  // ---------------------------------------------------------------- syntax

  /** An `if` without `else` is a Conjunction: the compiler emits the same code. A constant is a literal, or
      an identifier that is not local; `isMethod` says whether it is a method. */
  datatype Expr =
    | Nothing
    | Constant(value: Ordinary, isMethod: bool)
    | Variable(name: string)
    | Negation(operand: Expr)
    | Conjunction(left: Expr, right: Expr)
    | Disjunction(left: Expr, right: Expr)
    | Alternative(test: Expr, body: Expr, other: Expr)
    | Sequence(first: Expr, second: Expr)
    | Binding(locals: Locals)
    | Selection(on: Expr, cases: Cases)
    | Application(fn: Expr, args: Args)
    | Loop(key: Key, name: string, items: Expr, body: Expr)
    | Assignment(target: Expr, source: Expr)
    | Resolution(of: Expr, member: Ordinary)
    | Text(parts: Parts)
    | Rescue(body: Expr, name: string, handler: Expr)
    | Finally(body: Expr, must: Expr)

  /** The locals of a `with` and its body. */
  datatype Locals = Local(name: string, value: Expr, rest: Locals) | Body(body: Expr)

  datatype Cases = Case(body: Expr, rest: Cases) | Last(body: Expr)

  /** Arguments of a call; a guarded one makes the whole call nil if the guard is nil. */
  datatype Args = NoArgs | Arg(value: Expr, rest: Args) | Guarded(value: Expr, guard: Expr, rest: Args)

  datatype Key = NoKey | Key(name: string)

  /** A string literal with parts to be filled in; `chars` names a piece of text. */
  datatype Parts = NoParts | Chars(chars: nat, rest: Parts) | Filled(args: Args, rest: Parts)

  /** The names under which `it` and `old` are kept. */
  const IT := "it"
  const OLD := "old"

  // ---------------------------------------------------------------- what the compiler accepts

  /** Locals are declared; a guard stands only in a call; a part of a string has a value. */
  predicate Scoped(e: Expr, names: set<string>) {
    match e
    case Nothing => true
    case Constant(_, _) => true
    case Variable(x) => x in names
    case Negation(e1) => Scoped(e1, names)
    case Conjunction(l, r) => Scoped(l, names) && Scoped(r, names)
    case Disjunction(l, r) => Scoped(l, names) && Scoped(r, names)
    case Alternative(t, b, o) => Scoped(t, names) && Scoped(b, names) && Scoped(o, names)
    case Sequence(e1, e2) => Scoped(e1, names) && Scoped(e2, names)
    case Binding(locals) => LocalsScoped(locals, names)
    case Selection(on, cases) => Scoped(on, names) && CasesScoped(cases, names)
    case Application(fn, args) => Scoped(fn, names) && ArgsScoped(args, names)
    case Loop(key, name, items, body) =>
      Scoped(items, names) && Scoped(body, names + (if key.Key? then {key.name} else {}) + {name})
    case Assignment(target, source) => Scoped(target, names) && Scoped(source, names + {OLD})
    case Resolution(e1, _) => Scoped(e1, names)
    case Text(parts) => PartsScoped(parts, names)
    case Rescue(body, name, handler) => Scoped(body, names) && Scoped(handler, names + {name})
    case Finally(body, must) => Scoped(body, names) && Scoped(must, names)
  }

  predicate LocalsScoped(locals: Locals, names: set<string>) {
    match locals
    case Body(e) => Scoped(e, names)
    case Local(x, e, rest) => Scoped(e, names) && LocalsScoped(rest, names + {x})
  }

  predicate CasesScoped(cases: Cases, names: set<string>) {
    match cases
    case Last(e) => Scoped(e, names)
    case Case(e, rest) => Scoped(e, names) && CasesScoped(rest, names)
  }

  predicate ArgsScoped(args: Args, names: set<string>) {
    match args
    case NoArgs => true
    case Arg(e, rest) => Scoped(e, names) && ArgsScoped(rest, names)
    case Guarded(e, guard, rest) => Scoped(e, names) && Scoped(guard, names + {IT}) && ArgsScoped(rest, names)
  }

  predicate Plain(args: Args) {
    match args
    case NoArgs => true
    case Arg(_, rest) => Plain(rest)
    case Guarded(_, _, _) => false
  }

  predicate PartsScoped(parts: Parts, names: set<string>) {
    match parts
    case NoParts => true
    case Chars(_, rest) => PartsScoped(rest, names)
    case Filled(args, rest) => args.Arg? && Plain(args) && ArgsScoped(args, names) && PartsScoped(rest, names)
  }

  // ---------------------------------------------------------------- meaning

  type Env = map<string, Ordinary>

  datatype Memory<H> = Memory(heap: H, errors: nat)

  /** What string buffers do: a new buffer, a piece of text added, the string. */
  datatype Strings<!H> = Strings(make: H -> (Ordinary, H), add: (nat, Value, H) -> H, finish: (Value, H) -> (Ordinary, H))

  /** Everything outside the expressions. */
  datatype World<!H> = World(callee: Callees<H>, strings: Strings<H>)

  datatype Outcome<H> =
    | Done(value: Ordinary, memory: Memory<H>)
    | Failed(id: nat, kind: nat, memory: Memory<H>)
    | Unfinished

  datatype Given<H> =
    | Given(values: seq<Ordinary>, memory: Memory<H>)
    | Skipped(memory: Memory<H>)
    | Stopped(outcome: Outcome<H>)

  function Ask<H>(w: World<H>, service: Service, args: seq<Value>, m: Memory<H>): Outcome<H> {
    var out := w.callee(Request(service, args), m.heap, m.errors);
    var after := Memory(out.heap, out.errors);
    if out.result.Error? then Failed(out.result.id, out.result.kind, after) else Done(out.result, after)
  }

  /** The value of an expression, or the error it ends with; a loop runs at most `fuel` rounds. */
  function Eval<H>(w: World<H>, e: Expr, env: Env, m: Memory<H>, fuel: nat): Outcome<H>
    decreases fuel, e, 1
  {
    match e
    case Nothing => Done(Nil, m)
    case Constant(v, _) => Done(v, m)
    case Variable(x) => Done(if x in env then env[x] else Nil, m)
    case Negation(_) => EvalNegation(w, e, env, m, fuel)
    case Conjunction(_, _) => EvalConjunction(w, e, env, m, fuel)
    case Disjunction(_, _) => EvalDisjunction(w, e, env, m, fuel)
    case Alternative(_, _, _) => EvalAlternative(w, e, env, m, fuel)
    case Sequence(_, _) => EvalSequence(w, e, env, m, fuel)
    case Binding(locals) => EvalLocals(w, locals, env, m, fuel)
    case Selection(_, _) => EvalSelection(w, e, env, m, fuel)
    case Application(_, _) => EvalApplication(w, e, env, m, fuel)
    case Loop(_, _, _, _) => EvalLoop(w, e, env, m, fuel)
    case Assignment(_, _) => EvalAssignment(w, e, env, m, fuel)
    case Resolution(_, _) => EvalResolution(w, e, env, m, fuel)
    case Text(parts) => EvalText(w, parts, env, m, fuel)
    case Rescue(_, _, _) => EvalRescue(w, e, env, m, fuel)
    case Finally(_, _) => EvalFinally(w, e, env, m, fuel)
  }

  function EvalNegation<H>(w: World<H>, e: Expr, env: Env, m: Memory<H>, fuel: nat): Outcome<H>
    requires e.Negation?
    decreases fuel, e, 0
  {
    var o := Eval(w, e.operand, env, m, fuel);
    if o.Done? then o.(value := if o.value == Nil then Some else Nil) else o
  }

  function EvalConjunction<H>(w: World<H>, e: Expr, env: Env, m: Memory<H>, fuel: nat): Outcome<H>
    requires e.Conjunction?
    decreases fuel, e, 0
  {
    var o := Eval(w, e.left, env, m, fuel);
    if o.Done? && o.value != Nil then Eval(w, e.right, env, o.memory, fuel) else o
  }

  function EvalDisjunction<H>(w: World<H>, e: Expr, env: Env, m: Memory<H>, fuel: nat): Outcome<H>
    requires e.Disjunction?
    decreases fuel, e, 0
  {
    var o := Eval(w, e.left, env, m, fuel);
    if o.Done? && o.value == Nil then Eval(w, e.right, env, o.memory, fuel) else o
  }

  function EvalAlternative<H>(w: World<H>, e: Expr, env: Env, m: Memory<H>, fuel: nat): Outcome<H>
    requires e.Alternative?
    decreases fuel, e, 0
  {
    var o := Eval(w, e.test, env, m, fuel);
    if !o.Done? then o else Eval(w, if o.value != Nil then e.body else e.other, env, o.memory, fuel)
  }

  function EvalSequence<H>(w: World<H>, e: Expr, env: Env, m: Memory<H>, fuel: nat): Outcome<H>
    requires e.Sequence?
    decreases fuel, e, 0
  {
    var o := Eval(w, e.first, env, m, fuel);
    if o.Done? then Eval(w, e.second, env, o.memory, fuel) else o
  }

  /** Only an integer selects a case. */
  function EvalSelection<H>(w: World<H>, e: Expr, env: Env, m: Memory<H>, fuel: nat): Outcome<H>
    requires e.Selection?
    decreases fuel, e, 0
  {
    var o := Eval(w, e.on, env, m, fuel);
    if !o.Done? then o
    else if o.value.Data? then EvalCase(w, e.cases, o.value.x, env, o.memory, fuel)
    else Failed(o.memory.errors, TYPE_ERROR, Memory(o.memory.heap, o.memory.errors + 1))
  }

  function EvalApplication<H>(w: World<H>, e: Expr, env: Env, m: Memory<H>, fuel: nat): Outcome<H>
    requires e.Application?
    decreases fuel, e, 0
  {
    var o := Eval(w, e.fn, env, m, fuel);
    if !o.Done? then o else Applied(w, o.value, EvalArgs(w, e.args, env, o.memory, fuel))
  }

  function Applied<H>(w: World<H>, fn: Ordinary, given: Given<H>): Outcome<H> {
    match given
    case Given(values, m) => Ask(w, Invoke, [fn] + values, m)
    case Skipped(m) => Done(Nil, m)
    case Stopped(o) => o
  }

  function EvalLoop<H>(w: World<H>, e: Expr, env: Env, m: Memory<H>, fuel: nat): Outcome<H>
    requires e.Loop?
    decreases fuel, e, 0
  {
    var o := Eval(w, e.items, env, m, fuel);
    if !o.Done? then o
    else
      var i := Ask(w, Iterate, [o.value], o.memory);
      if i.Done? then Rounds(w, e, i.value, env, i.memory, fuel) else i
  }

  function EvalAssignment<H>(w: World<H>, e: Expr, env: Env, m: Memory<H>, fuel: nat): Outcome<H>
    requires e.Assignment?
    decreases fuel, e, 0
  {
    var t := Eval(w, e.target, env, m, fuel);
    if !t.Done? then t
    else
      var o := Eval(w, e.source, env[OLD := t.value], t.memory, fuel);
      if o.Done? then Ask(w, Store, [t.value, o.value], o.memory) else o
  }

  function EvalResolution<H>(w: World<H>, e: Expr, env: Env, m: Memory<H>, fuel: nat): Outcome<H>
    requires e.Resolution?
    decreases fuel, e, 0
  {
    var o := Eval(w, e.of, env, m, fuel);
    if o.Done? then Ask(w, Symbol, [o.value, e.member], o.memory) else o
  }

  function EvalText<H>(w: World<H>, parts: Parts, env: Env, m: Memory<H>, fuel: nat): Outcome<H>
    decreases fuel, parts, 2
  {
    var made := w.strings.make(m.heap);
    EvalParts(w, parts, made.0, env, m.(heap := made.1), fuel)
  }

  /** The handler gets the error as a value. */
  function EvalRescue<H>(w: World<H>, e: Expr, env: Env, m: Memory<H>, fuel: nat): Outcome<H>
    requires e.Rescue?
    decreases fuel, e, 0
  {
    var o := Eval(w, e.body, env, m, fuel);
    if o.Failed? then Eval(w, e.handler, env[e.name := Caught(o.id, o.kind)], o.memory, fuel) else o
  }

  function EvalFinally<H>(w: World<H>, e: Expr, env: Env, m: Memory<H>, fuel: nat): Outcome<H>
    requires e.Finally?
    decreases fuel, e, 0
  {
    var o := Eval(w, e.body, env, m, fuel);
    match o
    case Done(_, _) => MustDone(w, e.must, env, o, fuel)
    case Failed(_, _, _) => MustThen(w, e.must, env, o, fuel)
    case Unfinished => o
  }

  /** The `must` part after the body has its value. If it fails it is run again: the handler is still in force. */
  function MustDone<H>(w: World<H>, must: Expr, env: Env, o: Outcome<H>, fuel: nat): Outcome<H>
    requires o.Done?
    decreases fuel, must, 3
  {
    var o1 := Eval(w, must, env, o.memory, fuel);
    match o1
    case Done(_, m) => Done(o.value, m)
    case Failed(_, _, _) => MustThen(w, must, env, o1, fuel)
    case Unfinished => o1
  }

  /** The `must` part on the way out with an error. */
  function MustThen<H>(w: World<H>, must: Expr, env: Env, failure: Outcome<H>, fuel: nat): Outcome<H>
    requires failure.Failed?
    decreases fuel, must, 2
  {
    var o := Eval(w, must, env, failure.memory, fuel);
    if o.Done? then Failed(failure.id, failure.kind, o.memory) else o
  }

  function EvalLocals<H>(w: World<H>, locals: Locals, env: Env, m: Memory<H>, fuel: nat): Outcome<H>
    decreases fuel, locals, 1
  {
    match locals
    case Body(e) => Eval(w, e, env, m, fuel)
    case Local(x, e, rest) =>
      var o := Eval(w, e, env, m, fuel);
      if o.Done? then EvalLocals(w, rest, env[x := o.value], o.memory, fuel) else o
  }

  /** Case `i`; the last one stands for every other number. */
  function EvalCase<H>(w: World<H>, cases: Cases, i: int, env: Env, m: Memory<H>, fuel: nat): Outcome<H>
    decreases fuel, cases, 1
  {
    match cases
    case Last(e) => Eval(w, e, env, m, fuel)
    case Case(e, rest) => if i == 0 then Eval(w, e, env, m, fuel) else EvalCase(w, rest, i - 1, env, m, fuel)
  }

  function EvalArgs<H>(w: World<H>, args: Args, env: Env, m: Memory<H>, fuel: nat): Given<H>
    decreases fuel, args, 1
  {
    match args
    case NoArgs => Given([], m)
    case Arg(e, rest) =>
      var o := Eval(w, e, env, m, fuel);
      if o.Done? then Onto(o.value, EvalArgs(w, rest, env, o.memory, fuel)) else Stopped(o)
    case Guarded(e, _, _) =>
      var o := Eval(w, e, env, m, fuel);
      if o.Done? then AfterGuard(w, args, env, o.value, o.memory, fuel) else Stopped(o)
  }

  function AfterGuard<H>(w: World<H>, args: Args, env: Env, v: Ordinary, m: Memory<H>, fuel: nat): Given<H>
    requires args.Guarded?
    decreases fuel, args, 0
  {
    var o := Eval(w, args.guard, env[IT := v], m, fuel);
    if !o.Done? then Stopped(o)
    else if o.value == Nil then Skipped(o.memory)
    else Onto(v, EvalArgs(w, args.rest, env, o.memory, fuel))
  }

  function Onto<H>(v: Ordinary, given: Given<H>): Given<H> {
    if given.Given? then given.(values := [v] + given.values) else given
  }

  /** The names bound in a round of a loop. */
  function InRound(key: Key, name: string, env: Env, k: Ordinary, v: Ordinary): Env {
    (if key.Key? then env[key.name := k] else env)[name := v]
  }

  function AskKey<H>(w: World<H>, key: Key, i: Ordinary, m: Memory<H>): Outcome<H> {
    if key.Key? then Ask(w, KeyOf, [i], m) else Done(Nil, m)
  }

  function Rounds<H>(w: World<H>, e: Expr, i: Ordinary, env: Env, m: Memory<H>, fuel: nat): Outcome<H>
    requires e.Loop?
    decreases fuel, e.body, 6
  {
    if i == Nil then Done(Nil, m) else if fuel == 0 then Unfinished else Round(w, e, i, env, m, fuel)
  }

  function Round<H>(w: World<H>, e: Expr, i: Ordinary, env: Env, m: Memory<H>, fuel: nat): Outcome<H>
    requires e.Loop? && fuel > 0
    decreases fuel, e.body, 5
  {
    var k := AskKey(w, e.key, i, m);
    if k.Done? then Keyed(w, e, i, k.value, env, k.memory, fuel) else k
  }

  function Keyed<H>(w: World<H>, e: Expr, i: Ordinary, key: Ordinary, env: Env, m: Memory<H>, fuel: nat): Outcome<H>
    requires e.Loop? && fuel > 0
    decreases fuel, e.body, 4
  {
    var o := Ask(w, ValueOf, [i], m);
    if o.Done? then Valued(w, e, i, key, o.value, env, o.memory, fuel) else o
  }

  function Valued<H>(w: World<H>, e: Expr, i: Ordinary, key: Ordinary, x: Ordinary, env: Env, m: Memory<H>,
                     fuel: nat): Outcome<H>
    requires e.Loop? && fuel > 0
    decreases fuel, e.body, 3
  {
    var o := Eval(w, e.body, InRound(e.key, e.name, env, key, x), m, fuel - 1);
    if !o.Done? then o
    else
      var n := Ask(w, Advancing, [i], o.memory);
      if n.Done? then Rounds(w, e, n.value, env, n.memory, fuel - 1) else n
  }

  function Appended<H>(w: World<H>, buffer: Ordinary, given: Given<H>): Outcome<H> {
    match given
    case Given(values, m) => Ask(w, Append, [buffer] + values, m)
    case Skipped(m) => Done(Nil, m)
    case Stopped(o) => o
  }

  function EvalParts<H>(w: World<H>, parts: Parts, buffer: Ordinary, env: Env, m: Memory<H>, fuel: nat): Outcome<H>
    decreases fuel, parts, 1
  {
    match parts
    case NoParts =>
      var made := w.strings.finish(buffer, m.heap);
      Done(made.0, m.(heap := made.1))
    case Chars(chars, rest) => EvalParts(w, rest, buffer, env, m.(heap := w.strings.add(chars, buffer, m.heap)), fuel)
    case Filled(args, rest) =>
      var given := EvalArgs(w, args, env, m, fuel);
      var o := Appended(w, buffer, given);
      if o.Done? then EvalParts(w, rest, buffer, env, o.memory, fuel) else o
  }
}
