/** The instructions of the frame runner (src/ml_bytecode.c) as steps of a machine without a scheduler. */
module FrameMachine {

  type Addr = nat

  /** Errors are objects; an error that CATCH has unwrapped is an ordinary value. */
  datatype Value =
    | Nil
    | Some
    | Data(x: int)
    | Caught(id: nat, kind: nat)
    | Error(id: nat, kind: nat)

  type Ordinary = v: Value | !v.Error? witness Nil

  /** LET, LIST, MAP and the like are PRIMs: they compute, fall through or jump, or raise an error. */
  datatype Inst =
    | Link(target: Addr)
    | Return
    | LoadNil | NilPush
    | And(target: Addr) | Or(target: Addr) | Not
    | Push | With | Pop | AndPop(target: Addr, count: nat)
    | Exit(count: nat)
    | Goto(target: Addr)
    | Try(target: Addr)
    | Catch(target: Addr, count: nat) | CatchX(target: Addr, count: nat)
    | Retry
    | Load(value: Ordinary) | LoadPush(value: Ordinary)
    | Local(depth: nat) | LocalPush(depth: nat)
    | Switch(targets: seq<Addr>)
    | Call(count: nat) | CallConst(value: Ordinary, count: nat) | CallMethod(value: Ordinary, count: nat)
    | For | Iter(target: Addr) | IterNext(target: Addr) | IterValue(depth: nat) | IterKey
    | Assign | AssignLocal(depth: nat)
    | Resolve(value: Ordinary)
    | StringAdd(count: nat) | StringAddOne
    | Prim(op: nat, targets: seq<Addr>, cells: nat)

  type Code = map<Addr, Inst>

  const INTERNAL_ERROR: nat := 0
  const TYPE_ERROR: nat := 1

  /** The state of a frame; `errors` counts the error objects made so far. */
  datatype Core<H> = Core(inst: Addr, stack: seq<Value>, onError: Addr, result: Value, heap: H, errors: nat)

  /** What the instructions that are not spelled out do. */
  datatype PrimOut<H> =
    | Fine(result: Ordinary, pops: nat, pushes: seq<Ordinary>, dest: int, heap: H)
    | Fail(kind: nat, pops: nat, heap: H)

  type Prims<!H> = (nat, Value, seq<Value>, H) -> PrimOut<H>

  /** What a frame asks for when it is left: ml_call of the first argument, of the append method or of the
      symbol method; ml_iterate, ml_iter_next, ml_iter_value, ml_iter_key, ml_assign. */
  datatype Service = Invoke | Append | Symbol | Iterate | Advancing | ValueOf | KeyOf | Store

  datatype Request = Request(service: Service, args: seq<Value>)

  datatype CallOut<H> = CallOut(result: Value, heap: H, errors: nat)

  /** What the called functions do. */
  type Callees<!H> = (Request, H, nat) -> CallOut<H>

  /** One dispatch. LINK does not count; `Next`, `Catching` and `Raise` do. A request leaves the frame, which
      waits at another instruction. `Crash` stands for undefined behaviour. */
  datatype Out<H> =
    | Silent(core: Core<H>)
    | Next(core: Core<H>)
    | Catching(error: Value, core: Core<H>)
    | Raise(core: Core<H>)
    | Calling(request: Request, core: Core<H>)
    | Returned(result: Value)
    | Crash

  function Dropped(stack: seq<Value>, n: nat): seq<Value> {
    if n <= |stack| then stack[..|stack| - n] else []
  }

  /** ERROR(): on to the handler. */
  function Raised<H>(c: Core<H>, kind: nat): Core<H> {
    c.(inst := c.onError, result := Error(c.errors, kind), errors := c.errors + 1)
  }

  function At<H>(c: Core<H>, a: Addr): Out<H> {
    Next(c.(inst := a))
  }

  function Step<H>(code: Code, prim: Prims<H>, c: Core<H>): Out<H> {
    if c.inst !in code then Crash
    else
      match code[c.inst]
      case Link(t) => Silent(c.(inst := t))
      case Return => Returned(c.result)
      case LoadNil => At(c.(result := Nil), c.inst + 1)
      case NilPush => At(c.(result := Nil, stack := c.stack + [Nil]), c.inst + 1)
      case And(t) => At(c, if c.result.Nil? then t else c.inst + 2)
      case Or(t) => At(c, if !c.result.Nil? then t else c.inst + 2)
      case Not => At(c.(result := if c.result.Nil? then Some else Nil), c.inst + 1)
      case Push => At(c.(stack := c.stack + [c.result]), c.inst + 1)
      case With => At(c.(stack := c.stack + [c.result]), c.inst + 2)
      case Iter(t) => if c.result.Nil? then At(c, t) else At(c.(stack := c.stack + [c.result]), c.inst + 2)
      case Pop => PopStep(c)
      case AndPop(t, n) =>
        if c.result.Nil? then At(c.(stack := Dropped(c.stack, n)), t) else At(c, c.inst + 3)
      case Exit(n) => At(c.(stack := Dropped(c.stack, n)), c.inst + 3)
      case Goto(t) => At(c, t)
      case Try(t) => At(c.(onError := t), c.inst + 2)
      case Catch(t, n) => CatchStep(c.(onError := t), n)
      case CatchX(t, n) => CatchXStep(c.(onError := t), n)
      case Retry => At(c, c.onError)
      case Load(v) => At(c.(result := v), c.inst + 2)
      case LoadPush(v) => At(c.(result := v, stack := c.stack + [v]), c.inst + 2)
      case Local(d) =>
        if d == 0 || d > |c.stack| then Crash else At(c.(result := c.stack[|c.stack| - d]), c.inst + 2)
      case LocalPush(d) =>
        if d == 0 || d > |c.stack| then Crash
        else At(c.(result := c.stack[|c.stack| - d], stack := c.stack + [c.stack[|c.stack| - d]]), c.inst + 2)
      case Switch(ts) => SwitchStep(c, ts)
      case Call(_) | CallConst(_, _) | CallMethod(_, _) | For | IterNext(_) | IterValue(_) | IterKey
         | Assign | AssignLocal(_) | Resolve(_) | StringAdd(_) | StringAddOne => OutStep(c, code[c.inst])
      case Prim(op, ts, cells) => PrimStep(c, prim(op, c.result, c.stack, c.heap), ts, cells)
  }

  /** The instructions that leave the frame. */
  function OutStep<H>(c: Core<H>, inst: Inst): Out<H> {
    match inst
    case Call(n) => LeaveStep(c, Invoke, [], n + 1, [], n + 1, c.inst + 2)
    case CallConst(v, n) => LeaveStep(c, Invoke, [v], n, [], n, c.inst + 3)
    case CallMethod(v, n) => LeaveStep(c, Invoke, [v], n, [], n, c.inst + 4)
    case For => LeaveStep(c, Iterate, [], 0, [c.result], 0, c.inst + 1)
    case IterNext(t) => LeaveStep(c, Advancing, [], 1, [], 1, t)
    case IterValue(d) =>
      if d == 0 || d > |c.stack| then Crash else LeaveStep(c, ValueOf, [c.stack[|c.stack| - d]], 0, [], 0, c.inst + 1)
    case IterKey => LeaveStep(c, KeyOf, [], 1, [], 0, c.inst + 1)
    case Assign => LeaveStep(c, Store, [], 1, [c.result], 1, c.inst + 1)
    case AssignLocal(d) =>
      if d == 0 || d > |c.stack| then Crash
      else LeaveStep(c, Store, [c.stack[|c.stack| - d]], 0, [c.result], 0, c.inst + 2)
    case Resolve(v) => LeaveStep(c, Symbol, [], 0, [c.result, v], 0, c.inst + 2)
    case StringAdd(n) => LeaveStep(c, Append, [], n + 1, [], n, c.inst + 2)
    case StringAddOne => LeaveStep(c, Append, [], 2, [], 1, c.inst + 1)
    case _ => Crash
  }

  /** The frame is left with `top` values from the stack between `front` and `back` as arguments, `pops` of
      them gone, and waits at `next`. */
  function LeaveStep<H>(c: Core<H>, service: Service, front: seq<Value>, top: nat, back: seq<Value>, pops: nat, next: Addr): (out: Out<H>)
    ensures out.Crash? || (out.Calling? && out.core.onError == c.onError && out.core.inst == next)
    ensures out.Calling? ==> |out.core.stack| <= |c.stack| && out.core.stack == c.stack[..|out.core.stack|]
  {
    if top > |c.stack| then Crash
    else Calling(Request(service, front + c.stack[|c.stack| - top..] + back), c.(inst := next, stack := Dropped(c.stack, pops)))
  }

  function PopStep<H>(c: Core<H>): Out<H> {
    if c.stack == [] then Crash
    else At(c.(result := c.stack[|c.stack| - 1], stack := Dropped(c.stack, 1)), c.inst + 1)
  }

  /** CATCH puts the unwrapped error on the stack. */
  function CatchStep<H>(c: Core<H>, n: nat): Out<H> {
    if !c.result.Error? then Raise(Raised(c, INTERNAL_ERROR))
    else
      var v := Caught(c.result.id, c.result.kind);
      Catching(c.result, c.(inst := c.inst + 4, result := v, stack := (if n <= |c.stack| then c.stack[..n] else c.stack) + [v]))
  }

  /** CATCHX goes on with the error still in Result. */
  function CatchXStep<H>(c: Core<H>, n: nat): Out<H> {
    if !c.result.Error? then Raise(Raised(c, INTERNAL_ERROR))
    else At(c.(stack := if n <= |c.stack| then c.stack[..n] else c.stack), c.inst + 4)
  }

  function SwitchStep<H>(c: Core<H>, ts: seq<Addr>): Out<H> {
    if !c.result.Data? then Raise(Raised(c, TYPE_ERROR))
    else if ts == [] then Crash
    else At(c, if 0 <= c.result.x < |ts| then ts[c.result.x] else ts[|ts| - 1])
  }

  function PrimStep<H>(c: Core<H>, out: PrimOut<H>, ts: seq<Addr>, cells: nat): Out<H> {
    match out
    case Fail(kind, pops, heap) => Raise(Raised(c.(stack := Dropped(c.stack, pops), heap := heap), kind))
    case Fine(result, pops, pushes, dest, heap) =>
      At(c.(result := result, stack := Dropped(c.stack, pops) + pushes, heap := heap),
         if 0 <= dest < |ts| then ts[dest] else c.inst + cells)
  }

  /** A frame that gets a value: an error goes to the handler. */
  function Entered<H>(c: Core<H>): Core<H> {
    if c.result.Error? then c.(inst := c.onError) else c
  }

  function AfterCall<H>(c: Core<H>, out: CallOut<H>): Core<H> {
    c.(result := out.result, heap := out.heap, errors := out.errors)
  }

  datatype State<H> = Running(core: Core<H>) | Finished(result: Value) | Crashed

  /** The machine without a scheduler. */
  function Advance<H>(code: Code, prim: Prims<H>, callee: Callees<H>, s: State<H>): State<H> {
    if !s.Running? then s
    else
      match Step(code, prim, s.core)
      case Silent(c) => Running(c)
      case Next(c) => Running(c)
      case Catching(_, c) => Running(c)
      case Raise(c) => Running(c)
      case Calling(r, c) => Running(Entered(AfterCall(c, callee(r, c.heap, c.errors))))
      case Returned(v) => Finished(v)
      case Crash => Crashed
  }

  function Run<H>(code: Code, prim: Prims<H>, callee: Callees<H>, s: State<H>, n: nat): State<H>
    decreases n
  {
    if n == 0 then s else Run(code, prim, callee, Advance(code, prim, callee, s), n - 1)
  }

  lemma {:induction false} RunAdd<H>(code: Code, prim: Prims<H>, callee: Callees<H>, s: State<H>, m: nat, n: nat)
    ensures Run(code, prim, callee, s, m + n) == Run(code, prim, callee, Run(code, prim, callee, s, m), n)
    decreases m
  {
    hide Advance;
    if m > 0 {
      RunAdd(code, prim, callee, Advance(code, prim, callee, s), m - 1, n);
    }
  }

  lemma {:induction false} RunStays<H>(code: Code, prim: Prims<H>, callee: Callees<H>, s: State<H>, n: nat)
    requires !s.Running?
    ensures Run(code, prim, callee, s, n) == s
  {
    if n > 0 {
      RunStays(code, prim, callee, s, n - 1);
    }
  }

  // ---------------------------------------------------------------- where errors can be

  /** LINKs lead somewhere: each goes to an address of smaller rank. */
  ghost predicate LinksEnd(code: Code, rank: Addr -> nat) {
    forall a | a in code && code[a].Link? :: rank(code[a].target) < rank(a)
  }

  /** The address leads through LINKs to an instruction that deals with an error. */
  ghost predicate Handles(code: Code, rank: Addr -> nat, a: Addr)
    decreases rank(a)
  {
    a in code &&
    match code[a]
    case Link(t) => rank(t) < rank(a) && Handles(code, rank, t)
    case Catch(_, _) => true
    case Return => true
    case _ => false
  }

  /** Handlers are CATCH or RETURN instructions, and CATCHX does not occur. */
  ghost predicate CodeOk(code: Code, rank: Addr -> nat) {
    && LinksEnd(code, rank)
    && (forall a | a in code ::
          match code[a]
          case Try(t) => Handles(code, rank, t)
          case Catch(t, _) => Handles(code, rank, t)
          case CatchX(_, _) => false
          case _ => true)
  }

  /** At a dispatch: an error is dealt with next; the stack holds none. */
  ghost predicate Dispatchable<H>(code: Code, rank: Addr -> nat, c: Core<H>) {
    && (forall v | v in c.stack :: !v.Error?)
    && Handles(code, rank, c.onError)
    && (c.result.Error? ==> Handles(code, rank, c.inst))
  }

  /** When the counter is looked at: an error is at the handler. */
  ghost predicate Swappable<H>(code: Code, rank: Addr -> nat, c: Core<H>) {
    Dispatchable(code, rank, c) && Entered(c) == c
  }

  /** After a step that counts, Result is an error only if the next instruction is the handler; a frame that
      is left can take any value. */
  ghost predicate Kept<H>(code: Code, rank: Addr -> nat, c: Core<H>, out: Out<H>) {
    match out
    case Silent(next) => Dispatchable(code, rank, next) && rank(next.inst) < rank(c.inst)
    case Next(next) => Swappable(code, rank, next)
    case Catching(error, next) => error.Error? && !next.result.Error? && Swappable(code, rank, next)
    case Raise(next) => next.result.Error? && Swappable(code, rank, next)
    case Calling(_, next) => Dispatchable(code, rank, next.(result := Nil))
    case _ => true
  }

  lemma LeaveKeeps<H>(code: Code, rank: Addr -> nat, c: Core<H>, inst: Inst)
    requires Dispatchable(code, rank, c)
    ensures Kept(code, rank, c, OutStep(c, inst))
  {
    hide Handles, LeaveStep;
  }

  lemma CatchKeeps<H>(code: Code, rank: Addr -> nat, c: Core<H>, n: nat)
    requires Handles(code, rank, c.onError) && forall v | v in c.stack :: !v.Error?
    ensures Kept(code, rank, c, CatchStep(c, n))
  {
    hide Handles;
  }

  lemma PrimKeeps<H>(code: Code, rank: Addr -> nat, c: Core<H>, out: PrimOut<H>, ts: seq<Addr>, cells: nat)
    requires Handles(code, rank, c.onError) && forall v | v in c.stack :: !v.Error?
    ensures Kept(code, rank, c, PrimStep(c, out, ts, cells))
  {
    hide Handles;
  }

  /** No instruction but CATCHX goes on with an error in Result. */
  lemma StepKeeps<H>(code: Code, rank: Addr -> nat, prim: Prims<H>, c: Core<H>)
    requires CodeOk(code, rank) && Dispatchable(code, rank, c)
    ensures Kept(code, rank, c, Step(code, prim, c))
  {
    hide OutStep, CatchStep, PrimStep;
    if c.inst in code {
      var inst := code[c.inst];
      LeaveKeeps(code, rank, c, inst);
      if inst.Catch? {
        CatchKeeps(code, rank, c.(onError := inst.target), inst.count);
      } else if inst.Prim? {
        PrimKeeps(code, rank, c, prim(inst.op, c.result, c.stack, c.heap), inst.targets, inst.cells);
      }
    }
  }
}
