/** The cells of the instructions, and where their steps lead (src/ml_bytecode.c). */
module FrameCells {
  import opened FrameMachine

  /** How many cells the compiler allocates for an instruction: one and its operands. */
  function Width(i: Inst): nat {
    match i
    case Return | LoadNil | NilPush | Not | Push | Pop | Retry | For | IterValue(_) | IterKey | Assign | StringAddOne => 1
    case Link(_) | And(_) | Or(_) | With | Goto(_) | Try(_) | Load(_) | LoadPush(_) | Local(_) | LocalPush(_) | Iter(_)
       | IterNext(_) | AssignLocal(_) | Resolve(_) | StringAdd(_) | Call(_) => 2
    case AndPop(_, _) | Exit(_) | Switch(_) | CallConst(_, _) => 3
    case Catch(_, _) | CatchX(_, _) | CallMethod(_, _) => 4
    case Prim(_, _, cells) => cells
  }

  /** The addresses an instruction names. */
  function Targets(i: Inst): seq<Addr> {
    match i
    case Link(t) => [t]
    case And(t) => [t]
    case Or(t) => [t]
    case AndPop(t, _) => [t]
    case Goto(t) => [t]
    case Try(t) => [t]
    case Catch(t, _) => [t]
    case CatchX(t, _) => [t]
    case Iter(t) => [t]
    case IterNext(t) => [t]
    case Switch(ts) => ts
    case Prim(_, ts, _) => ts
    case _ => []
  }

  /** A step goes on behind the instruction, at an address it names, or at the handler; the handler stays or
      is one of these addresses. */
  ghost predicate Onward<H>(i: Inst, c: Core<H>, out: Out<H>) {
    var next, targets := c.inst + Width(i), Targets(i);
    match out
    case Silent(_) => i.Link?
    case Next(d) => (d.inst == next || d.inst in targets || (i.Retry? && d.inst == c.onError))
                    && (d.onError == c.onError || d.onError in targets)
    case Catching(_, d) => d.inst == next && d.onError in targets
    case Raise(d) => d.inst == d.onError && (d.onError == c.onError || d.onError in targets)
    case Calling(_, d) => (if i.IterNext? then d.inst == i.target else d.inst == next) && d.onError == c.onError
    case Returned(_) => i.Return?
    case Crash => true
  }

  lemma LeaveOnward<H>(c: Core<H>, i: Inst)
    ensures Onward(i, c, OutStep(c, i))
  {
    hide LeaveStep;
  }

  lemma HandlerOnward<H>(c: Core<H>, i: Inst)
    requires i.Catch? || i.CatchX?
    ensures Onward(i, c, if i.Catch? then CatchStep(c.(onError := i.target),
                                                    i.count) else CatchXStep(c.(onError := i.target), i.count))
  {
  }

  lemma StepOnward<H>(code: Code, prim: Prims<H>, c: Core<H>)
    requires c.inst in code
    ensures Onward(code[c.inst], c, Step(code, prim, c))
  {
    hide OutStep, CatchStep, CatchXStep, Dropped;
    var i := code[c.inst];
    LeaveOnward(c, i);
    if i.Catch? || i.CatchX? {
      HandlerOnward(c, i);
    }
  }
}
