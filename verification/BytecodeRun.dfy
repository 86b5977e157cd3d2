/** Running linked and flat code: whatever the instructions do, the flat code runs in step with the
    linked code it was made from (src/ml_bytecode.c). */
module BytecodeRun {
  import opened BytecodeFormat
  import opened BytecodeStream
  import opened BytecodeWalk

  /** Where an instruction sends control: to the next one, to its k-th target, to the handler, or out. */
  datatype Move = Fall | Jump(k: nat) | Raise | Stop

  datatype Handler = Keep | Install(k: nat)

  /** What executing an instruction does: TRY and CATCH install one of their targets as the handler. */
  datatype Effect<S> = Effect(state: S, handler: Handler, move: Move)

  /** What an instruction sees of itself. Only LOCALI reads its declaration operand; elsewhere it is for
      the debugger. */
  type Payload = Instruction<(), seq<DeclInfo>>

  const LOCALI: nat := 28

  function Seen<T, D>(i: Instruction<T, D>, content: D -> seq<DeclInfo>): Payload {
    Instruction(i.opcode, i.line, Mapped(i.ops, _ => (), d => if i.opcode == LOCALI then content(d) else []))
  }

  type Semantics<!S> = (Payload, S) -> Effect<S>

  datatype Frame<S> =
    | Running(pc: nat, handler: nat, state: S)
    | Done(state: S)
    | Stuck

  function Execute<S>(exec: Semantics<S>, payload: Payload, targets: seq<nat>, next: nat, f: Frame<S>): Frame<S>
    requires f.Running?
  {
    var e := exec(payload, f.state);
    if e.handler.Install? && e.handler.k >= |targets| then Stuck
    else
      var handler := if e.handler.Install? then targets[e.handler.k] else f.handler;
      match e.move
      case Fall => Running(next, handler, e.state)
      case Jump(k) => if k < |targets| then Running(targets[k], handler, e.state) else Stuck
      case Raise => Running(handler, handler, e.state)
      case Stop => Done(e.state)
  }

  function StepLinked<S>(code: Memory, halt: Addr, exec: Semantics<S>, f: Frame<S>): Frame<S> {
    if !f.Running? then f
    else if f.pc == halt || f.pc !in code then Stuck
    else
      match code[f.pc]
      case Link(_, target) => f.(pc := target)
      case Code(inst) => Execute(exec, Seen(inst, d => Content(d)), inst.ops.Targets(), f.pc + inst.ops.Cells(), f)
  }

  /** The list of declarations a table index stands for; an index out of the table stands for nothing. */
  function View(decls: seq<DeclRecord>, i: int): seq<DeclInfo>
    decreases i
  {
    if 0 <= i < |decls| then [decls[i].info] + if decls[i].next < i then View(decls, decls[i].next) else [] else []
  }

  function StepFlat<S>(flat: FlatCode, decls: seq<DeclRecord>, exec: Semantics<S>, g: Frame<S>): Frame<S> {
    if !g.Running? then g
    else if g.pc !in flat then Stuck
    else
      var inst := flat[g.pc];
      Execute(exec, Seen(inst, d => View(decls, d)), inst.ops.Targets(), g.pc + inst.ops.Cells(), g)
  }

  function RunLinked<S>(code: Memory, halt: Addr, exec: Semantics<S>, f: Frame<S>, n: nat): Frame<S> {
    if n == 0 then f else StepLinked(code, halt, exec, RunLinked(code, halt, exec, f, n - 1))
  }

  function RunFlat<S>(flat: FlatCode, decls: seq<DeclRecord>, exec: Semantics<S>, g: Frame<S>, n: nat): Frame<S> {
    if n == 0 then g else StepFlat(flat, decls, exec, RunFlat(flat, decls, exec, g, n - 1))
  }

  /** How many of the first `n` steps execute an instruction rather than follow a LINK. */
  function Instructions<S>(code: Memory, halt: Addr, exec: Semantics<S>, f: Frame<S>, n: nat): nat {
    if n == 0 then 0
    else
      var g := RunLinked(code, halt, exec, f, n - 1);
      var silent := g.Running? && g.pc != halt && g.pc in code && code[g.pc].Link?;
      Instructions(code, halt, exec, f, n - 1) + if silent then 0 else 1
  }

  /** Two frames at corresponding places. */
  ghost predicate Related<S>(code: Memory, path: seq<Addr>, f: Frame<S>, g: Frame<S>) {
    match f
    case Running(pc, handler, state) =>
      && g.Running? && pc in path && handler in path
      && g.pc == OffsetOf(code, path, pc) && g.handler == OffsetOf(code, path, handler) && g.state == state
    case Done(state) => g == Done(state)
    case Stuck => g == Stuck
  }

  /** Every target lies on the walk and is coded as its offset; every declaration that LOCALI reads is
      coded as an index that stands for it. */
  ghost predicate Faithful(code: Memory, path: seq<Addr>, target: Addr -> index, table: Decls -> index, decls: seq<DeclRecord>) {
    forall k | Starts(code, path, k) :: FaithfulAt(code, path, code[path[k]].inst, target, table, decls)
  }

  ghost predicate FaithfulAt(code: Memory, path: seq<Addr>, inst: LinkedInst, target: Addr -> index, table: Decls -> index,
                             decls: seq<DeclRecord>) {
    && (forall t | t in inst.ops.Targets() :: t in path && target(t) == OffsetOf(code, path, t))
    && (inst.opcode == LOCALI && inst.ops.HasDecl() ==>
          View(decls, table(inst.ops.decl)) == Content(inst.ops.decl))
  }

  lemma SameSight(inst: LinkedInst, target: Addr -> index, table: Decls -> index, decls: seq<DeclRecord>)
    requires inst.opcode == LOCALI && inst.ops.HasDecl() ==> View(decls, table(inst.ops.decl)) == Content(inst.ops.decl)
    ensures Seen(FlatOf(inst, target, table), d => View(decls, d)) == Seen(inst, d => Content(d))
  {
  }

  /** Executing an instruction keeps frames at corresponding places. */
  lemma ExecuteRelated<S>(code: Memory, path: seq<Addr>, exec: Semantics<S>, payload: Payload,
                          targets: seq<nat>, next: nat, f: Frame<S>, targets': seq<nat>, next': nat, g: Frame<S>)
    requires f.Running? && Related(code, path, f, g)
    requires |targets| == |targets'|
    requires forall k | 0 <= k < |targets| :: targets[k] in path && targets'[k] == OffsetOf(code, path, targets[k])
    requires next in path && next' == OffsetOf(code, path, next)
    ensures Related(code, path, Execute(exec, payload, targets, next, f), Execute(exec, payload, targets', next', g))
  {
    hide OffsetOf;
  }

  lemma PastTheEnd(code: Memory, path: seq<Addr>, target: Addr -> index, table: Decls -> index, flat: FlatCode)
    requires |path| > 0 && Image(code, path, target, table, flat)
    ensures Off(code, path, |path| - 1) !in flat
  {
    hide Off, FlatOf;
    var o := Off(code, path, |path| - 1);
    if o in flat {
      var k :| Starts(code, path, k) && o == Off(code, path, k);
      OffMonotone(code, path, k, |path| - 1);
    }
  }

  lemma OffsetAt(code: Memory, path: seq<Addr>, halt: Addr, i: nat)
    requires IsWalk(code, path, halt) && i < |path|
    ensures OffsetOf(code, path, path[i]) == Off(code, path, i)
  {
    IndexUnique(code, path, halt, i);
  }

  /** A step through a LINK is silent, any other step of the linked code is a step of the flat code. */
  lemma StepSimulated<S>(code: Memory, path: seq<Addr>, halt: Addr, target: Addr -> index, table: Decls -> index,
                         decls: seq<DeclRecord>, flat: FlatCode, exec: Semantics<S>, f: Frame<S>, g: Frame<S>)
    requires IsWalk(code, path, halt) && Image(code, path, target, table, flat)
    requires Faithful(code, path, target, table, decls)
    requires Related(code, path, f, g)
    ensures Related(code, path, StepLinked(code, halt, exec, f),
                    if f.Running? && f.pc != halt && f.pc in code && code[f.pc].Link? then g else StepFlat(flat, decls, exec, g))
  {
    hide Off, OffsetOf, FlatOf, Execute, Seen, View, Content;
    if f.Running? {
      var i := IndexOf(path, f.pc);
      OffsetAt(code, path, halt, i);
      if i == |path| - 1 {
        PastTheEnd(code, path, target, table, flat);
      } else {
        StepOfWalk(code, path, halt, i);
        OffsetAt(code, path, halt, i + 1);
        OffStep(code, path, i);
        if code[f.pc].Code? {
          assert Starts(code, path, i);
          InstructionSimulated(code, path, target, table, decls, exec, code[f.pc].inst, path[i + 1], f, g);
        }
      }
    }
  }

  lemma OffStep(code: Memory, path: seq<Addr>, i: nat)
    requires i < |path|
    ensures Off(code, path, i + 1) == Off(code, path, i) + Span(code, path[i])
  {
  }

  lemma InstructionSimulated<S>(code: Memory, path: seq<Addr>, target: Addr -> index, table: Decls -> index,
                                decls: seq<DeclRecord>, exec: Semantics<S>, inst: LinkedInst, next: Addr, f: Frame<S>, g: Frame<S>)
    requires FaithfulAt(code, path, inst, target, table, decls)
    requires f.Running? && Related(code, path, f, g)
    requires next in path && OffsetOf(code, path, next) == g.pc + inst.ops.Cells()
    ensures var inst' := FlatOf(inst, target, table);
            Related(code, path,
                    Execute(exec, Seen(inst, d => Content(d)), inst.ops.Targets(), next, f),
                    Execute(exec, Seen(inst', d => View(decls, d)), inst'.ops.Targets(), g.pc + inst'.ops.Cells(), g))
  {
    hide Off, OffsetOf, Execute, Seen, View, Content;
    SameSight(inst, target, table, decls);
    var inst' := FlatOf(inst, target, table);
    ExecuteRelated(code, path, exec, Seen(inst, d => Content(d)), inst.ops.Targets(), next, f,
                   inst'.ops.Targets(), g.pc + inst'.ops.Cells(), g);
  }

  /** However the instructions behave: after any number of steps of the linked code, the flat code is at
      the corresponding place after as many steps as instructions were executed. */
  lemma {:induction false} FlatFollows<S>(code: Memory, path: seq<Addr>, halt: Addr, target: Addr -> index, table: Decls -> index,
                                          decls: seq<DeclRecord>, flat: FlatCode, exec: Semantics<S>, f: Frame<S>, g: Frame<S>, n: nat)
    requires IsWalk(code, path, halt) && Image(code, path, target, table, flat)
    requires Faithful(code, path, target, table, decls)
    requires Related(code, path, f, g)
    ensures Related(code, path, RunLinked(code, halt, exec, f, n),
                    RunFlat(flat, decls, exec, g, Instructions(code, halt, exec, f, n)))
  {
    hide IsWalk, Image, Faithful, Related, StepLinked, StepFlat;
    if n == 0 {
    } else {
      FlatFollows(code, path, halt, target, table, decls, flat, exec, f, g, n - 1);
      StepSimulated(code, path, halt, target, table, decls, flat, exec,
                    RunLinked(code, halt, exec, f, n - 1),
                    RunFlat(flat, decls, exec, g, Instructions(code, halt, exec, f, n - 1)));
    }
  }

  /** How much of the walk lies ahead of a frame. */
  ghost function Ahead<S>(path: seq<Addr>, f: Frame<S>): nat {
    if f.Running? && f.pc in path then |path| - IndexOf(path, f.pc) else 0
  }

  /** LINKs do not run for ever: after finitely many of them the next step is not silent. */
  lemma {:induction false} LinksEnd<S>(code: Memory, path: seq<Addr>, halt: Addr, exec: Semantics<S>, f: Frame<S>, n: nat) returns (m: nat)
    requires IsWalk(code, path, halt)
    requires var e := RunLinked(code, halt, exec, f, n); e.Running? ==> e.pc in path
    ensures n < m && Instructions(code, halt, exec, f, m) == Instructions(code, halt, exec, f, n) + 1
    decreases Ahead(path, RunLinked(code, halt, exec, f, n))
  {
    hide IsWalk, Execute;
    var e := RunLinked(code, halt, exec, f, n);
    if e.Running? && e.pc != halt && e.pc in code && code[e.pc].Link? {
      var i := IndexOf(path, e.pc);
      LinkOnWalk(code, path, halt, i);
      assert RunLinked(code, halt, exec, f, n + 1) == StepLinked(code, halt, exec, e) == e.(pc := path[i + 1]);
      m := LinksEnd(code, path, halt, exec, f, n + 1);
    } else {
      m := n + 1;
    }
  }

  lemma LinkOnWalk(code: Memory, path: seq<Addr>, halt: Addr, i: nat)
    requires IsWalk(code, path, halt) && i < |path| && path[i] != halt && path[i] in code && code[path[i]].Link?
    ensures i + 1 < |path| && path[i + 1] == code[path[i]].target && IndexOf(path, path[i + 1]) == i + 1
  {
    StepOfWalk(code, path, halt, i);
    IndexUnique(code, path, halt, i + 1);
  }

  /** Conversely, every number of steps of the flat code is reached by some number of steps of the linked
      code. */
  lemma {:induction false} LinkedFollows<S>(code: Memory, path: seq<Addr>, halt: Addr, target: Addr -> index, table: Decls -> index,
                                            decls: seq<DeclRecord>, flat: FlatCode, exec: Semantics<S>, f: Frame<S>, g: Frame<S>, m: nat)
    returns (n: nat)
    requires IsWalk(code, path, halt) && Image(code, path, target, table, flat)
    requires Faithful(code, path, target, table, decls)
    requires Related(code, path, f, g)
    ensures Instructions(code, halt, exec, f, n) == m
    ensures Related(code, path, RunLinked(code, halt, exec, f, n), RunFlat(flat, decls, exec, g, m))
  {
    hide IsWalk, Image, Faithful, StepLinked, StepFlat, OffsetOf;
    if m == 0 {
      n := 0;
    } else {
      var n0 := LinkedFollows(code, path, halt, target, table, decls, flat, exec, f, g, m - 1);
      n := LinksEnd(code, path, halt, exec, f, n0);
      FlatFollows(code, path, halt, target, table, decls, flat, exec, f, g, n);
    }
  }
}
