/** The frame runner with a scheduler (src/ml_bytecode.c): a counter is decremented at every instruction;
    when it gets to zero the frame is saved and queued, and later entered again with its result. */
module FrameRunner {
  import opened FrameMachine

  const COUNTER_LIMIT: nat := 0x1_0000_0000_0000_0000
  const MAX_TRACE: nat := 16

  type Counter = x: int | 0 <= x < COUNTER_LIMIT

  type Lines = Addr -> nat

  /** The trace of each error: lines, oldest first, at most 16. */
  type Traces = map<nat, seq<nat>>

  function TraceAdd(traces: Traces, error: Value, line: nat): Traces
    requires error.Error?
  {
    var trace := if error.id in traces then traces[error.id] else [];
    if |trace| < MAX_TRACE then traces[error.id := trace + [line]] else traces
  }

  function TraceAddAll(traces: Traces, error: Value, entries: seq<nat>): Traces
    requires error.Error?
    decreases |entries|
  {
    if entries == [] then traces else TraceAddAll(TraceAdd(traces, error, entries[0]), error, entries[1..])
  }

  /** What a slice ends with; a frame that waits has been left by an instruction. */
  datatype Ending =
    | Swapped
    | Waiting(request: Request, from: Addr)
    | Ended(result: Value)
    | Lost

  /** `--Counter` on a `uint64_t`. */
  function Tick(counter: Counter): Counter {
    if counter == 0 then COUNTER_LIMIT - 1 else counter - 1
  }

  /** The core a slice leaves and how it ends: the dispatch loop of `frame_run`. */
  function Dispatch<H>(code: Code, rank: Addr -> nat, prim: Prims<H>, c: Core<H>, counter: Counter): (r: (Core<H>, Ending))
    requires LinksEnd(code, rank) && counter > 0
    decreases counter, 1, rank(c.inst)
  {
    match Step(code, prim, c)
    case Silent(c') => assert rank(c'.inst) < rank(c.inst); Dispatch(code, rank, prim, c', counter)
    case Next(c') => Checked(code, rank, prim, c', counter)
    case Catching(_, c') => Checked(code, rank, prim, c', counter)
    case Raise(c') => Checked(code, rank, prim, c', counter)
    case Calling(r, c') => (c', Waiting(r, c.inst))
    case Returned(v) => (c, Ended(v))
    case Crash => (c, Lost)
  }

  /** CHECK_COUNTER and the following dispatch. */
  function Checked<H>(code: Code, rank: Addr -> nat, prim: Prims<H>, c: Core<H>, counter: Counter): (r: (Core<H>, Ending))
    requires LinksEnd(code, rank)
    decreases if counter == 0 then COUNTER_LIMIT else counter, 0
  {
    if counter == 1 then (c, Swapped) else Dispatch(code, rank, prim, c, Tick(counter))
  }

  // ---------------------------------------------------------------- error traces

  /** The traces after a slice from a dispatch on: an error that is raised gets the line of the instruction,
      one that is caught the entries of the frames that wait for this one. */
  function DispatchTraces<H>(code: Code, rank: Addr -> nat, prim: Prims<H>, lines: Lines, callers: seq<nat>,
                             c: Core<H>, counter: Counter, traces: Traces): Traces
    requires LinksEnd(code, rank) && counter > 0
    decreases counter, 1, rank(c.inst)
  {
    match Step(code, prim, c)
    case Silent(c') => assert rank(c'.inst) < rank(c.inst); DispatchTraces(code, rank, prim, lines, callers, c', counter, traces)
    case Next(c') => CheckedTraces(code, rank, prim, lines, callers, c', counter, traces)
    case Catching(error, c') =>
      CheckedTraces(code, rank, prim, lines, callers, c', counter, TraceAddAll(traces, error, callers))
    case Raise(c') =>
      CheckedTraces(code, rank, prim, lines, callers, c', counter, TraceAdd(traces, c'.result, lines(c.inst)))
    case _ => traces
  }

  function CheckedTraces<H>(code: Code, rank: Addr -> nat, prim: Prims<H>, lines: Lines, callers: seq<nat>,
                            c: Core<H>, counter: Counter, traces: Traces): Traces
    requires LinksEnd(code, rank)
    decreases if counter == 0 then COUNTER_LIMIT else counter, 0
  {
    if counter == 1 then traces else DispatchTraces(code, rank, prim, lines, callers, c, Tick(counter), traces)
  }

  /** A frame that is entered with an error adds the line it was left at. */
  function EnteredTraces(traces: Traces, value: Value, line: nat): Traces {
    if value.Error? then TraceAdd(traces, value, line) else traces
  }

  // ---------------------------------------------------------------- the frame object

  /** Traces only get longer, up to their limit. */
  ghost predicate Grown(before: Traces, after: Traces) {
    forall id | id in before :: id in after && before[id] <= after[id]
  }

  lemma AddGrows(before: Traces, traces: Traces, error: Value, line: nat)
    requires error.Error? && Grown(before, traces)
    ensures Grown(before, TraceAdd(traces, error, line))
  {
    var after := TraceAdd(traces, error, line);
    forall id | id in before ensures id in after && before[id] <= after[id] {
      assert before[id] <= traces[id];
    }
  }

  class Frame<H> {
    var inst: Addr
    var line: nat
    var stack: seq<Value>
    var onError: Addr
    var heap: H
    var errors: nat
    var traces: Traces

    constructor (entry: Addr, firstLine: nat, arguments: seq<Value>, ret: Addr, world: H, errorCount: nat, oldTraces: Traces)
      ensures inst == entry && line == firstLine && stack == arguments && onError == ret
      ensures heap == world && errors == errorCount && traces == oldTraces
    {
      inst, line, stack, onError := entry, firstLine, arguments, ret;
      heap, errors, traces := world, errorCount, oldTraces;
    }

    /** The frame with the value it is waiting for. */
    function Pending(result: Value): Core<H>
      reads this
    {
      Core(inst, stack, onError, result, heap, errors)
    }

    method Save(c: Core<H>, l: nat, t: Traces)
      modifies this
      ensures Pending(c.result) == c && line == l && traces == t
    {
      inst, stack, onError, heap, errors := c.inst, c.stack, c.onError, c.heap, c.errors;
      line, traces := l, t;
    }

    /** frame_run: runs until the counter is used up, something outside is asked for or the frame returns.
        The callers are the frames that wait for this one and have a source, innermost first. */
    method FrameRun(code: Code, ghost rank: Addr -> nat, lines: Lines, callers: seq<nat>, prim: Prims<H>, value: Value, slice: Counter)
      returns (ending: Ending, result: Value)
      requires LinksEnd(code, rank)
      modifies this
      ensures (Pending(result), ending) == Checked(code, rank, prim, Entered(old(Pending(value))), slice)
      ensures traces == CheckedTraces(code, rank, prim, lines, callers, Entered(old(Pending(value))), slice,
                                      EnteredTraces(old(traces), value, old(line)))
      ensures ending.Swapped? ==> line == lines(inst)
      ensures ending.Waiting? ==> line == lines(ending.from)
    {
      hide LinksEnd, Step;
      var c, trace := Pending(value), traces;
      if value.Error? {
        trace := TraceAdd(trace, value, line);
        c := c.(inst := onError);
      }
      var counter := Tick(slice);
      ghost var goal := Checked(code, rank, prim, Entered(Pending(value)), slice);
      ghost var traced := CheckedTraces(code, rank, prim, lines, callers, Entered(Pending(value)), slice,
                                        EnteredTraces(traces, value, line));
      if counter == 0 {
        Save(c, lines(c.inst), trace);
        return Swapped, c.result;
      }
      while true
        invariant counter > 0 && Dispatch(code, rank, prim, c, counter) == goal
        invariant DispatchTraces(code, rank, prim, lines, callers, c, counter, trace) == traced
        decreases counter, rank(c.inst)
      {
        var here := lines(c.inst);
        match Step(code, prim, c) {
          case Silent(c') =>
            RankFalls(code, rank, prim, c);
            c := c';
          case Next(c') =>
            c, counter := c', Tick(counter);
            if counter == 0 {
              Save(c, lines(c.inst), trace);
              return Swapped, c.result;
            }
          case Catching(error, c') =>
            RaisedError(code, prim, c);
            trace := TraceAddAll(trace, error, callers);
            c, counter := c', Tick(counter);
            if counter == 0 {
              Save(c, lines(c.inst), trace);
              return Swapped, c.result;
            }
          case Raise(c') =>
            RaisedError(code, prim, c);
            trace := TraceAdd(trace, c'.result, here);
            c, counter := c', Tick(counter);
            if counter == 0 {
              Save(c, lines(c.inst), trace);
              return Swapped, c.result;
            }
          case Calling(request, c') =>
            Save(c', here, trace);
            return Waiting(request, c.inst), c'.result;
          case Returned(v) =>
            Save(c, here, trace);
            return Ended(v), c.result;
          case Crash =>
            Save(c, here, trace);
            return Lost, c.result;
        }
      }
    }
  }

  lemma RaisedError<H>(code: Code, prim: Prims<H>, c: Core<H>)
    ensures match Step(code, prim, c)
            case Raise(c') => c'.result.Error?
            case Catching(error, _) => error.Error?
            case _ => true
  {
  }

  // ---------------------------------------------------------------- traces only grow

  /** The traces of a slice begin with those before it. */
  lemma {:induction false} TracesGrow<H>(code: Code, rank: Addr -> nat, prim: Prims<H>, lines: Lines, callers: seq<nat>,
                                         c: Core<H>, counter: Counter, traces: Traces)
    requires LinksEnd(code, rank) && counter > 0
    ensures Grown(traces, DispatchTraces(code, rank, prim, lines, callers, c, counter, traces))
    decreases counter, 1, rank(c.inst)
  {
    hide LinksEnd, Step, Grown;
    GrownItself(traces);
    RaisedError(code, prim, c);
    match Step(code, prim, c) {
      case Silent(c') =>
        RankFalls(code, rank, prim, c);
        TracesGrow(code, rank, prim, lines, callers, c', counter, traces);
      case Next(c') => CheckedGrow(code, rank, prim, lines, callers, c', counter, traces, traces);
      case Catching(error, c') =>
        AllGrow(traces, traces, error, callers);
        CheckedGrow(code, rank, prim, lines, callers, c', counter, traces, TraceAddAll(traces, error, callers));
      case Raise(c') =>
        AddGrows(traces, traces, c'.result, lines(c.inst));
        CheckedGrow(code, rank, prim, lines, callers, c', counter, traces, TraceAdd(traces, c'.result, lines(c.inst)));
      case _ =>
    }
  }

  lemma {:induction false} CheckedGrow<H>(code: Code, rank: Addr -> nat, prim: Prims<H>, lines: Lines, callers: seq<nat>,
                                          c: Core<H>, counter: Counter, before: Traces, traces: Traces)
    requires LinksEnd(code, rank) && Grown(before, traces)
    ensures Grown(before, CheckedTraces(code, rank, prim, lines, callers, c, counter, traces))
    decreases if counter == 0 then COUNTER_LIMIT else counter, 0
  {
    hide LinksEnd, Grown;
    if counter != 1 {
      TracesGrow(code, rank, prim, lines, callers, c, Tick(counter), traces);
      GrownTrans(before, traces, DispatchTraces(code, rank, prim, lines, callers, c, Tick(counter), traces));
    }
  }

  lemma {:induction false} AllGrow(before: Traces, traces: Traces, error: Value, entries: seq<nat>)
    requires error.Error? && Grown(before, traces)
    ensures Grown(before, TraceAddAll(traces, error, entries))
    decreases |entries|
  {
    hide Grown;
    if entries != [] {
      AddGrows(before, traces, error, entries[0]);
      AllGrow(before, TraceAdd(traces, error, entries[0]), error, entries[1..]);
    }
  }

  lemma GrownTrans(a: Traces, b: Traces, c: Traces)
    requires Grown(a, b) && Grown(b, c)
    ensures Grown(a, c)
  {
    forall id | id in a ensures id in c && a[id] <= c[id] {
      assert a[id] <= b[id] <= c[id];
    }
  }

  lemma GrownItself(traces: Traces)
    ensures Grown(traces, traces)
  {
  }

  lemma RankFalls<H>(code: Code, rank: Addr -> nat, prim: Prims<H>, c: Core<H>)
    requires LinksEnd(code, rank) && Step(code, prim, c).Silent?
    ensures rank(Step(code, prim, c).core.inst) < rank(c.inst)
  {
  }

  // ---------------------------------------------------------------- slices are invisible

  /** The state of the machine without a scheduler that the end of a slice stands for. */
  function Meaning<H>(callee: Callees<H>, r: (Core<H>, Ending)): State<H> {
    match r.1
    case Swapped => Running(r.0)
    case Waiting(request, _) => Running(Entered(AfterCall(r.0, callee(request, r.0.heap, r.0.errors))))
    case Ended(v) => Finished(v)
    case Lost => Crashed
  }

  /** What a frame that waits to be entered satisfies. */
  ghost predicate Resumable<H>(code: Code, rank: Addr -> nat, s: State<H>) {
    s.Running? ==> Swappable(code, rank, s.core)
  }

  lemma StepMeaning<H>(code: Code, prim: Prims<H>, callee: Callees<H>, c: Core<H>)
    ensures match Step(code, prim, c)
            case Silent(c') => Advance(code, prim, callee, Running(c)) == Running(c')
            case Next(c') => Advance(code, prim, callee, Running(c)) == Running(c')
            case Catching(_, c') => Advance(code, prim, callee, Running(c)) == Running(c')
            case Raise(c') => Advance(code, prim, callee, Running(c)) == Running(c')
            case Calling(r, c') => Advance(code, prim, callee, Running(c)) == Meaning(callee, (c', Waiting(r, c.inst)))
            case Returned(v) => Advance(code, prim, callee, Running(c)) == Meaning(callee, (c, Ended(v)))
            case Crash => Advance(code, prim, callee, Running(c)) == Meaning(callee, (c, Lost))
  {
    hide Step;
  }

  lemma OneStep<H>(code: Code, prim: Prims<H>, callee: Callees<H>, s: State<H>)
    ensures Run(code, prim, callee, s, 1) == Advance(code, prim, callee, s)
  {
    hide Advance;
    assert Run(code, prim, callee, Advance(code, prim, callee, s), 0) == Advance(code, prim, callee, s);
  }

  lemma MoreSteps<H>(code: Code, prim: Prims<H>, callee: Callees<H>, s: State<H>, k: nat)
    ensures Run(code, prim, callee, s, k + 1) == Run(code, prim, callee, Advance(code, prim, callee, s), k)
  {
    hide Advance;
  }

  /** How many steps of the machine a slice takes, from a dispatch on. */
  function DispatchSteps<H>(code: Code, rank: Addr -> nat, prim: Prims<H>, c: Core<H>, counter: Counter): (k: nat)
    requires LinksEnd(code, rank) && counter > 0
    ensures k > 0
    decreases counter, 1, rank(c.inst)
  {
    match Step(code, prim, c)
    case Silent(c') => assert rank(c'.inst) < rank(c.inst); 1 + DispatchSteps(code, rank, prim, c', counter)
    case Next(c') => 1 + CheckedSteps(code, rank, prim, c', counter)
    case Catching(_, c') => 1 + CheckedSteps(code, rank, prim, c', counter)
    case Raise(c') => 1 + CheckedSteps(code, rank, prim, c', counter)
    case _ => 1
  }

  function CheckedSteps<H>(code: Code, rank: Addr -> nat, prim: Prims<H>, c: Core<H>, counter: Counter): (k: nat)
    requires LinksEnd(code, rank)
    ensures counter != 1 ==> k > 0
    decreases if counter == 0 then COUNTER_LIMIT else counter, 0
  {
    if counter == 1 then 0 else DispatchSteps(code, rank, prim, c, Tick(counter))
  }

  /** A slice from a dispatch on is a run of at least one step without a scheduler, and leaves a frame that
      can be entered again. */
  lemma {:induction false} DispatchIsRun<H>(code: Code, rank: Addr -> nat, prim: Prims<H>, callee: Callees<H>, c: Core<H>, counter: Counter)
    returns (k: nat)
    requires CodeOk(code, rank) && counter > 0 && Dispatchable(code, rank, c)
    ensures k == DispatchSteps(code, rank, prim, c, counter)
    ensures var r := Dispatch(code, rank, prim, c, counter);
            Run(code, prim, callee, Running(c), k) == Meaning(callee, r) && Resumable(code, rank, Meaning(callee, r))
    decreases counter, 1, rank(c.inst)
  {
    hide Step, Run, Advance, Meaning, Swappable, Dispatchable, Handles;
    CodeLinks(code, rank);
    hide CodeOk;
    StepKeeps(code, rank, prim, c);
    StepMeaning(code, prim, callee, c);
    OneStep(code, prim, callee, Running(c));
    var j: nat := 0;
    match Step(code, prim, c) {
      case Silent(c') =>
        j := DispatchIsRun(code, rank, prim, callee, c', counter);
        MoreSteps(code, prim, callee, Running(c), j);
        k := j + 1;
      case Next(c') =>
        j := CheckedIsRun(code, rank, prim, callee, c', counter);
        MoreSteps(code, prim, callee, Running(c), j);
        k := j + 1;
      case Catching(_, c') =>
        j := CheckedIsRun(code, rank, prim, callee, c', counter);
        MoreSteps(code, prim, callee, Running(c), j);
        k := j + 1;
      case Raise(c') =>
        j := CheckedIsRun(code, rank, prim, callee, c', counter);
        MoreSteps(code, prim, callee, Running(c), j);
        k := j + 1;
      case Calling(request, c') =>
        CallResumable(code, rank, callee, request, c.inst, c');
        k := 1;
      case Returned(v) =>
        NotRunning(code, rank, callee, (c, Ended(v)));
        k := 1;
      case Crash =>
        NotRunning(code, rank, callee, (c, Lost));
        k := 1;
    }
  }

  lemma CodeLinks(code: Code, rank: Addr -> nat)
    requires CodeOk(code, rank)
    ensures LinksEnd(code, rank)
  {
  }

  lemma CallResumable<H>(code: Code, rank: Addr -> nat, callee: Callees<H>, request: Request, from: Addr, c: Core<H>)
    requires Dispatchable(code, rank, c.(result := Nil))
    ensures Resumable(code, rank, Meaning(callee, (c, Waiting(request, from))))
  {
    hide Handles;
  }

  lemma NotRunning<H>(code: Code, rank: Addr -> nat, callee: Callees<H>, r: (Core<H>, Ending))
    requires r.1.Ended? || r.1.Lost?
    ensures Resumable(code, rank, Meaning(callee, r))
  {
  }

  lemma CheckedIsRun<H>(code: Code, rank: Addr -> nat, prim: Prims<H>, callee: Callees<H>, c: Core<H>, counter: Counter)
    returns (k: nat)
    requires CodeOk(code, rank) && Swappable(code, rank, c)
    ensures k == CheckedSteps(code, rank, prim, c, counter)
    ensures var r := Checked(code, rank, prim, c, counter);
            Run(code, prim, callee, Running(c), k) == Meaning(callee, r) && Resumable(code, rank, Meaning(callee, r))
    decreases if counter == 0 then COUNTER_LIMIT else counter, 0
  {
    hide Step, Advance, Dispatchable, Handles;
    if counter == 1 {
      k := 0;
    } else {
      k := DispatchIsRun(code, rank, prim, callee, c, Tick(counter));
    }
  }

  /** A frame is entered once for each counter, after a swap with the same value, after a call with the
      value of the call. */
  function Sliced<H>(code: Code, rank: Addr -> nat, prim: Prims<H>, callee: Callees<H>, c: Core<H>, counters: seq<Counter>): State<H>
    requires LinksEnd(code, rank)
    decreases |counters|
  {
    if counters == [] then Running(Entered(c))
    else
      var r := Checked(code, rank, prim, Entered(c), counters[0]);
      match r.1
      case Swapped => Sliced(code, rank, prim, callee, r.0, counters[1..])
      case Waiting(request, _) => Sliced(code, rank, prim, callee, AfterCall(r.0, callee(request, r.0.heap, r.0.errors)), counters[1..])
      case Ended(v) => Finished(v)
      case Lost => Crashed
  }

  /** How many steps the slices of a schedule take. */
  function SlicedSteps<H>(code: Code, rank: Addr -> nat, prim: Prims<H>, callee: Callees<H>, c: Core<H>, counters: seq<Counter>): nat
    requires LinksEnd(code, rank)
    decreases |counters|
  {
    if counters == [] then 0
    else
      var r, k := Checked(code, rank, prim, Entered(c), counters[0]), CheckedSteps(code, rank, prim, Entered(c), counters[0]);
      match r.1
      case Swapped => k + SlicedSteps(code, rank, prim, callee, r.0, counters[1..])
      case Waiting(request, _) =>
        k + SlicedSteps(code, rank, prim, callee, AfterCall(r.0, callee(request, r.0.heap, r.0.errors)), counters[1..])
      case _ => k
  }

  /** How many entries of a schedule can make progress: those whose counter is not 1. */
  function Useful(counters: seq<Counter>): nat {
    if counters == [] then 0 else (if counters[0] != 1 then 1 else 0) + Useful(counters[1..])
  }

  /** Preemption is invisible: under every schedule a frame is at a state that the machine without a
      scheduler reaches too, after no fewer steps than the schedule has entries with a counter other than 1. */
  lemma {:induction false} SlicesAreInvisible<H>(code: Code, rank: Addr -> nat, prim: Prims<H>, callee: Callees<H>, c: Core<H>, counters: seq<Counter>)
    returns (k: nat)
    requires CodeOk(code, rank) && Swappable(code, rank, Entered(c))
    ensures LinksEnd(code, rank) && k == SlicedSteps(code, rank, prim, callee, c, counters)
    ensures Run(code, prim, callee, Running(Entered(c)), k) == Sliced(code, rank, prim, callee, c, counters)
    ensures k >= Useful(counters) || !Sliced(code, rank, prim, callee, c, counters).Running?
    decreases |counters|
  {
    hide CodeOk, Swappable, Advance, Checked, CheckedSteps;
    CodeLinks(code, rank);
    var e := Entered(c);
    if counters == [] {
      k := 0;
    } else {
      var j := CheckedIsRun(code, rank, prim, callee, e, counters[0]);
      var r := Checked(code, rank, prim, e, counters[0]);
      match r.1 {
        case Swapped =>
          StillEntered(code, rank, r.0);
          var n := SlicesAreInvisible(code, rank, prim, callee, r.0, counters[1..]);
          RunAdd(code, prim, callee, Running(e), j, n);
          k := j + n;
        case Waiting(request, _) =>
          var back := AfterCall(r.0, callee(request, r.0.heap, r.0.errors));
          var n := SlicesAreInvisible(code, rank, prim, callee, back, counters[1..]);
          RunAdd(code, prim, callee, Running(e), j, n);
          k := j + n;
        case Ended(v) => k := j;
        case Lost => k := j;
      }
    }
  }

  lemma StillEntered<H>(code: Code, rank: Addr -> nat, c: Core<H>)
    requires Swappable(code, rank, c)
    ensures Entered(c) == c
  {
  }

  /** If the program ends at all, every schedule with enough entries that can make progress ends it with the
      same value. */
  lemma SameResult<H>(code: Code, rank: Addr -> nat, prim: Prims<H>, callee: Callees<H>, c: Core<H>, counters: seq<Counter>,
                      n: nat, v: Value)
    requires CodeOk(code, rank) && Swappable(code, rank, Entered(c))
    requires Run(code, prim, callee, Running(Entered(c)), n) == Finished(v) && Useful(counters) >= n
    ensures LinksEnd(code, rank) && Sliced(code, rank, prim, callee, c, counters) == Finished(v)
  {
    hide CodeOk, Swappable, Sliced, SlicedSteps, Run, Advance;
    var s := Running(Entered(c));
    var k := SlicesAreInvisible(code, rank, prim, callee, c, counters);
    if k >= n {
      RunAdd(code, prim, callee, s, n, k - n);
      RunStays(code, prim, callee, Finished(v), k - n);
    } else {
      RunAdd(code, prim, callee, s, k, n - k);
      RunStays(code, prim, callee, Sliced(code, rank, prim, callee, c, counters), n - k);
    }
  }

  /** A counter of 1 is used up before anything is dispatched. */
  lemma {:induction false} CounterOfOne<H>(code: Code, rank: Addr -> nat, prim: Prims<H>, callee: Callees<H>, c: Core<H>, counters: seq<Counter>)
    requires LinksEnd(code, rank) && forall x | x in counters :: x == 1
    ensures Sliced(code, rank, prim, callee, c, counters) == Running(Entered(c))
    decreases |counters|
  {
    hide LinksEnd;
    if counters != [] {
      assert counters[0] in counters && forall x | x in counters[1..] :: x in counters;
      CounterOfOne(code, rank, prim, callee, Entered(c), counters[1..]);
    }
  }

  /** A swap at a check of the counter shows exactly if an error is in Result and the handler is not next. */
  lemma SwapShowsExactly<H>(code: Code, rank: Addr -> nat, prim: Prims<H>, callee: Callees<H>, c: Core<H>)
    requires LinksEnd(code, rank)
    ensures Checked(code, rank, prim, c, 1) == (c, Swapped)
    ensures Sliced(code, rank, prim, callee, Checked(code, rank, prim, c, 1).0, []) == Running(c)
       <==> !c.result.Error? || c.inst == c.onError
  {
  }

  /** Where errors are dealt with at once, CATCHX is the only instruction that leads to such a check, and it
      does so with every error unless its handler is the next instruction. */
  lemma OnlyCatchXShows<H>(code: Code, prim: Prims<H>, c: Core<H>)
    requires c.inst in code && forall v | v in c.stack :: !v.Error?
    requires c.result.Error? ==> var i := code[c.inst]; i.Link? || i.Catch? || i.CatchX? || i.Return?
    ensures match Step(code, prim, c)
            case Next(next) =>
              next.result.Error? && next.inst != next.onError
              <==> code[c.inst].CatchX? && c.result.Error? && code[c.inst].target != c.inst + 4
            case Catching(_, next) => !next.result.Error?
            case Raise(next) => next.inst == next.onError
            case _ => true
  {
    hide OutStep, PrimStep;
    var inst := code[c.inst];
    OutLeaves(c, inst);
    if inst.Prim? {
      PrimEnds(c, prim(inst.op, c.result, c.stack, c.heap), inst.targets, inst.cells);
    }
  }

  lemma OutLeaves<H>(c: Core<H>, inst: Inst)
    ensures OutStep(c, inst).Calling? || OutStep(c, inst).Crash?
  {
  }

  lemma PrimEnds<H>(c: Core<H>, out: PrimOut<H>, ts: seq<Addr>, cells: nat)
    ensures match PrimStep(c, out, ts, cells)
            case Next(next) => !next.result.Error?
            case Raise(next) => next.inst == next.onError
            case _ => false
  {
  }

  function CatchXCode(): Code {
    map[0 := Prim(0, [], 1), 10 := CatchX(20, 0), 14 := LoadNil, 15 := Return, 20 := Load(Data(7)), 22 := Return]
  }

  function Failing(): Prims<int> {
    (op, r, s, h) => Fail(5, 0, h)
  }

  function NoRank(): Addr -> nat {
    a => 0
  }

  /** With CATCHX a swap changes the result: CATCHX goes on at 14 with the error still in Result, and the
      frame that is entered with it goes to the handler at 20 instead. */
  lemma CatchXShowsPreemption(callee: Callees<int>)
    ensures var c := Core(0, [], 10, Nil, 0, 0);
            LinksEnd(CatchXCode(), NoRank()) &&
            Run(CatchXCode(), Failing(), callee, Running(c), 4) == Finished(Nil) &&
            Sliced(CatchXCode(), NoRank(), Failing(), callee, c, [3, 0]) == Finished(Data(7))
  {
    var code, prim, rank := CatchXCode(), Failing(), NoRank();
    var error := Error(0, 5);
    var c := Core(0, [], 10, Nil, 0, 0);
    var raised := Core(10, [], 10, error, 0, 1);
    var caught := Core(14, [], 20, error, 0, 1);
    var nil := Core(15, [], 20, Nil, 0, 1);
    var again := Core(20, [], 20, error, 0, 1);
    var seven := Core(22, [], 20, Data(7), 0, 1);
    assert Step(code, prim, c) == Raise(raised);
    assert Step(code, prim, raised) == Next(caught);
    assert Step(code, prim, caught) == Next(nil);
    assert Step(code, prim, nil) == Returned(Nil);
    assert Step(code, prim, again) == Next(seven);
    assert Step(code, prim, seven) == Returned(Data(7));
    CatchXUnsliced(code, prim, callee, c, raised, caught, nil);
    CatchXSliced(code, rank, prim, callee, c, raised, caught, again, seven);
  }

  lemma CatchXSliced(code: Code, rank: Addr -> nat, prim: Prims<int>, callee: Callees<int>,
                     a: Core<int>, b: Core<int>, c: Core<int>, again: Core<int>, seven: Core<int>)
    requires LinksEnd(code, rank) && Entered(a) == a && Entered(c) == again
    requires Step(code, prim, a) == Raise(b) && Step(code, prim, b) == Next(c)
    requires Step(code, prim, again) == Next(seven) && Step(code, prim, seven) == Returned(Data(7))
    ensures Sliced(code, rank, prim, callee, a, [3, 0]) == Finished(Data(7))
  {
    hide Step, LinksEnd, Entered;
    assert Checked(code, rank, prim, a, 3) == Dispatch(code, rank, prim, a, 2) == Checked(code, rank, prim, b, 2);
    assert Checked(code, rank, prim, b, 2) == Dispatch(code, rank, prim, b, 1) == Checked(code, rank, prim, c, 1) == (c, Swapped);
    assert Checked(code, rank, prim, again, 0) == Dispatch(code, rank, prim, again, COUNTER_LIMIT - 1)
        == Checked(code, rank, prim, seven, COUNTER_LIMIT - 1);
    assert Checked(code, rank, prim, seven, COUNTER_LIMIT - 1) == Dispatch(code, rank, prim, seven, COUNTER_LIMIT - 2)
        == (seven, Ended(Data(7)));
    var counters: seq<Counter> := [3, 0];
    assert counters[1..] == [0];
    assert Sliced(code, rank, prim, callee, c, [0]) == Finished(Data(7));
  }

  lemma CatchXUnsliced(code: Code, prim: Prims<int>, callee: Callees<int>, a: Core<int>, b: Core<int>, c: Core<int>, d: Core<int>)
    requires Step(code, prim, a) == Raise(b) && Step(code, prim, b) == Next(c)
    requires Step(code, prim, c) == Next(d) && Step(code, prim, d) == Returned(Nil)
    ensures Run(code, prim, callee, Running(a), 4) == Finished(Nil)
  {
    hide Step;
    MoreSteps(code, prim, callee, Running(a), 3);
    MoreSteps(code, prim, callee, Running(b), 2);
    MoreSteps(code, prim, callee, Running(c), 1);
    OneStep(code, prim, callee, Running(d));
  }
}
