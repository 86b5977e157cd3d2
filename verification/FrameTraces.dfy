/** What scheduling does to the traces of errors (src/ml_bytecode.c): a frame that is swapped with an error in
    Result and entered again adds the line of its handler. */
module FrameTraces {
  import opened FrameMachine
  import opened FrameRunner

  // ---------------------------------------------------------------- traces without a scheduler

  function StepTraces<H>(code: Code, prim: Prims<H>, callee: Callees<H>, lines: Lines, callers: seq<nat>, c: Core<H>, traces: Traces): Traces {
    match Step(code, prim, c)
    case Catching(error, _) => TraceAddAll(traces, error, callers)
    case Raise(c') => TraceAdd(traces, c'.result, lines(c.inst))
    case Calling(r, c') => EnteredTraces(traces, callee(r, c'.heap, c'.errors).result, lines(c.inst))
    case _ => traces
  }

  /** The traces after n steps. */
  function RunTraces<H>(code: Code, prim: Prims<H>, callee: Callees<H>, lines: Lines, callers: seq<nat>, s: State<H>, n: nat, traces: Traces): Traces
    decreases n
  {
    if n == 0 || !s.Running? then traces
    else
      RunTraces(code, prim, callee, lines, callers, Advance(code, prim, callee, s), n - 1,
                StepTraces(code, prim, callee, lines, callers, s.core, traces))
  }

  lemma {:induction false} RunTracesAdd<H>(code: Code, prim: Prims<H>, callee: Callees<H>, lines: Lines, callers: seq<nat>,
                                           s: State<H>, m: nat, n: nat, traces: Traces)
    ensures RunTraces(code, prim, callee, lines, callers, s, m + n, traces)
         == RunTraces(code, prim, callee, lines, callers, Run(code, prim, callee, s, m), n,
                      RunTraces(code, prim, callee, lines, callers, s, m, traces))
    decreases m
  {
    hide Advance, StepTraces;
    if m > 0 {
      if s.Running? {
        RunTracesAdd(code, prim, callee, lines, callers, Advance(code, prim, callee, s), m - 1, n,
                     StepTraces(code, prim, callee, lines, callers, s.core, traces));
      } else {
        RunStays(code, prim, callee, s, m);
      }
    }
  }

  lemma OneStepTraces<H>(code: Code, prim: Prims<H>, callee: Callees<H>, lines: Lines, callers: seq<nat>, c: Core<H>, k: nat, traces: Traces)
    ensures RunTraces(code, prim, callee, lines, callers, Running(c), k + 1, traces)
         == RunTraces(code, prim, callee, lines, callers, Advance(code, prim, callee, Running(c)), k,
                      StepTraces(code, prim, callee, lines, callers, c, traces))
  {
    hide Advance, StepTraces;
  }

  // ---------------------------------------------------------------- traces of slices

  /** The traces when a frame goes on after a slice: if it waits, it is entered with what it asked for. */
  function Answered<H>(callee: Callees<H>, lines: Lines, r: (Core<H>, Ending), traces: Traces): Traces {
    match r.1
    case Waiting(request, from) => EnteredTraces(traces, callee(request, r.0.heap, r.0.errors).result, lines(from))
    case _ => traces
  }

  /** A slice adds what its steps add. */
  lemma {:induction false} DispatchAdds<H>(code: Code, rank: Addr -> nat, prim: Prims<H>, callee: Callees<H>, lines: Lines, callers: seq<nat>,
                                           c: Core<H>, counter: Counter, traces: Traces)
    requires LinksEnd(code, rank) && counter > 0
    ensures RunTraces(code, prim, callee, lines, callers, Running(c), DispatchSteps(code, rank, prim, c, counter), traces)
         == Answered(callee, lines, Dispatch(code, rank, prim, c, counter),
                     DispatchTraces(code, rank, prim, lines, callers, c, counter, traces))
    decreases counter, 1, rank(c.inst)
  {
    hide LinksEnd, Step, Run, Advance, RunTraces, Meaning, Entered;
    StepMeaning(code, prim, callee, c);
    RaisedError(code, prim, c);
    var k := DispatchSteps(code, rank, prim, c, counter) - 1;
    OneStepTraces(code, prim, callee, lines, callers, c, k, traces);
    match Step(code, prim, c) {
      case Silent(c') =>
        RankFalls(code, rank, prim, c);
        DispatchAdds(code, rank, prim, callee, lines, callers, c', counter, traces);
      case Next(c') => CheckedAdds(code, rank, prim, callee, lines, callers, c', counter, traces);
      case Catching(error, c') =>
        CheckedAdds(code, rank, prim, callee, lines, callers, c', counter, TraceAddAll(traces, error, callers));
      case Raise(c') =>
        CheckedAdds(code, rank, prim, callee, lines, callers, c', counter, TraceAdd(traces, c'.result, lines(c.inst)));
      case _ =>
        NoSteps(code, prim, callee, lines, callers, Advance(code, prim, callee, Running(c)),
                StepTraces(code, prim, callee, lines, callers, c, traces));
    }
  }

  lemma NoSteps<H>(code: Code, prim: Prims<H>, callee: Callees<H>, lines: Lines, callers: seq<nat>, s: State<H>, traces: Traces)
    ensures RunTraces(code, prim, callee, lines, callers, s, 0, traces) == traces
  {
  }

  lemma CheckedAdds<H>(code: Code, rank: Addr -> nat, prim: Prims<H>, callee: Callees<H>, lines: Lines, callers: seq<nat>,
                       c: Core<H>, counter: Counter, traces: Traces)
    requires LinksEnd(code, rank)
    ensures RunTraces(code, prim, callee, lines, callers, Running(c), CheckedSteps(code, rank, prim, c, counter), traces)
         == Answered(callee, lines, Checked(code, rank, prim, c, counter),
                     CheckedTraces(code, rank, prim, lines, callers, c, counter, traces))
    decreases if counter == 0 then COUNTER_LIMIT else counter, 0
  {
    hide LinksEnd, RunTraces;
    if counter == 1 {
      NoSteps(code, prim, callee, lines, callers, Running(c), traces);
    } else {
      DispatchAdds(code, rank, prim, callee, lines, callers, c, Tick(counter), traces);
    }
  }

  /** The traces of a frame that is entered once for each counter, and once more; it was left at `line`. */
  function SlicedTraces<H>(code: Code, rank: Addr -> nat, prim: Prims<H>, callee: Callees<H>, lines: Lines, callers: seq<nat>,
                           c: Core<H>, line: nat, counters: seq<Counter>, traces: Traces): Traces
    requires LinksEnd(code, rank)
    decreases |counters|
  {
    var entered := EnteredTraces(traces, c.result, line);
    if counters == [] then entered
    else
      var r := Checked(code, rank, prim, Entered(c), counters[0]);
      var after := CheckedTraces(code, rank, prim, lines, callers, Entered(c), counters[0], entered);
      match r.1
      case Swapped => SlicedTraces(code, rank, prim, callee, lines, callers, r.0, lines(r.0.inst), counters[1..], after)
      case Waiting(request, from) =>
        SlicedTraces(code, rank, prim, callee, lines, callers, AfterCall(r.0, callee(request, r.0.heap, r.0.errors)), lines(from),
                     counters[1..], after)
      case _ => after
  }

  // ---------------------------------------------------------------- what is between

  ghost predicate HandlerLine(code: Code, rank: Addr -> nat, lines: Lines, line: nat) {
    exists h :: Handles(code, rank, h) && lines(h) == line
  }

  /** `b` is `a` with lines of handlers in between. */
  ghost predicate Between(code: Code, rank: Addr -> nat, lines: Lines, a: seq<nat>, b: seq<nat>)
    decreases |b|
  {
    if b == [] then a == []
    else
      var n := |b| - 1;
      || (a != [] && a[|a| - 1] == b[n] && Between(code, rank, lines, a[..|a| - 1], b[..n]))
      || (HandlerLine(code, rank, lines, b[n]) && Between(code, rank, lines, a, b[..n]))
  }

  function TraceOf(traces: Traces, id: nat): seq<nat> {
    if id in traces then traces[id] else []
  }

  /** Each trace of `after` that is not full is that of `before` with lines of handlers in between. */
  ghost predicate Woven(code: Code, rank: Addr -> nat, lines: Lines, before: Traces, after: Traces) {
    forall id: nat :: |TraceOf(after, id)| < MAX_TRACE ==> Between(code, rank, lines, TraceOf(before, id), TraceOf(after, id))
  }

  lemma {:induction false} BetweenItself(code: Code, rank: Addr -> nat, lines: Lines, a: seq<nat>)
    ensures Between(code, rank, lines, a, a)
    decreases |a|
  {
    hide HandlerLine;
    if a != [] {
      BetweenItself(code, rank, lines, a[..|a| - 1]);
    }
  }

  lemma WovenItself(code: Code, rank: Addr -> nat, lines: Lines, traces: Traces)
    ensures Woven(code, rank, lines, traces, traces)
  {
    hide Between;
    forall id: nat ensures Between(code, rank, lines, TraceOf(traces, id), TraceOf(traces, id)) {
      BetweenItself(code, rank, lines, TraceOf(traces, id));
    }
  }

  lemma {:induction false} BetweenShorter(code: Code, rank: Addr -> nat, lines: Lines, a: seq<nat>, b: seq<nat>)
    requires Between(code, rank, lines, a, b)
    ensures |a| <= |b|
    decreases |b|
  {
    hide HandlerLine;
    if b != [] {
      var n := |b| - 1;
      if a != [] && a[|a| - 1] == b[n] && Between(code, rank, lines, a[..|a| - 1], b[..n]) {
        BetweenShorter(code, rank, lines, a[..|a| - 1], b[..n]);
      } else {
        BetweenShorter(code, rank, lines, a, b[..n]);
      }
    }
  }

  lemma BetweenBoth(code: Code, rank: Addr -> nat, lines: Lines, a: seq<nat>, b: seq<nat>, line: nat)
    requires Between(code, rank, lines, a, b)
    ensures Between(code, rank, lines, a + [line], b + [line])
  {
    hide HandlerLine;
    assert (a + [line])[..|a|] == a && (b + [line])[..|b|] == b;
  }

  lemma BetweenMore(code: Code, rank: Addr -> nat, lines: Lines, a: seq<nat>, b: seq<nat>, line: nat)
    requires Between(code, rank, lines, a, b) && HandlerLine(code, rank, lines, line)
    ensures Between(code, rank, lines, a, b + [line])
  {
    hide HandlerLine;
    assert (b + [line])[..|b|] == b;
  }

  lemma TraceAdded(traces: Traces, error: Value, line: nat, id: nat)
    requires error.Error?
    ensures TraceOf(TraceAdd(traces, error, line), id)
         == if id == error.id && |TraceOf(traces, id)| < MAX_TRACE then TraceOf(traces, id) + [line] else TraceOf(traces, id)
  {
  }

  lemma WovenBoth(code: Code, rank: Addr -> nat, lines: Lines, a: Traces, b: Traces, error: Value, line: nat)
    requires Woven(code, rank, lines, a, b) && error.Error?
    ensures Woven(code, rank, lines, TraceAdd(a, error, line), TraceAdd(b, error, line))
  {
    hide Between, TraceAdd, TraceOf;
    var a', b' := TraceAdd(a, error, line), TraceAdd(b, error, line);
    forall id: nat | |TraceOf(b', id)| < MAX_TRACE ensures Between(code, rank, lines, TraceOf(a', id), TraceOf(b', id)) {
      TraceAdded(a, error, line, id);
      TraceAdded(b, error, line, id);
      if id == error.id {
        BetweenShorter(code, rank, lines, TraceOf(a, id), TraceOf(b, id));
        BetweenBoth(code, rank, lines, TraceOf(a, id), TraceOf(b, id), line);
      }
    }
  }

  lemma WovenMore(code: Code, rank: Addr -> nat, lines: Lines, a: Traces, b: Traces, error: Value, line: nat)
    requires Woven(code, rank, lines, a, b) && error.Error? && HandlerLine(code, rank, lines, line)
    ensures Woven(code, rank, lines, a, TraceAdd(b, error, line))
  {
    hide Between, TraceAdd, TraceOf, HandlerLine;
    var b' := TraceAdd(b, error, line);
    forall id: nat | |TraceOf(b', id)| < MAX_TRACE ensures Between(code, rank, lines, TraceOf(a, id), TraceOf(b', id)) {
      TraceAdded(b, error, line, id);
      if id == error.id {
        BetweenMore(code, rank, lines, TraceOf(a, id), TraceOf(b, id), line);
      }
    }
  }

  lemma {:induction false} WovenAll(code: Code, rank: Addr -> nat, lines: Lines, a: Traces, b: Traces, error: Value, entries: seq<nat>)
    requires Woven(code, rank, lines, a, b) && error.Error?
    ensures Woven(code, rank, lines, TraceAddAll(a, error, entries), TraceAddAll(b, error, entries))
    decreases |entries|
  {
    hide Woven, TraceAdd;
    if entries != [] {
      WovenBoth(code, rank, lines, a, b, error, entries[0]);
      WovenAll(code, rank, lines, TraceAdd(a, error, entries[0]), TraceAdd(b, error, entries[0]), error, entries[1..]);
    }
  }

  lemma WovenEntered(code: Code, rank: Addr -> nat, lines: Lines, a: Traces, b: Traces, value: Value, line: nat)
    requires Woven(code, rank, lines, a, b)
    ensures Woven(code, rank, lines, EnteredTraces(a, value, line), EnteredTraces(b, value, line))
  {
    hide Woven, TraceAdd;
    if value.Error? {
      WovenBoth(code, rank, lines, a, b, value, line);
    }
  }

  /** The same slice keeps the relation between any traces. */
  lemma {:induction false} DispatchWoven<H>(code: Code, rank: Addr -> nat, prim: Prims<H>, lines: Lines, callers: seq<nat>,
                                            c: Core<H>, counter: Counter, a: Traces, b: Traces)
    requires LinksEnd(code, rank) && counter > 0 && Woven(code, rank, lines, a, b)
    ensures Woven(code, rank, lines, DispatchTraces(code, rank, prim, lines, callers, c, counter, a),
                  DispatchTraces(code, rank, prim, lines, callers, c, counter, b))
    decreases counter, 1, rank(c.inst)
  {
    hide LinksEnd, Step, Woven, TraceAdd, TraceAddAll;
    RaisedError(code, prim, c);
    match Step(code, prim, c) {
      case Silent(c') =>
        RankFalls(code, rank, prim, c);
        DispatchWoven(code, rank, prim, lines, callers, c', counter, a, b);
      case Next(c') => CheckedWoven(code, rank, prim, lines, callers, c', counter, a, b);
      case Catching(error, c') =>
        WovenAll(code, rank, lines, a, b, error, callers);
        CheckedWoven(code, rank, prim, lines, callers, c', counter, TraceAddAll(a, error, callers), TraceAddAll(b, error, callers));
      case Raise(c') =>
        WovenBoth(code, rank, lines, a, b, c'.result, lines(c.inst));
        CheckedWoven(code, rank, prim, lines, callers, c', counter, TraceAdd(a, c'.result, lines(c.inst)), TraceAdd(b, c'.result, lines(c.inst)));
      case _ =>
    }
  }

  lemma CheckedWoven<H>(code: Code, rank: Addr -> nat, prim: Prims<H>, lines: Lines, callers: seq<nat>,
                        c: Core<H>, counter: Counter, a: Traces, b: Traces)
    requires LinksEnd(code, rank) && Woven(code, rank, lines, a, b)
    ensures Woven(code, rank, lines, CheckedTraces(code, rank, prim, lines, callers, c, counter, a),
                  CheckedTraces(code, rank, prim, lines, callers, c, counter, b))
    decreases if counter == 0 then COUNTER_LIMIT else counter, 0
  {
    hide LinksEnd, Woven;
    if counter != 1 {
      DispatchWoven(code, rank, prim, lines, callers, c, Tick(counter), a, b);
    }
  }

  // ---------------------------------------------------------------- sliced and unsliced

  /** Under every schedule the trace of each error, unless it is full, is the trace without a scheduler with
      lines of handlers in between. */
  lemma TracesWoven<H>(code: Code, rank: Addr -> nat, prim: Prims<H>, callee: Callees<H>, lines: Lines, callers: seq<nat>,
                       c: Core<H>, line: nat, counters: seq<Counter>, traces: Traces)
    requires CodeOk(code, rank) && Swappable(code, rank, Entered(c))
    ensures LinksEnd(code, rank)
    ensures Woven(code, rank, lines,
                  RunTraces(code, prim, callee, lines, callers, Running(Entered(c)), SlicedSteps(code, rank, prim, callee, c, counters),
                            EnteredTraces(traces, c.result, line)),
                  SlicedTraces(code, rank, prim, callee, lines, callers, c, line, counters, traces))
  {
    hide CodeOk, Swappable, Woven;
    CodeLinks(code, rank);
    var entered := EnteredTraces(traces, c.result, line);
    WovenItself(code, rank, lines, entered);
    SlicesWoven(code, rank, prim, callee, lines, callers, c, line, counters, entered, traces);
  }

  /** So if the program ends, the traces of its errors are those of the end without a scheduler with lines of
      handlers in between. */
  lemma EndTracesWoven<H>(code: Code, rank: Addr -> nat, prim: Prims<H>, callee: Callees<H>, lines: Lines, callers: seq<nat>,
                          c: Core<H>, line: nat, counters: seq<Counter>, traces: Traces, n: nat, v: Value)
    requires CodeOk(code, rank) && Swappable(code, rank, Entered(c))
    requires Run(code, prim, callee, Running(Entered(c)), n) == Finished(v) && Useful(counters) >= n
    ensures LinksEnd(code, rank)
    ensures Woven(code, rank, lines,
                  RunTraces(code, prim, callee, lines, callers, Running(Entered(c)), n, EnteredTraces(traces, c.result, line)),
                  SlicedTraces(code, rank, prim, callee, lines, callers, c, line, counters, traces))
  {
    hide CodeOk, Swappable, Woven, Sliced, SlicedSteps, SlicedTraces, Run, RunTraces, EnteredTraces, Entered;
    var k := SlicesAreInvisible(code, rank, prim, callee, c, counters);
    SameResult(code, rank, prim, callee, c, counters, n, v);
    TracesWoven(code, rank, prim, callee, lines, callers, c, line, counters, traces);
    EndTraces(code, prim, callee, lines, callers, Running(Entered(c)), n, k, EnteredTraces(traces, c.result, line));
  }

  lemma EndTraces<H>(code: Code, prim: Prims<H>, callee: Callees<H>, lines: Lines, callers: seq<nat>, s: State<H>, m: nat, n: nat, traces: Traces)
    requires !Run(code, prim, callee, s, m).Running? && !Run(code, prim, callee, s, n).Running?
    ensures RunTraces(code, prim, callee, lines, callers, s, m, traces) == RunTraces(code, prim, callee, lines, callers, s, n, traces)
  {
    hide Run, Advance, StepTraces;
    if m < n {
      RunTracesAdd(code, prim, callee, lines, callers, s, m, n - m, traces);
    } else {
      RunTracesAdd(code, prim, callee, lines, callers, s, n, m - n, traces);
    }
  }

  lemma {:induction false} SlicesWoven<H>(code: Code, rank: Addr -> nat, prim: Prims<H>, callee: Callees<H>, lines: Lines, callers: seq<nat>,
                                          c: Core<H>, line: nat, counters: seq<Counter>, a: Traces, b: Traces)
    requires CodeOk(code, rank) && LinksEnd(code, rank) && Swappable(code, rank, Entered(c))
    requires Woven(code, rank, lines, a, EnteredTraces(b, c.result, line))
    ensures Woven(code, rank, lines,
                  RunTraces(code, prim, callee, lines, callers, Running(Entered(c)), SlicedSteps(code, rank, prim, callee, c, counters), a),
                  SlicedTraces(code, rank, prim, callee, lines, callers, c, line, counters, b))
    decreases |counters|
  {
    hide CodeOk, LinksEnd, Swappable, Woven, Advance, Run, RunTraces, Checked, CheckedSteps, CheckedTraces, EnteredTraces, Entered, AfterCall;
    var e, b0 := Entered(c), EnteredTraces(b, c.result, line);
    if counters == [] {
      NoSteps(code, prim, callee, lines, callers, Running(e), a);
    } else {
      var r, j := Checked(code, rank, prim, e, counters[0]), CheckedSteps(code, rank, prim, e, counters[0]);
      var a1 := CheckedTraces(code, rank, prim, lines, callers, e, counters[0], a);
      var b1 := CheckedTraces(code, rank, prim, lines, callers, e, counters[0], b0);
      var j' := CheckedIsRun(code, rank, prim, callee, e, counters[0]);
      CheckedAdds(code, rank, prim, callee, lines, callers, e, counters[0], a);
      CheckedWoven(code, rank, prim, lines, callers, e, counters[0], a, b0);
      match r.1 {
        case Swapped =>
          EnteredAgain(code, rank, lines, r.0, a1, b1);
          var n := SlicedSteps(code, rank, prim, callee, r.0, counters[1..]);
          RunTracesAdd(code, prim, callee, lines, callers, Running(e), j, n, a);
          SlicesWoven(code, rank, prim, callee, lines, callers, r.0, lines(r.0.inst), counters[1..], a1, b1);
        case Waiting(request, from) =>
          var back := AfterCall(r.0, callee(request, r.0.heap, r.0.errors));
          BackResult(r.0, callee(request, r.0.heap, r.0.errors));
          var n := SlicedSteps(code, rank, prim, callee, back, counters[1..]);
          RunTracesAdd(code, prim, callee, lines, callers, Running(e), j, n, a);
          WovenEntered(code, rank, lines, a1, b1, back.result, lines(from));
          SlicesWoven(code, rank, prim, callee, lines, callers, back, lines(from), counters[1..],
                      EnteredTraces(a1, back.result, lines(from)), b1);
        case _ =>
      }
    }
  }

  lemma BackResult<H>(c: Core<H>, out: CallOut<H>)
    ensures AfterCall(c, out).result == out.result
  {
  }

  /** A frame that was swapped with an error adds the line of its handler. */
  lemma EnteredAgain<H>(code: Code, rank: Addr -> nat, lines: Lines, c: Core<H>, a: Traces, b: Traces)
    requires Swappable(code, rank, c) && Woven(code, rank, lines, a, b)
    ensures Entered(c) == c
    ensures Woven(code, rank, lines, a, EnteredTraces(b, c.result, lines(c.inst)))
  {
    hide Woven, TraceAdd, Handles;
    if c.result.Error? {
      assert Handles(code, rank, c.inst);
      WovenMore(code, rank, lines, a, b, c.result, lines(c.inst));
    }
  }
}
