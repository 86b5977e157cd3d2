/** How long a slice is, and what it writes into the trace of an error (src/ml_bytecode.c). */
module FrameSlices {
  import opened FrameMachine
  import opened FrameRunner

  /** How many of the first `n` steps dispatch an instruction other than LINK. */
  function Dispatched<H>(code: Code, prim: Prims<H>, callee: Callees<H>, s: State<H>, n: nat): nat
    decreases n
  {
    if n == 0 then 0
    else (if s.Running? && Step(code, prim, s.core).Silent? then 0 else 1)
         + Dispatched(code, prim, callee, Advance(code, prim, callee, s), n - 1)
  }

  /** A slice that uses up its counter has dispatched as many instructions as the counter said. */
  lemma {:induction false} DispatchCounts<H>(code: Code, rank: Addr -> nat, prim: Prims<H>, callee: Callees<H>, c: Core<H>,
                                             counter: Counter)
    returns (k: nat)
    requires LinksEnd(code, rank) && counter > 0 && Dispatch(code, rank, prim, c, counter).1.Swapped?
    ensures Run(code, prim, callee, Running(c), k) == Running(Dispatch(code, rank, prim, c, counter).0)
    ensures Dispatched(code, prim, callee, Running(c), k) == counter
    decreases counter, 1, rank(c.inst)
  {
    hide LinksEnd, Step, Advance;
    StepMeaning(code, prim, callee, c);
    var out := Step(code, prim, c);
    if out.Silent? {
      RankFalls(code, rank, prim, c);
      var j := DispatchCounts(code, rank, prim, callee, out.core, counter);
      MoreSteps(code, prim, callee, Running(c), j);
      k := j + 1;
    } else {
      var j := CheckedCounts(code, rank, prim, callee, out.core, counter);
      MoreSteps(code, prim, callee, Running(c), j);
      k := j + 1;
    }
  }

  /** From a check of the counter on it is one less: at 1 the frame is swapped at once, and 0 stands for 2^64. */
  lemma {:induction false} CheckedCounts<H>(code: Code, rank: Addr -> nat, prim: Prims<H>, callee: Callees<H>, c: Core<H>,
                                            counter: Counter)
    returns (k: nat)
    requires LinksEnd(code, rank) && Checked(code, rank, prim, c, counter).1.Swapped?
    ensures Run(code, prim, callee, Running(c), k) == Running(Checked(code, rank, prim, c, counter).0)
    ensures Dispatched(code, prim, callee, Running(c), k) == (if counter == 0 then 0x1_0000_0000_0000_0000 else counter) - 1
    decreases if counter == 0 then COUNTER_LIMIT else counter, 0
  {
    hide LinksEnd, Step, Advance;
    if counter == 1 {
      k := 0;
    } else {
      k := DispatchCounts(code, rank, prim, callee, c, Tick(counter));
    }
  }

  /** The trace of an error that an instruction raises begins with the line of this instruction. */
  lemma RaisedAtLine<H>(code: Code, rank: Addr -> nat, prim: Prims<H>, lines: Lines, callers: seq<nat>, c: Core<H>,
                        counter: Counter, traces: Traces)
    requires LinksEnd(code, rank) && counter > 0 && Step(code, prim, c).Raise? && c.errors !in traces
    ensures var after := DispatchTraces(code, rank, prim, lines, callers, c, counter, traces);
            c.errors in after && |after[c.errors]| > 0 && after[c.errors][0] == lines(c.inst)
  {
    hide LinksEnd, Step;
    var d := Step(code, prim, c).core;
    RaisedError(code, prim, c);
    FreshError(code, prim, c);
    var added := TraceAdd(traces, d.result, lines(c.inst));
    GrownItself(added);
    CheckedGrow(code, rank, prim, lines, callers, d, counter, added, added);
    assert added[c.errors] == [lines(c.inst)];
  }

  lemma FreshError<H>(code: Code, prim: Prims<H>, c: Core<H>)
    requires Step(code, prim, c).Raise?
    ensures Step(code, prim, c).core.result.Error? && Step(code, prim, c).core.result.id == c.errors
  {
    hide LeaveStep;
  }

  lemma {:induction false} AddedAll(traces: Traces, error: Value, entries: seq<nat>, id: nat)
    requires error.Error? && id == error.id
    ensures var before := if id in traces then traces[id] else [];
            |before| + |entries| <= 16 && (id in traces || entries != []) ==>
              var after := TraceAddAll(traces, error, entries); id in after && after[id] == before + entries
    decreases |entries|
  {
    if entries == [] {
      assert id in traces ==> traces[id] + entries == traces[id];
    } else {
      var before := if id in traces then traces[id] else [];
      assert before + [entries[0]] + entries[1..] == before + entries;
      AddedAll(TraceAdd(traces, error, entries[0]), error, entries[1..], id);
    }
  }

  /** Where an error is caught its trace goes on with the frames that wait for this one, innermost first, if
      there is room for all of them. */
  lemma CaughtForCallers<H>(code: Code, rank: Addr -> nat, prim: Prims<H>, lines: Lines, callers: seq<nat>, c: Core<H>,
                            counter: Counter, traces: Traces)
    requires LinksEnd(code, rank) && counter > 0 && Step(code, prim, c).Catching? && c.result.Error?
    requires c.result.id in traces && |traces[c.result.id]| + |callers| <= 16
    ensures var id, after := c.result.id, DispatchTraces(code, rank, prim, lines, callers, c, counter, traces);
            id in after && traces[id] + callers <= after[id]
  {
    hide LinksEnd, Step;
    var d := Step(code, prim, c).core;
    CaughtIsResult(code, prim, c);
    var added := TraceAddAll(traces, c.result, callers);
    AddedAll(traces, c.result, callers, c.result.id);
    GrownItself(added);
    CheckedGrow(code, rank, prim, lines, callers, d, counter, added, added);
  }

  lemma CaughtIsResult<H>(code: Code, prim: Prims<H>, c: Core<H>)
    requires Step(code, prim, c).Catching?
    ensures Step(code, prim, c).error == c.result && c.result.Error?
  {
    hide LeaveStep;
  }
}
