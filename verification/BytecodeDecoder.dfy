/** The deserialiser of closures, and what writing and reading a closure back preserves
    (src/ml_bytecode.c). */
module BytecodeDecoder {
  import opened BytecodeFormat
  import opened BytecodeStream
  import opened BytecodeWalk
  import opened BytecodeRun
  import opened BytecodeDecls
  import opened BytecodeEncoder
  import opened BytecodeSerialise

  // ---------------------------------------------------------------- decoding

  /** The loop over the code array. */
  method DecodeInsts(size: int32, line0: uint32, bytes: Bytes, values: seq<Val>, configs: set<Bytes>) returns (r: Result<FlatCode>)
    ensures r == ReadInsts(0, size, line0, bytes, values, configs, map[])
  {
    hide NextItem;
    var pos: nat, line, left, constants := 0, line0, bytes, values;
    var code: FlatCode := map[];
    while pos < size
      invariant ReadInsts(pos, size, line, left, constants, configs, code)
             == ReadInsts(0, size, line0, bytes, values, configs, map[])
      decreases |left|
    {
      ghost var before := left;
      var item :- NextItem(line, left, constants, configs);
      match item {
        case Line(newLine, rest) =>
          line, left := newLine, rest;
        case Op(inst, rest, vs) =>
          if pos + inst.ops.Cells() > size {
            return Failure(Undefined);
          }
          code := code[pos := inst];
          pos, left, constants := pos + inst.ops.Cells(), rest, vs;
      }
    }
    r := Success(code);
  }

  /** A list read after `front`. */
  function Onto<T>(front: seq<T>, r: Result<(seq<T>, Bytes)>): Result<(seq<T>, Bytes)> {
    if r.Failure? then r else Success((front + r.value.0, r.value.1))
  }

  lemma OntoNext<T>(front: seq<T>, x: T, r: Result<(seq<T>, Bytes)>)
    ensures Onto(front + [x], r) == Onto(front, Onto([x], r))
  {
    if r.Success? {
      assert (front + [x]) + r.value.0 == front + ([x] + r.value.0);
    }
  }

  lemma OntoEnds<T>(front: seq<T>, left: Bytes, r: Result<(seq<T>, Bytes)>)
    ensures Onto([], r) == r
    ensures Onto(front, Success(([], left))) == Success((front, left))
  {
    if r.Success? {
      assert [] + r.value.0 == r.value.0;
    }
    assert front + [] == front;
  }

  method DecodeStrings(bytes: Bytes, n: nat) returns (r: Result<(seq<Bytes>, Bytes)>)
    ensures r == NextStrings(bytes, n)
  {
    hide NextString;
    var ss: seq<Bytes>, left := [], bytes;
    OntoEnds(ss, left, NextStrings(bytes, n));
    for i := 0 to n
      invariant NextStrings(bytes, n) == Onto(ss, NextStrings(left, n - i))
    {
      var read :- NextString(left);
      OntoNext(ss, read.0, NextStrings(read.1, n - i - 1));
      ss, left := ss + [read.0], read.1;
    }
    OntoEnds(ss, left, NextStrings(left, 0));
    r := Success((ss, left));
  }

  method DecodeRecords(bytes: Bytes, n: nat) returns (r: Result<(seq<DeclRecord>, Bytes)>)
    ensures r == NextRecords(bytes, n)
  {
    hide NextRecord;
    var ds: seq<DeclRecord>, left := [], bytes;
    OntoEnds(ds, left, NextRecords(bytes, n));
    for i := 0 to n
      invariant NextRecords(bytes, n) == Onto(ds, NextRecords(left, n - i))
    {
      var read :- NextRecord(left);
      OntoNext(ds, read.0, NextRecords(read.1, n - i - 1));
      ds, left := ds + [read.0], read.1;
    }
    OntoEnds(ds, left, NextRecords(left, 0));
    r := Success((ds, left));
  }

  method DecodeHeader(bytes: Bytes) returns (r: Result<(Header, Bytes)>)
    ensures r == NextHeader(bytes)
  {
    hide NextCount, NextString, NextStrings;
    var version :- NextCount(bytes);
    if version.0 != VERSION {
      return Failure(VersionMismatch);
    }
    var name :- NextString(version.1);
    var source :- NextString(name.1);
    var startLine :- NextCount(source.1);
    var frameSize :- NextCount(startLine.1);
    var numParams :- NextCount(frameSize.1);
    var numUpValues :- NextCount(numParams.1);
    var flags :- NextCount(numUpValues.1);
    var params :- DecodeStrings(flags.1, if numParams.0 < 0 then 0 else numParams.0);
    r := Success((Header(name.0, source.0, startLine.0, frameSize.0, params.0, numUpValues.0, flags.0 % 4), params.1));
  }

  /** decode_closure_info. */
  method DecodeClosure(bytes: Bytes, values: seq<Val>, configs: set<Bytes>) returns (r: Result<Decoded>)
    ensures r == ReadClosure(bytes, values, configs)
  {
    hide NextHeader, NextCount, NextRecords, NextIndex, NextNum, ReadInsts;
    var header :- DecodeHeader(bytes);
    var numDecls :- NextCount(header.1);
    var decls :- DecodeRecords(numDecls.1, if numDecls.0 < 0 then 0 else numDecls.0);
    var scope :- NextCount(decls.1);
    var size :- NextCount(scope.1);
    var ret :- NextIndex(size.1);
    var delta :- NextNum(ret.1);
    var code :- DecodeInsts(size.0, (header.0.startLine + delta.0) % LINES, delta.1, values, configs);
    r := Success(Decoded(header.0, decls.0, scope.0, size.0, ret.0, code));
  }

  // ---------------------------------------------------------------- round trip

  /** Every configuration the code tests is known to the reader. */
  ghost predicate ConfigsKnown(code: Memory, path: seq<Addr>, configs: set<Bytes>) {
    forall k | Starts(code, path, k) ::
      var ops := code[path[k]].inst.ops; ops.InstConfig? ==> ops.name in configs
  }

  lemma {:induction false} ConfiguredFlat(code: Memory, path: seq<Addr>, i: nat, f: Addr -> index, g: Decls -> index, configs: set<Bytes>)
    requires i < |path| && ConfigsKnown(code, path, configs)
    ensures Configured(Flatten(code, path, i, f, g), configs)
    decreases |path| - i
  {
    if i < |path| - 1 {
      ConfiguredFlat(code, path, i + 1, f, g, configs);
    }
  }

  /** The table of a serialised closure: all its declarations are there, each with the ones around it. */
  ghost predicate Tabled(c: Closure, path: seq<Addr>, table: Table, records: seq<DeclRecord>)
    requires |path| > 0
  {
    && TableOk(table, records) && TabledUpTo(c.code, path, |path| - 1, table)
    && (c.decls.Scope? ==> c.decls in table)
  }

  /** A closure that was read back: the same header, and code that holds exactly the instructions of the
      walk, in place of each LINK nothing, and in place of each visited target its offset. */
  ghost predicate Restored(c: Closure, path: seq<Addr>, table: Table, d: Decoded)
    requires |path| > 0
  {
    && d.header == c.header.(flags := c.header.flags % 4)
    && d.size == Off(c.code, path, |path| - 1) && d.ret == ReturnUpTo(c.code, path, |path| - 1, c.ret)
    && Image(c.code, path, TargetOf(c.code, path), Indexer(table), d.code)
    && Tabled(c, path, table, d.decls)
    && d.scope == (if c.decls.NoDecls? then -1 else Indexer(table)(c.decls))
  }

  /** Whatever closure is written, reading the bytes and constants back succeeds and restores it. */
  method WriteAndRead(c: Closure, ghost path: seq<Addr>, ghost all: set<Decls>, configs: set<Bytes>)
    returns (r: Result<Decoded>, ghost table: Table)
    requires Ready(c, path, all) && |path| > 0 && ConfigsKnown(c.code, path, configs)
    ensures r.Success? && Restored(c, path, table, r.value)
  {
    hide Ready, TableOk, TabledUpTo, Off, ReturnUpTo, FlatOk, PutClosure, Constants, Flatten, Layout, TargetOf, ReadClosure,
         Image, ConfigsKnown, Configured;
    var bytes, values; ghost var records;
    bytes, values, table, records := Serialise(c, path, all);
    ReadyFacts(c, path, all);
    ghost var flat := FlatFor(c, path, table, records);
    ConfiguredFlat(c.code, path, 0, TargetOf(c.code, path), Indexer(table), configs);
    ClosureBack(flat, configs);
    LayoutImage(c.code, path, TargetOf(c.code, path), Indexer(table));
    r := DecodeClosure(bytes, values, configs);
  }

  lemma ReadyFacts(c: Closure, path: seq<Addr>, all: set<Decls>)
    requires Ready(c, path, all)
    ensures c.entry in c.code && Off(c.code, path, |path| - 1) < 0x8000_0000
    ensures IsWalk(c.code, path, c.halt) && path[0] == c.entry
  {
  }

  // ---------------------------------------------------------------- control flow

  /** The walk visits every target; LOCALI names a declaration; Return is a visited instruction. */
  ghost predicate Sound(c: Closure, path: seq<Addr>)
    requires |path| > 0
  {
    && (forall k | Starts(c.code, path, k) :: SoundAt(c.code[path[k]].inst, path))
    && c.ret in path[..|path| - 1] && c.ret in c.code && c.code[c.ret].Code?
  }

  ghost predicate SoundAt(inst: LinkedInst, path: seq<Addr>)
    requires |path| > 0
  {
    && (forall t | t in inst.ops.Targets() :: t in path[..|path| - 1])
    && (inst.opcode == LOCALI && inst.ops.HasDecl() ==> inst.ops.decl.Scope?)
  }

  lemma VisitedTarget(code: Memory, path: seq<Addr>, halt: Addr, t: Addr)
    requires IsWalk(code, path, halt) && Off(code, path, |path| - 1) < 0x8000_0000
    requires t in path[..|path| - 1]
    ensures t in path && TargetOf(code, path)(t) == OffsetOf(code, path, t)
  {
    var k: nat :| k < |path| - 1 && path[k] == t;
    IndexUnique(code, path, halt, k);
    OffsetsFit(code, path, k);
  }

  lemma WrittenFaithfully(c: Closure, path: seq<Addr>, table: Table, records: seq<DeclRecord>)
    requires IsWalk(c.code, path, c.halt) && Off(c.code, path, |path| - 1) < 0x8000_0000
    requires Sound(c, path) && Tabled(c, path, table, records)
    ensures Faithful(c.code, path, TargetOf(c.code, path), Indexer(table), records)
  {
    hide IsWalk, Off, OffsetOf, TargetOf, View, TableOk;
    forall k | Starts(c.code, path, k)
      ensures FaithfulAt(c.code, path, c.code[path[k]].inst, TargetOf(c.code, path), Indexer(table), records)
    {
      var inst := c.code[path[k]].inst;
      assert SoundAt(inst, path);
      forall t | t in inst.ops.Targets() ensures t in path && TargetOf(c.code, path)(t) == OffsetOf(c.code, path, t) {
        VisitedTarget(c.code, path, c.halt, t);
      }
      if inst.opcode == LOCALI && inst.ops.HasDecl() {
        ViewIsContent(inst.ops.decl, table, records);
      }
    }
  }

  lemma {:induction false} ReturnFound(code: Memory, path: seq<Addr>, halt: Addr, i: nat, k: nat, ret: Addr)
    requires IsWalk(code, path, halt) && k < i <= |path| - 1 && path[k] == ret && ret in code && code[ret].Code?
    ensures ReturnUpTo(code, path, i, ret) == Off(code, path, k)
    decreases i
  {
    hide Off;
    if i - 1 != k {
      WalkDistinct(code, path, halt, k, i - 1);
      ReturnFound(code, path, halt, i - 1, k, ret);
    }
  }

  /** The first frame of a call. */
  function Start<S>(entry: nat, ret: nat, state: S): Frame<S> {
    Running(entry, ret, state)
  }

  lemma StartsRelated<S>(c: Closure, path: seq<Addr>, table: Table, d: Decoded, state: S)
    requires IsWalk(c.code, path, c.halt) && path[0] == c.entry && Sound(c, path) && Restored(c, path, table, d)
    ensures Related(c.code, path, Start(c.entry, c.ret, state), Start(0, d.ret, state))
  {
    var k: nat :| k < |path| - 1 && path[k] == c.ret;
    OffsetAt(c.code, path, c.halt, k);
    OffsetAt(c.code, path, c.halt, 0);
    ReturnFound(c.code, path, c.halt, |path| - 1, k, c.ret);
  }

  /** A closure that was written and read back runs as the original does, for every behaviour of the
      instructions and every number of steps: the original after `n` steps and the copy after as many
      steps as instructions were executed stand at corresponding places in equal states. */
  lemma CopyFollows<S>(c: Closure, path: seq<Addr>, table: Table, d: Decoded, exec: Semantics<S>, state: S, n: nat)
    requires IsWalk(c.code, path, c.halt) && path[0] == c.entry && Sound(c, path) && Restored(c, path, table, d)
    requires Off(c.code, path, |path| - 1) < 0x8000_0000
    ensures var f, g := Start(c.entry, c.ret, state), Start(0, d.ret, state);
            Related(c.code, path, RunLinked(c.code, c.halt, exec, f, n),
                    RunFlat(d.code, d.decls, exec, g, Instructions(c.code, c.halt, exec, f, n)))
  {
    hide IsWalk, Sound, Tabled, Faithful, Image, Related, Off;
    StartsRelated(c, path, table, d, state);
    WrittenFaithfully(c, path, table, d.decls);
    FlatFollows(c.code, path, c.halt, TargetOf(c.code, path), Indexer(table), d.decls, d.code, exec,
                Start(c.entry, c.ret, state), Start(0, d.ret, state), n);
  }

  /** Conversely the original reaches the place of the copy after any number `m` of its steps. */
  lemma OriginalFollows<S>(c: Closure, path: seq<Addr>, table: Table, d: Decoded, exec: Semantics<S>, state: S, m: nat)
    returns (n: nat)
    requires IsWalk(c.code, path, c.halt) && path[0] == c.entry && Sound(c, path) && Restored(c, path, table, d)
    requires Off(c.code, path, |path| - 1) < 0x8000_0000
    ensures var f, g := Start(c.entry, c.ret, state), Start(0, d.ret, state);
            Instructions(c.code, c.halt, exec, f, n) == m &&
            Related(c.code, path, RunLinked(c.code, c.halt, exec, f, n), RunFlat(d.code, d.decls, exec, g, m))
  {
    hide IsWalk, Sound, Tabled, Faithful, Image, Related, Off;
    StartsRelated(c, path, table, d, state);
    WrittenFaithfully(c, path, table, d.decls);
    n := LinkedFollows(c.code, path, c.halt, TargetOf(c.code, path), Indexer(table), d.decls, d.code, exec,
                       Start(c.entry, c.ret, state), Start(0, d.ret, state), m);
  }

  // ---------------------------------------------------------------- where the writer loses something

  /** A target on the walk keeps its place exactly when it is not Halt, or there is no instruction at all. */
  lemma TargetKeptExactly(code: Memory, path: seq<Addr>, halt: Addr, t: Addr)
    requires IsWalk(code, path, halt) && Off(code, path, |path| - 1) < 0x8000_0000 && t in path
    ensures TargetOf(code, path)(t) == OffsetOf(code, path, t) <==> t != halt || Off(code, path, |path| - 1) == 0
  {
    hide Off;
    var n := |path| - 1;
    IndexUnique(code, path, halt, n);
    if t != halt {
      var k := IndexOf(path, t);
      assert path[..n][k] == t;
      VisitedTarget(code, path, halt, t);
    } else {
      forall k: nat | k < n ensures path[k] != halt {
        WalkDistinct(code, path, halt, k, n);
      }
    }
  }

  /** A declaration operand keeps its meaning exactly when it is not NULL, or no declaration exists. */
  lemma DeclKeptExactly(d: Decls, table: Table, records: seq<DeclRecord>)
    requires TableOk(table, records) && (d.Scope? ==> d in table)
    ensures View(records, Indexer(table)(d)) == Content(d) <==> d.Scope? || records == []
  {
    if d.Scope? {
      ViewIsContent(d, table, records);
    } else {
      assert d !in table;
    }
  }

  /** A jump to Halt goes astray: `goto 2` at address 0 with Halt at 2 is written as a jump to 0. */
  lemma JumpToHaltLost()
    ensures var code: Memory := map[0 := Code(Instruction(14, 1, Inst(2)))];
            IsWalk(code, [0, 2], 2) && TargetOf(code, [0, 2])(2) == 0 && OffsetOf(code, [0, 2], 2) == 2
  {
    var code: Memory := map[0 := Code(Instruction(14, 1, Inst(2)))];
    var path: seq<Addr> := [0, 2];
    assert IsWalk(code, path, 2) by {
      forall i, j | 0 <= i && j == i + 1 && j < |path| ensures Linked(code, 2, path[i], path[j]) {
        assert i == 0;
      }
    }
    IndexUnique(code, path, 2, 1);
    assert Off(code, path, 1) == Off(code, path, 0) + Span(code, path[0]) == 2;
  }
}
