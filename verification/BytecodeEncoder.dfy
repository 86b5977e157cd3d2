/** The serialiser of closures (src/ml_bytecode.c): a pass that finds offsets and declarations and a
    pass that writes the instructions. */
module BytecodeEncoder {
  import opened BytecodeFormat
  import opened BytecodeStream
  import opened BytecodeWalk
  import opened BytecodeLabels
  import opened BytecodeDecls

  datatype Closure = Closure(header: Header, decls: Decls, code: Memory, entry: Addr, ret: Addr, halt: Addr)

  ghost predicate InstReady(inst: LinkedInst) {
    WellTyped(inst) && Encodable(inst.ops)
  }

  ghost predicate CodeReady(code: Memory, path: seq<Addr>, all: set<Decls>) {
    forall k | Starts(code, path, k) ::
      InstReady(code[path[k]].inst) &&
      (code[path[k]].inst.ops.HasDecl() ==> Scopes(code[path[k]].inst.ops.decl) <= all)
  }

  /** What the serialiser relies on: Entry leads to Halt, the instructions are of the known kinds, and
      lengths, offsets, labels and indices fit the fields that hold them. */
  ghost predicate Ready(c: Closure, path: seq<Addr>, all: set<Decls>) {
    && HeaderOk(c.header.(flags := c.header.flags % 4))
    && IsWalk(c.code, path, c.halt) && path[0] == c.entry && c.entry in c.code
    && Off(c.code, path, |path| - 1) < 0x8000_0000
    && |TargetSet(c.code, path)| < MAX_LABELS
    && DeclsReady(all) && Scopes(c.decls) <= all && CodeReady(c.code, path, all)
  }

  // ---------------------------------------------------------------- first pass: offsets and declarations

  type Labels = map<nat, index>

  /** The labels seen so far, with the offsets of the addresses that carry them. */
  ghost predicate LabelsOk(code: Memory, path: seq<Addr>, i: nat, marks: Marks, labels: Labels)
    requires i <= |path|
  {
    && (forall k: nat | k < i && path[k] in marks :: marks[path[k]] in labels && labels[marks[path[k]]] == Off(code, path, k))
    && (forall l | l in labels :: exists k: nat :: k < i && path[k] in marks && marks[path[k]] == l)
  }

  lemma LabelsNext(code: Memory, path: seq<Addr>, halt: Addr, i: nat, marks: Marks, count: nat, labels: Labels, o: index)
    requires IsWalk(code, path, halt) && i < |path| && MarksOk(marks, count) && LabelsOk(code, path, i, marks, labels)
    requires o == Off(code, path, i)
    ensures path[i] in marks ==> LabelsOk(code, path, i + 1, marks, labels[marks[path[i]] := o])
    ensures path[i] !in marks ==> LabelsOk(code, path, i + 1, marks, labels)
  {
    hide Off;
    if path[i] in marks {
      forall k: nat | k < i && path[k] in marks ensures marks[path[k]] != marks[path[i]] {
        WalkDistinct(code, path, halt, k, i);
      }
      var labels' := labels[marks[path[i]] := o];
      forall l | l in labels' ensures exists k: nat :: k < i + 1 && path[k] in marks && marks[path[k]] == l {
        if l == marks[path[i]] {
        } else {
          var k: nat :| k < i && path[k] in marks && marks[path[k]] == l;
        }
      }
    }
  }

  /** The offset of `Return`, noted when the loop comes across it at an instruction. */
  function ReturnUpTo(code: Memory, path: seq<Addr>, i: nat, ret: Addr): nat
    requires i <= |path|
  {
    if i == 0 then 0
    else if path[i - 1] == ret && ret in code && code[ret].Code? then Off(code, path, i - 1)
    else ReturnUpTo(code, path, i - 1, ret)
  }

  ghost predicate TabledUpTo(code: Memory, path: seq<Addr>, i: nat, table: Table) {
    forall k | k < i && Starts(code, path, k) ::
      var ops := code[path[k]].inst.ops; ops.HasDecl() && ops.decl.Scope? ==> ops.decl in table
  }

  lemma TabledNext(code: Memory, path: seq<Addr>, i: nat, table: Table, table': Table)
    requires TabledUpTo(code, path, i, table) && Extends(table, table')
    requires Starts(code, path, i) ==>
               var ops := code[path[i]].inst.ops; ops.HasDecl() && ops.decl.Scope? ==> ops.decl in table'
    ensures TabledUpTo(code, path, i + 1, table')
  {
  }

  /** The bytes of the declarations found so far and their table. */
  ghost predicate Found(table: Table, records: seq<DeclRecord>, buffer: Bytes, all: set<Decls>) {
    && TableOk(table, records) && RecordsOk(records) && buffer == PutRecords(records, []) && table.Keys <= all
  }

  method FindOperandDecl(buffer: Bytes, table: Table, ops: Operands<Addr, Decls>, ghost records: seq<DeclRecord>, ghost all: set<Decls>)
    returns (buffer': Bytes, table': Table, ghost records': seq<DeclRecord>)
    requires DeclsReady(all) && (ops.HasDecl() ==> Scopes(ops.decl) <= all) && Found(table, records, buffer, all)
    ensures Found(table', records', buffer', all) && Extends(table, table')
    ensures ops.HasDecl() && ops.decl.Scope? ==> ops.decl in table'
  {
    hide TableOk, RecordsOk, PutRecords, Extends, DeclsReady;
    buffer', table', records' := buffer, table, records;
    ExtendsItself(table);
    if ops.HasDecl() {
      var index;
      buffer', table', index, records' := FindDecl(buffer, table, ops.decl, records, all);
    }
  }

  lemma ReadyAt(code: Memory, path: seq<Addr>, all: set<Decls>, k: nat)
    requires CodeReady(code, path, all) && Starts(code, path, k)
    ensures InstReady(code[path[k]].inst)
    ensures code[path[k]].inst.ops.HasDecl() ==> Scopes(code[path[k]].inst.ops.decl) <= all
  {
  }

  method Survey(code: Memory, entry: Addr, ret: Addr, halt: Addr, marks: Marks, scope: Decls,
                ghost path: seq<Addr>, ghost count: nat, ghost all: set<Decls>)
    returns (labels: Labels, size: index, retOffset: index, scopeIndex: int32, buffer: Bytes, table: Table,
             ghost records: seq<DeclRecord>)
    requires IsWalk(code, path, halt) && |path| > 0 && path[0] == entry && Off(code, path, |path| - 1) < 0x8000_0000
    requires MarksOk(marks, count) && DeclsReady(all) && Scopes(scope) <= all && CodeReady(code, path, all)
    ensures LabelsOk(code, path, |path| - 1, marks, labels)
    ensures size == Off(code, path, |path| - 1) && retOffset == ReturnUpTo(code, path, |path| - 1, ret)
    ensures Found(table, records, buffer, all) && TabledUpTo(code, path, |path| - 1, table)
    ensures if scope.NoDecls? then scopeIndex == -1 else scope in table && scopeIndex == table[scope]
  {
    hide IsWalk, MarksOk, LabelsOk, Off, ReturnUpTo, TabledUpTo, TableOk, RecordsOk, PutRecords, Extends, DeclsReady, CodeReady,
         InstReady, Found;
    var inst, base, baseOffset: nat := entry, entry, 0;
    labels, retOffset := map[], 0;
    NothingFound(code, path, marks, ret, all);
    buffer, table, scopeIndex, records := FindScope(scope, all);
    NothingTabled(code, path, table);
    ghost var i: nat := 0;
    while inst != halt
      invariant i < |path| && inst == path[i] && base <= inst
      invariant (inst - base) + baseOffset == Off(code, path, i)
      invariant LabelsOk(code, path, i, marks, labels) && retOffset == ReturnUpTo(code, path, i, ret)
      invariant Found(table, records, buffer, all) && TabledUpTo(code, path, i, table)
      invariant if scope.NoDecls? then scopeIndex == -1 else scope in table && scopeIndex == table[scope]
      decreases |path| - i
    {
      WalkGoesOn(code, path, halt, i);
      StepOfWalk(code, path, halt, i);
      OffsetsFit(code, path, i);
      ReturnNext(code, path, i, ret);
      var offset: index := (inst - base) + baseOffset;
      LabelsNext(code, path, halt, i, marks, count, labels, offset);
      if inst in marks {
        labels := labels[marks[inst] := offset];
      }
      ghost var before := table;
      match code[inst] {
        case Link(_, target) =>
          baseOffset := baseOffset + (inst - base);
          base, inst := target, target;
          ExtendsItself(table);
        case Code(here) =>
          if inst == ret {
            retOffset := offset;
          }
          ReadyAt(code, path, all, i);
          buffer, table, records := FindOperandDecl(buffer, table, here.ops, records, all);
          StillThere(scope, before, table);
          inst := inst + here.ops.Cells();
      }
      TabledNext(code, path, i, before, table);
      i := i + 1;
    }
    LastOfWalk(code, path, halt, i);
    size := (inst - base) + baseOffset;
  }

  method FindScope(scope: Decls, ghost all: set<Decls>)
    returns (buffer: Bytes, table: Table, index: int32, ghost records: seq<DeclRecord>)
    requires DeclsReady(all) && Scopes(scope) <= all
    ensures Found(table, records, buffer, all)
    ensures if scope.NoDecls? then index == -1 else scope in table && index == table[scope]
  {
    var none: seq<DeclRecord>, empty: Table := [], map[];
    assert TableOk(empty, none) && RecordsOk(none);
    buffer, table, index, records := FindDecl([], empty, scope, none, all);
  }

  lemma NothingFound(code: Memory, path: seq<Addr>, marks: Marks, ret: Addr, all: set<Decls>)
    ensures LabelsOk(code, path, 0, marks, map[]) && ReturnUpTo(code, path, 0, ret) == 0 && Off(code, path, 0) == 0
  {
  }

  lemma NothingTabled(code: Memory, path: seq<Addr>, table: Table)
    ensures TabledUpTo(code, path, 0, table)
  {
  }

  lemma StillThere(d: Decls, table: Table, table': Table)
    requires Extends(table, table')
    ensures d in table ==> d in table' && table'[d] == table[d]
  {
  }

  lemma OffsetsFit(code: Memory, path: seq<Addr>, i: nat)
    requires i < |path| && Off(code, path, |path| - 1) < 0x8000_0000
    ensures Off(code, path, i) < 0x8000_0000
    ensures Off(code, path, i + 1) == Off(code, path, i) + Span(code, path[i])
  {
    OffMonotone(code, path, i, |path| - 1);
  }

  lemma ReturnNext(code: Memory, path: seq<Addr>, i: nat, ret: Addr)
    requires i < |path|
    ensures ReturnUpTo(code, path, i + 1, ret)
         == if path[i] == ret && ret in code && code[ret].Code? then Off(code, path, i) else ReturnUpTo(code, path, i, ret)
  {
  }
}
