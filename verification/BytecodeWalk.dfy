/** The code of a closure as the compiler leaves it: chunks of instructions chained by LINK cells
    (src/ml_bytecode.c, src/ml_compiler.c). The walk from Entry to Halt gives every instruction its
    offset in the flat code. */
module BytecodeWalk {
  import opened BytecodeFormat
  import opened BytecodeStream

  type Addr = nat

  /** The declarations in scope: the address of the innermost one, its fields and the outer ones.
      Two lists are the same pointer exactly when the values are equal. */
  datatype Decls =
    | NoDecls
    | Scope(address: nat, info: DeclInfo, next: Decls)

  /** What a debugger or an error message sees of a list of declarations. */
  function Content(d: Decls): seq<DeclInfo> {
    match d
    case NoDecls => []
    case Scope(_, info, next) => [info] + Content(next)
  }

  type LinkedInst = Instruction<Addr, Decls>

  /** What stands at an address where an instruction starts. */
  datatype Cell =
    | Link(line: uint32, target: Addr)
    | Code(inst: LinkedInst)

  type Memory = map<Addr, Cell>

  function LineOf(c: Cell): uint32 {
    match c
    case Link(line, _) => line
    case Code(inst) => inst.line
  }

  /** Where the loops of the serialiser go after `a`. */
  function Next(code: Memory, a: Addr): Addr
    requires a in code
  {
    match code[a]
    case Link(_, target) => target
    case Code(inst) => a + inst.ops.Cells()
  }

  ghost predicate Linked(code: Memory, halt: Addr, a: Addr, b: Addr) {
    a != halt && a in code && b == Next(code, a)
  }

  /** The addresses the loops `Inst = Entry; Inst != Halt` visit, and Halt. */
  ghost predicate IsWalk(code: Memory, path: seq<Addr>, halt: Addr) {
    && |path| > 0 && path[|path| - 1] == halt
    && (forall i, j | 0 <= i && j == i + 1 && j < |path| :: Linked(code, halt, path[i], path[j]))
  }

  lemma StepOfWalk(code: Memory, path: seq<Addr>, halt: Addr, i: nat)
    requires IsWalk(code, path, halt) && i < |path| - 1
    ensures path[i] != halt && path[i] in code && path[i + 1] == Next(code, path[i])
  {
    var j := i + 1;
    assert Linked(code, halt, path[i], path[j]);
  }

  /** A walk never comes back: it would never reach Halt. */
  lemma {:induction false} WalkDistinct(code: Memory, path: seq<Addr>, halt: Addr, i: nat, j: nat)
    requires IsWalk(code, path, halt) && i < j < |path|
    ensures path[i] != path[j]
    decreases |path| - j
  {
    if path[i] == path[j] {
      StepOfWalk(code, path, halt, i);
      if j < |path| - 1 {
        StepOfWalk(code, path, halt, j);
        WalkDistinct(code, path, halt, i + 1, j + 1);
      }
    }
  }

  function Span(code: Memory, a: Addr): nat {
    if a in code && code[a].Code? then code[a].inst.ops.Cells() else 0
  }

  /** The cells of the instructions before step `i` of the walk; LINKs take none. */
  function Off(code: Memory, path: seq<Addr>, i: nat): nat
    requires i <= |path|
  {
    if i == 0 then 0 else Off(code, path, i - 1) + Span(code, path[i - 1])
  }

  lemma {:induction false} OffMonotone(code: Memory, path: seq<Addr>, i: nat, j: nat)
    requires i <= j <= |path|
    ensures Off(code, path, i) <= Off(code, path, j)
    ensures i < j ==> Off(code, path, i) + Span(code, path[i]) <= Off(code, path, j)
    decreases j
  {
    if i < j {
      OffMonotone(code, path, i, j - 1);
    }
  }

  ghost function IndexOf(path: seq<Addr>, a: Addr): (i: nat)
    requires a in path
    ensures i < |path| && path[i] == a
  {
    var i: nat :| i < |path| && path[i] == a;
    i
  }

  lemma IndexUnique(code: Memory, path: seq<Addr>, halt: Addr, i: nat)
    requires IsWalk(code, path, halt) && i < |path|
    ensures IndexOf(path, path[i]) == i
  {
    var j := IndexOf(path, path[i]);
    if i < j {
      WalkDistinct(code, path, halt, i, j);
    } else if j < i {
      WalkDistinct(code, path, halt, j, i);
    }
  }

  /** The offset of an address of the walk. */
  ghost function OffsetOf(code: Memory, path: seq<Addr>, a: Addr): nat {
    if a in path then Off(code, path, IndexOf(path, a)) else 0
  }

  function FlatOf(inst: LinkedInst, target: Addr -> index, table: Decls -> index): (f: FlatInst)
    ensures f.opcode == inst.opcode && f.line == inst.line && f.ops.Cells() == inst.ops.Cells()
  {
    Instruction(inst.opcode, inst.line, Mapped(inst.ops, target, table))
  }

  /** The instructions from step `i` of the walk on, without the LINKs. */
  function Flatten(code: Memory, path: seq<Addr>, i: nat, target: Addr -> index, table: Decls -> index): seq<FlatInst>
    requires i < |path|
    decreases |path| - i
  {
    if i == |path| - 1 then []
    else if path[i] in code && code[path[i]].Code? then
      [FlatOf(code[path[i]].inst, target, table)] + Flatten(code, path, i + 1, target, table)
    else Flatten(code, path, i + 1, target, table)
  }

  lemma FlattenNext(code: Memory, path: seq<Addr>, i: nat, target: Addr -> index, table: Decls -> index)
    requires i < |path| - 1
    ensures Off(code, path, i + 1) == Off(code, path, i) + Span(code, path[i])
    ensures Flatten(code, path, i, target, table)
         == (if Starts(code, path, i) then [FlatOf(code[path[i]].inst, target, table)] else [])
          + Flatten(code, path, i + 1, target, table)
  {
  }

  lemma {:induction false} FlattenCells(code: Memory, path: seq<Addr>, i: nat, target: Addr -> index, table: Decls -> index)
    requires i < |path|
    ensures Off(code, path, i) + Cells(Flatten(code, path, i, target, table)) == Off(code, path, |path| - 1)
    decreases |path| - i
  {
    if i == |path| - 1 {
    } else {
      FlattenCells(code, path, i + 1, target, table);
    }
  }

  predicate Starts(code: Memory, path: seq<Addr>, k: int) {
    0 <= k < |path| - 1 && path[k] in code && code[path[k]].Code?
  }

  /** The flat code holds exactly the instructions of the walk, each at its offset. */
  ghost predicate Image(code: Memory, path: seq<Addr>, target: Addr -> index, table: Decls -> index, flat: FlatCode) {
    && (forall k | Starts(code, path, k) ::
          Off(code, path, k) in flat && flat[Off(code, path, k)] == FlatOf(code[path[k]].inst, target, table))
    && (forall o | o in flat :: exists k :: Starts(code, path, k) && o == Off(code, path, k))
  }

  lemma {:induction false} LayoutKeeps(insts: seq<FlatInst>, pos: nat, before: FlatCode, o: nat)
    requires o < pos
    ensures o in before <==> o in Layout(insts, pos, before)
    ensures o in before ==> Layout(insts, pos, before)[o] == before[o]
    decreases |insts|
  {
    if insts != [] {
      LayoutKeeps(insts[1..], pos + insts[0].ops.Cells(), before[pos := insts[0]], o);
    }
  }

  lemma LayoutCons(inst: FlatInst, more: seq<FlatInst>, pos: nat, before: FlatCode)
    ensures Layout([inst] + more, pos, before) == Layout(more, pos + inst.ops.Cells(), before[pos := inst])
  {
    assert ([inst] + more)[1..] == more;
  }

  lemma {:induction false} LayoutAt(code: Memory, path: seq<Addr>, i: nat, k: nat, target: Addr -> index, table: Decls -> index,
                                    before: FlatCode)
    requires i <= k && Starts(code, path, k)
    ensures var after := Layout(Flatten(code, path, i, target, table), Off(code, path, i), before);
            Off(code, path, k) in after && after[Off(code, path, k)] == FlatOf(code[path[k]].inst, target, table)
    decreases |path| - i
  {
    hide FlatOf, Layout, Flatten, Off;
    FlattenNext(code, path, i, target, table);
    var more := Flatten(code, path, i + 1, target, table);
    if Starts(code, path, i) {
      var inst, o := FlatOf(code[path[i]].inst, target, table), Off(code, path, i);
      LayoutCons(inst, more, o, before);
      if i == k {
        LayoutKeeps(more, Off(code, path, i + 1), before[o := inst], o);
      } else {
        LayoutAt(code, path, i + 1, k, target, table, before[o := inst]);
      }
    } else {
      assert [] + more == more;
      LayoutAt(code, path, i + 1, k, target, table, before);
    }
  }

  lemma {:induction false} LayoutOnly(code: Memory, path: seq<Addr>, i: nat, o: nat, target: Addr -> index, table: Decls -> index,
                                      before: FlatCode) returns (k: int)
    requires i < |path|
    requires o in Layout(Flatten(code, path, i, target, table), Off(code, path, i), before) && o !in before
    ensures Starts(code, path, k) && o == Off(code, path, k)
    decreases |path| - i
  {
    hide FlatOf, Off;
    if i == |path| - 1 {
      assert false;
    } else {
      hide Layout, Flatten;
      FlattenNext(code, path, i, target, table);
      var more := Flatten(code, path, i + 1, target, table);
      if Starts(code, path, i) {
        var inst := FlatOf(code[path[i]].inst, target, table);
        LayoutCons(inst, more, Off(code, path, i), before);
        if o == Off(code, path, i) {
          k := i;
        } else {
          k := LayoutOnly(code, path, i + 1, o, target, table, before[Off(code, path, i) := inst]);
        }
      } else {
        assert [] + more == more;
        k := LayoutOnly(code, path, i + 1, o, target, table, before);
      }
    }
  }

  lemma LayoutImage(code: Memory, path: seq<Addr>, target: Addr -> index, table: Decls -> index)
    requires |path| > 0
    ensures Image(code, path, target, table, Layout(Flatten(code, path, 0, target, table), 0, map[]))
  {
    hide FlatOf, Layout, Flatten, Off;
    assert Off(code, path, 0) == 0 by { OffStart(code, path); }
    var flat := Layout(Flatten(code, path, 0, target, table), 0, map[]);
    forall k | Starts(code, path, k)
      ensures Off(code, path, k) in flat && flat[Off(code, path, k)] == FlatOf(code[path[k]].inst, target, table)
    {
      LayoutAt(code, path, 0, k, target, table, map[]);
    }
    forall o | o in flat ensures exists k :: Starts(code, path, k) && o == Off(code, path, k) {
      var k := LayoutOnly(code, path, 0, o, target, table, map[]);
    }
  }

  lemma OffStart(code: Memory, path: seq<Addr>)
    ensures Off(code, path, 0) == 0
  {
  }

  /** Different instructions have different offsets. */
  lemma OffInjective(code: Memory, path: seq<Addr>, j: nat, k: nat)
    requires Starts(code, path, j) && Starts(code, path, k) && Off(code, path, j) == Off(code, path, k)
    ensures j == k
  {
    if j < k {
      OffMonotone(code, path, j, k);
    } else if k < j {
      OffMonotone(code, path, k, j);
    }
  }
}
