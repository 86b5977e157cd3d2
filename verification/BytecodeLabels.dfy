/** The labels of jump targets (src/ml_bytecode.c): small numbers kept in the target instructions. */
module BytecodeLabels {
  import opened BytecodeFormat
  import opened BytecodeWalk
  import Finite

  const MAX_LABELS: nat := 65536

  /** Every address that an instruction of the walk names. */
  ghost function TargetSet(code: Memory, path: seq<Addr>): set<Addr> {
    set k, t | 0 <= k < |path| - 1 && Starts(code, path, k) && t in code[path[k]].inst.ops.Targets() :: t
  }

  ghost function SetOf(s: seq<Addr>): set<Addr> {
    set t | t in s
  }

  type Marks = map<Addr, nat>

  /** The labels are 1, 2, ... in the order the targets were first seen. */
  ghost predicate MarksOk(marks: Marks, count: nat) {
    && count == |marks| && count < MAX_LABELS
    && (forall t | t in marks :: 1 <= marks[t] <= count)
    && (forall t, u | t in marks && u in marks && marks[t] == marks[u] :: t == u)
  }

  /** `if (!Label) Label = ++*Labels` for each target. Label is a bit field of 16 bits: of the counter it
      keeps the remainder, and a remainder of zero is no label. */
  ghost function MarkAll(marks: Marks, count: nat, targets: seq<Addr>): (r: (Marks, nat))
    decreases |targets|
  {
    if targets == [] then (marks, count)
    else
      var t := targets[0];
      if t in marks && marks[t] != 0 then MarkAll(marks, count, targets[1..])
      else MarkAll(marks[t := (count + 1) % MAX_LABELS], count + 1, targets[1..])
  }

  method MarkTargets(targets: seq<Addr>, marks: Marks, count: nat) returns (marks': Marks, count': nat)
    ensures (marks', count') == MarkAll(marks, count, targets)
  {
    marks', count' := marks, count;
    for i := 0 to |targets|
      invariant MarkAll(marks', count', targets[i..]) == MarkAll(marks, count, targets)
    {
      var t := targets[i];
      assert targets[i..][0] == t && targets[i..][1..] == targets[i + 1..];
      if t !in marks' || marks'[t] == 0 {
        count' := count' + 1;
        marks' := marks'[t := count' % MAX_LABELS];
      }
    }
  }

  lemma {:induction false} MarkAppend(marks: Marks, count: nat, a: seq<Addr>, b: seq<Addr>)
    ensures MarkAll(marks, count, a + b) == var (m, c) := MarkAll(marks, count, a); MarkAll(m, c, b)
    decreases |a|
  {
    if a == [] {
      assert a + b == b;
    } else {
      assert (a + b)[0] == a[0] && (a + b)[1..] == a[1..] + b;
      var t := a[0];
      if t in marks && marks[t] != 0 {
        MarkAppend(marks, count, a[1..], b);
      } else {
        MarkAppend(marks[t := (count + 1) % MAX_LABELS], count + 1, a[1..], b);
      }
    }
  }

  /** The targets themselves are what gets an entry, and every entry has 16 bits. */
  lemma {:induction false} MarkedKeys(marks: Marks, count: nat, targets: seq<Addr>)
    requires forall a | a in marks :: marks[a] < MAX_LABELS
    ensures var m := MarkAll(marks, count, targets).0;
            m.Keys == marks.Keys + SetOf(targets) && forall a | a in m :: m[a] < MAX_LABELS
    decreases |targets|
  {
    if targets != [] {
      var t, rest := targets[0], targets[1..];
      assert targets == [t] + rest;
      if t in marks && marks[t] != 0 {
        MarkedKeys(marks, count, rest);
      } else {
        MarkedKeys(marks[t := (count + 1) % MAX_LABELS], count + 1, rest);
      }
    }
  }

  /** As long as there are labels left, each target gets its own. */
  lemma {:induction false} MarkAllOk(marks: Marks, count: nat, targets: seq<Addr>, all: set<Addr>)
    requires MarksOk(marks, count) && marks.Keys <= all && |all| < MAX_LABELS
    requires forall t | t in targets :: t in all
    ensures var (m, c) := MarkAll(marks, count, targets); MarksOk(m, c)
    decreases |targets|
  {
    hide MarksOk;
    if targets != [] {
      var t, rest := targets[0], targets[1..];
      assert t in targets && forall u | u in rest :: u in targets;
      if t in marks && marks[t] != 0 {
        MarkAllOk(marks, count, rest, all);
      } else {
        NoZeroLabel(marks, count, t);
        NewMark(marks, count, t, all);
        MarkAllOk(marks[t := (count + 1) % MAX_LABELS], count + 1, rest, all);
      }
    }
  }

  lemma NoZeroLabel(marks: Marks, count: nat, t: Addr)
    requires MarksOk(marks, count) && (t in marks ==> marks[t] == 0)
    ensures t !in marks
  {
  }

  lemma NewMark(marks: Marks, count: nat, t: Addr, all: set<Addr>)
    requires MarksOk(marks, count) && marks.Keys <= all && |all| < MAX_LABELS
    requires t in all && t !in marks
    ensures MarksOk(marks[t := (count + 1) % MAX_LABELS], count + 1)
  {
    var keys := marks.Keys + {t};
    assert |keys| == |marks| + 1;
    Finite.SubsetSmaller(keys, all);
    SmallLabel(count + 1);
    MarkAdded(marks, count, t);
  }

  lemma MarkAdded(marks: Marks, count: nat, t: Addr)
    requires MarksOk(marks, count) && t !in marks && count + 1 < MAX_LABELS
    ensures MarksOk(marks[t := count + 1], count + 1)
  {
    var marks' := marks[t := count + 1];
    assert marks'.Keys == marks.Keys + {t};
    assert |marks'| == |marks'.Keys| == count + 1;
  }

  lemma SmallLabel(n: nat)
    requires n < MAX_LABELS
    ensures n % MAX_LABELS == n
  {
  }

  ghost predicate MarkedUpTo(code: Memory, path: seq<Addr>, i: int, marks: Marks) {
    forall k | 0 <= k < i && Starts(code, path, k) :: forall t | t in code[path[k]].inst.ops.Targets() :: t in marks
  }

  /** The targets of the instructions of the walk from place `i` on, in order. */
  ghost function TargetsFrom(code: Memory, path: seq<Addr>, i: nat): seq<Addr>
    decreases |path| - i
  {
    if i >= |path| - 1 then []
    else (if Starts(code, path, i) then code[path[i]].inst.ops.Targets() else []) + TargetsFrom(code, path, i + 1)
  }

  lemma {:induction false} TargetsReached(code: Memory, path: seq<Addr>, i: nat)
    ensures forall k, t | i <= k < |path| - 1 && Starts(code, path, k) && t in code[path[k]].inst.ops.Targets() ::
              t in TargetsFrom(code, path, i)
    ensures forall t | t in TargetsFrom(code, path, i) :: t in TargetSet(code, path)
    decreases |path| - i
  {
    if i < |path| - 1 {
      TargetsReached(code, path, i + 1);
    }
  }

  lemma TargetsAreSet(code: Memory, path: seq<Addr>)
    ensures SetOf(TargetsFrom(code, path, 0)) == TargetSet(code, path)
  {
    TargetsReached(code, path, 0);
  }

  /** The first pass, however many targets there are. */
  method FindLabels(code: Memory, entry: Addr, halt: Addr, ghost path: seq<Addr>) returns (marks: Marks, ghost count: nat)
    requires IsWalk(code, path, halt) && |path| > 0 && path[0] == entry
    ensures marks == MarkAll(map[], 0, TargetsFrom(code, path, 0)).0
    ensures count == MarkAll(map[], 0, TargetsFrom(code, path, 0)).1
    ensures |TargetSet(code, path)| < MAX_LABELS ==> MarksOk(marks, count) && MarkedUpTo(code, path, |path| - 1, marks)
    ensures OwnLabels(TargetsFrom(code, path, 0), marks) <==> |TargetSet(code, path)| < MAX_LABELS
  {
    hide IsWalk, MarksOk, MarkedUpTo, TargetSet, SetOf, OwnLabels, MarkAll;
    var inst: Addr, labels: nat := entry, 0;
    marks := map[];
    ghost var i: nat := 0;
    ghost var goal := MarkAll(map[], 0, TargetsFrom(code, path, 0));
    while inst != halt
      invariant i < |path| && inst == path[i]
      invariant MarkAll(marks, labels, TargetsFrom(code, path, i)) == goal
      decreases |path| - i
    {
      WalkGoesOn(code, path, halt, i);
      StepOfWalk(code, path, halt, i);
      TargetsUnfold(code, path, i);
      match code[inst] {
        case Link(_, target) =>
          inst := target;
        case Code(here) =>
          MarkAppend(marks, labels, here.ops.Targets(), TargetsFrom(code, path, i + 1));
          marks, labels := MarkTargets(here.ops.Targets(), marks, labels);
          inst := inst + here.ops.Cells();
      }
      i := i + 1;
    }
    LastOfWalk(code, path, halt, i);
    NothingLeft(marks, labels);
    count := labels;
    AllMarked(code, path);
    TargetsAreSet(code, path);
    LabelledExactly(TargetsFrom(code, path, 0));
  }

  lemma TargetsUnfold(code: Memory, path: seq<Addr>, i: nat)
    requires i < |path| - 1 && path[i] in code
    ensures TargetsFrom(code, path, i)
         == (if code[path[i]].Code? then code[path[i]].inst.ops.Targets() + TargetsFrom(code, path, i + 1)
             else TargetsFrom(code, path, i + 1))
  {
    assert [] + TargetsFrom(code, path, i + 1) == TargetsFrom(code, path, i + 1);
  }

  lemma NothingLeft(marks: Marks, count: nat)
    ensures MarkAll(marks, count, []) == (marks, count)
  {
  }

  lemma AllMarked(code: Memory, path: seq<Addr>)
    ensures var (marks, count) := MarkAll(map[], 0, TargetsFrom(code, path, 0));
            && MarkedUpTo(code, path, |path| - 1, marks)
            && (|TargetSet(code, path)| < MAX_LABELS ==> MarksOk(marks, count))
  {
    hide MarkAll;
    var targets := TargetsFrom(code, path, 0);
    MarkedKeys(map[], 0, targets);
    TargetsReached(code, path, 0);
    NoMarks(code, path);
    if |TargetSet(code, path)| < MAX_LABELS {
      MarkAllOk(map[], 0, targets, TargetSet(code, path));
    }
  }

  lemma NoMarks(code: Memory, path: seq<Addr>)
    ensures MarksOk(map[], 0) && MarkedUpTo(code, path, 0, map[])
  {
  }

  lemma WalkGoesOn(code: Memory, path: seq<Addr>, halt: Addr, i: nat)
    requires IsWalk(code, path, halt) && i < |path| && path[i] != halt
    ensures i < |path| - 1
  {
  }

  lemma LastOfWalk(code: Memory, path: seq<Addr>, halt: Addr, i: nat)
    requires IsWalk(code, path, halt) && i < |path| && path[i] == halt
    ensures i == |path| - 1
  {
    if i < |path| - 1 {
      StepOfWalk(code, path, halt, i);
    }
  }

  /** More targets than that cannot all have different labels of 16 bits. */
  lemma LabelsRunOut(marks: Marks) returns (t: Addr, u: Addr)
    requires |marks| >= MAX_LABELS && forall a | a in marks :: 0 < marks[a] < MAX_LABELS
    ensures t in marks && u in marks && t != u && marks[t] == marks[u]
  {
    if forall a, b | a in marks && b in marks && marks[a] == marks[b] :: a == b {
      Finite.ValuesSize(marks);
      ValuesAreLabels(marks);
      Finite.SubsetSmaller(Finite.Values(marks), Finite.Below(MAX_LABELS) - {0});
      assert false;
    } else {
      t, u :| t in marks && u in marks && marks[t] == marks[u] && t != u;
    }
  }

  lemma ValuesAreLabels(marks: Marks)
    requires forall a | a in marks :: 0 < marks[a] < MAX_LABELS
    ensures Finite.Values(marks) <= Finite.Below(MAX_LABELS) - {0} && |Finite.Below(MAX_LABELS) - {0}| == MAX_LABELS - 1
  {
    assert 0 in Finite.Below(MAX_LABELS);
  }

  ghost predicate OwnLabels(targets: seq<Addr>, marks: Marks) {
    && (forall t | t in targets :: t in marks && marks[t] != 0)
    && (forall t, u | t in targets && u in targets && t in marks && u in marks && marks[t] == marks[u] :: t == u)
  }

  /** Every target gets a label of its own if and only if there are fewer than 65536 of them. */
  lemma LabelledExactly(targets: seq<Addr>)
    ensures OwnLabels(targets, MarkAll(map[], 0, targets).0) <==> |SetOf(targets)| < MAX_LABELS
  {
    hide MarkAll, MarksOk, OwnLabels;
    var all := SetOf(targets);
    var (marks, count) := MarkAll(map[], 0, targets);
    MarkedKeys(map[], 0, targets);
    assert marks.Keys == all && |marks| == |all|;
    if |all| < MAX_LABELS {
      NoMarks(map[], []);
      MarkAllOk(map[], 0, targets, all);
      OkIsOwn(targets, marks, count);
    } else if OwnLabels(targets, marks) {
      OwnIsFew(targets, marks);
    }
  }

  lemma OkIsOwn(targets: seq<Addr>, marks: Marks, count: nat)
    requires MarksOk(marks, count) && forall t | t in targets :: t in marks
    ensures OwnLabels(targets, marks)
  {
  }

  lemma OwnIsFew(targets: seq<Addr>, marks: Marks)
    requires OwnLabels(targets, marks) && (forall t | t in marks :: t in targets && marks[t] < MAX_LABELS)
    ensures |marks| < MAX_LABELS
  {
    if |marks| >= MAX_LABELS {
      var t, u := LabelsRunOut(marks);
      assert false;
    }
  }

  /** At the 65536th target the counter has no more bits: the target stays without a label, and the next
      new one gets label 1, which the first target has already. */
  lemma LabelsWrap(marks: Marks, t: Addr, u: Addr) returns (first: Addr)
    requires MarksOk(marks, MAX_LABELS - 1) && t !in marks && u !in marks && t != u
    ensures MarkAll(marks, MAX_LABELS - 1, [t]) == (marks[t := 0], MAX_LABELS)
    ensures MarkAll(marks, MAX_LABELS - 1, [t, u]) == (marks[t := 0][u := 1], MAX_LABELS + 1)
    ensures first in marks && marks[first] == 1
  {
    assert [t][1..] == [] && [t, u][1..] == [u] && [u][1..] == [];
    NothingLeft(marks[t := 0], MAX_LABELS);
    NothingLeft(marks[t := 0][u := 1], MAX_LABELS + 1);
    assert [u][0] == u;
    first := LabelUsed(marks, MAX_LABELS - 1, 1);
  }

  lemma LabelUsed(marks: Marks, count: nat, n: nat) returns (t: Addr)
    requires MarksOk(marks, count) && 1 <= n <= count
    ensures t in marks && marks[t] == n
  {
    var values, labels := Finite.Values(marks), Finite.Below(count + 1) - {0};
    Finite.ValuesSize(marks);
    assert 0 in Finite.Below(count + 1) && |labels| == count;
    assert values <= labels;
    Finite.SubsetFull(values, labels);
    assert n in values;
    t :| t in marks && marks[t] == n;
  }
}
