/** Where the instructions of an expression stand, and how long its code is (src/ml_compiler.c). */
module ExpressionLayout {
  import opened FrameMachine
  import opened FrameCells
  import opened Expressions
  import opened ExpressionCode
  import opened ExpressionRun

  // ---------------------------------------------------------------- concatenations

  lemma Parts1(code: Code, a: Addr, i: Inst, x: seq<Inst>)
    ensures Total([i] + x) == Width(i) + Total(x)
    ensures Laid(code, a, [i] + x) <==> Is(code, a, i) && Laid(code, a + Width(i), x)
  {
    assert ([i] + x)[1..] == x;
  }

  lemma Parts2(code: Code, a: Addr, x: seq<Inst>, i: Inst)
    ensures Total(x + [i]) == Total(x) + Width(i)
    ensures Laid(code, a, x + [i]) <==> Laid(code, a, x) && Is(code, a + Total(x), i)
  {
    LaidParts(code, a, x, [i]);
    Parts1(code, a + Total(x), i, []);
    assert [i] + [] == [i];
  }

  lemma Parts3(code: Code, a: Addr, x: seq<Inst>, i: Inst, y: seq<Inst>)
    ensures Total(x + [i] + y) == Total(x) + Width(i) + Total(y)
    ensures Laid(code, a, x + [i] + y) <==>
            Laid(code, a, x) && Is(code, a + Total(x), i) && Laid(code, a + Total(x) + Width(i), y)
  {
    hide Width;
    Parts2(code, a, x, i);
    LaidParts(code, a, x + [i], y);
  }

  lemma Pair(code: Code, a: Addr, x: seq<Inst>, i: Inst, j: Inst)
    ensures Total(x + [i, j]) == Total(x) + Width(i) + Width(j)
    ensures Laid(code, a, x + [i, j]) <==>
            Laid(code, a, x) && Is(code, a + Total(x), i) && Is(code, a + Total(x) + Width(i), j)
  {
    hide Width;
    Parts2(code, a, x, i);
    Parts2(code, a, x + [i], j);
    assert x + [i, j] == x + [i] + [j];
  }

  lemma Around(code: Code, a: Addr, x: seq<Inst>, i: Inst, y: seq<Inst>, j: Inst, k: Inst)
    ensures Total(x + [i] + y + [j, k]) == Total(x) + Width(i) + Total(y) + Width(j) + Width(k)
    ensures var b := a + Total(x) + Width(i);
            var c := b + Total(y);
            Laid(code, a, x + [i] + y + [j, k]) <==>
            Laid(code, a, x) && Is(code, a + Total(x), i) && Laid(code, b, y) && Is(code, c, j) && Is(code, c + Width(j), k)
  {
    hide Width, Laid, Total;
    Pair(code, a, x + [i] + y, j, k);
    Parts3(code, a, x, i, y);
  }

  // ---------------------------------------------------------------- the kinds of expressions

  lemma CompileOf(e: Expr, a: Addr, s: Scope)
    ensures e.Negation? ==> Compile(e, a, s) == Compile(e.operand, a, s) + [Not]
    ensures e.Conjunction? ==> Compile(e, a, s) == ConjunctionCode(e, a, s)
    ensures e.Disjunction? ==> Compile(e, a, s) == DisjunctionCode(e, a, s)
    ensures e.Alternative? ==> Compile(e, a, s) == AlternativeCode(e, a, s)
    ensures e.Sequence? ==> Compile(e, a, s) == Compile(e.first, a, s) + Compile(e.second, a + Size(e.first), s)
    ensures e.Binding? ==> Compile(e, a, s) == LocalsCode(e.locals, a, s) + [Exit(LocalCount(e.locals))]
    ensures e.Selection? ==> Compile(e, a, s) == SelectionCode(e, a, s)
    ensures e.Application? ==> Compile(e, a, s) == ApplicationCode(e, a, s)
    ensures e.Loop? ==> Compile(e, a, s) == LoopCode(e, a, s)
    ensures e.Assignment? ==> Compile(e, a, s) == AssignmentCode(e, a, s)
    ensures e.Resolution? ==> Compile(e, a, s) == Compile(e.of, a, s) + [Resolve(e.member)]
    ensures e.Text? ==> Compile(e, a, s) == TextCode(e.parts, STRING_POP, a, s)
    ensures e.Rescue? ==> Compile(e, a, s) == RescueCode(e, a, s)
    ensures e.Finally? ==> Compile(e, a, s) == FinallyCode(e, a, s)
  {
    hide Size, PushCode, LocalsCode, LocalCount, TextCode, ConjunctionCode, DisjunctionCode, AlternativeCode, SelectionCode,
         ApplicationCode, LoopCode, AssignmentCode, RescueCode, FinallyCode;
  }

  lemma SizeOf(e: Expr)
    ensures e.Negation? ==> Size(e) == Size(e.operand) + 1
    ensures e.Sequence? ==> Size(e) == Size(e.first) + Size(e.second)
    ensures e.Binding? ==> Size(e) == LocalsSize(e.locals) + 3
    ensures e.Resolution? ==> Size(e) == Size(e.of) + 2
    ensures e.Text? ==> Size(e) == PartsSize(e.parts) + 2
    ensures e.Conjunction? ==> Size(e) == Size(e.left) + 2 + Size(e.right)
    ensures e.Disjunction? ==> Size(e) == Size(e.left) + 2 + Size(e.right)
    ensures e.Selection? ==> Size(e) == Size(e.on) + 3 + CasesSize(e.cases)
  {
    hide PushSize, CasesSize, ArgsSize, LocalsSize, PartsSize, CallSize;
  }

  lemma LongSizeOf(e: Expr)
    ensures e.Alternative? ==> Size(e) == Size(e.test) + 2 + Size(e.body) + 2 + Size(e.other)
    ensures e.Application? && e.fn.Constant? ==> Size(e) == ArgsSize(e.args) + CallSize(e.fn)
    ensures e.Application? && !e.fn.Constant? ==> Size(e) == PushSize(e.fn) + ArgsSize(e.args) + 2
    ensures e.Loop? ==> Size(e) == Size(e.items) + 3 + (if e.key.Key? then 3 else 0) + 3 + Size(e.body) + 5
    ensures e.Assignment? && e.target.Variable? ==> Size(e) == Size(e.source) + 2
    ensures e.Assignment? && !e.target.Variable? ==> Size(e) == PushSize(e.target) + Size(e.source) + 1
    ensures e.Rescue? ==> Size(e) == 2 + Size(e.body) + 8 + Size(e.handler) + 5
    ensures e.Finally? ==> Size(e) == 2 + Size(e.body) + 1 + Size(e.must) + 10 + Size(e.must) + 2
  {
    hide PushSize, CasesSize, ArgsSize, LocalsSize, PartsSize, CallSize;
  }

  lemma ConjunctionLaid(code: Code, e: Expr, a: Addr, s: Scope)
    requires e.Conjunction?
    ensures Total(ConjunctionCode(e, a, s)) == Size(e)
    ensures Laid(code, a, ConjunctionCode(e, a, s)) ==>
            var b := a + Size(e.left);
            Laid(code, a, Compile(e.left, a, s)) && Is(code, b, And(a + Size(e))) && Laid(code, b + 2, Compile(e.right,
                b + 2, s))
    decreases e, 0
  {
    hide Is, Laid, Total, Compile, PushCode, Size, PushSize;
    SizeOf(e);
    var b := a + Size(e.left);
    SizeIs(e.left, a, s);
    SizeIs(e.right, b + 2, s);
    Parts3(code, a, Compile(e.left, a, s), And(a + Size(e)), Compile(e.right, b + 2, s));
  }

  lemma DisjunctionLaid(code: Code, e: Expr, a: Addr, s: Scope)
    requires e.Disjunction?
    ensures Total(DisjunctionCode(e, a, s)) == Size(e)
    ensures Laid(code, a, DisjunctionCode(e, a, s)) ==>
            var b := a + Size(e.left);
            Laid(code, a, Compile(e.left, a, s)) && Is(code, b, Or(a + Size(e))) && Laid(code, b + 2, Compile(e.right,
                b + 2, s))
    decreases e, 0
  {
    hide Is, Laid, Total, Compile, PushCode, Size, PushSize;
    SizeOf(e);
    var b := a + Size(e.left);
    SizeIs(e.left, a, s);
    SizeIs(e.right, b + 2, s);
    Parts3(code, a, Compile(e.left, a, s), Or(a + Size(e)), Compile(e.right, b + 2, s));
  }

  lemma AlternativeLaid(code: Code, e: Expr, a: Addr, s: Scope)
    requires e.Alternative?
    ensures Total(AlternativeCode(e, a, s)) == Size(e)
    ensures Laid(code, a, AlternativeCode(e, a, s)) ==>
            var b := a + Size(e.test);
            var no := b + 2 + Size(e.body) + 2;
            Laid(code, a, Compile(e.test, a, s)) && Is(code, b, And(no)) && Laid(code, b + 2, Compile(e.body, b + 2, s))
            && Is(code, no - 2, Goto(a + Size(e))) && Laid(code, no, Compile(e.other, no, s))
    decreases e, 0
  {
    hide Is, Laid, Total, Compile, PushCode, Size, PushSize;
    LongSizeOf(e);
    var b := a + Size(e.test);
    var no := b + 2 + Size(e.body) + 2;
    SizeIs(e.test, a, s);
    SizeIs(e.body, b + 2, s);
    SizeIs(e.other, no, s);
    var front := Compile(e.test, a, s) + [And(no)] + Compile(e.body, b + 2, s);
    Parts3(code, a, front, Goto(a + Size(e)), Compile(e.other, no, s));
    Parts3(code, a, Compile(e.test, a, s), And(no), Compile(e.body, b + 2, s));
  }

  lemma SelectionLaid(code: Code, e: Expr, a: Addr, s: Scope)
    requires e.Selection?
    ensures Total(SelectionCode(e, a, s)) == Size(e)
    ensures Laid(code, a, SelectionCode(e, a, s)) ==>
            var b := a + Size(e.on);
            Laid(code, a, Compile(e.on, a, s)) && Is(code, b, Switch(CaseAddrs(e.cases, b + 3)))
            && Laid(code, b + 3, CasesCode(e.cases, b + 3, a + Size(e), s))
    decreases e, 0
  {
    hide Is, Laid, Total, Compile, PushCode, Size, PushSize;
    SizeOf(e);
    var b := a + Size(e.on);
    SizeIs(e.on, a, s);
    CasesSizeIs(e.cases, b + 3, a + Size(e), s);
    Parts3(code, a, Compile(e.on, a, s), Switch(CaseAddrs(e.cases, b + 3)), CasesCode(e.cases, b + 3, a + Size(e), s));
  }

  lemma ApplicationLaid(code: Code, e: Expr, a: Addr, s: Scope)
    requires e.Application?
    ensures Total(ApplicationCode(e, a, s)) == Size(e)
    ensures Laid(code, a, ApplicationCode(e, a, s)) && e.fn.Constant? ==>
            Laid(code, a, ArgsCode(e.args, a, a + Size(e), 0, s)) && Is(code, a + ArgsSize(e.args), ConstantCall(e.fn,
                Count(e.args)))
    ensures Laid(code, a, ApplicationCode(e, a, s)) && !e.fn.Constant? ==>
            var b := a + PushSize(e.fn);
            Laid(code, a, PushCode(e.fn, a, s)) && Laid(code, b, ArgsCode(e.args, b, a + Size(e), 1, s.Up()))
            && Is(code, b + ArgsSize(e.args), Call(Count(e.args)))
    decreases e, 0
  {
    hide Is, Laid, Total, Compile, PushCode, Size, PushSize;
    LongSizeOf(e);
    var b := a + PushSize(e.fn);
    if e.fn.Constant? {
      ArgsSizeIs(e.args, a, a + Size(e), 0, s);
      Parts2(code, a, ArgsCode(e.args, a, a + Size(e), 0, s), ConstantCall(e.fn, Count(e.args)));
    } else {
      PushSizeIs(e.fn, a, s);
      ArgsSizeIs(e.args, b, a + Size(e), 1, s.Up());
      var args := ArgsCode(e.args, b, a + Size(e), 1, s.Up());
      Parts2(code, a, PushCode(e.fn, a, s) + args, Call(Count(e.args)));
      LaidParts(code, a, PushCode(e.fn, a, s), args);
    }
  }

  lemma KeyLaid(code: Code, a: Addr, x: seq<Inst>, keyed: bool)
    ensures var y := x + if keyed then [IterKey, With, IterValue(2)] else [IterValue(1)];
            var b := a + Total(x) + if keyed then 3 else 0;
            Total(y) == b + 1 - a &&
            (Laid(code, a, y) <==>
             Laid(code, a, x) && (keyed ==> Is(code, b - 3, IterKey) && Is(code, b - 2, With)) && Is(code, b,
                 IterValue(if keyed then 2 else 1)))
  {
    hide Laid, Total;
    if keyed {
      Parts2(code, a, x + [IterKey, With], IterValue(2));
      Pair(code, a, x, IterKey, With);
      assert x + [IterKey, With, IterValue(2)] == x + [IterKey, With] + [IterValue(2)];
    } else {
      Parts2(code, a, x, IterValue(1));
    }
  }

  ghost predicate LoopAt(code: Code, e: Expr, a: Addr, s: Scope)
    requires e.Loop?
  {
    var i := a + Size(e.items) + 1;
    var b := i + 2 + (if e.key.Key? then 3 else 0) + 3;
    var x := b + Size(e.body);
    && Laid(code, a, Compile(e.items, a, s)) && Is(code, i - 1, For) && Is(code, i, Iter(a + Size(e)))
    && (e.key.Key? ==> Is(code, i + 2, IterKey) && Is(code, i + 3, With))
    && Is(code, b - 3, IterValue(if e.key.Key? then 2 else 1)) && Is(code, b - 2, With)
    && Laid(code, b, Compile(e.body, b, LoopScope(e, s)))
    && Is(code, x, Exit(if e.key.Key? then 2 else 1)) && Is(code, x + 3, IterNext(i))
  }

  lemma LoopLaid(code: Code, e: Expr, a: Addr, s: Scope)
    requires e.Loop?
    ensures Total(LoopCode(e, a, s)) == Size(e)
    ensures Laid(code, a, LoopCode(e, a, s)) ==> LoopAt(code, e, a, s)
    decreases e, 0
  {
    hide Is, Laid, Total, Compile, PushCode, Size, PushSize;
    LongSizeOf(e);
    var i := a + Size(e.items) + 1;
    var b := i + 2 + (if e.key.Key? then 3 else 0) + 3;
    SizeIs(e.items, a, s);
    SizeIs(e.body, b, LoopScope(e, s));
    var front := Compile(e.items, a, s) + [For, Iter(a + Size(e))];
    var front1 := front + if e.key.Key? then [IterKey, With, IterValue(2)] else [IterValue(1)];
    Around(code, a, front1, With, Compile(e.body, b, LoopScope(e, s)), Exit(if e.key.Key? then 2 else 1), IterNext(i));
    KeyLaid(code, a, front, e.key.Key?);
    Pair(code, a, Compile(e.items, a, s), For, Iter(a + Size(e)));
  }

  lemma AssignmentLaid(code: Code, e: Expr, a: Addr, s: Scope)
    requires e.Assignment?
    ensures Total(AssignmentCode(e, a, s)) == Size(e)
    ensures Laid(code, a, AssignmentCode(e, a, s)) && e.target.Variable? ==>
            Laid(code, a, Compile(e.source, a, OldScope(e.target.name, s))) && Is(code, a + Size(e.source),
                AssignLocal(s.Depth(e.target.name)))
    ensures Laid(code, a, AssignmentCode(e, a, s)) && !e.target.Variable? ==>
            var b := a + PushSize(e.target);
            Laid(code, a, PushCode(e.target, a, s)) && Laid(code, b, Compile(e.source, b, s.Bind(OLD))) && Is(code,
                b + Size(e.source), Assign)
    decreases e, 0
  {
    hide Is, Laid, Total, Compile, PushCode, Size, PushSize;
    LongSizeOf(e);
    var b := a + PushSize(e.target);
    if e.target.Variable? {
      SizeIs(e.source, a, OldScope(e.target.name, s));
      Parts2(code, a, Compile(e.source, a, OldScope(e.target.name, s)), AssignLocal(s.Depth(e.target.name)));
    } else {
      PushSizeIs(e.target, a, s);
      SizeIs(e.source, b, s.Bind(OLD));
      Parts2(code, a, PushCode(e.target, a, s) + Compile(e.source, b, s.Bind(OLD)), Assign);
      LaidParts(code, a, PushCode(e.target, a, s), Compile(e.source, b, s.Bind(OLD)));
    }
  }

  lemma RescueLaid(code: Code, e: Expr, a: Addr, s: Scope)
    requires e.Rescue?
    ensures Total(RescueCode(e, a, s)) == Size(e)
    ensures Laid(code, a, RescueCode(e, a, s)) ==>
            var b := a + 2 + Size(e.body);
            var h := b + 4;
            var x := h + 4 + Size(e.handler);
            && Is(code, a, Try(h)) && Laid(code, a + 2, Compile(e.body, a + 2, s.(onError := h)))
            && Is(code, b, Try(s.onError)) && Is(code, b + 2, Goto(a + Size(e))) && Is(code, h, Catch(s.onError, s.top))
            && Laid(code, h + 4, Compile(e.handler, h + 4, s.Bind(e.name)))
            && Is(code, x, Exit(1)) && Is(code, x + 3, Goto(a + Size(e)))
    decreases e, 0
  {
    hide Is, Laid, Total, Compile, PushCode, Size, PushSize;
    LongSizeOf(e);
    var h := a + 2 + Size(e.body) + 4;
    var body := Compile(e.body, a + 2, s.(onError := h));
    var handler := Compile(e.handler, h + 4, s.Bind(e.name));
    SizeIs(e.body, a + 2, s.(onError := h));
    SizeIs(e.handler, h + 4, s.Bind(e.name));
    var front := [Try(h)] + body + [Try(s.onError), Goto(a + Size(e))];
    Around(code, a, front, Catch(s.onError, s.top), handler, Exit(1), Goto(a + Size(e)));
    Pair(code, a, [Try(h)] + body, Try(s.onError), Goto(a + Size(e)));
    Parts1(code, a, Try(h), body);
  }

  ghost predicate FinallyAt(code: Code, e: Expr, a: Addr, s: Scope)
    requires e.Finally?
  {
    var n := a + 2 + Size(e.body) + 1;
    var p := n + Size(e.must);
    var h := p + 5;
    var q := h + 5 + Size(e.must);
    && Is(code, a, Try(h)) && Laid(code, a + 2, Compile(e.body, a + 2, s.(onError := h))) && Is(code, n - 1, Push)
    && Laid(code, n, Compile(e.must, n, s.(onError := h).Up())) && Is(code, p, Pop) && Is(code, p + 1, Try(s.onError))
    && Is(code, p + 3, Goto(a + Size(e))) && Is(code, h, CatchX(s.onError, s.top)) && Is(code, h + 4, Push)
    && Laid(code, h + 5, Compile(e.must, h + 5, s.Up())) && Is(code, q, Pop) && Is(code, q + 1, Retry)
  }

  lemma FinallyLaid(code: Code, e: Expr, a: Addr, s: Scope)
    requires e.Finally?
    ensures Total(FinallyCode(e, a, s)) == Size(e)
    ensures Laid(code, a, FinallyCode(e, a, s)) ==> FinallyAt(code, e, a, s)
    decreases e, 0
  {
    hide Is, Laid, Total, Compile, PushCode, Size, PushSize;
    LongSizeOf(e);
    var n := a + 2 + Size(e.body) + 1;
    var h := n + Size(e.must) + 5;
    SizeIs(e.body, a + 2, s.(onError := h));
    SizeIs(e.must, n, s.(onError := h).Up());
    SizeIs(e.must, h + 5, s.Up());
    var body := Compile(e.body, a + 2, s.(onError := h));
    var must := Compile(e.must, n, s.(onError := h).Up());
    var must' := Compile(e.must, h + 5, s.Up());
    var front1 := [Try(h)] + body + [Push] + must + [Pop, Try(s.onError)];
    var front2 := front1 + [Goto(a + Size(e)), CatchX(s.onError, s.top)];
    Around(code, a, front2, Push, must', Pop, Retry);
    Pair(code, a, front1, Goto(a + Size(e)), CatchX(s.onError, s.top));
    Around(code, a, [Try(h)] + body, Push, must, Pop, Try(s.onError));
    Parts1(code, a, Try(h), body);
  }

  lemma NegationLaid(code: Code, e: Expr, a: Addr, s: Scope)
    requires e.Negation?
    ensures Total(Compile(e, a, s)) == Size(e)
    ensures Laid(code, a, Compile(e, a, s)) ==>
            Laid(code, a, Compile(e.operand, a, s)) && Is(code, a + Size(e.operand), Not)
    decreases e, 0
  {
    hide Is, Laid, Total, Compile, PushCode, Size, PushSize;
    SizeOf(e);
    CompileOf(e, a, s);
    SizeIs(e.operand, a, s);
    Parts2(code, a, Compile(e.operand, a, s), Not);
  }

  lemma SequenceLaid(code: Code, e: Expr, a: Addr, s: Scope)
    requires e.Sequence?
    ensures Total(Compile(e, a, s)) == Size(e)
    ensures Laid(code, a, Compile(e, a, s)) ==>
            var b := a + Size(e.first);
            Laid(code, a, Compile(e.first, a, s)) && Laid(code, b, Compile(e.second, b, s))
    decreases e, 0
  {
    hide Is, Laid, Total, Compile, PushCode, Size, PushSize;
    SizeOf(e);
    CompileOf(e, a, s);
    var b := a + Size(e.first);
    SizeIs(e.first, a, s);
    SizeIs(e.second, b, s);
    LaidParts(code, a, Compile(e.first, a, s), Compile(e.second, b, s));
  }

  lemma BindingLaid(code: Code, e: Expr, a: Addr, s: Scope)
    requires e.Binding?
    ensures Total(Compile(e, a, s)) == Size(e)
    ensures Laid(code, a, Compile(e, a, s)) ==>
            Laid(code, a, LocalsCode(e.locals, a, s)) && Is(code, a + LocalsSize(e.locals), Exit(LocalCount(e.locals)))
    decreases e, 0
  {
    hide Is, Laid, Total, Compile, PushCode, Size, PushSize;
    SizeOf(e);
    CompileOf(e, a, s);
    LocalsSizeIs(e.locals, a, s);
    Parts2(code, a, LocalsCode(e.locals, a, s), Exit(LocalCount(e.locals)));
  }

  lemma ResolutionLaid(code: Code, e: Expr, a: Addr, s: Scope)
    requires e.Resolution?
    ensures Total(Compile(e, a, s)) == Size(e)
    ensures Laid(code, a, Compile(e, a, s)) ==>
            Laid(code, a, Compile(e.of, a, s)) && Is(code, a + Size(e.of), Resolve(e.member))
    decreases e, 0
  {
    hide Is, Laid, Total, Compile, PushCode, Size, PushSize;
    SizeOf(e);
    CompileOf(e, a, s);
    SizeIs(e.of, a, s);
    Parts2(code, a, Compile(e.of, a, s), Resolve(e.member));
  }

  lemma TextLaid(code: Code, parts: Parts, last: nat, a: Addr, s: Scope)
    ensures Total(TextCode(parts, last, a, s)) == 2 + PartsSize(parts)
    ensures Laid(code, a, TextCode(parts, last, a, s)) ==>
            Is(code, a, Prim(STRING_NEW, [], 1)) && Laid(code, a + 1, PartsCode(parts, a + 1, s.Up()))
            && Is(code, a + 1 + PartsSize(parts), Prim(last, [], 1))
    decreases parts, 2
  {
    hide Is, Laid, Total, PartsCode, PartsSize;
    PartsSizeIs(parts, a + 1, s.Up());
    var inner := PartsCode(parts, a + 1, s.Up());
    Parts2(code, a, [Prim(STRING_NEW, [], 1)] + inner, Prim(last, [], 1));
    Parts1(code, a, Prim(STRING_NEW, [], 1), inner);
  }

  // ---------------------------------------------------------------- their parts

  lemma LocalsLaid(code: Code, locals: Locals, a: Addr, s: Scope)
    requires locals.Local?
    ensures Total(LocalsCode(locals, a, s)) == LocalsSize(locals)
    ensures Laid(code, a, LocalsCode(locals, a, s)) ==>
            var b := a + Size(locals.value) + 2;
            Laid(code, a, Compile(locals.value, a, s)) && Is(code, b - 2, With) && Laid(code, b, LocalsCode(locals.rest, b,
                s.Bind(locals.name)))
    decreases locals, 0
  {
    hide Is, Laid, Total, Compile, PushCode, PushSize, Size;
    var b := a + Size(locals.value) + 2;
    SizeIs(locals.value, a, s);
    LocalsSizeIs(locals.rest, b, s.Bind(locals.name));
    Parts3(code, a, Compile(locals.value, a, s), With, LocalsCode(locals.rest, b, s.Bind(locals.name)));
  }

  lemma CasesLaid(code: Code, cases: Cases, a: Addr, end: Addr, s: Scope)
    requires cases.Case?
    ensures Total(CasesCode(cases, a, end, s)) == CasesSize(cases)
    ensures Laid(code, a, CasesCode(cases, a, end, s)) ==>
            var b := a + Size(cases.body) + 2;
            Laid(code, a, Compile(cases.body, a, s)) && Is(code, b - 2, Goto(end)) && Laid(code, b, CasesCode(cases.rest, b,
                end, s))
    decreases cases, 0
  {
    hide Is, Laid, Total, Compile, PushCode, PushSize, Size;
    var b := a + Size(cases.body) + 2;
    SizeIs(cases.body, a, s);
    CasesSizeIs(cases.rest, b, end, s);
    Parts3(code, a, Compile(cases.body, a, s), Goto(end), CasesCode(cases.rest, b, end, s));
  }

  lemma ArgLaid(code: Code, args: Args, a: Addr, end: Addr, index: nat, s: Scope)
    requires args.Arg?
    ensures Total(ArgsCode(args, a, end, index, s)) == ArgsSize(args)
    ensures Laid(code, a, ArgsCode(args, a, end, index, s)) ==>
            var b := a + PushSize(args.value);
            Laid(code, a, PushCode(args.value, a, s)) && Laid(code, b, ArgsCode(args.rest, b, end, index + 1, s.Up()))
    decreases args, 0
  {
    hide Is, Laid, Total, Compile, PushCode, PushSize, Size;
    var b := a + PushSize(args.value);
    PushSizeIs(args.value, a, s);
    ArgsSizeIs(args.rest, b, end, index + 1, s.Up());
    LaidParts(code, a, PushCode(args.value, a, s), ArgsCode(args.rest, b, end, index + 1, s.Up()));
  }

  lemma GuardedLaid(code: Code, args: Args, a: Addr, end: Addr, index: nat, s: Scope)
    requires args.Guarded?
    ensures Total(ArgsCode(args, a, end, index, s)) == ArgsSize(args)
    ensures Laid(code, a, ArgsCode(args, a, end, index, s)) ==>
            var g := a + PushSize(args.value);
            var b := g + Size(args.guard) + 3;
            Laid(code, a, PushCode(args.value, a, s)) && Laid(code, g, Compile(args.guard, g, s.Bind(IT)))
            && Is(code, b - 3, AndPop(end, index + 1)) && Laid(code, b, ArgsCode(args.rest, b, end, index + 1, s.Up()))
    decreases args, 0
  {
    hide Is, Laid, Total, Compile, PushCode, PushSize, Size;
    var g := a + PushSize(args.value);
    var b := g + Size(args.guard) + 3;
    PushSizeIs(args.value, a, s);
    SizeIs(args.guard, g, s.Bind(IT));
    ArgsSizeIs(args.rest, b, end, index + 1, s.Up());
    var x, y := PushCode(args.value, a, s), Compile(args.guard, g, s.Bind(IT));
    Parts3(code, a, x + y, AndPop(end, index + 1), ArgsCode(args.rest, b, end, index + 1, s.Up()));
    LaidParts(code, a, x, y);
  }

  lemma CharsLaid(code: Code, parts: Parts, a: Addr, s: Scope)
    requires parts.Chars?
    ensures Total(PartsCode(parts, a, s)) == PartsSize(parts)
    ensures Laid(code, a, PartsCode(parts, a, s)) ==>
            Is(code, a, Prim(AddsText(parts.chars), [], 3)) && Laid(code, a + 3, PartsCode(parts.rest, a + 3, s))
    decreases parts, 0
  {
    hide Is, Laid, Total, Compile, PushCode, PushSize, Size;
    PartsSizeIs(parts.rest, a + 3, s);
    Parts1(code, a, Prim(AddsText(parts.chars), [], 3), PartsCode(parts.rest, a + 3, s));
  }

  lemma FilledLaid(code: Code, parts: Parts, a: Addr, s: Scope)
    requires parts.Filled?
    ensures Total(PartsCode(parts, a, s)) == PartsSize(parts)
    ensures Laid(code, a, PartsCode(parts, a, s)) ==>
            var b := a + ArgsSize(parts.args);
            var n := b + Width(Adding(parts.args));
            Laid(code, a, ArgsCode(parts.args, a, a, 0, s)) && Is(code, b, Adding(parts.args)) && Laid(code, n,
                PartsCode(parts.rest, n, s))
    decreases parts, 0
  {
    hide Is, Laid, Total, Compile, PushCode, PushSize, Size, ArgsCode, ArgsSize, Width, Adding;
    var b := a + ArgsSize(parts.args);
    var n := b + Width(Adding(parts.args));
    ArgsSizeIs(parts.args, a, a, 0, s);
    PartsSizeIs(parts.rest, n, s);
    Parts3(code, a, ArgsCode(parts.args, a, a, 0, s), Adding(parts.args), PartsCode(parts.rest, n, s));
  }

  // ---------------------------------------------------------------- sizes

  lemma TotalOne(i: Inst)
    ensures Total([i]) == Width(i)
  {
    hide Width;
    Parts2(map[], 0, [], i);
    assert [] + [i] == [i];
  }

  /** The code of an expression is as long as its size says, wherever it stands. */
  lemma SizeIs(e: Expr, a: Addr, s: Scope)
    ensures Total(Compile(e, a, s)) == Size(e)
    decreases e, 1, 1
  {
    if e.Nothing? || e.Constant? || e.Variable? {
      LeafSize(e, a, s);
    } else {
      NodeSize(e, a, s);
    }
  }

  lemma LeafSize(e: Expr, a: Addr, s: Scope)
    requires e.Nothing? || e.Constant? || e.Variable?
    ensures Total(Compile(e, a, s)) == Size(e) && Total(PushCode(e, a, s)) == PushSize(e)
  {
    hide Total;
    TotalOne(Compile(e, a, s)[0]);
    TotalOne(PushCode(e, a, s)[0]);
  }

  lemma NodeSize(e: Expr, a: Addr, s: Scope)
    requires !(e.Nothing? || e.Constant? || e.Variable?)
    ensures Total(Compile(e, a, s)) == Size(e)
    decreases e, 1, 0
  {
    hide Total, Compile, Size, PushCode, TextCode, ConjunctionCode, DisjunctionCode, AlternativeCode, SelectionCode,
         ApplicationCode, LoopCode, AssignmentCode, RescueCode, FinallyCode;
    CompileOf(e, a, s);
    match e
    case Negation(_) => NegationLaid(map[], e, a, s);
    case Conjunction(_, _) => ConjunctionLaid(map[], e, a, s);
    case Disjunction(_, _) => DisjunctionLaid(map[], e, a, s);
    case Alternative(_, _, _) => AlternativeLaid(map[], e, a, s);
    case Sequence(_, _) => SequenceLaid(map[], e, a, s);
    case Binding(_) => BindingLaid(map[], e, a, s);
    case Selection(_, _) => SelectionLaid(map[], e, a, s);
    case Application(_, _) => ApplicationLaid(map[], e, a, s);
    case Loop(_, _, _, _) => LoopLaid(map[], e, a, s);
    case Assignment(_, _) => AssignmentLaid(map[], e, a, s);
    case Resolution(_, _) => ResolutionLaid(map[], e, a, s);
    case Text(parts) => SizeOf(e); TextLaid(map[], parts, STRING_POP, a, s);
    case Rescue(_, _, _) => RescueLaid(map[], e, a, s);
    case Finally(_, _) => FinallyLaid(map[], e, a, s);
  }

  lemma PushSizeIs(e: Expr, a: Addr, s: Scope)
    ensures Total(PushCode(e, a, s)) == PushSize(e)
    decreases e, 2
  {
    hide Total, Compile, Size, TextCode;
    if e.Nothing? || e.Constant? || e.Variable? {
      LeafSize(e, a, s);
    } else if e.Text? {
      SizeOf(e);
      TextLaid(map[], e.parts, STRING_END, a, s);
    } else {
      SizeIs(e, a, s);
      Parts2(map[], a, Compile(e, a, s), Push);
    }
  }

  lemma LocalsSizeIs(locals: Locals, a: Addr, s: Scope)
    ensures Total(LocalsCode(locals, a, s)) == LocalsSize(locals)
    decreases locals, 1
  {
    hide Compile, Size, Total;
    if locals.Body? {
      SizeIs(locals.body, a, s);
    } else {
      LocalsLaid(map[], locals, a, s);
    }
  }

  lemma CasesSizeIs(cases: Cases, a: Addr, end: Addr, s: Scope)
    ensures Total(CasesCode(cases, a, end, s)) == CasesSize(cases)
    decreases cases, 1
  {
    hide Compile, Size, Total;
    if cases.Last? {
      SizeIs(cases.body, a, s);
    } else {
      CasesLaid(map[], cases, a, end, s);
    }
  }

  lemma ArgsSizeIs(args: Args, a: Addr, end: Addr, index: nat, s: Scope)
    ensures Total(ArgsCode(args, a, end, index, s)) == ArgsSize(args)
    decreases args, 1
  {
    hide PushCode, Compile, PushSize, Size;
    if args.Arg? {
      ArgLaid(map[], args, a, end, index, s);
    } else if args.Guarded? {
      GuardedLaid(map[], args, a, end, index, s);
    }
  }

  lemma PartsSizeIs(parts: Parts, a: Addr, s: Scope)
    ensures Total(PartsCode(parts, a, s)) == PartsSize(parts)
    decreases parts, 1
  {
    hide ArgsCode, ArgsSize;
    if parts.Chars? {
      CharsLaid(map[], parts, a, s);
    } else if parts.Filled? {
      FilledLaid(map[], parts, a, s);
    }
  }
}
