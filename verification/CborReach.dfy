/** What the search for shared objects finds and what the writer emits (src/ml_cbor.c), in terms of the
    graph alone: paths, references, and one body for each object that can be reached. */
module CborReach {
  import opened CborItem
  import opened CborGraph

  // ---------------------------------------------------------------- paths and references

  /** The references in a node, in order, from its i-th element or pair on. */
  function RefsFrom(n: Node, i: nat): (refs: seq<Ref>)
    requires i <= Size(n)
    decreases Size(n) - i
  {
    match n
    case List(items) => items[i..]
    case Map(pairs) => if i == |pairs| then [] else [pairs[i].0, pairs[i].1] + RefsFrom(n, i + 1)
    case Named(_) => []
  }

  function Refs(n: Node): seq<Ref> {
    RefsFrom(n, 0)
  }

  ghost predicate Leads(g: Heap, a: nat, b: nat) {
    a < |g| && b < |g| && Obj(b) in Refs(g[a])
  }

  /** A path from object to object. */
  ghost predicate IsPath(g: Heap, p: seq<nat>) {
    && |p| > 0 && p[0] < |g|
    && forall i, j | 0 <= i && j == i + 1 && j < |p| :: Leads(g, p[i], p[j])
  }

  ghost predicate Reachable(g: Heap, r: Ref, b: nat) {
    exists p :: IsPath(g, p) && r == Obj(p[0]) && p[|p| - 1] == b
  }

  ghost function Reached(g: Heap, r: Ref): (s: set<nat>)
  {
    set b: nat | b in Ids(g) && Reachable(g, r, b)
  }

  /** How often the node refers to `b`. */
  function Occurs(refs: seq<Ref>, b: nat): nat {
    multiset(refs)[Obj(b)]
  }

  /** How often the objects of `s` below `k` refer to `b`. */
  function Total(g: Heap, s: set<nat>, k: nat, b: nat): nat
    requires k <= |g|
  {
    if k == 0 then 0 else Total(g, s, k - 1, b) + if k - 1 in s then Occurs(Refs(g[k - 1]), b) else 0
  }

  function Once(r: Ref, b: nat): nat {
    if r == Obj(b) then 1 else 0
  }

  /** The references to `b` that are met on the way through the graph, the root's included. */
  ghost function References(g: Heap, r: Ref, b: nat): nat {
    Once(r, b) + Total(g, Reached(g, r), |g|, b)
  }

  // ---------------------------------------------------------------- totals

  lemma {:induction false} TotalNone(g: Heap, k: nat, b: nat)
    requires k <= |g|
    ensures Total(g, {}, k, b) == 0
  {
    if k > 0 {
      TotalNone(g, k - 1, b);
    }
  }

  lemma {:induction false} TotalOne(g: Heap, id: nat, k: nat, b: nat)
    requires id < |g| && k <= |g|
    ensures Total(g, {id}, k, b) == if id < k then Occurs(Refs(g[id]), b) else 0
  {
    if k > 0 {
      TotalOne(g, id, k - 1, b);
    }
  }

  lemma {:induction false} TotalPlus(g: Heap, s: set<nat>, t: set<nat>, k: nat, b: nat)
    requires k <= |g| && s !! t
    ensures Total(g, s + t, k, b) == Total(g, s, k, b) + Total(g, t, k, b)
  {
    if k > 0 {
      TotalPlus(g, s, t, k - 1, b);
    }
  }

  // ---------------------------------------------------------------- the search counts references

  /** What has been seen twice or more: what was there, counted once if it was seen, and `n` new visits. */
  predicate Tallied(f: Found, f': Found, n: nat, b: nat) {
    && (b in f'.seen <==> b in f.seen || n >= 1)
    && (b in f'.dups <==> b in f.dups || (if b in f.seen then 1 else 0) + n >= 2)
  }

  lemma TallyThen(f: Found, f1: Found, f2: Found, m: nat, n: nat, b: nat)
    requires Tallied(f, f1, m, b) && Tallied(f1, f2, n, b)
    ensures Tallied(f, f2, m + n, b)
  {
  }

  lemma NewThen(g: Heap, f: set<nat>, f1: set<nat>, f2: set<nat>, b: nat)
    requires f <= f1 <= f2
    ensures Total(g, f2 - f, |g|, b) == Total(g, f1 - f, |g|, b) + Total(g, f2 - f1, |g|, b)
  {
    TotalPlus(g, f1 - f, f2 - f1, |g|, b);
    assert f2 - f == (f1 - f) + (f2 - f1);
  }

  lemma EnteredTally(f: Found, id: nat, b: nat)
    requires id !in f.seen
    ensures Tallied(f, f.(seen := f.seen + {id}), Once(Obj(id), b), b)
  {
  }

  lemma SeenTally(g: Heap, r: Ref, f: Found, b: nat)
    requires b < |g| && (r.Obj? && r.id < |g| ==> r.id in f.seen)
    ensures Tallied(f, Find(g, r, f), Once(r, b), b) && Find(g, r, f).seen == f.seen
  {
  }

  /** The visits of `b` are the references to it in the objects that are new, and in what is searched. */
  lemma {:induction false} FindTally(g: Heap, r: Ref, f: Found, b: nat)
    requires b < |g|
    ensures Tallied(f, Find(g, r, f), Once(r, b) + Total(g, Find(g, r, f).seen - f.seen, |g|, b), b)
    decreases Ids(g) - f.seen, 0
  {
    hide Total, Refs, RefsFrom, FindIn, Tallied, Occurs;
    var f2 := Find(g, r, f);
    if r.Obj? && r.id < |g| && r.id !in f.seen {
      var id, f1 := r.id, f.(seen := f.seen + {r.id});
      EnteredTally(f, id, b);
      FindInTally(g, g[id], 0, f1, b);
      RefsAll(g[id]);
      TallyThen(f, f1, f2, Once(r, b), Occurs(Refs(g[id]), b) + Total(g, f2.seen - f1.seen, |g|, b), b);
      NewThen(g, f.seen, f1.seen, f2.seen, b);
      assert f1.seen - f.seen == {id};
      TotalOne(g, id, |g|, b);
    } else {
      SeenTally(g, r, f, b);
      assert f2.seen - f.seen == {};
      TotalNone(g, |g|, b);
    }
  }

  lemma RefsAll(n: Node)
    ensures Refs(n) == RefsFrom(n, 0)
  {
  }

  lemma {:induction false} FindInTally(g: Heap, n: Node, i: nat, f: Found, b: nat)
    requires i <= Size(n) && b < |g|
    ensures Tallied(f, FindIn(g, n, i, f), Occurs(RefsFrom(n, i), b) + Total(g, FindIn(g, n, i, f).seen - f.seen, |g|, b), b)
    decreases Ids(g) - f.seen, Size(n) - i + 1, 1
  {
    hide Total, Find, Tallied, Occurs;
    var f' := FindIn(g, n, i, f);
    if i == Size(n) {
      assert f'.seen - f.seen == {};
      TotalNone(g, |g|, b);
      NothingTallied(n, f, b);
    } else {
      match n
      case List(items) =>
        var f1 := Find(g, items[i], f);
        FindTally(g, items[i], f, b);
        FindInTally(g, n, i + 1, f1, b);
        NewThen(g, f.seen, f1.seen, f'.seen, b);
        OccursNext(items[i], items[i + 1..], b);
        assert items[i..] == [items[i]] + items[i + 1..];
        TallyThen(f, f1, f', Once(items[i], b) + Total(g, f1.seen - f.seen, |g|, b),
                  Occurs(RefsFrom(n, i + 1), b) + Total(g, f'.seen - f1.seen, |g|, b), b);
      case Map(pairs) => PairTally(g, n, i, f, b);
    }
  }

  lemma {:induction false} PairTally(g: Heap, n: Node, i: nat, f: Found, b: nat)
    requires n.Map? && i < Size(n) && b < |g|
    ensures Tallied(f, FindIn(g, n, i, f), Occurs(RefsFrom(n, i), b) + Total(g, FindIn(g, n, i, f).seen - f.seen, |g|, b), b)
    decreases Ids(g) - f.seen, Size(n) - i + 1, 0
  {
    hide Total, Find, Tallied, Occurs;
    var (k, v) := n.pairs[i];
    var f1 := Find(g, k, f);
    var f2 := Find(g, v, f1);
    var f' := FindIn(g, n, i, f);
    var rest := RefsFrom(n, i + 1);
    FindTally(g, k, f, b);
    FindTally(g, v, f1, b);
    FindInTally(g, n, i + 1, f2, b);
    NewThen(g, f.seen, f1.seen, f2.seen, b);
    NewThen(g, f.seen, f2.seen, f'.seen, b);
    assert [k, v] + rest == [k] + ([v] + rest);
    OccursNext(k, [v] + rest, b);
    OccursNext(v, rest, b);
    var t1, t2 := Total(g, f1.seen - f.seen, |g|, b), Total(g, f2.seen - f1.seen, |g|, b);
    TallyThen(f, f1, f2, Once(k, b) + t1, Once(v, b) + t2, b);
    TallyThen(f, f2, f', Once(k, b) + t1 + (Once(v, b) + t2), Occurs(rest, b) + Total(g, f'.seen - f2.seen, |g|, b), b);
  }

  lemma OccursNext(r: Ref, rest: seq<Ref>, b: nat)
    ensures Occurs([r] + rest, b) == Once(r, b) + Occurs(rest, b)
  {
    assert multiset([r] + rest) == multiset{r} + multiset(rest);
  }

  lemma NothingTallied(n: Node, f: Found, b: nat)
    ensures RefsFrom(n, Size(n)) == [] && Occurs(RefsFrom(n, Size(n)), b) == 0 && Tallied(f, f, 0, b)
    decreases n
  {
  }

  // ---------------------------------------------------------------- the search finds what can be reached

  /** New objects can be reached from where the search starts. */
  ghost predicate NewReached(g: Heap, r: Ref, f: Found, f': Found) {
    forall b | b in f'.seen && b !in f.seen :: Reachable(g, r, b)
  }

  /** The objects that new objects lead to have been seen. */
  ghost predicate Closed(g: Heap, before: set<nat>, after: set<nat>) {
    forall a, b | a in after && a !in before && Leads(g, a, b) :: b in after
  }

  lemma StartReached(g: Heap, id: nat)
    requires id < |g|
    ensures Reachable(g, Obj(id), id)
  {
    assert IsPath(g, [id]);
  }

  /** One reference more at the front of a path. */
  lemma LeadsOn(g: Heap, a: nat, r: Ref, b: nat)
    requires a < |g| && r in Refs(g[a]) && Reachable(g, r, b)
    ensures Reachable(g, Obj(a), b)
  {
    var p :| IsPath(g, p) && r == Obj(p[0]) && p[|p| - 1] == b;
    var q := [a] + p;
    assert Leads(g, a, p[0]);
    forall i, j | 0 <= i && j == i + 1 && j < |q| ensures Leads(g, q[i], q[j]) {
      if i > 0 {
        assert q[i] == p[i - 1] && q[j] == p[j - 1];
      }
    }
    assert IsPath(g, q) && q[0] == a && q[|q| - 1] == b;
  }

  lemma {:induction false} FindSound(g: Heap, r: Ref, f: Found)
    ensures NewReached(g, r, f, Find(g, r, f))
    decreases Ids(g) - f.seen, 0
  {
    hide Reachable, Refs;
    if r.Obj? && r.id < |g| && r.id !in f.seen {
      var f1 := f.(seen := f.seen + {r.id});
      StartReached(g, r.id);
      RefsAll(g[r.id]);
      FindInSound(g, r.id, 0, f1);
    }
  }

  lemma {:induction false} FindInSound(g: Heap, a: nat, i: nat, f: Found)
    requires a < |g| && i <= Size(g[a])
    ensures NewReached(g, Obj(a), f, FindIn(g, g[a], i, f))
    decreases Ids(g) - f.seen, Size(g[a]) - i + 1
  {
    hide Reachable, Refs, Find;
    var n := g[a];
    if i < Size(n) {
      match n
      case List(items) =>
        RefIn(n, i);
        var f1 := Find(g, items[i], f);
        FindSound(g, items[i], f);
        Through(g, a, items[i], f, f1);
        FindInSound(g, a, i + 1, f1);
      case Map(pairs) =>
        RefIn(n, i);
        var f1 := Find(g, pairs[i].0, f);
        var f2 := Find(g, pairs[i].1, f1);
        FindSound(g, pairs[i].0, f);
        Through(g, a, pairs[i].0, f, f1);
        FindSound(g, pairs[i].1, f1);
        Through(g, a, pairs[i].1, f1, f2);
        FindInSound(g, a, i + 1, f2);
    }
  }

  lemma Through(g: Heap, a: nat, r: Ref, f: Found, f': Found)
    requires a < |g| && r in Refs(g[a]) && NewReached(g, r, f, f')
    ensures NewReached(g, Obj(a), f, f')
  {
    hide Reachable, Refs;
    forall b | b in f'.seen && b !in f.seen ensures Reachable(g, Obj(a), b) {
      LeadsOn(g, a, r, b);
    }
  }

  lemma RefIn(n: Node, i: nat)
    requires i < Size(n)
    ensures n.List? ==> n.items[i] in Refs(n)
    ensures n.Map? ==> n.pairs[i].0 in Refs(n) && n.pairs[i].1 in Refs(n)
  {
    if n.Map? {
      PairIn(n, 0, i);
    }
  }

  lemma {:induction false} PairIn(n: Node, j: nat, i: nat)
    requires n.Map? && j <= i < |n.pairs|
    ensures n.pairs[i].0 in RefsFrom(n, j) && n.pairs[i].1 in RefsFrom(n, j)
    decreases i - j
  {
    if j < i {
      PairIn(n, j + 1, i);
    }
  }

  lemma {:induction false} FindClosed(g: Heap, r: Ref, f: Found)
    ensures Closed(g, f.seen, Find(g, r, f).seen)
    ensures r.Obj? && r.id < |g| ==> r.id in Find(g, r, f).seen
    decreases Ids(g) - f.seen, 0
  {
    hide Refs;
    if r.Obj? && r.id < |g| && r.id !in f.seen {
      RefsAll(g[r.id]);
      FindInClosed(g, g[r.id], 0, f.(seen := f.seen + {r.id}));
    }
  }

  lemma {:induction false} FindInClosed(g: Heap, n: Node, i: nat, f: Found)
    requires i <= Size(n)
    ensures Closed(g, f.seen, FindIn(g, n, i, f).seen)
    ensures forall b: nat | b < |g| && Obj(b) in RefsFrom(n, i) :: b in FindIn(g, n, i, f).seen
    decreases Ids(g) - f.seen, Size(n) - i + 1
  {
    hide Find, Leads;
    if i < Size(n) {
      match n
      case List(items) =>
        FindClosed(g, items[i], f);
        FindInClosed(g, n, i + 1, Find(g, items[i], f));
        assert items[i..] == [items[i]] + items[i + 1..];
      case Map(pairs) =>
        var f1 := Find(g, pairs[i].0, f);
        FindClosed(g, pairs[i].0, f);
        FindClosed(g, pairs[i].1, f1);
        FindInClosed(g, n, i + 1, Find(g, pairs[i].1, f1));
    }
  }

  /** A closed set that holds the start of a path holds its end. */
  lemma {:induction false} PathStays(g: Heap, s: set<nat>, p: seq<nat>)
    requires Closed(g, {}, s) && IsPath(g, p) && p[0] in s
    ensures p[|p| - 1] in s
    decreases |p|
  {
    hide Leads;
    if |p| > 1 {
      var a, b := 0, 1;
      assert Leads(g, p[a], p[b]);
      LeadsInside(g, p[a], p[b]);
      var q := p[1..];
      forall i, j | 0 <= i && j == i + 1 && j < |q| ensures Leads(g, q[i], q[j]) {
        assert q[i] == p[i + 1] && q[j] == p[j + 1];
      }
      PathStays(g, s, q);
    }
  }

  lemma LeadsInside(g: Heap, a: nat, b: nat)
    requires Leads(g, a, b)
    ensures b < |g|
  {
  }

  /** The search sees exactly what can be reached, and finds as shared exactly what is referred to more than
      once from there, the root's reference counted. */
  lemma SearchIsExact(g: Heap, r: Ref)
    ensures Find(g, r, NOTHING).seen == Reached(g, r)
    ensures forall b: nat | b < |g| :: b in Find(g, r, NOTHING).dups <==> References(g, r, b) >= 2
  {
    hide Find, Reachable, References, IsPath;
    var f := Find(g, r, NOTHING);
    assert f.seen <= Ids(g);
    FindSound(g, r, NOTHING);
    forall b | b in Reached(g, r) ensures b in f.seen {
      ReachedIsSeen(g, r, b);
    }
    assert f.seen == Reached(g, r);
    forall b: nat | b < |g| ensures b in f.dups <==> References(g, r, b) >= 2 {
      FindTally(g, r, NOTHING, b);
      assert f.seen - {} == f.seen;
      ReferencesAre(g, r, b);
    }
  }

  lemma ReferencesAre(g: Heap, r: Ref, b: nat)
    ensures References(g, r, b) == Once(r, b) + Total(g, Reached(g, r), |g|, b)
  {
  }

  lemma ReachedIsSeen(g: Heap, r: Ref, b: nat)
    requires Reachable(g, r, b)
    ensures b in Find(g, r, NOTHING).seen
  {
    hide Find;
    var p :| IsPath(g, p) && r == Obj(p[0]) && p[|p| - 1] == b;
    FindClosed(g, r, NOTHING);
    PathStays(g, Find(g, r, NOTHING).seen, p);
  }

  // ---------------------------------------------------------------- with names there is less to find

  lemma {:induction false} DupsSeen(g: Heap, r: Ref, f: Found)
    requires f.dups <= f.seen
    ensures Find(g, r, f).dups <= Find(g, r, f).seen
    decreases Ids(g) - f.seen, 0
  {
    if r.Obj? && r.id < |g| && r.id !in f.seen {
      DupsSeenIn(g, g[r.id], 0, f.(seen := f.seen + {r.id}));
    }
  }

  lemma {:induction false} DupsSeenIn(g: Heap, n: Node, i: nat, f: Found)
    requires i <= Size(n) && f.dups <= f.seen
    ensures FindIn(g, n, i, f).dups <= FindIn(g, n, i, f).seen
    decreases Ids(g) - f.seen, Size(n) - i + 1
  {
    hide Find;
    if i < Size(n) {
      match n
      case List(items) =>
        DupsSeen(g, items[i], f);
        DupsSeenIn(g, n, i + 1, Find(g, items[i], f));
      case Map(pairs) =>
        var f1 := Find(g, pairs[i].0, f);
        DupsSeen(g, pairs[i].0, f);
        DupsSeen(g, pairs[i].1, f1);
        DupsSeenIn(g, n, i + 1, Find(g, pairs[i].1, f1));
    }
  }

  lemma NamedLeads(g: Heap, names: map<nat, string>, a: nat, b: nat)
    requires Leads(AsNamed(g, names), a, b)
    ensures Leads(g, a, b)
  {
  }

  lemma NamedReached(g: Heap, names: map<nat, string>, r: Ref)
    ensures Reached(AsNamed(g, names), r) <= Reached(g, r)
  {
    hide Leads;
    var g' := AsNamed(g, names);
    forall b | b in Reached(g', r) ensures Reachable(g, r, b) {
      var p :| IsPath(g', p) && r == Obj(p[0]) && p[|p| - 1] == b;
      forall i, j | 0 <= i && j == i + 1 && j < |p| ensures Leads(g, p[i], p[j]) {
        NamedLeads(g, names, p[i], p[j]);
      }
      assert IsPath(g, p);
    }
  }

  lemma {:induction false} NamedTotal(g: Heap, names: map<nat, string>, s': set<nat>, s: set<nat>, k: nat, b: nat)
    requires s' <= s && k <= |g|
    ensures Total(AsNamed(g, names), s', k, b) <= Total(g, s, k, b)
  {
    hide Occurs;
    if k > 0 {
      NamedTotal(g, names, s', s, k - 1, b);
      NamedOccurs(g, names, k - 1, b);
    }
  }

  lemma NamedOccurs(g: Heap, names: map<nat, string>, a: nat, b: nat)
    requires a < |g|
    ensures Occurs(Refs(AsNamed(g, names)[a]), b) <= Occurs(Refs(g[a]), b)
  {
  }

  /** What is shared among the objects that are written is found as shared by the search. */
  lemma NamesFindLess(g: Heap, names: map<nat, string>, r: Ref)
    ensures Find(AsNamed(g, names), r, NOTHING).dups <= Find(g, r, NOTHING).dups
  {
    hide Find, Reached, Total, Once;
    var g' := AsNamed(g, names);
    SearchIsExact(g, r);
    SearchIsExact(g', r);
    NamedReached(g, names, r);
    DupsSeen(g', r, NOTHING);
    var f' := Find(g', r, NOTHING);
    assert f'.seen <= Ids(g');
    forall b | b in f'.dups ensures b in Find(g, r, NOTHING).dups {
      assert b in Ids(g');
      NamedTotal(g, names, Reached(g', r), Reached(g, r), |g|, b);
      ReferencesAre(g, r, b);
      ReferencesAre(g', r, b);
    }
  }

  // ---------------------------------------------------------------- each object is written in full once

  /** The objects that the search meets for the first time, in order. */
  ghost function Order(g: Heap, r: Ref, f: Found): seq<nat>
    decreases Ids(g) - f.seen, 0
  {
    if r.Obj? && r.id < |g| && r.id !in f.seen then
      [r.id] + OrderIn(g, g[r.id], 0, f.(seen := f.seen + {r.id}))
    else []
  }

  ghost function OrderIn(g: Heap, n: Node, i: nat, f: Found): seq<nat>
    requires i <= Size(n)
    decreases Ids(g) - f.seen, Size(n) - i + 1
  {
    if i == Size(n) then []
    else
      match n
      case List(items) =>
        var f1 := Find(g, items[i], f);
        Order(g, items[i], f) + OrderIn(g, n, i + 1, f1)
      case Map(pairs) =>
        var f1 := Find(g, pairs[i].0, f);
        var f2 := Find(g, pairs[i].1, f1);
        Order(g, pairs[i].0, f) + Order(g, pairs[i].1, f1) + OrderIn(g, n, i + 1, f2)
      case Named(_) => []
  }

  /** `order` lists what is in `after` and not in `before`, each once. */
  ghost predicate Lists(order: seq<nat>, before: set<nat>, after: set<nat>) {
    && before <= after
    && (forall a :: a in order <==> a in after && a !in before)
    && (forall j, k | 0 <= j < k < |order| :: order[j] != order[k])
  }

  lemma ListsThen(a: seq<nat>, b: seq<nat>, s: set<nat>, t: set<nat>, u: set<nat>)
    requires Lists(a, s, t) && Lists(b, t, u)
    ensures Lists(a + b, s, u)
  {
    forall j, k | 0 <= j < k < |a + b| ensures (a + b)[j] != (a + b)[k] {
      if j < |a| <= k {
        assert a[j] in a && b[k - |a|] in b;
      }
    }
  }

  lemma ListsOne(id: nat, s: set<nat>)
    requires id !in s
    ensures Lists([id], s, s + {id})
  {
  }

  lemma ListsNone(s: set<nat>)
    ensures Lists([], s, s)
  {
  }

  lemma {:induction false} OrderLists(g: Heap, r: Ref, f: Found)
    ensures Lists(Order(g, r, f), f.seen, Find(g, r, f).seen)
    decreases Ids(g) - f.seen, 0
  {
    hide Lists;
    if r.Obj? && r.id < |g| && r.id !in f.seen {
      var f1 := f.(seen := f.seen + {r.id});
      ListsOne(r.id, f.seen);
      OrderInLists(g, g[r.id], 0, f1);
      ListsThen([r.id], OrderIn(g, g[r.id], 0, f1), f.seen, f1.seen, Find(g, r, f).seen);
    } else {
      ListsNone(f.seen);
    }
  }

  lemma {:induction false} OrderInLists(g: Heap, n: Node, i: nat, f: Found)
    requires i <= Size(n)
    ensures Lists(OrderIn(g, n, i, f), f.seen, FindIn(g, n, i, f).seen)
    decreases Ids(g) - f.seen, Size(n) - i + 1
  {
    hide Lists, Find, Order;
    if i == Size(n) {
      ListsNone(f.seen);
    } else {
      match n
      case List(items) =>
        var f1 := Find(g, items[i], f);
        OrderLists(g, items[i], f);
        OrderInLists(g, n, i + 1, f1);
        ListsThen(Order(g, items[i], f), OrderIn(g, n, i + 1, f1), f.seen, f1.seen, FindIn(g, n, i, f).seen);
      case Map(pairs) =>
        var f1 := Find(g, pairs[i].0, f);
        var f2 := Find(g, pairs[i].1, f1);
        OrderLists(g, pairs[i].0, f);
        OrderLists(g, pairs[i].1, f1);
        OrderInLists(g, n, i + 1, f2);
        ListsThen(Order(g, pairs[i].0, f), Order(g, pairs[i].1, f1), f.seen, f1.seen, f2.seen);
        ListsThen(Order(g, pairs[i].0, f) + Order(g, pairs[i].1, f1), OrderIn(g, n, i + 1, f2),
                  f.seen, f2.seen, FindIn(g, n, i, f).seen);
    }
  }

  /** The heads of arrays and maps among the heads. */
  function Bodies(heads: seq<Head>): seq<Head>
    decreases |heads|
  {
    if heads == [] then []
    else (if heads[0].ArrayHead? || heads[0].MapHead? then [heads[0]] else []) + Bodies(heads[1..])
  }

  function BodiesOf(t: Tree): seq<Head> {
    match t
    case Plain(_) => []
    case Array(ts) => [ArrayHead(Count(ts))] + BodiesOfAll(ts)
    case Table(ps) => [MapHead(CountPairs(ps))] + BodiesOfPairs(ps)
    case Tagged(_, item) => BodiesOf(item)
  }

  function BodiesOfAll(ts: Trees): seq<Head> {
    match ts
    case NoTrees => []
    case Trees(t, tail) => BodiesOf(t) + BodiesOfAll(tail)
  }

  function BodiesOfPairs(ps: Pairs): seq<Head> {
    match ps
    case NoPairs => []
    case Pairs(k, v, more) => BodiesOf(k) + BodiesOf(v) + BodiesOfPairs(more)
  }

  lemma BodiesNext(h: Head, rest: seq<Head>)
    ensures Bodies([h] + rest) == (if h.ArrayHead? || h.MapHead? then [h] else []) + Bodies(rest)
  {
    assert ([h] + rest)[1..] == rest;
  }

  lemma {:induction false} HeadsBodies(t: Tree, rest: seq<Head>)
    ensures Bodies(Heads(t, rest)) == BodiesOf(t) + Bodies(rest)
  {
    hide Bodies;
    match t
    case Plain(a) => BodiesNext(Scalar(a), rest);
    case Array(ts) =>
      BodiesNext(ArrayHead(Count(ts)), HeadsOfAll(ts, rest));
      AllBodies(ts, rest);
    case Table(ps) =>
      BodiesNext(MapHead(CountPairs(ps)), HeadsOfPairs(ps, rest));
      PairsBodies(ps, rest);
    case Tagged(tag, item) =>
      BodiesNext(TagHead(tag), Heads(item, rest));
      HeadsBodies(item, rest);
  }

  lemma {:induction false} AllBodies(ts: Trees, rest: seq<Head>)
    ensures Bodies(HeadsOfAll(ts, rest)) == BodiesOfAll(ts) + Bodies(rest)
  {
    hide Bodies;
    match ts
    case NoTrees =>
    case Trees(t, tail) =>
      HeadsBodies(t, HeadsOfAll(tail, rest));
      AllBodies(tail, rest);
  }

  lemma {:induction false} PairsBodies(ps: Pairs, rest: seq<Head>)
    ensures Bodies(HeadsOfPairs(ps, rest)) == BodiesOfPairs(ps) + Bodies(rest)
  {
    hide Bodies;
    match ps
    case NoPairs =>
    case Pairs(k, v, more) =>
      HeadsBodies(k, Heads(v, HeadsOfPairs(more, rest)));
      HeadsBodies(v, HeadsOfPairs(more, rest));
      PairsBodies(more, rest);
  }

  /** The head of an object's own array or map; an object with a name has none. */
  function BodyOf(n: Node): seq<Head> {
    match n
    case List(items) => [ArrayHead(|items|)]
    case Map(pairs) => [MapHead(|pairs|)]
    case Named(_) => []
  }

  ghost function BodiesIn(g: Heap, order: seq<nat>): seq<Head> {
    if order == [] then [] else (if order[0] < |g| then BodyOf(g[order[0]]) else []) + BodiesIn(g, order[1..])
  }

  lemma {:induction false} BodiesInThen(g: Heap, a: seq<nat>, b: seq<nat>)
    ensures BodiesIn(g, a + b) == BodiesIn(g, a) + BodiesIn(g, b)
  {
    hide BodyOf;
    if a == [] {
      assert a + b == b;
    } else {
      assert (a + b)[1..] == a[1..] + b;
      BodiesInThen(g, a[1..], b);
    }
  }

  lemma OneBody(g: Heap, id: nat)
    requires id < |g|
    ensures BodiesIn(g, [id]) == BodyOf(g[id])
  {
    assert [id][1..] == [];
  }

  /** The writing pass writes the bodies of the objects in the order in which the search meets them. */
  lemma {:induction false} WriteOrder(g: Heap, shared: set<nat>, reuse: bool, r: Ref, f: Found, w: Numbers)
    requires Find(g, r, f).dups <= shared && InStep(shared, f.seen, w)
    ensures BodiesOf(Write(g, shared, reuse, r, f.seen, w).tree) == BodiesIn(g, Order(g, r, f))
    decreases Ids(g) - f.seen, 0
  {
    hide InStep, OrderIn, FindIn, WriteItems, WritePairs, Write, BodiesIn, BodyOf, Numbered;
    if r.Obj? && r.id < |g| && r.id !in f.seen {
      var id, f1 := r.id, f.(seen := f.seen + {r.id});
      NumberedInStep(shared, f.seen, id, w);
      NotIndexed(shared, f.seen, id, w);
      NodeOrder(g, shared, reuse, g[id], 0, f1, Numbered(shared, id, w));
      FreshBodies(g, shared, reuse, id, f, w);
      BodiesInThen(g, [id], OrderIn(g, g[id], 0, f1));
      OneBody(g, id);
      NamedOrder(g, id, f1);
    } else {
      SeenBodies(g, shared, reuse, r, f, w);
      NoBodies(g);
    }
  }

  lemma FreshBodies(g: Heap, shared: set<nat>, reuse: bool, id: nat, f: Found, w: Numbers)
    requires id < |g| && id !in f.seen && id !in w.index
    ensures var bodies, w' := BodiesOf(Write(g, shared, reuse, Obj(id), f.seen, w).tree), Numbered(shared, id, w);
            && (g[id].List? ==> bodies == BodyOf(g[id]) + BodiesOfAll(WriteItems(g, shared, reuse, g[id].items, 0, f.seen + {id}, w').tree))
            && (g[id].Map? ==> bodies == BodyOf(g[id]) + BodiesOfPairs(WritePairs(g, shared, reuse, g[id].pairs, 0, f.seen + {id}, w').tree))
            && (g[id].Named? ==> bodies == BodyOf(g[id]) == [])
  {
    hide WriteItems, WritePairs, BodiesOfAll, BodiesOfPairs, Numbered;
    var body := WriteNode(g, shared, reuse, g[id], f.seen + {id}, Numbered(shared, id, w)).tree;
    TaggedBodies(SHAREABLE, body);
    if g[id].Named? {
      TaggedBodies(SHAREDREF, Plain(Str(g[id].name)));
    }
  }

  lemma TaggedBodies(tag: nat, t: Tree)
    ensures BodiesOf(Tagged(tag, t)) == BodiesOf(t)
  {
  }

  lemma NamedOrder(g: Heap, id: nat, f: Found)
    requires id < |g|
    ensures g[id].Named? ==> OrderIn(g, g[id], 0, f) == [] && BodiesIn(g, []) == []
  {
  }

  lemma NotIndexed(shared: set<nat>, seen: set<nat>, id: nat, w: Numbers)
    requires InStep(shared, seen, w) && id !in seen
    ensures id !in w.index
  {
  }

  lemma SeenBodies(g: Heap, shared: set<nat>, reuse: bool, r: Ref, f: Found, w: Numbers)
    requires InStep(shared, f.seen, w) && (r.Obj? && r.id < |g| ==> r.id in f.seen)
    ensures BodiesOf(Write(g, shared, reuse, r, f.seen, w).tree) == []
  {
  }

  lemma {:induction false} NodeOrder(g: Heap, shared: set<nat>, reuse: bool, n: Node, i: nat, f: Found, w: Numbers)
    requires i <= Size(n) && FindIn(g, n, i, f).dups <= shared && InStep(shared, f.seen, w)
    ensures n.List? ==> BodiesOfAll(WriteItems(g, shared, reuse, n.items, i, f.seen, w).tree) == BodiesIn(g, OrderIn(g, n, i, f))
    ensures n.Map? ==> BodiesOfPairs(WritePairs(g, shared, reuse, n.pairs, i, f.seen, w).tree) == BodiesIn(g, OrderIn(g, n, i, f))
    decreases Ids(g) - f.seen, Size(n) - i + 1, 1
  {
    hide InStep, Find, Write, Order, BodiesIn, BodiesOf;
    if i < Size(n) {
      match n
      case List(items) =>
        var f1 := Find(g, items[i], f);
        WriteOrder(g, shared, reuse, items[i], f, w);
        PassesAgree(g, shared, reuse, items[i], f, w);
        var out := Write(g, shared, reuse, items[i], f.seen, w);
        NodeOrder(g, shared, reuse, n, i + 1, f1, out.numbers);
        BodiesInThen(g, Order(g, items[i], f), OrderIn(g, n, i + 1, f1));
      case Map(pairs) => PairOrder(g, shared, reuse, n, i, f, w);
    } else {
      NoBodies(g);
    }
  }

  lemma NoBodies(g: Heap)
    ensures BodiesIn(g, []) == []
  {
  }

  lemma {:induction false} PairOrder(g: Heap, shared: set<nat>, reuse: bool, n: Node, i: nat, f: Found, w: Numbers)
    requires n.Map? && i < Size(n) && FindIn(g, n, i, f).dups <= shared && InStep(shared, f.seen, w)
    ensures BodiesOfPairs(WritePairs(g, shared, reuse, n.pairs, i, f.seen, w).tree) == BodiesIn(g, OrderIn(g, n, i, f))
    decreases Ids(g) - f.seen, Size(n) - i + 1, 0
  {
    hide InStep, Find, Write, WriteKey, Order, BodiesIn, BodiesOf;
    var (k, v) := n.pairs[i];
    var f1 := Find(g, k, f);
    var f2 := Find(g, v, f1);
    KeyOrder(g, shared, reuse, k, f, w);
    KeysAgree(g, shared, reuse, k, f, w);
    var key := WriteKey(g, shared, reuse, k, f.seen, w);
    WriteOrder(g, shared, reuse, v, f1, key.numbers);
    PassesAgree(g, shared, reuse, v, f1, key.numbers);
    var value := Write(g, shared, reuse, v, f1.seen, key.numbers);
    NodeOrder(g, shared, reuse, n, i + 1, f2, value.numbers);
    BodiesInThen(g, Order(g, k, f), Order(g, v, f1));
    BodiesInThen(g, Order(g, k, f) + Order(g, v, f1), OrderIn(g, n, i + 1, f2));
  }

  lemma {:induction false} KeyOrder(g: Heap, shared: set<nat>, reuse: bool, k: Ref, f: Found, w: Numbers)
    requires Find(g, k, f).dups <= shared && InStep(shared, f.seen, w)
    ensures BodiesOf(WriteKey(g, shared, reuse, k, f.seen, w).tree) == BodiesIn(g, Order(g, k, f))
    decreases Ids(g) - f.seen, 1
  {
    hide InStep, Find, Write;
    if !(reuse && k.Leaf? && k.atom.Str?) {
      WriteOrder(g, shared, reuse, k, f, w);
    }
  }

  /** On every finite graph, cyclic or not, and whatever its keys and names: what is written holds one array or
      map for each object without a name that can be reached without passing through one with a name, and no
      other. */
  lemma WrittenOnce(g: Heap, names: map<nat, string>, reuse: bool, r: Ref)
    ensures var g' := AsNamed(g, names);
            var order := Order(g', r, NOTHING);
            && Lists(order, {}, Reached(g', r))
            && Bodies(Heads(Encoded(g, names, reuse, r), [])) == BodiesIn(g', order)
  {
    hide Find, Write, Heads, Bodies, Order, Reached, BodiesIn, Lists, BodiesOf;
    var g' := AsNamed(g, names);
    OrderLists(g', r, NOTHING);
    SearchIsExact(g', r);
    var shared := Find(g, r, NOTHING).dups;
    NamesFindLess(g, names, r);
    WriteOrder(g', shared, reuse, r, NOTHING, FIRST);
    HeadsBodies(Encoded(g, names, reuse, r), []);
    EmptyBodies(Encoded(g, names, reuse, r));
  }

  lemma EmptyBodies(t: Tree)
    ensures BodiesOf(t) + Bodies([]) == BodiesOf(t)
  {
  }
}
