/** When a graph survives being written and read: exactly if no map key refers to an object that is still
    being written (src/ml_cbor.c). */
module CborExact {
  import opened Options
  import opened CborItem
  import opened CborDecoder
  import opened CborGraph
  import opened CborTrace
  import opened CborReach
  import opened CborRoundTrip
  import Finite

  const FRESH: Core := Core([], [], 0)

  // ---------------------------------------------------------------- same graph

  /** A reference to an object with a name has become a reference to the value with that name. */
  ghost predicate Carried(g: Heap, phi: map<nat, nat>, r: Ref, r': Ref) {
    match r
    case Leaf(_) => r' == r
    case Obj(a) => if a < |g| && g[a].Named? then r' == Known(g[a].name) else a in phi && r' == Obj(phi[a])
    case Hole(_) => false
    case Known(_) => r' == r
  }

  ghost predicate NodeCarried(g: Heap, phi: map<nat, nat>, n: Node, n': Node) {
    match n
    case List(items) =>
      n'.List? && |n'.items| == |items| && forall j | 0 <= j < |items| :: Carried(g, phi, items[j], n'.items[j])
    case Map(pairs) =>
      n'.Map? && |n'.pairs| == |pairs| &&
      forall j | 0 <= j < |pairs| :: Carried(g, phi, pairs[j].0, n'.pairs[j].0) && Carried(g, phi, pairs[j].1, n'.pairs[j].1)
    case Named(_) => false
  }

  /** The heap holds exactly the objects without a name that are reached from `r`, each once, with the same
      contents in the same order and the same sharing. */
  ghost predicate SameGraph(g: Heap, r: Ref, heap: Heap, r': Ref, phi: map<nat, nat>) {
    && (forall a | a in phi :: a < |g| && phi[a] < |heap|)
    && (forall a, b | a in phi && b in phi && phi[a] == phi[b] :: a == b)
    && |phi| == |heap| && Carried(g, phi, r, r')
    && (forall a | a in phi && a < |g| && phi[a] < |heap| :: NodeCarried(g, phi, g[a], heap[phi[a]]))
  }

  lemma NothingOpen(g: Heap, shared: set<nat>, s: Trace, w: Numbers, c: Core, r: Ref, r': Ref)
    requires Inv(g, shared, s, w, c) && s.open == map[] && Rel(s.im, r, r') && RefOk(g, r)
    requires forall n | n in g :: NodeOk(g, n)
    ensures SameGraph(g, r, c.heap, r', s.phi)
  {
    hide Carried, NodeCarried, Rel, NodeRel, NodeOk, TableOk, RefOk;
    assert |s.phi| == |s.phi.Keys|;
    AllComplete(g, s, c);
    forall a | a in s.phi && a < |g| && s.phi[a] < |c.heap| ensures NodeCarried(g, s.phi, g[a], c.heap[s.phi[a]]) {
      assert NodeRel(s.im, g[a], c.heap[s.phi[a]], Size(g[a]));
      assert g[a] in g;
      NodeNothingOpen(g, s, g[a], c.heap[s.phi[a]]);
    }
    RefComplete(g, s, r, r');
  }

  ghost predicate Complete(g: Heap, s: Trace) {
    forall a | a in s.im && a < |g| :: if g[a].Named? then s.im[a] == Known(g[a].name) else a in s.phi && s.im[a] == Obj(s.phi[a])
  }

  lemma AllComplete(g: Heap, s: Trace, c: Core)
    requires Places(g, s, c.heap) && Images(s, c.holes) && NamesRel(g, s) && s.open == map[]
    ensures Complete(g, s)
  {
  }

  lemma RefComplete(g: Heap, s: Trace, r: Ref, r': Ref)
    requires Complete(g, s) && RefOk(g, r) && Rel(s.im, r, r')
    ensures Carried(g, s.phi, r, r')
  {
  }

  lemma NodeNothingOpen(g: Heap, s: Trace, n: Node, n': Node)
    requires NodeRel(s.im, n, n', Size(n)) && Complete(g, s) && NodeOk(g, n)
    ensures NodeCarried(g, s.phi, n, n')
  {
    hide Complete, Carried, RefOk;
    match n
    case List(items) =>
      forall j | 0 <= j < |items| ensures Carried(g, s.phi, items[j], n'.items[j]) {
        assert Rel(s.im, items[j], n'.items[j]) && items[j] in items;
        RefComplete(g, s, items[j], n'.items[j]);
      }
    case Map(pairs) =>
      forall j | 0 <= j < |pairs| ensures Carried(g, s.phi, pairs[j].0, n'.pairs[j].0) && Carried(g, s.phi, pairs[j].1, n'.pairs[j].1) {
        assert PairRel(s.im, pairs[j], n'.pairs[j]) && pairs[j] in pairs;
        RefComplete(g, s, pairs[j].0, n'.pairs[j].0);
        RefComplete(g, s, pairs[j].1, n'.pairs[j].1);
      }
    case Named(_) =>
  }

  /** Reading back the heads of what is written gives the same graph, with its sharing and cycles, and for
      every object with a name the value with that name. */
  lemma RoundTrip(g0: Heap, names: map<nat, string>, reuse: bool, r: Ref, globals: Globals) returns (phi: map<nat, nat>)
    requires var g := AsNamed(g0, names);
             GraphOk(g) && RefOk(g, r) && KeysReady(g, r, NOTHING, {}) && Knows(g, globals) && KnowsRef(r, globals)
    ensures var g := AsNamed(g0, names);
            phi.Keys == set a | a in Reached(g, r) && a < |g| && !g[a].Named?
    ensures var m := FeedAll(Machine(FRESH, NoTags, Bottom, None), Heads(Encoded(g0, names, reuse, r), []), globals);
            m.value.Some? && m.value.value.Ok? && SameGraph(AsNamed(g0, names), r, m.core.heap, m.value.value.ref, phi)
  {
    hide GraphOk, RefOk, Find, Write, KeysReady, FeedAll, Heads, Knows, KnowsRef, AsNamed, Reached, SameGraph;
    var g := AsNamed(g0, names);
    NamesFindLess(g0, names, r);
    SearchIsExact(g, r);
    phi := GraphBack(g, Find(g0, r, NOTHING).dups, reuse, r, globals);
  }

  /** The same for every choice of shared objects that covers those met twice. */
  lemma GraphBack(g: Heap, shared: set<nat>, reuse: bool, r: Ref, globals: Globals) returns (phi: map<nat, nat>)
    requires GraphOk(g) && RefOk(g, r) && KeysReady(g, r, NOTHING, {}) && Knows(g, globals) && KnowsRef(r, globals)
    requires Find(g, r, NOTHING).dups <= shared
    ensures phi.Keys == set a | a in Find(g, r, NOTHING).seen && a < |g| && !g[a].Named?
    ensures var m := FeedAll(Machine(FRESH, NoTags, Bottom, None), Heads(Write(g, shared, reuse, r, {}, FIRST).tree, []), globals);
            m.value.Some? && m.value.value.Ok? && SameGraph(g, r, m.core.heap, m.value.value.ref, phi)
  {
    hide Inv, GraphOk, RefOk, Find, Write, KeysReady, Decode, FeedAll, Heads, Knows, KnowsRef, NodeOk, SameGraph;
    var none := Trace({}, map[], map[], map[]);
    StartInv(g, shared);
    assert none.open.Keys == {};
    var s := ItemBack(g, shared, reuse, r, NOTHING, none, FIRST, FRESH, globals);
    var out := Write(g, shared, reuse, r, {}, FIRST);
    var (o, c) := Decode(out.tree, FRESH, globals);
    NodesOk(g);
    NothingOpen(g, shared, s, out.numbers, c, r, o.ref);
    InvFacts(g, shared, s, out.numbers, c);
    ReaderIsDecoder(out.tree, FRESH, globals);
    phi := s.phi;
  }

  lemma NodesOk(g: Heap)
    requires GraphOk(g)
    ensures forall n | n in g :: NodeOk(g, n)
  {
    hide NodeOk;
  }

  // ---------------------------------------------------------------- a placeholder left in a key

  ghost predicate StuckAt(heap: Heap, i: nat) {
    i < |heap| && heap[i].Map? && exists j :: 0 <= j < |heap[i].pairs| && heap[i].pairs[j].0.Hole?
  }

  ghost predicate Stuck(heap: Heap) {
    exists i: nat :: StuckAt(heap, i)
  }

  lemma StuckListPut(heap: Heap, id: nat, r: Ref, i: nat)
    requires StuckAt(heap, i)
    ensures StuckAt(ListPut(heap, id, r), i)
  {
  }

  lemma {:induction false} PairsPutKeeps(pairs: seq<(Ref, Ref)>, k: Ref, v: Ref, j: nat) returns (j': nat)
    requires j < |pairs|
    ensures j' < |PairsPut(pairs, k, v)| && PairsPut(pairs, k, v)[j'].0 == pairs[j].0
  {
    if pairs[0].0 == k {
      j' := j;
    } else if j == 0 {
      j' := 0;
    } else {
      var i := PairsPutKeeps(pairs[1..], k, v, j - 1);
      j' := i + 1;
    }
  }

  lemma {:induction false} PairsPutHas(pairs: seq<(Ref, Ref)>, k: Ref, v: Ref) returns (j: nat)
    ensures j < |PairsPut(pairs, k, v)| && PairsPut(pairs, k, v)[j].0 == k
  {
    if pairs == [] || pairs[0].0 == k {
      j := 0;
    } else {
      var i := PairsPutHas(pairs[1..], k, v);
      j := i + 1;
    }
  }

  lemma StuckMapPut(heap: Heap, id: nat, k: Ref, v: Ref, i: nat)
    requires StuckAt(heap, i)
    ensures StuckAt(MapPut(heap, id, k, v), i)
  {
    hide PairsPut;
    if id == i {
      var j: nat :| j < |heap[i].pairs| && heap[i].pairs[j].0.Hole?;
      var j' := PairsPutKeeps(heap[i].pairs, k, v, j);
      assert MapPut(heap, id, k, v)[i].pairs[j'].0.Hole?;
    }
  }

  lemma StuckFill(heap: Heap, hole: nat, v: Ref, i: nat)
    requires StuckAt(heap, i)
    ensures StuckAt(FillHeap(heap, hole, v), i)
  {
    var j: nat :| j < |heap[i].pairs| && heap[i].pairs[j].0.Hole?;
    assert FillHeap(heap, hole, v)[i].pairs[j].0.Hole?;
  }

  lemma StuckOnItem(p: Pending, c: Core, r: Ref, globals: Globals, i: nat)
    requires StuckAt(c.heap, i)
    ensures StuckAt(OnItem(p, c, r, globals).1.heap, i)
  {
    hide StuckAt, FillHeap;
    match p
    case Shareable(index) =>
      if index < |c.reused| && c.reused[index].Full? && c.reused[index].ref.Hole? {
        StuckFill(c.heap, c.reused[index].ref.hole, r, i);
      }
    case _ =>
  }

  /** Nothing that is read later fills a key. */
  lemma {:induction false} StuckDecode(t: Tree, c: Core, globals: Globals, i: nat)
    requires StuckAt(c.heap, i)
    ensures StuckAt(Decode(t, c, globals).1.heap, i)
    decreases t
  {
    hide StuckAt, OnItem;
    match t
    case Plain(_) =>
    case Array(ts) =>
      StuckAppend(c.heap, List([]), i);
      StuckAll(ts, |c.heap|, c.(heap := c.heap + [List([])]), globals, i);
    case Table(ps) =>
      StuckAppend(c.heap, Map([]), i);
      StuckPairs(ps, |c.heap|, c.(heap := c.heap + [Map([])]), globals, i);
    case Tagged(tag, item) =>
      match OnTag(tag, c)
      case None => StuckDecode(item, c, globals, i);
      case Some((p, c1)) =>
        StuckDecode(item, c1, globals, i);
        var (o, c2) := Decode(item, c1, globals);
        if o.Ok? {
          StuckOnItem(p, c2, o.ref, globals, i);
        }
  }

  lemma StuckAppend(heap: Heap, n: Node, i: nat)
    requires StuckAt(heap, i)
    ensures StuckAt(heap + [n], i)
  {
  }

  lemma {:induction false} StuckAll(ts: Trees, id: nat, c: Core, globals: Globals, i: nat)
    requires StuckAt(c.heap, i)
    ensures StuckAt(DecodeAll(ts, id, c, globals).1.heap, i)
    decreases ts
  {
    hide StuckAt, ListPut;
    match ts
    case NoTrees =>
    case Trees(t, tail) =>
      StuckDecode(t, c, globals, i);
      var (o, c1) := Decode(t, c, globals);
      if o.Ok? {
        StuckListPut(c1.heap, id, o.ref, i);
        StuckAll(tail, id, c1.(heap := ListPut(c1.heap, id, o.ref)), globals, i);
      }
  }

  lemma {:induction false} StuckPairs(ps: Pairs, id: nat, c: Core, globals: Globals, i: nat)
    requires StuckAt(c.heap, i)
    ensures StuckAt(DecodePairs(ps, id, c, globals).1.heap, i)
    decreases ps
  {
    hide StuckAt, MapPut;
    match ps
    case NoPairs =>
    case Pairs(key, item, more) =>
      StuckDecode(key, c, globals, i);
      var (k, c1) := Decode(key, c, globals);
      if k.Ok? {
        StuckDecode(item, c1, globals, i);
        var (v, c2) := Decode(item, c1, globals);
        if v.Ok? {
          StuckMapPut(c2.heap, id, k.ref, v.ref, i);
          StuckPairs(more, id, c2.(heap := MapPut(c2.heap, id, k.ref, v.ref)), globals, i);
        }
      }
  }

  // ---------------------------------------------------------------- if a key is not ready

  /** Reading ends with an error or with a placeholder in a key. */
  ghost predicate Fails(read: (Outcome, Core)) {
    read.0.Ok? ==> Stuck(read.1.heap)
  }

  lemma StuckStays(t: Tree, c: Core, globals: Globals)
    requires Stuck(c.heap)
    ensures Stuck(Decode(t, c, globals).1.heap)
  {
    hide StuckAt, Decode;
    var i: nat :| StuckAt(c.heap, i);
    StuckDecode(t, c, globals, i);
  }

  lemma StuckStaysAll(ts: Trees, id: nat, c: Core, r: Ref, globals: Globals)
    requires Stuck(c.heap)
    ensures Stuck(DecodeAll(ts, id, c.(heap := ListPut(c.heap, id, r)), globals).1.heap)
  {
    hide StuckAt, DecodeAll, ListPut;
    var i: nat :| StuckAt(c.heap, i);
    StuckListPut(c.heap, id, r, i);
    StuckAll(ts, id, c.(heap := ListPut(c.heap, id, r)), globals, i);
  }

  lemma StuckStaysPairs(ps: Pairs, id: nat, c: Core, k: Ref, v: Ref, globals: Globals)
    requires Stuck(c.heap)
    ensures Stuck(DecodePairs(ps, id, c.(heap := MapPut(c.heap, id, k, v)), globals).1.heap)
  {
    hide StuckAt, DecodePairs, MapPut;
    var i: nat :| StuckAt(c.heap, i);
    StuckMapPut(c.heap, id, k, v, i);
    StuckPairs(ps, id, c.(heap := MapPut(c.heap, id, k, v)), globals, i);
  }

  /** A placeholder that is put into a map as a key. */
  lemma StuckByPut(ps: Pairs, id: nat, c: Core, k: Ref, v: Ref, globals: Globals)
    requires k.Hole? && id < |c.heap| && c.heap[id].Map?
    ensures Stuck(DecodePairs(ps, id, c.(heap := MapPut(c.heap, id, k, v)), globals).1.heap)
  {
    hide DecodePairs, PairsPut;
    var heap := MapPut(c.heap, id, k, v);
    var j := PairsPutHas(c.heap[id].pairs, k, v);
    assert heap[id].pairs[j].0.Hole?;
    assert StuckAt(heap, id);
    StuckPairs(ps, id, c.(heap := heap), globals, id);
  }

  lemma {:induction false} ItemFails(g: Heap, shared: set<nat>, reuse: bool, r: Ref, f: Found, s: Trace, w: Numbers, c: Core, globals: Globals)
    requires Knows(g, globals) && KnowsRef(r, globals)
    requires RefOk(g, r) && Fit(g, shared, f, s, w, c)
    requires Find(g, r, f).dups <= shared && !KeysReady(g, r, f, s.open.Keys)
    ensures Fails(Decode(Write(g, shared, reuse, r, f.seen, w).tree, c, globals))
    decreases Ids(g) - f.seen, 0
  {
    hide Inv, GraphOk, Write, Decode, Find, FindIn, KeysReadyIn, Numbered, EnteredCore, Fit, Entered, WriteItems, WritePairs,
         DecodeAll, DecodePairs, Stuck, Knows, KnowsRef;
    var id := r.id;
    NamedReady(g, id, f, s.open.Keys);
    var f1, s1, w1, c1 := f.(seen := f.seen + {id}), Entered(s, id, |c.heap|), Numbered(shared, id, w), EnteredCore(shared, id, g[id], c);
    EnterFit(g, shared, id, f, s, w, c);
    EnterSearch(g, id, f, s.open.Keys);
    NodeFails(g, shared, reuse, id, 0, f1, s1, w1, c1, globals);
    FreshFails(g, shared, reuse, id, f, s, w, c, globals);
  }

  lemma NamedReady(g: Heap, id: nat, f: Found, open: set<nat>)
    requires id < |g| && !KeysReady(g, Obj(id), f, open)
    ensures !g[id].Named? && id !in f.seen
  {
  }

  lemma FreshFails(g: Heap, shared: set<nat>, reuse: bool, id: nat, f: Found, s: Trace, w: Numbers, c: Core, globals: Globals)
    requires id < |g| && Fit(g, shared, f, s, w, c) && id !in f.seen && !g[id].Named?
    requires var out := WriteNode(g, shared, reuse, g[id], f.seen + {id}, Numbered(shared, id, w));
             Fails(DecodeBody(out.tree, |c.heap|, EnteredCore(shared, id, g[id], c), globals))
    ensures Fails(Decode(Write(g, shared, reuse, Obj(id), f.seen, w).tree, c, globals))
  {
    hide Inv, GraphOk, WriteNode, Write, Stuck, FindIn, Find, OnItem;
    var body := WriteNode(g, shared, reuse, g[id], f.seen + {id}, Numbered(shared, id, w)).tree;
    InvFacts(g, shared, s, w, c);
    FreshWrite(g, shared, reuse, id, f, w);
    if id in shared {
      var c1 := c.(reused := c.reused + [Empty]);
      var (o, c2) := Decode(body, c1, globals);
      assert Fails((o, c2));
      if o.Ok? {
        StuckMarked(Shareable(|c.reused|), c2, o.ref, globals);
      }
    }
  }

  lemma StuckMarked(p: Pending, c: Core, r: Ref, globals: Globals)
    requires Stuck(c.heap)
    ensures Stuck(OnItem(p, c, r, globals).1.heap)
  {
    hide StuckAt, OnItem;
    var i: nat :| StuckAt(c.heap, i);
    StuckOnItem(p, c, r, globals, i);
  }

  lemma {:induction false} NodeFails(g: Heap, shared: set<nat>, reuse: bool, id: nat, i: nat, f: Found, s: Trace, w: Numbers, c: Core, globals: Globals)
    requires Knows(g, globals)
    requires Fit(g, shared, f, s, w, c) && id < |g| && id in s.open && id in s.phi && s.open[id] == i <= Size(g[id])
    requires FindIn(g, g[id], i, f).dups <= shared && !KeysReadyIn(g, g[id], i, f, s.open.Keys)
    ensures g[id].List? ==> Fails(DecodeAll(WriteItems(g, shared, reuse, g[id].items, i, f.seen, w).tree, s.phi[id], c, globals))
    ensures g[id].Map? ==> Fails(DecodePairs(WritePairs(g, shared, reuse, g[id].pairs, i, f.seen, w).tree, s.phi[id], c, globals))
    decreases Ids(g) - f.seen, Size(g[id]) - i + 1, 1
  {
    hide Inv, GraphOk, Fails;
    if g[id].List? {
      ListFails(g, shared, reuse, id, i, f, s, w, c, globals);
    } else {
      MapFails(g, shared, reuse, id, i, f, s, w, c, globals);
    }
  }

  lemma {:induction false} ListFails(g: Heap, shared: set<nat>, reuse: bool, id: nat, i: nat, f: Found, s: Trace, w: Numbers, c: Core, globals: Globals)
    requires Knows(g, globals)
    requires Fit(g, shared, f, s, w, c) && id < |g| && id in s.open && id in s.phi && g[id].List? && s.open[id] == i < Size(g[id])
    requires FindIn(g, g[id], i, f).dups <= shared && !KeysReadyIn(g, g[id], i, f, s.open.Keys)
    ensures Fails(DecodeAll(WriteItems(g, shared, reuse, g[id].items, i, f.seen, w).tree, s.phi[id], c, globals))
    decreases Ids(g) - f.seen, Size(g[id]) - i + 1, 0
  {
    hide Inv, GraphOk, Find, Write, Decode, KeysReady, NodeOk, Stuck, ListPut, Knows, KnowsRef;
    var r := g[id].items[i];
    NodeRefs(g, id, i);
    NodeKnown(g, id, i, globals);
    InvFacts(g, shared, s, w, c);
    PassesAgree(g, shared, reuse, r, f, w);
    var first := Write(g, shared, reuse, r, f.seen, w);
    var rest := WriteItems(g, shared, reuse, g[id].items, i + 1, first.seen, first.numbers);
    var (o, c1) := Decode(first.tree, c, globals);
    if !KeysReady(g, r, f, s.open.Keys) {
      ItemFails(g, shared, reuse, r, f, s, w, c, globals);
      if o.Ok? {
        StuckStaysAll(rest.tree, s.phi[id], c1, o.ref, globals);
      }
    } else {
      var s1 := ItemBack(g, shared, reuse, r, f, s, w, c, globals);
      PutItem(g, shared, s1, first.numbers, c1, id, o.ref);
      var s2, c2 := Advanced(s1, id), c1.(heap := ListPut(c1.heap, s1.phi[id], o.ref));
      assert s2.open.Keys == s.open.Keys;
      NodeFails(g, shared, reuse, id, i + 1, Find(g, r, f), s2, first.numbers, c2, globals);
    }
  }

  lemma {:induction false} MapFails(g: Heap, shared: set<nat>, reuse: bool, id: nat, i: nat, f: Found, s: Trace, w: Numbers, c: Core, globals: Globals)
    requires Knows(g, globals)
    requires Fit(g, shared, f, s, w, c) && id < |g| && id in s.open && id in s.phi && g[id].Map? && s.open[id] == i < Size(g[id])
    requires FindIn(g, g[id], i, f).dups <= shared && !KeysReadyIn(g, g[id], i, f, s.open.Keys)
    ensures Fails(DecodePairs(WritePairs(g, shared, reuse, g[id].pairs, i, f.seen, w).tree, s.phi[id], c, globals))
    decreases Ids(g) - f.seen, Size(g[id]) - i + 1, 0
  {
    hide Inv, GraphOk, Find, Write, WriteKey, Decode, KeysReady, NodeOk, Stuck, MapPut, Rel, Knows, KnowsRef;
    var k, v := g[id].pairs[i].0, g[id].pairs[i].1;
    NodeRefs(g, id, i);
    NodeKnown(g, id, i, globals);
    InvFacts(g, shared, s, w, c);
    var f1 := Find(g, k, f);
    KeysAgree(g, shared, reuse, k, f, w);
    var key := WriteKey(g, shared, reuse, k, f.seen, w);
    PassesAgree(g, shared, reuse, v, f1, key.numbers);
    var value := Write(g, shared, reuse, v, f1.seen, key.numbers);
    var more := WritePairs(g, shared, reuse, g[id].pairs, i + 1, value.seen, value.numbers);
    if !(k.Obj? && k.id in s.open) && !KeysReady(g, k, f, s.open.Keys) {
      KeyFails(g, shared, reuse, k, f, s, w, c, globals);
      FailsAtKey(key.tree, value.tree, more.tree, s.phi[id], c, globals);
    } else {
      var s1 := AnyKeyBack(g, shared, reuse, k, f, s, w, c, globals);
      var (ko, c1) := Decode(key.tree, c, globals);
      if !KeysReady(g, v, f1, s.open.Keys) {
        ItemFails(g, shared, reuse, v, f1, s1, key.numbers, c1, globals);
        FailsAtValue(key.tree, value.tree, more.tree, s.phi[id], c, globals);
      } else {
        RestFails(g, shared, reuse, id, i, f, s, s1, w, c, globals);
      }
    }
  }

  lemma FailsAtKey(key: Tree, value: Tree, more: Pairs, id: nat, c: Core, globals: Globals)
    requires Fails(Decode(key, c, globals))
    ensures Fails(DecodePairs(Pairs(key, value, more), id, c, globals))
  {
    hide Stuck, Decode, MapPut;
    var (k, c1) := Decode(key, c, globals);
    if k.Ok? {
      StuckStays(value, c1, globals);
      FailsAtValue(key, value, more, id, c, globals);
    }
  }

  lemma FailsAtValue(key: Tree, value: Tree, more: Pairs, id: nat, c: Core, globals: Globals)
    requires Decode(key, c, globals).0.Ok? ==> Fails(Decode(value, Decode(key, c, globals).1, globals))
    requires Decode(key, c, globals).0.Ok?
    ensures Fails(DecodePairs(Pairs(key, value, more), id, c, globals))
  {
    hide Stuck, Decode, MapPut;
    var (k, c1) := Decode(key, c, globals);
    var (v, c2) := Decode(value, c1, globals);
    if v.Ok? {
      StuckStaysPairs(more, id, c2, k.ref, v.ref, globals);
    }
  }

  lemma {:induction false} KeyFails(g: Heap, shared: set<nat>, reuse: bool, k: Ref, f: Found, s: Trace, w: Numbers, c: Core, globals: Globals)
    requires Knows(g, globals) && KnowsRef(k, globals)
    requires RefOk(g, k) && Fit(g, shared, f, s, w, c)
    requires Find(g, k, f).dups <= shared && !KeysReady(g, k, f, s.open.Keys)
    ensures Fails(Decode(WriteKey(g, shared, reuse, k, f.seen, w).tree, c, globals))
    decreases Ids(g) - f.seen, 1
  {
    hide Inv, GraphOk, Fails, Fit, Write;
    ItemFails(g, shared, reuse, k, f, s, w, c, globals);
  }

  /** A key reads as a placeholder exactly if it refers to an object that is still being written. */
  lemma AnyKeyBack(g: Heap, shared: set<nat>, reuse: bool, k: Ref, f: Found, s: Trace, w: Numbers, c: Core, globals: Globals)
    returns (s': Trace)
    requires Knows(g, globals) && KnowsRef(k, globals)
    requires RefOk(g, k) && Fit(g, shared, f, s, w, c) && Find(g, k, f).dups <= shared
    requires (k.Obj? && k.id in s.open) || KeysReady(g, k, f, s.open.Keys)
    ensures var out := WriteKey(g, shared, reuse, k, f.seen, w);
            var read := Decode(out.tree, c, globals);
            ReadsBack(g, shared, k, Find(g, k, f), s, s', w, out.numbers, read) &&
            (read.0.ref.Hole? <==> k.Obj? && k.id in s.open)
  {
    hide Inv, GraphOk, Decode, Write;
    if k.Obj? && k.id in s.open {
      InvFacts(g, shared, s, w, c);
      SeenShared(g, k.id, f, shared);
      s' := SeenBack(g, shared, reuse, k.id, f, s, w, c, globals);
      var out := Write(g, shared, reuse, k, f.seen, w);
      OpenIsHole(g, shared, s', out.numbers, Decode(out.tree, c, globals).1, k.id);
    } else {
      s' := KeyBack(g, shared, reuse, k, f, s, w, c, globals);
    }
  }

  lemma SeenShared(g: Heap, id: nat, f: Found, shared: set<nat>)
    requires id < |g| && id in f.seen && Find(g, Obj(id), f).dups <= shared
    ensures id in shared
  {
  }

  lemma OpenIsHole(g: Heap, shared: set<nat>, s: Trace, w: Numbers, c: Core, id: nat)
    requires Inv(g, shared, s, w, c) && id in s.open && id in s.im
    ensures s.im[id].Hole?
  {
  }

  /** The key and the value have been read; the key is a placeholder or the failure is yet to come. */
  lemma {:induction false} RestFails(g: Heap, shared: set<nat>, reuse: bool, id: nat, i: nat, f: Found, s: Trace, s1: Trace, w: Numbers, c: Core, globals: Globals)
    requires Knows(g, globals)
    requires Fit(g, shared, f, s, w, c) && id < |g| && id in s.open && id in s.phi && g[id].Map? && s.open[id] == i < Size(g[id])
    requires FindIn(g, g[id], i, f).dups <= shared && !KeysReadyIn(g, g[id], i, f, s.open.Keys)
    requires var k := g[id].pairs[i].0;
             var key := WriteKey(g, shared, reuse, k, f.seen, w);
             var read := Decode(key.tree, c, globals);
             ReadsBack(g, shared, k, Find(g, k, f), s, s1, w, key.numbers, read) &&
             (read.0.ref.Hole? <==> k.Obj? && k.id in s.open) &&
             ((k.Obj? && k.id in s.open) || KeysReady(g, k, f, s.open.Keys))
    requires KeysReady(g, g[id].pairs[i].1, Find(g, g[id].pairs[i].0, f), s.open.Keys)
    ensures Fails(DecodePairs(WritePairs(g, shared, reuse, g[id].pairs, i, f.seen, w).tree, s.phi[id], c, globals))
    decreases Ids(g) - f.seen, Size(g[id]) - i, 2
  {
    hide Inv, GraphOk, Find, Write, WriteKey, Decode, KeysReady, NodeOk, Stuck, MapPut, Rel, Knows, KnowsRef;
    var k, v := g[id].pairs[i].0, g[id].pairs[i].1;
    NodeRefs(g, id, i);
    NodeKnown(g, id, i, globals);
    InvFacts(g, shared, s, w, c);
    var f1 := Find(g, k, f);
    KeysAgree(g, shared, reuse, k, f, w);
    var key := WriteKey(g, shared, reuse, k, f.seen, w);
    var (ko, c1) := Decode(key.tree, c, globals);
    PassesAgree(g, shared, reuse, v, f1, key.numbers);
    var s2 := ItemBack(g, shared, reuse, v, f1, s1, key.numbers, c1, globals);
    var value := Write(g, shared, reuse, v, f1.seen, key.numbers);
    var (vo, c2) := Decode(value.tree, c1, globals);
    var more := WritePairs(g, shared, reuse, g[id].pairs, i + 1, value.seen, value.numbers);
    if ko.ref.Hole? {
      MapThere(g, shared, s2, value.numbers, c2, id);
      StuckByPut(more.tree, s.phi[id], c2, ko.ref, vo.ref, globals);
    } else {
      RelLater(s1.im, s2.im, k, ko.ref);
      PutPair(g, shared, s2, value.numbers, c2, id, ko.ref, vo.ref);
      var s3, c3 := Advanced(s2, id), c2.(heap := MapPut(c2.heap, s2.phi[id], ko.ref, vo.ref));
      assert s3.open.Keys == s.open.Keys;
      NodeFails(g, shared, reuse, id, i + 1, Find(g, v, f1), s3, value.numbers, c3, globals);
    }
  }

  lemma MapThere(g: Heap, shared: set<nat>, s: Trace, w: Numbers, c: Core, id: nat)
    requires Inv(g, shared, s, w, c) && id in s.open && id < |g| && g[id].Map?
    ensures id in s.phi && s.phi[id] < |c.heap| && c.heap[s.phi[id]].Map?
  {
    hide PairRel;
    assert id in s.seen;
    assert NodeRel(s.im, g[id], c.heap[s.phi[id]], Done(g, s, id));
  }

  // ---------------------------------------------------------------- exactly when

  lemma SameGraphNotStuck(g: Heap, r: Ref, heap: Heap, r': Ref, phi: map<nat, nat>, i: nat)
    requires SameGraph(g, r, heap, r', phi)
    ensures !StuckAt(heap, i)
  {
    if i < |heap| {
      var a := Finite.ValuesOnto(phi, |heap|, i);
      assert NodeCarried(g, phi, g[a], heap[phi[a]]);
    }
  }

  lemma StuckIsDifferent(g: Heap, r: Ref, heap: Heap, r': Ref, phi: map<nat, nat>)
    requires Stuck(heap)
    ensures !SameGraph(g, r, heap, r', phi)
  {
    hide SameGraph, StuckAt;
    var i: nat :| StuckAt(heap, i);
    if SameGraph(g, r, heap, r', phi) {
      SameGraphNotStuck(g, r, heap, r', phi, i);
    }
  }

  /** A graph survives exactly if no map key refers to an object that is still being written, provided each
      name gives the reader the value that has it for the writer. */
  lemma RoundTripExactly(g0: Heap, names: map<nat, string>, reuse: bool, r: Ref, globals: Globals)
    requires var g := AsNamed(g0, names); GraphOk(g) && RefOk(g, r) && Knows(g, globals) && KnowsRef(r, globals)
    ensures var g := AsNamed(g0, names);
            var m := FeedAll(Machine(FRESH, NoTags, Bottom, None), Heads(Encoded(g0, names, reuse, r), []), globals);
            (m.value.Some? && m.value.value.Ok? && exists phi :: SameGraph(g, r, m.core.heap, m.value.value.ref, phi))
            <==> KeysReady(g, r, NOTHING, {})
  {
    hide Inv, GraphOk, Find, Write, KeysReady, Decode, FeedAll, Heads, SameGraph, Stuck, Knows, KnowsRef, AsNamed, RefOk, Reached;
    var g := AsNamed(g0, names);
    var m := FeedAll(Machine(FRESH, NoTags, Bottom, None), Heads(Encoded(g0, names, reuse, r), []), globals);
    if KeysReady(g, r, NOTHING, {}) {
      var phi := RoundTrip(g0, names, reuse, r, globals);
    } else {
      var shared := Find(g0, r, NOTHING).dups;
      NamesFindLess(g0, names, r);
      var none := Trace({}, map[], map[], map[]);
      StartInv(g, shared);
      assert none.open.Keys == {};
      ItemFails(g, shared, reuse, r, NOTHING, none, FIRST, FRESH, globals);
      ReaderIsDecoder(Encoded(g0, names, reuse, r), FRESH, globals);
      if m.value.Some? && m.value.value.Ok? {
        forall phi ensures !SameGraph(g, r, m.core.heap, m.value.value.ref, phi) {
          StuckIsDifferent(g, r, m.core.heap, m.value.value.ref, phi);
        }
      }
    }
  }

  // ---------------------------------------------------------------- instances

  /** No object is a map key. */
  predicate LeafKeys(g: Heap) {
    forall n | n in g && n.Map? :: forall p | p in n.pairs :: !p.0.Obj?
  }

  /** Every graph whose map keys are atoms survives, whatever its cycles. */
  lemma {:induction false} LeafKeysReady(g: Heap, r: Ref, f: Found, open: set<nat>)
    requires LeafKeys(g)
    ensures KeysReady(g, r, f, open)
    decreases Ids(g) - f.seen, 0
  {
    if r.Obj? && r.id < |g| && r.id !in f.seen {
      assert r.id in Ids(g) && g[r.id] in g;
      LeafKeysReadyIn(g, g[r.id], 0, f.(seen := f.seen + {r.id}), open + {r.id});
    }
  }

  lemma {:induction false} LeafKeysReadyIn(g: Heap, n: Node, i: nat, f: Found, open: set<nat>)
    requires LeafKeys(g) && n in g && i <= Size(n)
    ensures KeysReadyIn(g, n, i, f, open)
    decreases Ids(g) - f.seen, Size(n) - i + 1
  {
    hide Find, KeysReady;
    if i < Size(n) {
      match n
      case List(items) =>
        LeafKeysReady(g, items[i], f, open);
        LeafKeysReadyIn(g, n, i + 1, Find(g, items[i], f), open);
      case Map(pairs) =>
        var f1 := Find(g, pairs[i].0, f);
        assert pairs[i] in n.pairs;
        LeafKeysReady(g, pairs[i].0, f, open);
        LeafKeysReady(g, pairs[i].1, f1, open);
        LeafKeysReadyIn(g, n, i + 1, Find(g, pairs[i].1, f1), open);
    }
  }

  /** A map that is its own key does not survive. */
  lemma OwnKeyLost()
    ensures var g: Heap := [Map([(Obj(0), Leaf(Null))])];
            GraphOk(g) && !KeysReady(g, Obj(0), NOTHING, {})
  {
    var g: Heap := [Map([(Obj(0), Leaf(Null))])];
    assert NodeOk(g, g[0]);
    assert !KeysReadyIn(g, g[0], 0, NOTHING.(seen := {0}), {0});
  }

  /** A list that holds another one twice: tag 28 where it is written, tag 29 and its index where it is met
      again. */
  lemma SharedList()
    ensures Heads(Encoded([List([Obj(1), Obj(1)]), List([])], map[], false, Obj(0)), [])
         == [ArrayHead(2), TagHead(28), ArrayHead(0), TagHead(29), Scalar(Int(0))]
  {
    var g: Heap := [List([Obj(1), Obj(1)]), List([])];
    SharedFound(g);
    assert AsNamed(g, map[]) == g;
    var w := Numbers(map[1 := 0], map[], 1);
    assert WriteNode(g, {1}, false, g[1], {0, 1}, w) == Written(Array(NoTrees), {0, 1}, w);
    assert {0} + {1} == {0, 1};
    assert Write(g, {1}, false, Obj(1), {0}, FIRST) == Written(Tagged(SHAREABLE, Array(NoTrees)), {0, 1}, w);
    assert Write(g, {1}, false, Obj(1), {0, 1}, w) == Written(Shared(0), {0, 1}, w);
    var items := [Obj(1), Obj(1)];
    assert WriteItems(g, {1}, false, items, 2, {0, 1}, w) == Written(NoTrees, {0, 1}, w);
    assert WriteItems(g, {1}, false, items, 1, {0, 1}, w) == Written(Trees(Shared(0), NoTrees), {0, 1}, w);
    var both := Trees(Tagged(SHAREABLE, Array(NoTrees)), Trees(Shared(0), NoTrees));
    assert WriteItems(g, {1}, false, items, 0, {0}, FIRST) == Written(both, {0, 1}, w);
    assert Write(g, {1}, false, Obj(0), {}, FIRST).tree == Array(both);
    assert HeadsOfAll(both, []) == [TagHead(28), ArrayHead(0), TagHead(29), Scalar(Int(0))];
  }

  lemma SharedFound(g: Heap)
    requires g == [List([Obj(1), Obj(1)]), List([])]
    ensures Find(g, Obj(0), NOTHING).dups == {1}
  {
    var one, two := Found({0}, {}), Found({0, 1}, {});
    assert NOTHING.(seen := {0}) == one && one.(seen := {0} + {1}) == two;
    assert FindIn(g, g[1], 0, two) == two;
    assert Find(g, Obj(1), one) == two;
    assert Find(g, Obj(1), two) == Found({0, 1}, {1});
    assert FindIn(g, g[0], 2, Found({0, 1}, {1})) == Found({0, 1}, {1});
    assert FindIn(g, g[0], 1, two) == Found({0, 1}, {1});
  }
}
