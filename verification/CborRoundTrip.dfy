/** Reading back what is written for a graph (src/ml_cbor.c). */
module CborRoundTrip {
  import opened Options
  import opened CborItem
  import opened CborDecoder
  import opened CborGraph
  import opened CborTrace

  // ---------------------------------------------------------------- keys

  /** No map key refers to an object that is still being written. Placeholders are not filled in there. */
  function KeysReady(g: Heap, r: Ref, f: Found, open: set<nat>): bool
    decreases Ids(g) - f.seen, 0
  {
    r.Obj? && r.id < |g| && r.id !in f.seen ==>
      KeysReadyIn(g, g[r.id], 0, f.(seen := f.seen + {r.id}), open + {r.id})
  }

  function KeysReadyIn(g: Heap, n: Node, i: nat, f: Found, open: set<nat>): bool
    requires i <= Size(n)
    decreases Ids(g) - f.seen, Size(n) - i + 1
  {
    i == Size(n) ||
    match n
    case List(items) => KeysReady(g, items[i], f, open) && KeysReadyIn(g, n, i + 1, Find(g, items[i], f), open)
    case Map(pairs) =>
      var (k, v) := pairs[i];
      var f1 := Find(g, k, f);
      var f2 := Find(g, v, f1);
      && !(k.Obj? && k.id in open) && KeysReady(g, k, f, open) && KeysReady(g, v, f1, open)
      && KeysReadyIn(g, n, i + 1, f2, open)
    case Named(_) => true
  }

  // ---------------------------------------------------------------- reading back

  /** What stays as it was while a part of the graph is read. */
  ghost predicate Later(s: Trace, s': Trace) {
    && s.seen <= s'.seen && Extends(s.im, s'.im)
    && (forall a | a in s.phi :: a in s'.phi && s'.phi[a] == s.phi[a])
  }

  ghost predicate NumbersLater(w: Numbers, w': Numbers) {
    forall a | a in w.index :: a in w'.index && w'.index[a] == w.index[a]
  }

  lemma LaterTrans(a: Trace, b: Trace, c: Trace, u: Numbers, v: Numbers, w: Numbers)
    requires Later(a, b) && Later(b, c) && NumbersLater(u, v) && NumbersLater(v, w)
    ensures Later(a, c) && NumbersLater(u, w)
  {
  }

  /** A name gives the reader the value that has it for the writer. */
  ghost predicate KnowsRef(r: Ref, globals: Globals) {
    r.Known? ==> globals(r.name) == Some(r)
  }

  ghost predicate KnowsNode(n: Node, globals: Globals) {
    match n
    case List(items) => forall r | r in items :: KnowsRef(r, globals)
    case Map(pairs) => forall p | p in pairs :: KnowsRef(p.0, globals) && KnowsRef(p.1, globals)
    case Named(name) => KnowsRef(Known(name), globals)
  }

  ghost predicate Knows(g: Heap, globals: Globals) {
    forall n | n in g :: KnowsNode(n, globals)
  }

  /** A well-formed graph of which a part has been read. */
  ghost predicate Fit(g: Heap, shared: set<nat>, f: Found, s: Trace, w: Numbers, c: Core) {
    GraphOk(g) && f.seen == s.seen && Inv(g, shared, s, w, c)
  }

  /** The item that is written for `r` reads as the image of `r`. */
  ghost predicate ReadsBack(g: Heap, shared: set<nat>, r: Ref, f': Found, s: Trace, s': Trace, w: Numbers, w': Numbers, read: (Outcome, Core)) {
    && read.0.Ok? && Fit(g, shared, f', s', w', read.1) && Later(s, s') && NumbersLater(w, w')
    && s'.open == s.open && Rel(s'.im, r, read.0.ref)
  }

  /** The elements that are written for `n` complete the object that was begun for it. */
  ghost predicate Completes(g: Heap, shared: set<nat>, id: nat, f': Found, s: Trace, s': Trace, w: Numbers, w': Numbers, read: (Outcome, Core)) {
    && id in s.phi && id < |g|
    && read.0 == Ok(Obj(s.phi[id])) && Fit(g, shared, f', s', w', read.1) && Later(s, s') && NumbersLater(w, w')
    && s'.open == s.open[id := Size(g[id])]
  }

  lemma InvFacts(g: Heap, shared: set<nat>, s: Trace, w: Numbers, c: Core)
    requires Inv(g, shared, s, w, c)
    ensures w.index.Keys == s.seen * shared && w.next == |c.reused|
    ensures s.phi.Keys <= s.seen && s.open.Keys <= s.seen && s.im.Keys <= s.seen
    ensures forall a | a in s.seen :: a < |g| && (a in s.phi <==> !g[a].Named?)
    ensures forall a | a in s.phi && a !in s.open :: a in s.im && s.im[a] == Obj(s.phi[a])
    ensures forall a | a in s.im && a !in s.open :: !s.im[a].Hole?
    ensures |c.heap| == |s.phi|
  {
  }

  /** An object met before. */
  lemma SeenBack(g: Heap, shared: set<nat>, reuse: bool, id: nat, f: Found, s: Trace, w: Numbers, c: Core, globals: Globals)
    returns (s': Trace)
    requires id < |g| && Fit(g, shared, f, s, w, c) && id in f.seen && id in shared
    ensures var out := Write(g, shared, reuse, Obj(id), f.seen, w);
            ReadsBack(g, shared, Obj(id), Find(g, Obj(id), f), s, s', w, out.numbers, Decode(out.tree, c, globals))
  {
    hide Inv, UsePrevious, GraphOk, Write, Decode, Find;
    InvFacts(g, shared, s, w, c);
    SeenWrite(g, shared, reuse, id, f, w);
    Again(g, shared, s, w, c, id, globals);
    s' := Asked(s, id, c);
    PreviousDecode(w.index[id], c, globals);
  }

  lemma SeenWrite(g: Heap, shared: set<nat>, reuse: bool, id: nat, f: Found, w: Numbers)
    requires id < |g| && id in f.seen && id in shared && w.index.Keys == f.seen * shared
    ensures Find(g, Obj(id), f).seen == f.seen && id in w.index
    ensures Write(g, shared, reuse, Obj(id), f.seen, w) == Written(Shared(w.index[id]), f.seen, w)
  {
  }

  function DecodeBody(t: Tree, id: nat, c: Core, globals: Globals): (Outcome, Core)
    requires t.Array? || t.Table?
  {
    match t
    case Array(ts) => DecodeAll(ts, id, c, globals)
    case Table(ps) => DecodePairs(ps, id, c, globals)
  }

  /** An object is begun when its head is read, and completed and entered into the table after its elements. */
  lemma FreshDecode(g: Heap, shared: set<nat>, id: nat, body: Tree, c: Core, place: nat, after: Core, globals: Globals)
    requires id < |g| && !g[id].Named? && (if g[id].List? then body.Array? else body.Table?)
    requires place == |c.heap| && DecodeBody(body, place, EnteredCore(shared, id, g[id], c), globals) == (Ok(Obj(place)), after)
    ensures Decode(if id in shared then Tagged(SHAREABLE, body) else body, c, globals)
         == (Ok(Obj(place)), if id in shared then MarkReused(|c.reused|, after, Obj(place)) else after)
  {
    hide MarkReused;
    if id in shared {
      var c1 := c.(reused := c.reused + [Empty]);
      assert Decode(body, c1, globals) == (Ok(Obj(place)), after);
    }
  }

  lemma {:induction false} ItemBack(g: Heap, shared: set<nat>, reuse: bool, r: Ref, f: Found, s: Trace, w: Numbers, c: Core, globals: Globals)
    returns (s': Trace)
    requires Knows(g, globals) && KnowsRef(r, globals)
    requires RefOk(g, r) && Fit(g, shared, f, s, w, c)
    requires Find(g, r, f).dups <= shared && KeysReady(g, r, f, s.open.Keys)
    ensures var out := Write(g, shared, reuse, r, f.seen, w);
            ReadsBack(g, shared, r, Find(g, r, f), s, s', w, out.numbers, Decode(out.tree, c, globals))
    decreases Ids(g) - f.seen, 0, 1
  {
    hide Inv, GraphOk, ReadsBack;
    match r {
      case Leaf(a) =>
        s' := s;
        LeafBack(g, shared, a, f, s, w, c, globals);
      case Known(name) =>
        s' := s;
        NameBack(g, shared, name, f, s, w, c, globals);
      case Obj(id) =>
        if id in f.seen {
          s' := SeenBack(g, shared, reuse, id, f, s, w, c, globals);
        } else if g[id].Named? {
          s' := NamedBack(g, shared, reuse, id, f, s, w, c, globals);
        } else {
          s' := NewBack(g, shared, reuse, id, f, s, w, c, globals);
        }
    }
  }

  /** An object met for the first time. */
  lemma {:induction false} NewBack(g: Heap, shared: set<nat>, reuse: bool, id: nat, f: Found, s: Trace, w: Numbers, c: Core, globals: Globals)
    returns (s': Trace)
    requires Knows(g, globals)
    requires id < |g| && Fit(g, shared, f, s, w, c) && id !in f.seen && !g[id].Named?
    requires Find(g, Obj(id), f).dups <= shared && KeysReady(g, Obj(id), f, s.open.Keys)
    ensures var out := Write(g, shared, reuse, Obj(id), f.seen, w);
            ReadsBack(g, shared, Obj(id), Find(g, Obj(id), f), s, s', w, out.numbers, Decode(out.tree, c, globals))
    decreases Ids(g) - f.seen, 0, 0
  {
    hide Inv, GraphOk, ReadsBack, Write, Decode, Find, FindIn, KeysReady, KeysReadyIn, Numbered, EnteredCore,
         WriteItems, WritePairs, DecodeAll, DecodePairs, Fit, Completes, Left, Entered, Knows;
    var f1, s1, w1, c1 := f.(seen := f.seen + {id}), Entered(s, id, |c.heap|), Numbered(shared, id, w), EnteredCore(shared, id, g[id], c);
    EnterFit(g, shared, id, f, s, w, c);
    EnterSearch(g, id, f, s.open.Keys);
    var s2 := NodeBack(g, shared, reuse, id, 0, f1, s1, w1, c1, globals);
    FreshBack(g, shared, reuse, id, f, s, w, c, s2, globals);
    s' := Left(s2, id);
  }

  lemma EnterFit(g: Heap, shared: set<nat>, id: nat, f: Found, s: Trace, w: Numbers, c: Core)
    requires id < |g| && Fit(g, shared, f, s, w, c) && id !in f.seen && !g[id].Named?
    ensures Fit(g, shared, f.(seen := f.seen + {id}), Entered(s, id, |c.heap|), Numbered(shared, id, w), EnteredCore(shared, id, g[id], c))
    ensures var s1 := Entered(s, id, |c.heap|);
            id in s1.open && s1.open[id] == 0 && id in s1.phi && s1.phi[id] == |c.heap| && s1.open.Keys == s.open.Keys + {id}
  {
    hide Inv, GraphOk, Numbered, EnteredCore;
    Enter(g, shared, s, w, c, id);
  }

  lemma EnterSearch(g: Heap, id: nat, f: Found, open: set<nat>)
    requires id < |g| && id !in f.seen
    ensures var f1 := f.(seen := f.seen + {id});
            Find(g, Obj(id), f) == FindIn(g, g[id], 0, f1) &&
            KeysReady(g, Obj(id), f, open) == KeysReadyIn(g, g[id], 0, f1, open + {id}) &&
            Ids(g) - f1.seen < Ids(g) - f.seen
  {
    hide FindIn, KeysReadyIn;
    assert id in Ids(g);
  }

  lemma LeafBack(g: Heap, shared: set<nat>, a: Atom, f: Found, s: Trace, w: Numbers, c: Core, globals: Globals)
    requires Fit(g, shared, f, s, w, c)
    ensures ReadsBack(g, shared, Leaf(a), f, s, s, w, w, Decode(Plain(a), c, globals))
  {
    hide Inv, GraphOk;
  }

  /** A value that is no object of the graph is written as its name. */
  lemma NameBack(g: Heap, shared: set<nat>, name: string, f: Found, s: Trace, w: Numbers, c: Core, globals: Globals)
    requires Fit(g, shared, f, s, w, c) && KnowsRef(Known(name), globals)
    ensures ReadsBack(g, shared, Known(name), f, s, s, w, w, Decode(Called(name), c, globals))
  {
    hide Inv, GraphOk, Decode;
    NameDecode(name, c, globals);
  }

  lemma NameDecode(name: string, c: Core, globals: Globals)
    requires KnowsRef(Known(name), globals)
    ensures Decode(Called(name), c, globals) == (Ok(Known(name)), c)
  {
    ScalarDecode(Str(name), c, globals);
  }

  /** An object with a name, met for the first time. */
  lemma NamedBack(g: Heap, shared: set<nat>, reuse: bool, id: nat, f: Found, s: Trace, w: Numbers, c: Core, globals: Globals)
    returns (s': Trace)
    requires Knows(g, globals) && id < |g| && Fit(g, shared, f, s, w, c) && id !in f.seen && g[id].Named?
    ensures var out := Write(g, shared, reuse, Obj(id), f.seen, w);
            ReadsBack(g, shared, Obj(id), Find(g, Obj(id), f), s, s', w, out.numbers, Decode(out.tree, c, globals))
  {
    hide Inv, GraphOk, Write, Find, Numbered, Decode, MetCore, Knows, KnowsRef;
    var name := g[id].name;
    s' := Met(s, id, name);
    NamedKnown(g, id, globals);
    NotSeen(g, shared, s, w, c, id);
    Meet(g, shared, s, w, c, id);
    NamedWrite(g, shared, reuse, id, f, w);
    NamedDecode(shared, id, name, c, globals);
    MetNumbers(shared, id, w);
  }

  lemma NamedKnown(g: Heap, id: nat, globals: Globals)
    requires Knows(g, globals) && id < |g| && g[id].Named?
    ensures KnowsRef(Known(g[id].name), globals)
  {
    hide KnowsRef;
    assert g[id] in g && KnowsNode(g[id], globals);
  }

  lemma NotSeen(g: Heap, shared: set<nat>, s: Trace, w: Numbers, c: Core, id: nat)
    requires Inv(g, shared, s, w, c) && id !in s.seen
    ensures id !in w.index && w.index.Keys == s.seen * shared
  {
  }

  lemma NamedWrite(g: Heap, shared: set<nat>, reuse: bool, id: nat, f: Found, w: Numbers)
    requires id < |g| && id !in f.seen && g[id].Named? && w.index.Keys == f.seen * shared
    ensures Find(g, Obj(id), f) == f.(seen := f.seen + {id})
    ensures Write(g, shared, reuse, Obj(id), f.seen, w)
         == Written(if id in shared then Tagged(SHAREABLE, Called(g[id].name)) else Called(g[id].name),
                    f.seen + {id}, Numbered(shared, id, w))
  {
    hide Numbered;
    assert id !in w.index;
    assert FindIn(g, g[id], 0, f.(seen := f.seen + {id})) == f.(seen := f.seen + {id});
  }

  lemma MetNumbers(shared: set<nat>, id: nat, w: Numbers)
    requires id !in w.index
    ensures NumbersLater(w, Numbered(shared, id, w))
  {
  }

  lemma NamedDecode(shared: set<nat>, id: nat, name: string, c: Core, globals: Globals)
    requires KnowsRef(Known(name), globals)
    ensures Decode(if id in shared then Tagged(SHAREABLE, Called(name)) else Called(name), c, globals)
         == (Ok(Known(name)), MetCore(shared, id, name, c))
  {
    hide FillHeap;
    NameDecode(name, c, globals);
    if id in shared {
      var c1 := c.(reused := c.reused + [Empty]);
      NameDecode(name, c1, globals);
      assert c1.reused[|c.reused| := Full(Known(name))] == c.reused + [Full(Known(name))];
    }
  }

  /** From the elements of a new object to the object. */
  lemma FreshBack(g: Heap, shared: set<nat>, reuse: bool, id: nat, f: Found, s: Trace, w: Numbers, c: Core, s2: Trace, globals: Globals)
    requires id < |g| && Fit(g, shared, f, s, w, c) && id !in f.seen && !g[id].Named?
    requires var f1, s1, w1, c1 := f.(seen := f.seen + {id}), Entered(s, id, |c.heap|), Numbered(shared, id, w), EnteredCore(shared, id, g[id], c);
             var out := WriteNode(g, shared, reuse, g[id], f1.seen, w1);
             Completes(g, shared, id, FindIn(g, g[id], 0, f1), s1, s2, w1, out.numbers, DecodeBody(out.tree, |c.heap|, c1, globals))
    ensures id in s2.phi
    ensures var out := Write(g, shared, reuse, Obj(id), f.seen, w);
            ReadsBack(g, shared, Obj(id), Find(g, Obj(id), f), s, Left(s2, id), w, out.numbers, Decode(out.tree, c, globals))
  {
    hide Inv, GraphOk, WriteNode, DecodeBody, FindIn, MarkReused, EnteredCore, Write, Find, Decode, Numbered, Entered, Left;
    var f1, s1, w1, c1 := f.(seen := f.seen + {id}), Entered(s, id, |c.heap|), Numbered(shared, id, w), EnteredCore(shared, id, g[id], c);
    var out := WriteNode(g, shared, reuse, g[id], f1.seen, w1);
    var (o, c2) := DecodeBody(out.tree, |c.heap|, c1, globals);
    InvFacts(g, shared, s, w, c);
    FreshWrite(g, shared, reuse, id, f, w);
    FreshLeave(g, shared, id, FindIn(g, g[id], 0, f1), s, s2, w, out.numbers, c, o, c2);
    FreshDecode(g, shared, id, out.tree, c, |c.heap|, c2, globals);
  }

  lemma FreshLeave(g: Heap, shared: set<nat>, id: nat, f': Found, s: Trace, s2: Trace, w: Numbers, w': Numbers, c: Core, o: Outcome, c2: Core)
    requires id < |g| && Inv(g, shared, s, w, c) && id !in s.seen && !g[id].Named?
    requires Completes(g, shared, id, f', Entered(s, id, |c.heap|), s2, Numbered(shared, id, w), w', (o, c2))
    ensures id in s2.phi && s2.phi[id] == |c.heap| && o == Ok(Obj(|c.heap|))
    ensures id in shared ==> id in w'.index && w'.index[id] == |c.reused|
    ensures Fit(g, shared, f', Left(s2, id), w', LeftCore(shared, w', s2, id, c2))
    ensures Later(s, Left(s2, id)) && NumbersLater(w, w') && Left(s2, id).open == s.open
    ensures Rel(Left(s2, id).im, Obj(id), Obj(|c.heap|))
  {
    hide Inv, GraphOk, LeftCore, Numbered;
    var s1 := Entered(s, id, |c.heap|);
    InvFacts(g, shared, s, w, c);
    assert id !in s.im && id !in s.open;
    Leave(g, shared, s2, w', c2, id);
    assert s2.open - {id} == s.open;
    FreshLater(s, s1, s2, id);
    FreshNumbers(shared, id, w, w', s.seen);
  }

  lemma FreshWrite(g: Heap, shared: set<nat>, reuse: bool, id: nat, f: Found, w: Numbers)
    requires id < |g| && id !in f.seen && w.index.Keys == f.seen * shared
    ensures Find(g, Obj(id), f) == FindIn(g, g[id], 0, f.(seen := f.seen + {id}))
    ensures var out := WriteNode(g, shared, reuse, g[id], f.seen + {id}, Numbered(shared, id, w));
            Write(g, shared, reuse, Obj(id), f.seen, w) == if id in shared then out.(tree := Tagged(SHAREABLE, out.tree)) else out
  {
    hide WriteNode, FindIn, Numbered;
  }

  lemma FreshLater(s: Trace, s1: Trace, s2: Trace, id: nat)
    requires id !in s.im && id !in s.phi && s1.im == s.im && s1.seen == s.seen + {id} && Later(s1, s2) && id in s2.phi
    requires forall a | a in s.phi :: a in s1.phi && s1.phi[a] == s.phi[a]
    ensures Later(s, Left(s2, id))
  {
  }

  lemma FreshNumbers(shared: set<nat>, id: nat, w: Numbers, w': Numbers, seen: set<nat>)
    requires NumbersLater(Numbered(shared, id, w), w') && w.index.Keys == seen * shared && id !in seen
    ensures NumbersLater(w, w')
    ensures id in shared ==> id in w'.index && w'.index[id] == w.next
  {
    if id in shared {
      assert id in Numbered(shared, id, w).index;
    }
  }

  /** The elements from the i-th on. */
  lemma {:induction false} NodeBack(g: Heap, shared: set<nat>, reuse: bool, id: nat, i: nat, f: Found, s: Trace, w: Numbers, c: Core, globals: Globals)
    returns (s': Trace)
    requires Knows(g, globals)
    requires Fit(g, shared, f, s, w, c) && id < |g| && id in s.open && id in s.phi && s.open[id] == i <= Size(g[id])
    requires FindIn(g, g[id], i, f).dups <= shared && KeysReadyIn(g, g[id], i, f, s.open.Keys)
    ensures g[id].List? ==> var out := WriteItems(g, shared, reuse, g[id].items, i, f.seen, w);
            Completes(g, shared, id, FindIn(g, g[id], i, f), s, s', w, out.numbers, DecodeAll(out.tree, s.phi[id], c, globals))
    ensures g[id].Map? ==> var out := WritePairs(g, shared, reuse, g[id].pairs, i, f.seen, w);
            Completes(g, shared, id, FindIn(g, g[id], i, f), s, s', w, out.numbers, DecodePairs(out.tree, s.phi[id], c, globals))
    decreases Ids(g) - f.seen, Size(g[id]) - i + 1, 1
  {
    hide Inv;
    if i == Size(g[id]) {
      s' := s;
      assert s.open[id := i] == s.open;
    } else if g[id].List? {
      s' := ItemThenRest(g, shared, reuse, id, i, f, s, w, c, globals);
    } else {
      s' := PairThenRest(g, shared, reuse, id, i, f, s, w, c, globals);
    }
  }

  lemma NodeRefs(g: Heap, id: nat, i: nat)
    requires GraphOk(g) && id < |g| && i < Size(g[id])
    ensures NodeOk(g, g[id])
    ensures g[id].List? ==> RefOk(g, g[id].items[i])
    ensures g[id].Map? ==> RefOk(g, g[id].pairs[i].0) && RefOk(g, g[id].pairs[i].1)
    ensures g[id].List? || g[id].Map?
  {
    assert g[id] in g;
    if g[id].List? {
      assert g[id].items[i] in g[id].items;
    } else {
      assert g[id].pairs[i] in g[id].pairs;
    }
  }

  lemma NodeKnown(g: Heap, id: nat, i: nat, globals: Globals)
    requires Knows(g, globals) && id < |g| && i < Size(g[id])
    ensures g[id].List? ==> KnowsRef(g[id].items[i], globals)
    ensures g[id].Map? ==> KnowsRef(g[id].pairs[i].0, globals) && KnowsRef(g[id].pairs[i].1, globals)
  {
    hide KnowsRef;
    assert g[id] in g && KnowsNode(g[id], globals);
    if g[id].List? {
      assert g[id].items[i] in g[id].items;
    } else if g[id].Map? {
      assert g[id].pairs[i] in g[id].pairs;
    }
  }

  lemma {:induction false} ItemThenRest(g: Heap, shared: set<nat>, reuse: bool, id: nat, i: nat, f: Found, s: Trace, w: Numbers, c: Core, globals: Globals)
    returns (s': Trace)
    requires Knows(g, globals)
    requires Fit(g, shared, f, s, w, c) && id < |g| && id in s.open && id in s.phi && g[id].List? && s.open[id] == i < Size(g[id])
    requires FindIn(g, g[id], i, f).dups <= shared && KeysReadyIn(g, g[id], i, f, s.open.Keys)
    ensures var out := WriteItems(g, shared, reuse, g[id].items, i, f.seen, w);
            Completes(g, shared, id, FindIn(g, g[id], i, f), s, s', w, out.numbers, DecodeAll(out.tree, s.phi[id], c, globals))
    decreases Ids(g) - f.seen, Size(g[id]) - i + 1, 0
  {
    hide Inv, GraphOk, Find, Write, Decode, KeysReady, NodeOk, Knows, KnowsRef;
    var r := g[id].items[i];
    NodeRefs(g, id, i);
    NodeKnown(g, id, i, globals);
    InvFacts(g, shared, s, w, c);
    PassesAgree(g, shared, reuse, r, f, w);
    var f1 := Find(g, r, f);
    var s1 := ItemBack(g, shared, reuse, r, f, s, w, c, globals);
    var first := Write(g, shared, reuse, r, f.seen, w);
    var (o, c1) := Decode(first.tree, c, globals);
    PutItem(g, shared, s1, first.numbers, c1, id, o.ref);
    var s2, c2 := Advanced(s1, id), c1.(heap := ListPut(c1.heap, s1.phi[id], o.ref));
    assert s2.open.Keys == s.open.Keys;
    s' := NodeBack(g, shared, reuse, id, i + 1, f1, s2, first.numbers, c2, globals);
    Chained(g, shared, id, s, s1, s2, s', w, first.numbers);
  }

  lemma Chained(g: Heap, shared: set<nat>, id: nat, s: Trace, s1: Trace, s2: Trace, s': Trace, u: Numbers, v: Numbers)
    requires id in s1.open && s1.open == s.open && s2 == Advanced(s1, id) && id < |g|
    requires Later(s, s1) && Later(s2, s') && s'.open == s2.open[id := Size(g[id])]
    ensures Later(s, s') && s'.open == s.open[id := Size(g[id])]
  {
  }

  /** A key is never a placeholder. */
  lemma {:induction false} KeyBack(g: Heap, shared: set<nat>, reuse: bool, k: Ref, f: Found, s: Trace, w: Numbers, c: Core, globals: Globals)
    returns (s': Trace)
    requires Knows(g, globals) && KnowsRef(k, globals)
    requires RefOk(g, k) && Fit(g, shared, f, s, w, c) && !(k.Obj? && k.id in s.open)
    requires Find(g, k, f).dups <= shared && KeysReady(g, k, f, s.open.Keys)
    ensures var out := WriteKey(g, shared, reuse, k, f.seen, w);
            var read := Decode(out.tree, c, globals);
            ReadsBack(g, shared, k, Find(g, k, f), s, s', w, out.numbers, read) && !read.0.ref.Hole?
    decreases Ids(g) - f.seen, 1
  {
    hide Inv, GraphOk;
    s' := s;
    if reuse && k.Leaf? && k.atom.Str? {
      StringKeyBack(g, shared, k.atom.s, f, s, w, c, globals);
    } else {
      s' := ItemBack(g, shared, reuse, k, f, s, w, c, globals);
      var out := Write(g, shared, reuse, k, f.seen, w);
      InvFacts(g, shared, s', out.numbers, Decode(out.tree, c, globals).1);
    }
  }

  lemma StringKeyBack(g: Heap, shared: set<nat>, t: string, f: Found, s: Trace, w: Numbers, c: Core, globals: Globals)
    requires Fit(g, shared, f, s, w, c)
    ensures var out := WriteKey(g, shared, true, Leaf(Str(t)), f.seen, w);
            var read := Decode(out.tree, c, globals);
            ReadsBack(g, shared, Leaf(Str(t)), f, s, s, w, out.numbers, read) && !read.0.ref.Hole?
  {
    hide Inv, GraphOk, Decode, UsePrevious, MarkReused;
    ScalarDecode(Str(t), c, globals);
    if |t| >= SHORT_KEY {
      if t in w.keys {
        OldKey(g, shared, s, w, c, t, globals);
        PreviousDecode(w.keys[t], c, globals);
      } else {
        NewKeyDecode(t, c, globals);
        NewKey(g, shared, s, w, c, t);
      }
    }
  }

  lemma ScalarDecode(a: Atom, c: Core, globals: Globals)
    ensures Decode(Plain(a), c, globals) == (Ok(Leaf(a)), c)
  {
  }

  lemma NewKeyDecode(t: string, c: Core, globals: Globals)
    ensures Decode(Tagged(SHAREABLE, Plain(Str(t))), c, globals)
         == (Ok(Leaf(Str(t))), MarkReused(|c.reused|, c.(reused := c.reused + [Empty]), Leaf(Str(t))))
  {
    hide MarkReused;
    ScalarDecode(Str(t), c.(reused := c.reused + [Empty]), globals);
  }

  lemma PreviousDecode(i: nat, c: Core, globals: Globals)
    ensures Decode(Shared(i), c, globals) == UsePrevious(c, Leaf(Int(i)), globals)
  {
    hide UsePrevious;
    assert Decode(Plain(Int(i)), c, globals) == (Ok(Leaf(Int(i))), c);
  }

  lemma {:induction false} PairThenRest(g: Heap, shared: set<nat>, reuse: bool, id: nat, i: nat, f: Found, s: Trace, w: Numbers, c: Core, globals: Globals)
    returns (s': Trace)
    requires Knows(g, globals)
    requires Fit(g, shared, f, s, w, c) && id < |g| && id in s.open && id in s.phi && g[id].Map? && s.open[id] == i < Size(g[id])
    requires FindIn(g, g[id], i, f).dups <= shared && KeysReadyIn(g, g[id], i, f, s.open.Keys)
    ensures var out := WritePairs(g, shared, reuse, g[id].pairs, i, f.seen, w);
            Completes(g, shared, id, FindIn(g, g[id], i, f), s, s', w, out.numbers, DecodePairs(out.tree, s.phi[id], c, globals))
    decreases Ids(g) - f.seen, Size(g[id]) - i + 1, 0
  {
    hide Inv, GraphOk, Find, Write, WriteKey, Decode, KeysReady, NodeOk, Rel, Knows, KnowsRef;
    var k, v := g[id].pairs[i].0, g[id].pairs[i].1;
    NodeRefs(g, id, i);
    NodeKnown(g, id, i, globals);
    InvFacts(g, shared, s, w, c);
    var f1 := Find(g, k, f);
    var f2 := Find(g, v, f1);
    KeysAgree(g, shared, reuse, k, f, w);
    var s1 := KeyBack(g, shared, reuse, k, f, s, w, c, globals);
    var key := WriteKey(g, shared, reuse, k, f.seen, w);
    var (ko, c1) := Decode(key.tree, c, globals);
    PassesAgree(g, shared, reuse, v, f1, key.numbers);
    var s2 := ItemBack(g, shared, reuse, v, f1, s1, key.numbers, c1, globals);
    var value := Write(g, shared, reuse, v, f1.seen, key.numbers);
    var (vo, c2) := Decode(value.tree, c1, globals);
    RelLater(s1.im, s2.im, k, ko.ref);
    PutPair(g, shared, s2, value.numbers, c2, id, ko.ref, vo.ref);
    var s3, c3 := Advanced(s2, id), c2.(heap := MapPut(c2.heap, s2.phi[id], ko.ref, vo.ref));
    assert s3.open.Keys == s.open.Keys;
    s' := NodeBack(g, shared, reuse, id, i + 1, f2, s3, value.numbers, c3, globals);
    LaterTrans(s, s1, s2, w, key.numbers, value.numbers);
    Chained(g, shared, id, s, s2, s3, s', w, value.numbers);
  }

  lemma RelLater(im: map<nat, Ref>, im': map<nat, Ref>, r: Ref, r': Ref)
    requires Rel(im, r, r') && Extends(im, im')
    ensures Rel(im', r, r')
  {
  }
}
