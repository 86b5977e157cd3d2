/** Graphs of lists and maps, the search for shared objects, and what is written for a graph
    (src/ml_cbor.c, src/ml_list.c, src/ml_map.c). */
module CborGraph {
  import opened CborItem
  import Finite

  function Ids(g: Heap): set<int> {
    Finite.Below(|g|)
  }

  predicate RefOk(g: Heap, r: Ref) {
    match r
    case Leaf(_) => true
    case Obj(id) => id < |g|
    case Hole(_) => false
    case Known(name) => Named(name) !in g
  }

  predicate NodeOk(g: Heap, n: Node) {
    match n
    case List(items) => forall r | r in items :: RefOk(g, r)
    case Map(pairs) =>
      && (forall p | p in pairs :: RefOk(g, p.0) && RefOk(g, p.1))
      && (forall i, j | 0 <= i < j < |pairs| :: pairs[i].0 != pairs[j].0)
    case Named(_) => true
  }

  /** A finite graph: references lead to objects, the keys of a map are distinct, and so are names. */
  predicate GraphOk(g: Heap) {
    && (forall n | n in g :: NodeOk(g, n))
    && (forall a, b | 0 <= a < b < |g| && g[a].Named? :: g[a] != g[b])
  }

  /** The graph as the writer sees it: of an object with a name there is only the name. */
  function AsNamed(g: Heap, names: map<nat, string>): (g': Heap)
    ensures |g'| == |g| && forall a | 0 <= a < |g| :: g'[a] == if a in names then Named(names[a]) else g[a]
  {
    seq(|g|, a requires 0 <= a < |g| => if a in names then Named(names[a]) else g[a])
  }

  /** Lists and maps only. */
  predicate Unnamed(g: Heap) {
    forall n | n in g :: !n.Named?
  }

  function Size(n: Node): nat {
    match n
    case List(items) => |items|
    case Map(pairs) => |pairs|
    case Named(_) => 0
  }

  // ---------------------------------------------------------------- the search

  /** What has been reached, and what has been reached more than once. */
  datatype Found = Found(seen: set<nat>, dups: set<nat>)

  ghost predicate Grows(g: Heap, f: Found, f': Found) {
    f.seen <= f'.seen && f.dups <= f'.dups && (f.seen <= Ids(g) ==> f'.seen <= Ids(g))
  }

  /** ml_cbor_writer_ref_fn with the `find_all` functions of lists and maps. */
  function Find(g: Heap, r: Ref, f: Found): (f': Found)
    ensures Grows(g, f, f')
    decreases Ids(g) - f.seen, 0
  {
    if r.Obj? && r.id < |g| then
      if r.id in f.seen then f.(dups := f.dups + {r.id})
      else FindIn(g, g[r.id], 0, f.(seen := f.seen + {r.id}))
    else f
  }

  /** The elements of a list, or the keys and values of a map, from the i-th on. */
  function FindIn(g: Heap, n: Node, i: nat, f: Found): (f': Found)
    requires i <= Size(n)
    ensures Grows(g, f, f')
    decreases Ids(g) - f.seen, Size(n) - i + 1
  {
    if i == Size(n) then f
    else
      match n
      case List(items) => FindIn(g, n, i + 1, Find(g, items[i], f))
      case Map(pairs) => FindIn(g, n, i + 1, Find(g, pairs[i].1, Find(g, pairs[i].0, f)))
      case Named(_) => f
  }

  // ---------------------------------------------------------------- what is written

  /** Indices of shared objects and of reused keys; both come from the same counter. */
  datatype Numbers = Numbers(index: map<nat, nat>, keys: map<string, nat>, next: nat)

  datatype Written<T> = Written(tree: T, seen: set<nat>, numbers: Numbers)

  const SHORT_KEY: nat := 4

  function Shared(index: nat): Tree {
    Tagged(SHAREDREF, Plain(Int(index)))
  }

  /** A reference by name. */
  function Called(name: string): Tree {
    Tagged(SHAREDREF, Plain(Str(name)))
  }

  /** ml_cbor_write. The set `seen` is not there in the program: it shows that an object that is not
      shared is never met again. */
  function Write(g: Heap, shared: set<nat>, reuse: bool, r: Ref, seen: set<nat>, w: Numbers): (out: Written<Tree>)
    ensures seen <= out.seen
    decreases Ids(g) - seen, 0
  {
    match r
    case Leaf(a) => Written(Plain(a), seen, w)
    case Hole(_) => Written(Plain(Null), seen, w)
    case Known(name) => Written(Called(name), seen, w)
    case Obj(id) =>
      if id in shared && id in w.index then Written(Shared(w.index[id]), seen, w)
      else if id in seen || id >= |g| then Written(Plain(Null), seen, w)
      else
        var out := WriteNode(g, shared, reuse, g[id], seen + {id}, Numbered(shared, id, w));
        if id in shared then out.(tree := Tagged(SHAREABLE, out.tree)) else out
  }

  /** A shared object gets the next index before its contents are written. */
  function Numbered(shared: set<nat>, id: nat, w: Numbers): Numbers {
    if id in shared then w.(index := w.index[id := w.next], next := w.next + 1) else w
  }

  function WriteNode(g: Heap, shared: set<nat>, reuse: bool, n: Node, seen: set<nat>, w: Numbers): (out: Written<Tree>)
    ensures seen <= out.seen && if n.List? then out.tree.Array? else if n.Map? then out.tree.Table? else out.tree == Called(n.name)
    decreases Ids(g) - seen, Size(n) + 2
  {
    match n
    case List(items) =>
      var out := WriteItems(g, shared, reuse, items, 0, seen, w);
      Written(Array(out.tree), out.seen, out.numbers)
    case Map(pairs) =>
      var out := WritePairs(g, shared, reuse, pairs, 0, seen, w);
      Written(Table(out.tree), out.seen, out.numbers)
    case Named(name) => Written(Called(name), seen, w)
  }

  function WriteItems(g: Heap, shared: set<nat>, reuse: bool, items: seq<Ref>, i: nat, seen: set<nat>, w: Numbers): (out: Written<Trees>)
    requires i <= |items|
    ensures seen <= out.seen && Count(out.tree) == |items| - i
    decreases Ids(g) - seen, |items| - i + 1
  {
    if i == |items| then Written(NoTrees, seen, w)
    else
      var first := Write(g, shared, reuse, items[i], seen, w);
      var rest := WriteItems(g, shared, reuse, items, i + 1, first.seen, first.numbers);
      rest.(tree := Trees(first.tree, rest.tree))
  }

  function WritePairs(g: Heap, shared: set<nat>, reuse: bool, pairs: seq<(Ref, Ref)>, i: nat, seen: set<nat>, w: Numbers): (out: Written<Pairs>)
    requires i <= |pairs|
    ensures seen <= out.seen && CountPairs(out.tree) == |pairs| - i
    decreases Ids(g) - seen, |pairs| - i + 1
  {
    if i == |pairs| then Written(NoPairs, seen, w)
    else
      var key := WriteKey(g, shared, reuse, pairs[i].0, seen, w);
      var value := Write(g, shared, reuse, pairs[i].1, key.seen, key.numbers);
      var rest := WritePairs(g, shared, reuse, pairs, i + 1, value.seen, value.numbers);
      rest.(tree := Pairs(key.tree, value.tree, rest.tree))
  }

  /** Keys that are strings of at least four characters are shared too if the flag asks for it. */
  function WriteKey(g: Heap, shared: set<nat>, reuse: bool, k: Ref, seen: set<nat>, w: Numbers): (out: Written<Tree>)
    ensures seen <= out.seen
    decreases Ids(g) - seen, 1
  {
    if reuse && k.Leaf? && k.atom.Str? then
      var s := k.atom.s;
      if |s| < SHORT_KEY then Written(Plain(Str(s)), seen, w)
      else if s in w.keys then Written(Shared(w.keys[s]), seen, w)
      else Written(Tagged(SHAREABLE, Plain(Str(s))), seen, w.(keys := w.keys[s := w.next], next := w.next + 1))
    else Write(g, shared, reuse, k, seen, w)
  }

  const NOTHING: Found := Found({}, {})
  const FIRST: Numbers := Numbers(map[], map[], 0)

  /** The item that `ml_cbor_encode` writes: the search, which knows nothing of names, and then the writing
      pass, which does not look into an object with a name. */
  function Encoded(g: Heap, names: map<nat, string>, reuse: bool, r: Ref): Tree {
    Write(AsNamed(g, names), Find(g, r, NOTHING).dups, reuse, r, {}, FIRST).tree
  }

  // ---------------------------------------------------------------- the two passes go in step

  /** Indices have been given to exactly the shared objects met so far. */
  predicate InStep(shared: set<nat>, seen: set<nat>, w: Numbers) {
    w.index.Keys == seen * shared
  }

  lemma NumberedInStep(shared: set<nat>, seen: set<nat>, id: nat, w: Numbers)
    requires InStep(shared, seen, w)
    ensures InStep(shared, seen + {id}, Numbered(shared, id, w))
  {
  }

  /** If every object that the search meets again is shared, the writing pass meets the same objects, and
      gives up on none. */
  lemma {:induction false} PassesAgree(g: Heap, shared: set<nat>, reuse: bool, r: Ref, f: Found, w: Numbers)
    requires Find(g, r, f).dups <= shared && InStep(shared, f.seen, w)
    ensures var out := Write(g, shared, reuse, r, f.seen, w);
            out.seen == Find(g, r, f).seen && InStep(shared, out.seen, out.numbers)
    decreases Ids(g) - f.seen, 0
  {
    if r.Obj? && r.id < |g| && r.id !in f.seen {
      var f1 := f.(seen := f.seen + {r.id});
      NumberedInStep(shared, f.seen, r.id, w);
      NodesAgree(g, shared, reuse, g[r.id], 0, f1, Numbered(shared, r.id, w));
    }
  }

  lemma {:induction false} NodesAgree(g: Heap, shared: set<nat>, reuse: bool, n: Node, i: nat, f: Found, w: Numbers)
    requires i <= Size(n) && FindIn(g, n, i, f).dups <= shared && InStep(shared, f.seen, w)
    ensures n.List? ==> var out := WriteItems(g, shared, reuse, n.items, i, f.seen, w);
            out.seen == FindIn(g, n, i, f).seen && InStep(shared, out.seen, out.numbers)
    ensures n.Map? ==> var out := WritePairs(g, shared, reuse, n.pairs, i, f.seen, w);
            out.seen == FindIn(g, n, i, f).seen && InStep(shared, out.seen, out.numbers)
    decreases Ids(g) - f.seen, Size(n) - i + 1
  {
    hide InStep, Find, Write;
    if i < Size(n) {
      match n
      case List(items) =>
        PassesAgree(g, shared, reuse, items[i], f, w);
        var out := Write(g, shared, reuse, items[i], f.seen, w);
        NodesAgree(g, shared, reuse, n, i + 1, Find(g, items[i], f), out.numbers);
      case Map(pairs) =>
        var f1 := Find(g, pairs[i].0, f);
        var f2 := Find(g, pairs[i].1, f1);
        KeysAgree(g, shared, reuse, pairs[i].0, f, w);
        var key := WriteKey(g, shared, reuse, pairs[i].0, f.seen, w);
        PassesAgree(g, shared, reuse, pairs[i].1, f1, key.numbers);
        var value := Write(g, shared, reuse, pairs[i].1, f1.seen, key.numbers);
        NodesAgree(g, shared, reuse, n, i + 1, f2, value.numbers);
    }
  }

  lemma KeysAgree(g: Heap, shared: set<nat>, reuse: bool, k: Ref, f: Found, w: Numbers)
    requires Find(g, k, f).dups <= shared && InStep(shared, f.seen, w)
    ensures var out := WriteKey(g, shared, reuse, k, f.seen, w);
            out.seen == Find(g, k, f).seen && InStep(shared, out.seen, out.numbers)
    decreases Ids(g) - f.seen, 1
  {
    if !(reuse && k.Leaf? && k.atom.Str?) {
      PassesAgree(g, shared, reuse, k, f, w);
    }
  }
}
