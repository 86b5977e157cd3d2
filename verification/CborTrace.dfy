/** The state of a graph that is being read back: which objects have been begun, where they are in the
    new heap, and what a reference to each of them reads as at the moment (src/ml_cbor.c). */
module CborTrace {
  import opened CborItem
  import opened CborDecoder
  import opened CborGraph

  /** `open` counts the elements that an incomplete object already has; `im` is what a reference to an
      object reads as: the new object once it is complete, before that a placeholder if it was asked for. */
  datatype Trace = Trace(seen: set<nat>, open: map<nat, nat>, phi: map<nat, nat>, im: map<nat, Ref>)

  ghost predicate Places(g: Heap, s: Trace, heap: Heap) {
    && (forall a | a in s.seen :: a < |g|) && s.phi.Keys <= s.seen
    && (forall a | a in s.seen :: a in s.phi <==> !g[a].Named?)
    && s.open.Keys <= s.phi.Keys && s.im.Keys <= s.seen
    && (forall a | a in s.phi :: s.phi[a] < |heap|)
    && (forall a, b | a in s.phi && b in s.phi && s.phi[a] == s.phi[b] :: a == b)
    && |heap| == |s.phi|
  }

  ghost predicate Images(s: Trace, holes: nat) {
    && (forall a | a in s.phi && a !in s.open :: a in s.im && s.im[a] == Obj(s.phi[a]))
    && (forall a | a in s.open && a in s.im :: s.im[a].Hole? && s.im[a].hole < holes)
    && (forall a | a in s.im && a !in s.phi :: s.im[a].Known?)
    && (forall a, b | a in s.im && b in s.im && s.im[a] == s.im[b] :: a == b)
  }

  ghost predicate TableOk(shared: set<nat>, s: Trace, w: Numbers, reused: seq<Slot>) {
    && w.next == |reused| && w.index.Keys == s.seen * shared
    && (forall a | a in w.index :: w.index[a] < |reused| && reused[w.index[a]] == if a in s.im then Full(s.im[a]) else Empty)
    && (forall a, b | a in w.index && b in w.index && w.index[a] == w.index[b] :: a == b)
    && (forall t | t in w.keys :: w.keys[t] < |reused| && reused[w.keys[t]] == Full(Leaf(Str(t))))
    && (forall a | a in s.open && a in s.im :: a in shared)
    && (forall a | a in s.im :: !s.im[a].Leaf?)
  }

  ghost predicate Rel(im: map<nat, Ref>, r: Ref, r': Ref) {
    match r
    case Leaf(_) => r' == r
    case Obj(a) => a in im && im[a] == r'
    case Hole(_) => false
    case Known(_) => r' == r
  }

  /** References to an object with a name read as the value with that name. */
  ghost predicate NamesRel(g: Heap, s: Trace) {
    && (forall a | a in s.seen && a < |g| && g[a].Named? :: a in s.im && s.im[a] == Known(g[a].name))
    && Outside(g, s.im)
  }

  ghost predicate Outside(g: Heap, im: map<nat, Ref>) {
    forall a | a in im && im[a].Known? :: a < |g| && g[a] == Named(im[a].name)
  }

  ghost predicate PairRel(im: map<nat, Ref>, p: (Ref, Ref), p': (Ref, Ref)) {
    Rel(im, p.0, p'.0) && !p'.0.Hole? && Rel(im, p.1, p'.1)
  }

  /** The new node holds the images of the first `k` elements. */
  ghost predicate NodeRel(im: map<nat, Ref>, n: Node, n': Node, k: nat) {
    match n
    case List(items) =>
      n'.List? && |n'.items| == k && k <= |items| && forall j | 0 <= j < k :: Rel(im, items[j], n'.items[j])
    case Map(pairs) =>
      n'.Map? && |n'.pairs| == k && k <= |pairs| && forall j | 0 <= j < k :: PairRel(im, pairs[j], n'.pairs[j])
    case Named(_) => false
  }

  function Done(g: Heap, s: Trace, a: nat): nat
    requires a < |g|
  {
    if a in s.open then s.open[a] else Size(g[a])
  }

  ghost predicate NodesRel(g: Heap, s: Trace, heap: Heap) {
    forall a | a in s.phi && a < |g| && s.phi[a] < |heap| :: NodeRel(s.im, g[a], heap[s.phi[a]], Done(g, s, a))
  }

  ghost predicate Inv(g: Heap, shared: set<nat>, s: Trace, w: Numbers, c: Core) {
    && Places(g, s, c.heap) && Images(s, c.holes) && TableOk(shared, s, w, c.reused) && NodesRel(g, s, c.heap)
    && NamesRel(g, s)
  }

  lemma StartInv(g: Heap, shared: set<nat>)
    ensures Inv(g, shared, Trace({}, map[], map[], map[]), Numbers(map[], map[], 0), Core([], [], 0))
  {
  }

  // ---------------------------------------------------------------- beginning an object

  function EmptyLike(n: Node): Node {
    if n.List? then List([]) else Map([])
  }

  function Entered(s: Trace, id: nat, place: nat): Trace {
    Trace(s.seen + {id}, s.open[id := 0], s.phi[id := place], s.im)
  }

  function EnteredCore(shared: set<nat>, id: nat, n: Node, c: Core): Core {
    Core(c.heap + [EmptyLike(n)], if id in shared then c.reused + [Empty] else c.reused, c.holes)
  }

  lemma Enter(g: Heap, shared: set<nat>, s: Trace, w: Numbers, c: Core, id: nat)
    requires Inv(g, shared, s, w, c) && id < |g| && id !in s.seen && !g[id].Named?
    ensures Inv(g, shared, Entered(s, id, |c.heap|), Numbered(shared, id, w), EnteredCore(shared, id, g[id], c))
  {
    hide Images, TableOk, NodesRel, Numbered;
    NotYet(g, s, c.heap, id);
    EnterNames(g, s, id, |c.heap|);
    hide Places, NamesRel;
    EnterPlaces(g, s, c.heap, id);
    EnterTable(shared, s, w, c.reused, id, |c.heap|);
    EnterNodes(g, s, c.heap, id);
    EnterImages(s, c.holes, id, |c.heap|);
  }

  lemma NotYet(g: Heap, s: Trace, heap: Heap, id: nat)
    requires Places(g, s, heap) && id !in s.seen
    ensures id !in s.im && id !in s.phi && id !in s.open && s.im.Keys <= s.seen
  {
  }

  lemma EnterNames(g: Heap, s: Trace, id: nat, place: nat)
    requires NamesRel(g, s) && id < |g| && !g[id].Named?
    ensures NamesRel(g, Entered(s, id, place))
  {
  }

  lemma EnterPlaces(g: Heap, s: Trace, heap: Heap, id: nat)
    requires Places(g, s, heap) && id < |g| && id !in s.seen && !g[id].Named?
    ensures Places(g, Entered(s, id, |heap|), heap + [EmptyLike(g[id])])
  {
  }

  lemma EnterImages(s: Trace, holes: nat, id: nat, place: nat)
    requires Images(s, holes) && id !in s.im
    ensures Images(Entered(s, id, place), holes)
  {
  }

  lemma EnterTable(shared: set<nat>, s: Trace, w: Numbers, reused: seq<Slot>, id: nat, place: nat)
    requires TableOk(shared, s, w, reused) && id !in s.seen && s.im.Keys <= s.seen
    ensures TableOk(shared, Entered(s, id, place), Numbered(shared, id, w), if id in shared then reused + [Empty] else reused)
  {
  }

  lemma EnterNodes(g: Heap, s: Trace, heap: Heap, id: nat)
    requires Places(g, s, heap) && NodesRel(g, s, heap) && id < |g| && id !in s.seen && !g[id].Named?
    ensures NodesRel(g, Entered(s, id, |heap|), heap + [EmptyLike(g[id])])
  {
    hide Rel, PairRel;
  }

  // ---------------------------------------------------------------- meeting an object with a name

  function Met(s: Trace, id: nat, name: string): Trace {
    s.(seen := s.seen + {id}, im := s.im[id := Known(name)])
  }

  function MetCore(shared: set<nat>, id: nat, name: string, c: Core): Core {
    if id in shared then c.(reused := c.reused + [Full(Known(name))]) else c
  }

  /** An object with a name is complete at once: every reference to it reads as the value with that name. */
  lemma Meet(g: Heap, shared: set<nat>, s: Trace, w: Numbers, c: Core, id: nat)
    requires Inv(g, shared, s, w, c) && GraphOk(g) && id < |g| && id !in s.seen && g[id].Named?
    ensures Inv(g, shared, Met(s, id, g[id].name), Numbered(shared, id, w), MetCore(shared, id, g[id].name, c))
    ensures s.phi == Met(s, id, g[id].name).phi && Extends(s.im, Met(s, id, g[id].name).im)
  {
    hide GraphOk, Images, TableOk, NodesRel, Numbered;
    NotYet(g, s, c.heap, id);
    MeetPlaces(g, s, c.heap, id);
    hide Places;
    MeetNames(g, s, id);
    hide NamesRel;
    MeetImages(s, c.holes, id, g[id].name);
    MeetTable(shared, s, w, c, id, g[id].name);
    AgainNodes(g, s, Met(s, id, g[id].name), c.heap);
  }

  lemma MeetPlaces(g: Heap, s: Trace, heap: Heap, id: nat)
    requires Places(g, s, heap) && id < |g| && id !in s.seen && g[id].Named?
    ensures Places(g, Met(s, id, g[id].name), heap)
  {
  }

  lemma MeetNames(g: Heap, s: Trace, id: nat)
    requires NamesRel(g, s) && GraphOk(g) && id < |g| && id !in s.im && g[id].Named?
    ensures NamesRel(g, Met(s, id, g[id].name))
    ensures forall a | a in s.im :: s.im[a] != Known(g[id].name)
  {
    hide GraphOk;
    forall a | a in s.im ensures s.im[a] != Known(g[id].name) {
      if a < |g| {
        NameUnique(g, a, id);
      }
    }
  }

  lemma NameUnique(g: Heap, a: nat, b: nat)
    requires GraphOk(g) && a < |g| && b < |g| && a != b && g[b].Named?
    ensures g[a] != g[b]
  {
    hide NodeOk;
    assert a < b ==> g[a].Named? ==> g[a] != g[b];
    assert b < a ==> g[b] != g[a];
  }

  lemma MeetImages(s: Trace, holes: nat, id: nat, name: string)
    requires Images(s, holes) && id !in s.im && id !in s.phi && id !in s.open && forall a | a in s.im :: s.im[a] != Known(name)
    ensures Images(Met(s, id, name), holes)
  {
  }

  lemma MeetTable(shared: set<nat>, s: Trace, w: Numbers, c: Core, id: nat, name: string)
    requires TableOk(shared, s, w, c.reused) && id !in s.seen && id !in s.im && id !in s.open
    ensures TableOk(shared, Met(s, id, name), Numbered(shared, id, w), MetCore(shared, id, name, c).reused)
  {
    assert id !in w.index;
    if id in shared {
      MeetTableShared(shared, s, w, c.reused, id, name);
    }
  }

  lemma MeetTableShared(shared: set<nat>, s: Trace, w: Numbers, reused: seq<Slot>, id: nat, name: string)
    requires TableOk(shared, s, w, reused) && id in shared && id !in s.seen && id !in s.im && id !in s.open && id !in w.index
    ensures TableOk(shared, Met(s, id, name), Numbered(shared, id, w), reused + [Full(Known(name))])
  {
  }

  // ---------------------------------------------------------------- adding an element

  ghost predicate Extends(im: map<nat, Ref>, im': map<nat, Ref>) {
    forall a | a in im :: a in im' && im'[a] == im[a]
  }

  lemma NodeRelExtends(im: map<nat, Ref>, im': map<nat, Ref>, n: Node, n': Node, k: nat)
    requires NodeRel(im, n, n', k) && Extends(im, im')
    ensures NodeRel(im', n, n', k)
  {
  }

  function Advanced(s: Trace, id: nat): Trace
    requires id in s.open
  {
    s.(open := s.open[id := s.open[id] + 1])
  }

  lemma AdvanceRest(g: Heap, shared: set<nat>, s: Trace, w: Numbers, c: Core, id: nat, heap: Heap)
    requires Inv(g, shared, s, w, c) && id in s.open && |heap| == |c.heap|
    ensures Places(g, Advanced(s, id), heap) && Images(Advanced(s, id), c.holes) && TableOk(shared, Advanced(s, id), w, c.reused)
    ensures NamesRel(g, Advanced(s, id))
  {
    hide NodesRel;
    assert Advanced(s, id).open.Keys == s.open.Keys;
    AdvancePlaces(g, s, c.heap, id, heap);
    hide Places;
    AdvanceImages(s, c.holes, id);
    hide Images, NamesRel;
    AdvanceTable(shared, s, w, c.reused, id);
    hide TableOk;
    AdvanceNames(g, s, id);
  }

  lemma AdvancePlaces(g: Heap, s: Trace, heap: Heap, id: nat, heap': Heap)
    requires Places(g, s, heap) && id in s.open && |heap'| == |heap| && Advanced(s, id).open.Keys == s.open.Keys
    ensures Places(g, Advanced(s, id), heap')
  {
  }

  lemma AdvanceImages(s: Trace, holes: nat, id: nat)
    requires Images(s, holes) && id in s.open
    ensures Images(Advanced(s, id), holes)
  {
  }

  lemma AdvanceTable(shared: set<nat>, s: Trace, w: Numbers, reused: seq<Slot>, id: nat)
    requires TableOk(shared, s, w, reused) && id in s.open
    ensures TableOk(shared, Advanced(s, id), w, reused)
  {
  }

  lemma AdvanceNames(g: Heap, s: Trace, id: nat)
    requires NamesRel(g, s) && id in s.open
    ensures NamesRel(g, Advanced(s, id))
  {
  }

  lemma PutItem(g: Heap, shared: set<nat>, s: Trace, w: Numbers, c: Core, id: nat, r: Ref)
    requires Inv(g, shared, s, w, c) && id in s.open && id < |g| && g[id].List? && s.open[id] < |g[id].items|
    requires Rel(s.im, g[id].items[s.open[id]], r)
    ensures id in s.phi && s.phi[id] < |c.heap| && Inv(g, shared, Advanced(s, id), w, c.(heap := ListPut(c.heap, s.phi[id], r)))
  {
    hide NodesRel, Images, TableOk, NamesRel, Rel;
    assert id in s.phi && s.phi[id] < |c.heap|;
    var heap := ListPut(c.heap, s.phi[id], r);
    AdvanceRest(g, shared, s, w, c, id, heap);
    hide Places;
    PutItemNodes(g, s, c.heap, id, r);
  }

  lemma PutItemNodes(g: Heap, s: Trace, heap: Heap, id: nat, r: Ref)
    requires Places(g, s, heap) && NodesRel(g, s, heap)
    requires id in s.open && id in s.phi && id < |g| && g[id].List? && s.open[id] < |g[id].items|
    requires Rel(s.im, g[id].items[s.open[id]], r)
    ensures NodesRel(g, Advanced(s, id), ListPut(heap, s.phi[id], r))
  {
    hide Rel, PairRel;
    assert NodeRel(s.im, g[id], heap[s.phi[id]], s.open[id]);
  }

  lemma {:induction false} PairsPutNew(pairs: seq<(Ref, Ref)>, k: Ref, v: Ref)
    requires forall i | 0 <= i < |pairs| :: pairs[i].0 != k
    ensures PairsPut(pairs, k, v) == pairs + [(k, v)]
  {
    if pairs != [] {
      PairsPutNew(pairs[1..], k, v);
    }
  }

  lemma RelInjective(im: map<nat, Ref>, r: Ref, r': Ref, q: Ref, q': Ref)
    requires Rel(im, r, r') && Rel(im, q, q') && r != q
    requires forall a, b | a in im && b in im && im[a] == im[b] :: a == b
    requires forall a | a in im :: !im[a].Leaf?
    requires forall a | a in im && im[a].Known? :: im[a] != r && im[a] != q
    ensures r' != q'
  {
  }

  lemma PutPair(g: Heap, shared: set<nat>, s: Trace, w: Numbers, c: Core, id: nat, k: Ref, v: Ref)
    requires Inv(g, shared, s, w, c) && id in s.open && id < |g| && g[id].Map? && s.open[id] < |g[id].pairs|
    requires NodeOk(g, g[id]) && PairRel(s.im, g[id].pairs[s.open[id]], (k, v))
    ensures id in s.phi && s.phi[id] < |c.heap| && Inv(g, shared, Advanced(s, id), w, c.(heap := MapPut(c.heap, s.phi[id], k, v)))
  {
    hide NodesRel, NodeOk, PairRel;
    assert id in s.phi && s.phi[id] < |c.heap|;
    var heap := MapPut(c.heap, s.phi[id], k, v);
    AdvanceRest(g, shared, s, w, c, id, heap);
    PutPairNodes(g, s, c.heap, id, k, v);
  }

  lemma PutPairNodes(g: Heap, s: Trace, heap: Heap, id: nat, k: Ref, v: Ref)
    requires Places(g, s, heap) && NodesRel(g, s, heap)
    requires forall a, b | a in s.im && b in s.im && s.im[a] == s.im[b] :: a == b
    requires (forall a | a in s.im :: !s.im[a].Leaf?) && Outside(g, s.im)
    requires id in s.open && id in s.phi && id < |g| && g[id].Map? && s.open[id] < |g[id].pairs|
    requires NodeOk(g, g[id]) && PairRel(s.im, g[id].pairs[s.open[id]], (k, v))
    ensures NodesRel(g, Advanced(s, id), MapPut(heap, s.phi[id], k, v))
  {
    hide Rel, PairRel, PairsPut;
    var n' := heap[s.phi[id]];
    assert NodeRel(s.im, g[id], n', s.open[id]);
    KeysAreOk(g, g[id]);
    KeyIsNew(g, s.im, g[id].pairs, n'.pairs, k, v);
  }

  lemma KeysAreOk(g: Heap, n: Node)
    requires n.Map? && NodeOk(g, n)
    ensures forall j | 0 <= j < |n.pairs| :: RefOk(g, n.pairs[j].0)
  {
    forall j | 0 <= j < |n.pairs| ensures RefOk(g, n.pairs[j].0) {
      assert n.pairs[j] in n.pairs;
    }
  }

  /** A name that the graph refers to is not the name of an object in it. */
  lemma NotOutside(g: Heap, im: map<nat, Ref>, r: Ref)
    requires Outside(g, im) && RefOk(g, r)
    ensures forall a | a in im && im[a].Known? :: im[a] != r
  {
    forall a | a in im && im[a].Known? ensures im[a] != r {
      assert g[a] in g;
    }
  }

  /** A key that has not been written yet reads as a key that is not there yet. */
  lemma KeyIsNew(g: Heap, im: map<nat, Ref>, pairs: seq<(Ref, Ref)>, pairs': seq<(Ref, Ref)>, k: Ref, v: Ref)
    requires forall a, b | a in im && b in im && im[a] == im[b] :: a == b
    requires (forall a | a in im :: !im[a].Leaf?) && Outside(g, im)
    requires |pairs'| < |pairs| && (forall j | 0 <= j < |pairs| :: RefOk(g, pairs[j].0)) && (forall i, j | 0 <= i < j < |pairs| :: pairs[i].0 != pairs[j].0)
    requires forall j | 0 <= j < |pairs'| :: PairRel(im, pairs[j], pairs'[j])
    requires PairRel(im, pairs[|pairs'|], (k, v))
    ensures PairsPut(pairs', k, v) == pairs' + [(k, v)]
  {
    hide Rel, RefOk, Outside;
    forall i | 0 <= i < |pairs'| ensures pairs'[i].0 != k {
      assert PairRel(im, pairs[i], pairs'[i]);
      NotOutside(g, im, pairs[i].0);
      NotOutside(g, im, pairs[|pairs'|].0);
      RelInjective(im, pairs[i].0, pairs'[i].0, pairs[|pairs'|].0, k);
    }
    PairsPutNew(pairs', k, v);
  }

  // ---------------------------------------------------------------- completing an object

  function Left(s: Trace, id: nat): Trace
    requires id in s.phi
  {
    s.(open := s.open - {id}, im := s.im[id := Obj(s.phi[id])])
  }

  function LeftCore(shared: set<nat>, w: Numbers, s: Trace, id: nat, c: Core): Core
    requires id in s.phi && (id in shared ==> id in w.index)
  {
    if id in shared then MarkReused(w.index[id], c, Obj(s.phi[id])) else c
  }

  lemma Leave(g: Heap, shared: set<nat>, s: Trace, w: Numbers, c: Core, id: nat)
    requires Inv(g, shared, s, w, c) && id in s.open && id < |g| && s.open[id] == Size(g[id])
    ensures id in s.phi && (id in shared ==> id in w.index)
    ensures Inv(g, shared, Left(s, id), w, LeftCore(shared, w, s, id, c))
  {
    hide NodesRel, Images;
    assert id in s.phi && id in s.seen && (id in shared <==> id in w.index);
    LeaveNames(g, s, id);
    hide Places, TableOk, NamesRel;
    LeaveImages(s, c.holes, id);
    LeaveTable(shared, s, w, c, id);
    LeaveNodes(g, shared, s, w, c, id);
    LeavePlaces(g, s, c.heap, LeftCore(shared, w, s, id, c).heap, id);
  }

  lemma LeavePlaces(g: Heap, s: Trace, heap: Heap, heap': Heap, id: nat)
    requires Places(g, s, heap) && id in s.phi && |heap'| == |heap|
    ensures Places(g, Left(s, id), heap')
  {
  }

  lemma LeaveNames(g: Heap, s: Trace, id: nat)
    requires NamesRel(g, s) && id in s.phi && (id in s.seen && id < |g| ==> !g[id].Named?) && id in s.seen && id < |g|
    ensures NamesRel(g, Left(s, id))
  {
  }

  lemma LeaveImages(s: Trace, holes: nat, id: nat)
    requires Images(s, holes) && id in s.open && id in s.phi
    requires forall a, b | a in s.phi && b in s.phi && s.phi[a] == s.phi[b] :: a == b
    ensures Images(Left(s, id), holes)
  {
    var s' := Left(s, id);
    forall a | a in s.im && a != id ensures s.im[a] != Obj(s.phi[id]) {
      ImageKinds(s, holes, a);
    }
    forall a, b | a in s'.im && b in s'.im && s'.im[a] == s'.im[b] ensures a == b {
    }
  }

  lemma ImageKinds(s: Trace, holes: nat, a: nat)
    requires Images(s, holes) && a in s.im
    ensures s.im[a].Known? || s.im[a].Hole? || (a in s.phi && s.im[a] == Obj(s.phi[a]))
    ensures s.im[a].Hole? ==> s.im[a].hole < holes
  {
  }

  lemma LeaveTable(shared: set<nat>, s: Trace, w: Numbers, c: Core, id: nat)
    requires TableOk(shared, s, w, c.reused) && id in s.open && id in s.phi
    requires id in shared ==> id in w.index
    requires id !in shared ==> id !in w.index
    ensures TableOk(shared, Left(s, id), w, LeftCore(shared, w, s, id, c).reused)
  {
    hide FillHeap;
    if id in shared {
      KeyElsewhere(shared, s, w, c.reused, id);
    }
  }

  lemma KeyElsewhere(shared: set<nat>, s: Trace, w: Numbers, reused: seq<Slot>, id: nat)
    requires TableOk(shared, s, w, reused) && id in w.index
    ensures forall t | t in w.keys :: w.keys[t] != w.index[id]
  {
    forall t | t in w.keys ensures w.keys[t] != w.index[id] {
      assert reused[w.keys[t]] == Full(Leaf(Str(t)));
    }
  }

  /** Filling a placeholder turns references that read as it into references that read as the object. */
  lemma FillNodeRel(im: map<nat, Ref>, n: Node, n': Node, k: nat, id: nat, hole: nat, v: Ref)
    requires NodeRel(im, n, n', k) && id in im && im[id] == Hole(hole)
    requires forall a, b | a in im && b in im && im[a] == im[b] :: a == b
    ensures NodeRel(im[id := v], n, FillNode(n', hole, v), k)
  {
    var im' := im[id := v];
    match n
    case List(items) =>
      forall j | 0 <= j < k ensures Rel(im', items[j], FillNode(n', hole, v).items[j]) {
        FillRel(im, items[j], n'.items[j], id, hole, v);
      }
    case Map(pairs) =>
      forall j | 0 <= j < k ensures PairRel(im', pairs[j], FillNode(n', hole, v).pairs[j]) {
        assert PairRel(im, pairs[j], n'.pairs[j]);
        FillRel(im, pairs[j].1, n'.pairs[j].1, id, hole, v);
        KeyFill(im, pairs[j].0, n'.pairs[j].0, id, hole, v);
      }
  }

  lemma FillRel(im: map<nat, Ref>, r: Ref, r': Ref, id: nat, hole: nat, v: Ref)
    requires Rel(im, r, r') && id in im && im[id] == Hole(hole)
    requires forall a, b | a in im && b in im && im[a] == im[b] :: a == b
    ensures Rel(im[id := v], r, Fill(r', hole, v))
  {
  }

  lemma KeyFill(im: map<nat, Ref>, k: Ref, k': Ref, id: nat, hole: nat, v: Ref)
    requires Rel(im, k, k') && !k'.Hole? && id in im && im[id] == Hole(hole)
    ensures Rel(im[id := v], k, k')
  {
  }

  lemma LeaveNodes(g: Heap, shared: set<nat>, s: Trace, w: Numbers, c: Core, id: nat)
    requires Places(g, s, c.heap) && Images(s, c.holes) && TableOk(shared, s, w, c.reused) && NodesRel(g, s, c.heap)
    requires id in s.open && id in s.phi && id < |g| && s.open[id] == Size(g[id])
    requires id in shared ==> id in w.index
    ensures |LeftCore(shared, w, s, id, c).heap| == |c.heap|
    ensures NodesRel(g, Left(s, id), LeftCore(shared, w, s, id, c).heap)
  {
    hide NodeRel;
    var s', c' := Left(s, id), LeftCore(shared, w, s, id, c);
    var v := Obj(s.phi[id]);
    forall a | a in s.phi && a < |g| && s.phi[a] < |c'.heap| ensures NodeRel(s'.im, g[a], c'.heap[s.phi[a]], Done(g, s', a)) {
      assert s.phi[a] < |c.heap| && Done(g, s', a) == Done(g, s, a);
      assert NodeRel(s.im, g[a], c.heap[s.phi[a]], Done(g, s, a));
      if id in s.im {
        FillNodeRel(s.im, g[a], c.heap[s.phi[a]], Done(g, s, a), id, s.im[id].hole, v);
      } else {
        NodeRelExtends(s.im, s'.im, g[a], c.heap[s.phi[a]], Done(g, s, a));
      }
    }
  }

  // ---------------------------------------------------------------- meeting an object again

  function Asked(s: Trace, id: nat, c: Core): Trace {
    if id in s.im then s else s.(im := s.im[id := Hole(c.holes)])
  }

  /** A reference to a shared object met before reads as the object if it is complete, otherwise as its
      placeholder. */
  lemma Again(g: Heap, shared: set<nat>, s: Trace, w: Numbers, c: Core, id: nat, globals: Globals)
    requires Inv(g, shared, s, w, c) && id in w.index
    ensures var (o, c') := UsePrevious(c, Leaf(Int(w.index[id])), globals);
            o.Ok? && Inv(g, shared, Asked(s, id, c), w, c') && Rel(Asked(s, id, c).im, Obj(id), o.ref)
  {
    hide NodesRel, Places, Images, TableOk, NamesRel;
    AskTable(g, shared, s, w, c, id, globals);
    if id !in s.im {
      AgainNames(g, s, c, id);
      AgainNodes(g, s, Asked(s, id, c), c.heap);
      AgainTable(shared, s, w, c, id);
      AgainImages(g, s, c, id);
    }
  }

  lemma AskTable(g: Heap, shared: set<nat>, s: Trace, w: Numbers, c: Core, id: nat, globals: Globals)
    requires TableOk(shared, s, w, c.reused) && Places(g, s, c.heap) && Images(s, c.holes) && NamesRel(g, s) && id in w.index
    ensures w.index[id] < |c.reused| && (id !in s.im ==> id in s.open)
    ensures UsePrevious(c, Leaf(Int(w.index[id])), globals)
         == if id in s.im then (Ok(s.im[id]), c)
            else (Ok(Hole(c.holes)), c.(reused := c.reused[w.index[id] := Full(Hole(c.holes))], holes := c.holes + 1))
  {
    assert id !in s.im ==> id in s.open by {
      hide TableOk;
      assert id in s.seen;
      if id !in s.im {
        NotComplete(g, s, c, id);
      }
    }
    hide Places, Images, NamesRel;
  }

  lemma NotComplete(g: Heap, s: Trace, c: Core, id: nat)
    requires Places(g, s, c.heap) && Images(s, c.holes) && NamesRel(g, s) && id in s.seen && id !in s.im
    ensures id in s.open
  {
  }

  lemma AgainNames(g: Heap, s: Trace, c: Core, id: nat)
    requires NamesRel(g, s) && id !in s.im
    ensures NamesRel(g, Asked(s, id, c))
  {
  }

  lemma AgainImages(g: Heap, s: Trace, c: Core, id: nat)
    requires Places(g, s, c.heap) && Images(s, c.holes) && id in s.open && id !in s.im
    ensures Places(g, Asked(s, id, c), c.heap) && Images(Asked(s, id, c), c.holes + 1)
  {
    AgainPlaces(g, s, c.heap, id, c.holes);
    assert id in s.phi by {
      hide Images;
    }
    hide Places;
    HoleIsNew(s, c.holes);
    ImagesWithHole(s, c.holes, id);
  }

  lemma ImagesWithHole(s: Trace, holes: nat, id: nat)
    requires Images(s, holes) && id in s.open && id in s.phi && id !in s.im && forall a | a in s.im :: s.im[a] != Hole(holes)
    ensures Images(s.(im := s.im[id := Hole(holes)]), holes + 1)
  {
  }

  lemma AgainPlaces(g: Heap, s: Trace, heap: Heap, id: nat, hole: nat)
    requires Places(g, s, heap) && id in s.open
    ensures Places(g, s.(im := s.im[id := Hole(hole)]), heap)
  {
  }

  lemma HoleIsNew(s: Trace, holes: nat)
    requires Images(s, holes)
    ensures forall a | a in s.im :: s.im[a] != Hole(holes)
  {
    forall a | a in s.im ensures s.im[a] != Hole(holes) {
      ImageKinds(s, holes, a);
    }
  }

  lemma AgainNodes(g: Heap, s: Trace, s': Trace, heap: Heap)
    requires NodesRel(g, s, heap) && Extends(s.im, s'.im) && s'.phi == s.phi && s'.open == s.open
    ensures NodesRel(g, s', heap)
  {
    hide NodeRel;
    forall a | a in s'.phi && a < |g| && s'.phi[a] < |heap| ensures NodeRel(s'.im, g[a], heap[s'.phi[a]], Done(g, s', a)) {
      NodeRelExtends(s.im, s'.im, g[a], heap[s.phi[a]], Done(g, s, a));
    }
  }

  lemma AgainTable(shared: set<nat>, s: Trace, w: Numbers, c: Core, id: nat)
    requires TableOk(shared, s, w, c.reused) && id in w.index && id !in s.im && id in s.open
    ensures TableOk(shared, Asked(s, id, c), w, c.reused[w.index[id] := Full(Hole(c.holes))])
  {
    forall t | t in w.keys ensures w.keys[t] != w.index[id] {
      assert c.reused[w.keys[t]] == Full(Leaf(Str(t)));
    }
  }

  // ---------------------------------------------------------------- reused keys

  lemma NewKey(g: Heap, shared: set<nat>, s: Trace, w: Numbers, c: Core, t: string)
    requires Inv(g, shared, s, w, c) && t !in w.keys
    ensures Inv(g, shared, s, w.(keys := w.keys[t := w.next], next := w.next + 1),
                MarkReused(|c.reused|, c.(reused := c.reused + [Empty]), Leaf(Str(t))))
  {
    hide NodesRel, Places, Images;
    assert (c.reused + [Empty])[|c.reused| := Full(Leaf(Str(t)))] == c.reused + [Full(Leaf(Str(t)))];
  }

  lemma OldKey(g: Heap, shared: set<nat>, s: Trace, w: Numbers, c: Core, t: string, globals: Globals)
    requires Inv(g, shared, s, w, c) && t in w.keys
    ensures UsePrevious(c, Leaf(Int(w.keys[t])), globals) == (Ok(Leaf(Str(t))), c)
  {
  }
}
