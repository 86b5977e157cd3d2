/** Data items of CBOR as trees and as the heads in which they are streamed (sections 3.1 and 3.4 of
    RFC 8949), and the objects a reader builds (src/ml_cbor.c). */
module CborItem {

  datatype Atom = Null | Bool(b: bool) | Int(i: int) | Str(s: string) | Real(r: real)

  const SHAREABLE: nat := 28
  const SHAREDREF: nat := 29
  const NAMESPACE: nat := 296

  datatype Tree =
    | Plain(atom: Atom)
    | Array(items: Trees)
    | Table(pairs: Pairs)
    | Tagged(tag: nat, item: Tree)

  datatype Trees = NoTrees | Trees(head: Tree, tail: Trees)

  datatype Pairs = NoPairs | Pairs(key: Tree, item: Tree, more: Pairs)

  function Count(ts: Trees): nat {
    match ts
    case NoTrees => 0
    case Trees(_, tail) => 1 + Count(tail)
  }

  function CountPairs(ps: Pairs): nat {
    match ps
    case NoPairs => 0
    case Pairs(_, _, more) => 1 + CountPairs(more)
  }

  /** What the stream reports: an atom, the start of an array or map of a definite length, a tag. */
  datatype Head = Scalar(atom: Atom) | ArrayHead(n: nat) | MapHead(n: nat) | TagHead(tag: nat)

  /** The heads of an item in front of `rest`. */
  function Heads(t: Tree, rest: seq<Head>): seq<Head> {
    match t
    case Plain(a) => [Scalar(a)] + rest
    case Array(ts) => [ArrayHead(Count(ts))] + HeadsOfAll(ts, rest)
    case Table(ps) => [MapHead(CountPairs(ps))] + HeadsOfPairs(ps, rest)
    case Tagged(tag, item) => [TagHead(tag)] + Heads(item, rest)
  }

  function HeadsOfAll(ts: Trees, rest: seq<Head>): seq<Head> {
    match ts
    case NoTrees => rest
    case Trees(t, tail) => Heads(t, HeadsOfAll(tail, rest))
  }

  function HeadsOfPairs(ps: Pairs, rest: seq<Head>): seq<Head> {
    match ps
    case NoPairs => rest
    case Pairs(k, v, more) => Heads(k, Heads(v, HeadsOfPairs(more, rest)))
  }

  // ---------------------------------------------------------------- objects

  /** A value: an atom, a list or map, a placeholder for one that is not complete yet, or a value that is
      known outside the message by a name. */
  datatype Ref = Leaf(atom: Atom) | Obj(id: nat) | Hole(hole: nat) | Known(name: string)

  /** A list or map; one that the writer refers to by a name stands for itself. */
  datatype Node = List(items: seq<Ref>) | Map(pairs: seq<(Ref, Ref)>) | Named(name: string)

  type Heap = seq<Node>

  function ListPut(heap: Heap, id: nat, r: Ref): Heap {
    if id < |heap| && heap[id].List? then heap[id := List(heap[id].items + [r])] else heap
  }

  /** `ml_map_insert`: an equal key gets the new value, a new key goes to the end. */
  function PairsPut(pairs: seq<(Ref, Ref)>, k: Ref, v: Ref): seq<(Ref, Ref)> {
    if pairs == [] then [(k, v)]
    else if pairs[0].0 == k then [(k, v)] + pairs[1..]
    else [pairs[0]] + PairsPut(pairs[1..], k, v)
  }

  /** What a key leads to; Null stands for nothing. */
  function Lookup(pairs: seq<(Ref, Ref)>, k: Ref): Ref {
    if pairs == [] then Leaf(Null) else if pairs[0].0 == k then pairs[0].1 else Lookup(pairs[1..], k)
  }

  function Keys(pairs: seq<(Ref, Ref)>): seq<Ref> {
    if pairs == [] then [] else [pairs[0].0] + Keys(pairs[1..])
  }

  /** Putting a pair changes what its key leads to and nothing else. */
  lemma {:induction false} PutLooksUp(pairs: seq<(Ref, Ref)>, k: Ref, v: Ref, q: Ref)
    ensures Lookup(PairsPut(pairs, k, v), q) == if q == k then v else Lookup(pairs, q)
  {
    if pairs != [] {
      var rest := if pairs[0].0 == k then pairs[1..] else PairsPut(pairs[1..], k, v);
      PutLooksUp(pairs[1..], k, v, q);
      assert PairsPut(pairs, k, v)[1..] == rest;
    }
  }

  /** Keys stay in the order in which they came. */
  lemma {:induction false} PutKeepsKeys(pairs: seq<(Ref, Ref)>, k: Ref, v: Ref)
    ensures Keys(PairsPut(pairs, k, v)) == if k in Keys(pairs) then Keys(pairs) else Keys(pairs) + [k]
  {
    if pairs != [] {
      var rest := if pairs[0].0 == k then pairs[1..] else PairsPut(pairs[1..], k, v);
      PutKeepsKeys(pairs[1..], k, v);
      assert PairsPut(pairs, k, v)[1..] == rest;
    }
  }

  function MapPut(heap: Heap, id: nat, k: Ref, v: Ref): Heap {
    if id < |heap| && heap[id].Map? then heap[id := Map(PairsPut(heap[id].pairs, k, v))] else heap
  }

  function Fill(r: Ref, hole: nat, v: Ref): Ref {
    if r == Hole(hole) then v else r
  }

  /** `ml_uninitialized_set`: list elements and map values that wait for the placeholder get the value; map
      keys do not register with it. */
  function FillNode(n: Node, hole: nat, v: Ref): Node {
    match n
    case List(items) => List(seq(|items|, i requires 0 <= i < |items| => Fill(items[i], hole, v)))
    case Map(pairs) => Map(seq(|pairs|, i requires 0 <= i < |pairs| => (pairs[i].0, Fill(pairs[i].1, hole, v))))
    case Named(_) => n
  }

  function FillHeap(heap: Heap, hole: nat, v: Ref): Heap {
    seq(|heap|, i requires 0 <= i < |heap| => FillNode(heap[i], hole, v))
  }
}
