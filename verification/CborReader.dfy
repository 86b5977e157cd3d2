/** The reader (src/ml_cbor.c): open collections, pending tags and the table of shared values; and the
    functions that encode and decode a whole value. */
module CborReader {
  import opened Options
  import opened CborItem
  import opened CborDecoder
  import opened CborGraph
  import opened CborExact
  import CborPools
  import CborReach
  import CborRoundTrip
  import CborWriter

  class Reader {
    /** The open collections and the pending tags, and the free lists of their records. */
    const pools: CborPools.Pools
    var value: Option<Outcome>
    var reused: seq<Slot>
    var heap: Heap
    var holes: nat
    const globals: Globals

    constructor (names: Globals)
      ensures Valid() && fresh(pools)
      ensures State() == Machine(FRESH, NoTags, Bottom, None) && globals == names
    {
      pools := new CborPools.Pools();
      value, reused, heap, holes := None, [], [], 0;
      globals := names;
    }

    /** The lists of records are well formed at every step. */
    ghost predicate Valid()
      reads this, pools
    {
      pools.Valid()
    }

    ghost function State(): Machine
      reads this, pools
      requires Valid()
    {
      Machine(Core(heap, reused, holes), pools.Stacks().0, pools.Stacks().1, value)
    }

    /** ml_cbor_mark_reused. */
    method MarkAsReused(index: nat, v: Ref)
      requires Valid()
      modifies this`heap, this`reused
      ensures Valid() && State() == old(State()).(core := MarkReused(index, old(State()).core, v))
    {
      if index < |reused| {
        var waiting := reused[index];
        if waiting.Full? && waiting.ref.Hole? {
          heap := FillHeap(heap, waiting.ref.hole, v);
        }
        reused := reused[index := Full(v)];
      }
    }

    /** ml_cbor_use_previous. */
    method UsePreviousValue(v: Ref) returns (o: Outcome)
      requires Valid()
      modifies this`reused, this`holes
      ensures Valid() && (o, State().core) == UsePrevious(old(State()).core, v, globals)
      ensures State() == old(State()).(core := State().core)
    {
      if v.Leaf? && v.atom.Int? {
        var i := v.atom.i;
        if i < 0 || i >= |reused| {
          return Err(InvalidPrevious);
        }
        if reused[i].Empty? {
          reused := reused[i := Full(Hole(holes))];
          holes := holes + 1;
        }
        o := Ok(reused[i].ref);
      } else if v.Leaf? && v.atom.Str? {
        var g := globals(v.atom.s);
        o := if g.None? then Err(UnknownGlobal) else Ok(g.value);
      } else {
        o := Err(InvalidPrevious);
      }
    }

    /** `Tag->Handler(Reader, Value, Tag->Data)`. */
    method Handle(p: Pending, v: Ref) returns (o: Outcome)
      requires Valid()
      modifies this`heap, this`reused, this`holes
      ensures Valid() && (o, State().core) == OnItem(p, old(State()).core, v, globals)
      ensures State() == old(State()).(core := State().core)
    {
      match p {
        case Shareable(index) =>
          MarkAsReused(index, v);
          o := Ok(v);
        case SharedRef =>
          o := UsePreviousValue(v);
        case Namespace(saved) =>
          reused := saved;
          o := Ok(v);
      }
    }

    /** The loop over the pending tags, innermost first, up to the last of their records. */
    method HandleTags(v: Ref) returns (o: Outcome, last: CborPools.Address)
      requires Valid()
      modifies this`heap, this`reused, this`holes
      ensures Valid() && (o, State().core) == ApplyTags(old(State()).tags, old(State()).core, v, globals)
      ensures State() == old(State()).(core := State().core)
      ensures o.Ok? && pools.tags != 0 ==>
                pools.lists.pending != [] && last == pools.lists.pending[|pools.lists.pending| - 1]
    {
      hide OnItem, CborPools.Linked, CborPools.Abstract;
      CborPools.StacksEnd(pools);
      var tag := pools.tags;
      ghost var all := pools.lists.pending;
      ghost var left := all;
      o, last := Ok(v), 0;
      while tag != 0
        invariant o.Ok? && Valid() && CborPools.TagChain(pools.tagMem, tag, left)
        invariant ApplyTags(CborPools.TagsOf(pools.tagMem, left), State().core, o.ref, globals)
               == ApplyTags(old(State()).tags, old(State()).core, v, globals)
        invariant State() == old(State()).(core := State().core)
        invariant if left == [] then all == [] || last == all[|all| - 1] else all != [] && left[|left| - 1] == all[|all| - 1]
        decreases |left|
      {
        o := Handle(pools.tagMem[tag].pending, o.ref);
        if o.Err? {
          return;
        }
        last := tag;
        tag := pools.tagMem[tag].prev;
        left := left[1..];
      }
      CborPools.ChainEnds(pools.tagMem, left);
    }

    /** value_handler. */
    method ValueHandler(result: Outcome)
      requires Valid()
      modifies this, pools
      ensures Valid() && State() == HandleValue(old(State()), result, globals)
      decreases State().stack, 1
    {
      hide ApplyTags, Deliver, CborPools.Linked, CborPools.Abstract;
      if result.Err? {
        value := Some(result);
        return;
      }
      var o, last := HandleTags(result.ref);
      if o.Err? {
        value := Some(o);
        return;
      }
      CborPools.StacksEnd(pools);
      if pools.tags != 0 {
        pools.RecycleTags(last);
      }
      DeliverValue(o.ref);
    }

    method DeliverValue(v: Ref)
      requires Valid() && State().tags.NoTags?
      modifies this, pools
      ensures Valid() && State() == Deliver(old(State()), v, globals)
      decreases State().stack, 0
    {
      hide HandleValue, CborPools.Linked, CborPools.Abstract;
      CborPools.StacksEnd(pools);
      if pools.collection == 0 {
        value := Some(Ok(v));
        return;
      }
      var key, id, remaining := pools.Top();
      match key {
        case IsList =>
          heap := ListPut(heap, id, v);
          CountDown(IsList, remaining);
        case Key(k) =>
          heap := MapPut(heap, id, k, v);
          CountDown(NoKey, remaining);
        case NoKey =>
          pools.SetTop(Key(v), remaining);
      }
    }

    /** `if (Remaining && --Remaining == 0) collection_pop(Reader)`. */
    method CountDown(key: Key, remaining: nat)
      requires Valid() && State().stack.Push? && State().stack.top.remaining == remaining
      modifies this, pools
      ensures Valid() && State() == Closed(old(State()), remaining, key, globals)
      decreases State().stack.below, 3
    {
      hide HandleValue, CborPools.Linked, CborPools.Abstract;
      CborPools.StacksEnd(pools);
      if remaining == 1 {
        CollectionPop();
      } else {
        pools.SetTop(key, if remaining == 0 then 0 else remaining - 1);
      }
    }

    /** collection_pop. */
    method CollectionPop()
      requires Valid() && State().stack.Push?
      modifies this, pools
      ensures Valid()
      ensures var m := old(State());
              State() == HandleValue(m.(stack := m.stack.below, tags := m.stack.top.tags), Ok(Obj(m.stack.top.id)), globals)
      decreases State().stack.below, 2
    {
      hide HandleValue, CborPools.Linked, CborPools.Abstract;
      CborPools.StacksEnd(pools);
      var id := pools.PopCollection();
      ValueHandler(Ok(Obj(id)));
    }

    /** The cases for arrays and maps, with collection_push. */
    method OpenCollection(empty: Node, key: Key, n: nat)
      requires Valid()
      modifies this, pools
      ensures Valid() && State() == Opened(old(State()), empty, key, n, globals)
    {
      hide HandleValue, CborPools.Linked, CborPools.Abstract;
      var id := |heap|;
      heap := heap + [empty];
      if n == 0 {
        ValueHandler(Ok(Obj(id)));
      } else {
        pools.PushCollection(key, id, n);
      }
    }

    /** One event of the stream. */
    method Event(h: Head)
      requires Valid() && value.None?
      modifies this, pools
      ensures Valid() && State() == Feed(old(State()), h, globals)
    {
      hide HandleValue, Opened, CborPools.Linked, CborPools.Abstract;
      match h {
        case Scalar(a) => ValueHandler(Ok(Leaf(a)));
        case ArrayHead(n) => OpenCollection(List([]), IsList, n);
        case MapHead(n) => OpenCollection(Map([]), NoKey, n);
        case TagHead(tag) =>
          var known := OnTag(tag, Core(heap, reused, holes));
          if known.Some? {
            var (p, c) := known.value;
            heap, reused, holes := c.heap, c.reused, c.holes;
            pools.PushTag(p);
          }
      }
    }

    /** ml_cbor_reader_read: until the input is used up or there is a value. */
    method Read(heads: seq<Head>)
      requires Valid()
      modifies this, pools
      ensures Valid() && State() == FeedAll(old(State()), heads, globals)
    {
      hide Feed, CborPools.Linked, CborPools.Abstract;
      var i := 0;
      while i < |heads| && value.None?
        invariant i <= |heads| && Valid()
        invariant FeedAll(State(), heads[i..], globals) == FeedAll(old(State()), heads, globals)
      {
        assert heads[i..][1..] == heads[i + 1..];
        Event(heads[i]);
        i := i + 1;
      }
      if value.Some? {
        NoMore(State(), heads[i..], globals);
      }
    }
  }

  /** ml_cbor_encode: the search, then the writing pass. */
  method Encode(g: Heap, names: map<nat, string>, reuse: bool, r: Ref) returns (heads: seq<Head>)
    requires Unnamed(g) && GraphOk(AsNamed(g, names)) && RefOk(AsNamed(g, names), r)
    ensures heads == Heads(Encoded(g, names, reuse, r), [])
  {
    hide GraphOk, RefOk, Unnamed, AsNamed, Find, Write, Heads, InStep, CborWriter.Writer.Valid;
    NothingNumbered(Find(g, r, NOTHING).dups);
    var writer := new CborWriter.Writer(reuse, names);
    assert writer.Search() == NOTHING;
    writer.FindRefs(g, r);
    assert writer.Search() == Find(g, r, NOTHING);
    CborWriter.NothingGiven(writer);
    CborReach.NamesFindLess(g, names, r);
    writer.Write(g, r, NOTHING, []);
    heads := writer.output;
    assert heads + [] == heads;
  }

  lemma NothingNumbered(shared: set<nat>)
    ensures InStep(shared, {}, FIRST)
  {
  }

  /** ml_from_cbor: the value and the heap, if the reader gets to a value. */
  method DecodeValue(heads: seq<Head>, globals: Globals) returns (value: Option<Outcome>, heap: Heap)
    ensures var m := FeedAll(Machine(FRESH, NoTags, Bottom, None), heads, globals);
            value == m.value && heap == m.core.heap
  {
    var reader := new Reader(globals);
    reader.Read(heads);
    value, heap := reader.value, reader.heap;
  }

  /** What is encoded and decoded is the same graph, exactly if no map key refers to an object that is still
      being written; objects with names are the values that have these names for the reader. */
  method EncodeAndDecode(g: Heap, names: map<nat, string>, reuse: bool, r: Ref, globals: Globals) returns (value: Option<Outcome>, heap: Heap)
    requires Unnamed(g) && GraphOk(AsNamed(g, names)) && RefOk(AsNamed(g, names), r)
    requires CborRoundTrip.Knows(AsNamed(g, names), globals) && CborRoundTrip.KnowsRef(r, globals)
    ensures (value.Some? && value.value.Ok? && exists phi :: SameGraph(AsNamed(g, names), r, heap, value.value.ref, phi))
        <==> CborRoundTrip.KeysReady(AsNamed(g, names), r, NOTHING, {})
  {
    hide GraphOk, RefOk, Unnamed, AsNamed, FeedAll, Heads, Encoded, SameGraph, CborRoundTrip.KeysReady, CborRoundTrip.Knows,
         CborRoundTrip.KnowsRef;
    var heads := Encode(g, names, reuse, r);
    value, heap := DecodeValue(heads, globals);
    RoundTripExactly(g, names, reuse, r, globals);
  }
}
