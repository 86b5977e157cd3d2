/** The recursive meaning of an item, and the reader as a machine with a stack of open collections and a
    stack of pending tags (src/ml_cbor.c). */
module CborDecoder {
  import opened Options
  import opened CborItem

  datatype Error = InvalidPrevious | UnknownGlobal

  datatype Outcome = Ok(ref: Ref) | Err(error: Error)

  /** An entry of the table of shared values; NULL until the value is complete or asked for. */
  datatype Slot = Empty | Full(ref: Ref)

  /** The objects built so far, the table of shared values, the number of placeholders made. */
  datatype Core = Core(heap: Heap, reused: seq<Slot>, holes: nat)

  type Globals = string -> Option<Ref>

  // ---------------------------------------------------------------- tags

  /** A tag that waits for its item, with the data its data function returned. */
  datatype Pending = Shareable(index: nat) | SharedRef | Namespace(saved: seq<Slot>)

  /** The data function of a tag runs when the tag is read. Other tags are not known and are dropped. */
  function OnTag(tag: nat, c: Core): Option<(Pending, Core)> {
    if tag == SHAREABLE then Some((Shareable(|c.reused|), c.(reused := c.reused + [Empty])))
    else if tag == SHAREDREF then Some((SharedRef, c))
    else if tag == NAMESPACE then Some((Namespace(c.reused), c.(reused := [])))
    else None
  }

  /** ml_cbor_mark_reused. */
  function MarkReused(index: nat, c: Core, r: Ref): Core {
    if index >= |c.reused| then c
    else
      var waiting := c.reused[index];
      c.(heap := if waiting.Full? && waiting.ref.Hole? then FillHeap(c.heap, waiting.ref.hole, r) else c.heap,
         reused := c.reused[index := Full(r)])
  }

  /** ml_cbor_use_previous. */
  function UsePrevious(c: Core, r: Ref, globals: Globals): (Outcome, Core) {
    if r.Leaf? && r.atom.Int? then
      var i := r.atom.i;
      if i < 0 || i >= |c.reused| then (Err(InvalidPrevious), c)
      else if c.reused[i].Full? then (Ok(c.reused[i].ref), c)
      else
        var hole := Hole(c.holes);
        (Ok(hole), c.(reused := c.reused[i := Full(hole)], holes := c.holes + 1))
    else if r.Leaf? && r.atom.Str? then
      var g := globals(r.atom.s);
      if g.None? then (Err(UnknownGlobal), c) else (Ok(g.value), c)
    else (Err(InvalidPrevious), c)
  }

  /** The handler of a tag runs when its item is complete. */
  function OnItem(p: Pending, c: Core, r: Ref, globals: Globals): (Outcome, Core) {
    match p
    case Shareable(index) => (Ok(r), MarkReused(index, c, r))
    case SharedRef => UsePrevious(c, r, globals)
    case Namespace(saved) => (Ok(r), c.(reused := saved))
  }

  // ---------------------------------------------------------------- the meaning of an item

  function Decode(t: Tree, c: Core, globals: Globals): (Outcome, Core) {
    match t
    case Plain(a) => (Ok(Leaf(a)), c)
    case Array(ts) => DecodeAll(ts, |c.heap|, c.(heap := c.heap + [List([])]), globals)
    case Table(ps) => DecodePairs(ps, |c.heap|, c.(heap := c.heap + [Map([])]), globals)
    case Tagged(tag, item) =>
      match OnTag(tag, c)
      case None => Decode(item, c, globals)
      case Some((p, c1)) =>
        var (o, c2) := Decode(item, c1, globals);
        if o.Err? then (o, c2) else OnItem(p, c2, o.ref, globals)
  }

  function DecodeAll(ts: Trees, id: nat, c: Core, globals: Globals): (Outcome, Core) {
    match ts
    case NoTrees => (Ok(Obj(id)), c)
    case Trees(t, tail) =>
      var (o, c1) := Decode(t, c, globals);
      if o.Err? then (o, c1) else DecodeAll(tail, id, c1.(heap := ListPut(c1.heap, id, o.ref)), globals)
  }

  function DecodePairs(ps: Pairs, id: nat, c: Core, globals: Globals): (Outcome, Core) {
    match ps
    case NoPairs => (Ok(Obj(id)), c)
    case Pairs(key, item, more) =>
      var (k, c1) := Decode(key, c, globals);
      if k.Err? then (k, c1)
      else
        var (v, c2) := Decode(item, c1, globals);
        if v.Err? then (v, c2)
        else DecodePairs(more, id, c2.(heap := MapPut(c2.heap, id, k.ref, v.ref)), globals)
  }

  // ---------------------------------------------------------------- the machine

  datatype Tags = NoTags | Tag(pending: Pending, prev: Tags)

  datatype Key = IsList | NoKey | Key(ref: Ref)

  /** An open collection, with the tags that wait for it. */
  datatype Collection = Collection(tags: Tags, key: Key, id: nat, remaining: nat)

  datatype Stack = Bottom | Push(top: Collection, below: Stack)

  datatype Machine = Machine(core: Core, tags: Tags, stack: Stack, value: Option<Outcome>)

  /** The handlers of the pending tags, innermost first. */
  function ApplyTags(tags: Tags, c: Core, r: Ref, globals: Globals): (Outcome, Core) {
    match tags
    case NoTags => (Ok(r), c)
    case Tag(p, prev) =>
      var (o, c1) := OnItem(p, c, r, globals);
      if o.Err? then (o, c1) else ApplyTags(prev, c1, o.ref, globals)
  }

  /** value_handler. */
  function HandleValue(m: Machine, o: Outcome, globals: Globals): Machine
    decreases m.stack, 1
  {
    if o.Err? then m.(value := Some(o))
    else
      var (o', c) := ApplyTags(m.tags, m.core, o.ref, globals);
      if o'.Err? then m.(core := c, value := Some(o'))
      else Deliver(m.(core := c, tags := NoTags), o'.ref, globals)
  }

  /** A value goes to the innermost open collection; the last one closes it. */
  function Deliver(m: Machine, r: Ref, globals: Globals): Machine
    decreases m.stack, 0
  {
    match m.stack
    case Bottom => m.(value := Some(Ok(r)))
    case Push(top, below) =>
      match top.key
      case IsList => Closed(m.(core := m.core.(heap := ListPut(m.core.heap, top.id, r))), top.remaining, IsList, globals)
      case Key(k) => Closed(m.(core := m.core.(heap := MapPut(m.core.heap, top.id, k, r))), top.remaining, NoKey, globals)
      case NoKey => m.(stack := Push(top.(key := Key(r)), below))
  }

  /** `if (Remaining && --Remaining == 0) collection_pop(Reader)`. */
  function Closed(m: Machine, remaining: nat, key: Key, globals: Globals): Machine
    requires m.stack.Push?
    decreases m.stack.below, 2
  {
    var top, below := m.stack.top, m.stack.below;
    if remaining == 1 then HandleValue(m.(stack := below, tags := top.tags), Ok(Obj(top.id)), globals)
    else m.(stack := Push(top.(key := key, remaining := if remaining == 0 then 0 else remaining - 1), below))
  }

  /** The switch of ml_cbor_reader_read. */
  function Feed(m: Machine, h: Head, globals: Globals): Machine {
    if m.value.Some? then m
    else
      match h
      case Scalar(a) => HandleValue(m, Ok(Leaf(a)), globals)
      case ArrayHead(n) => Opened(m, List([]), IsList, n, globals)
      case MapHead(n) => Opened(m, Map([]), NoKey, n, globals)
      case TagHead(tag) =>
        match OnTag(tag, m.core)
        case None => m
        case Some((p, c)) => m.(core := c, tags := Tag(p, m.tags))
  }

  /** collection_push; an empty collection is a value at once. */
  function Opened(m: Machine, empty: Node, key: Key, n: nat, globals: Globals): Machine {
    var id := |m.core.heap|;
    var c := m.core.(heap := m.core.heap + [empty]);
    if n == 0 then HandleValue(m.(core := c), Ok(Obj(id)), globals)
    else m.(core := c, tags := NoTags, stack := Push(Collection(m.tags, key, id, n), m.stack))
  }

  function FeedAll(m: Machine, heads: seq<Head>, globals: Globals): Machine
    decreases |heads|
  {
    if heads == [] then m else FeedAll(Feed(m, heads[0], globals), heads[1..], globals)
  }

  // ---------------------------------------------------------------- the machine computes the meaning

  lemma FeedFirst(m: Machine, h: Head, rest: seq<Head>, globals: Globals)
    ensures FeedAll(m, [h] + rest, globals) == FeedAll(Feed(m, h, globals), rest, globals)
  {
    hide Feed;
    assert ([h] + rest)[1..] == rest;
  }

  lemma {:induction false} NoMore(m: Machine, heads: seq<Head>, globals: Globals)
    requires m.value.Some?
    ensures FeedAll(m, heads, globals) == m
    decreases |heads|
  {
    if heads != [] {
      NoMore(m, heads[1..], globals);
    }
  }

  lemma NoMoreIfDone(m: Machine, heads: seq<Head>, globals: Globals)
    ensures m.value.Some? ==> FeedAll(m, heads, globals) == m
  {
    if m.value.Some? {
      NoMore(m, heads, globals);
    }
  }

  lemma TopValue(m: Machine, r: Ref, globals: Globals)
    requires m.tags.NoTags? && m.stack.Bottom?
    ensures HandleValue(m, Ok(r), globals) == m.(value := Some(Ok(r)))
  {
    assert ApplyTags(m.tags, m.core, r, globals) == (Ok(r), m.core);
    assert Deliver(m, r, globals) == m.(value := Some(Ok(r)));
    assert m.(core := m.core, tags := NoTags) == m;
  }

  /** Feeding an item has the effect of handling its meaning: tag handlers innermost first on the complete
      item, tag data functions as the tags are read. An error stops the machine. */
  ghost predicate Computes(m: Machine, heads: seq<Head>, r: (Outcome, Core), after: Machine, rest: seq<Head>, globals: Globals) {
    var end := FeedAll(m, heads, globals);
    if r.0.Ok? then
      var handled := HandleValue(after.(core := r.1), r.0, globals);
      end == FeedAll(handled, rest, globals)
      || (handled.value.Some? && handled.value.value.Err? && end.value == handled.value)
    else end.value == Some(r.0)
  }

  lemma {:induction false} ItemComputed(t: Tree, m: Machine, rest: seq<Head>, globals: Globals)
    requires m.value.None?
    ensures Computes(m, Heads(t, rest), Decode(t, m.core, globals), m, rest, globals)
    decreases t
  {
    hide HandleValue, FeedAll;
    match t
    case Plain(a) =>
      FeedFirst(m, Scalar(a), rest, globals);
      assert m.(core := m.core) == m;
    case Array(ts) =>
      FeedFirst(m, ArrayHead(Count(ts)), HeadsOfAll(ts, rest), globals);
      var next := Feed(m, ArrayHead(Count(ts)), globals);
      if ts.Trees? {
        AllComputed(ts, next, rest, globals);
      }
    case Table(ps) =>
      FeedFirst(m, MapHead(CountPairs(ps)), HeadsOfPairs(ps, rest), globals);
      var next := Feed(m, MapHead(CountPairs(ps)), globals);
      if ps.Pairs? {
        PairsComputed(ps, next, rest, globals);
      }
    case Tagged(tag, item) =>
      FeedFirst(m, TagHead(tag), Heads(item, rest), globals);
      var next := Feed(m, TagHead(tag), globals);
      ItemComputed(item, next, rest, globals);
      TagComputed(tag, item, m, rest, globals);
  }

  lemma TagComputed(tag: nat, item: Tree, m: Machine, rest: seq<Head>, globals: Globals)
    requires m.value.None?
    requires Computes(Feed(m, TagHead(tag), globals), Heads(item, rest),
                      Decode(item, Feed(m, TagHead(tag), globals).core, globals), Feed(m, TagHead(tag), globals), rest, globals)
    ensures Computes(Feed(m, TagHead(tag), globals), Heads(item, rest), Decode(Tagged(tag, item), m.core, globals), m, rest, globals)
  {
    hide FeedAll, Deliver, OnItem, Heads;
    var next := Feed(m, TagHead(tag), globals);
    if OnTag(tag, m.core).Some? {
      var (p, c1) := OnTag(tag, m.core).value;
      var (o, c2) := Decode(item, c1, globals);
      if o.Ok? {
        var (o3, c3) := OnItem(p, c2, o.ref, globals);
        assert ApplyTags(Tag(p, m.tags), c2, o.ref, globals)
            == if o3.Err? then (o3, c3) else ApplyTags(m.tags, c3, o3.ref, globals);
        NoMoreIfDone(HandleValue(next.(core := c2), o, globals), rest, globals);
      }
    }
  }

  lemma {:induction false} AllComputed(ts: Trees, m: Machine, rest: seq<Head>, globals: Globals)
    requires ts.Trees? && m.value.None? && m.tags.NoTags?
    requires m.stack.Push? && m.stack.top.key.IsList? && m.stack.top.remaining == Count(ts)
    ensures Computes(m, HeadsOfAll(ts, rest), DecodeAll(ts, m.stack.top.id, m.core, globals),
                     m.(tags := m.stack.top.tags, stack := m.stack.below), rest, globals)
    decreases ts
  {
    hide FeedAll, Heads;
    var top := m.stack.top;
    var more := HeadsOfAll(ts.tail, rest);
    ItemComputed(ts.head, m, more, globals);
    var (o, c1) := Decode(ts.head, m.core, globals);
    if o.Ok? {
      var put := m.(core := c1.(heap := ListPut(c1.heap, top.id, o.ref)));
      assert HandleValue(m.(core := c1), o, globals) == Closed(put, top.remaining, IsList, globals);
      if ts.tail.Trees? {
        AllComputed(ts.tail, Closed(put, top.remaining, IsList, globals), rest, globals);
      }
    }
  }

  lemma {:induction false} PairsComputed(ps: Pairs, m: Machine, rest: seq<Head>, globals: Globals)
    requires ps.Pairs? && m.value.None? && m.tags.NoTags?
    requires m.stack.Push? && m.stack.top.key.NoKey? && m.stack.top.remaining == CountPairs(ps)
    ensures Computes(m, HeadsOfPairs(ps, rest), DecodePairs(ps, m.stack.top.id, m.core, globals),
                     m.(tags := m.stack.top.tags, stack := m.stack.below), rest, globals)
    decreases ps
  {
    hide FeedAll, Heads;
    var top := m.stack.top;
    var more := HeadsOfPairs(ps.more, rest);
    ItemComputed(ps.key, m, Heads(ps.item, more), globals);
    var (k, c1) := Decode(ps.key, m.core, globals);
    if k.Ok? {
      var keyed := m.(core := c1, stack := Push(top.(key := Key(k.ref)), m.stack.below));
      assert HandleValue(m.(core := c1), k, globals) == keyed;
      ItemComputed(ps.item, keyed, more, globals);
      var (v, c2) := Decode(ps.item, c1, globals);
      if v.Ok? {
        var put := keyed.(core := c2.(heap := MapPut(c2.heap, top.id, k.ref, v.ref)));
        assert HandleValue(keyed.(core := c2), v, globals) == Closed(put, top.remaining, NoKey, globals);
        if ps.more.Pairs? {
          PairsComputed(ps.more, Closed(put, top.remaining, NoKey, globals), rest, globals);
        }
      }
    }
  }

  /** The iterative reader computes the recursive meaning of every item. */
  lemma ReaderIsDecoder(t: Tree, c: Core, globals: Globals)
    ensures var m := FeedAll(Machine(c, NoTags, Bottom, None), Heads(t, []), globals);
            var (o, c') := Decode(t, c, globals);
            m.value == Some(o) && (o.Ok? ==> m == Machine(c', NoTags, Bottom, Some(o)))
  {
    hide FeedAll, Heads, Decode;
    var m := Machine(c, NoTags, Bottom, None);
    ItemComputed(t, m, [], globals);
    var (o, c') := Decode(t, c, globals);
    if o.Ok? {
      var after := HandleValue(m.(core := c'), o, globals);
      TopValue(m.(core := c'), o.ref, globals);
      NoMore(after, [], globals);
    }
  }

  /** An item under the namespace tag is read as if nothing had been shared before it, and the outer table
      of shared values is back when it is complete. */
  lemma NamespaceRestores(t: Tree, c: Core, globals: Globals)
    ensures var m := FeedAll(Machine(c, NoTags, Bottom, None), Heads(Tagged(296, t), []), globals);
            m.value == Some(Decode(t, c.(reused := []), globals).0) && (m.value.value.Ok? ==> m.core.reused == c.reused)
  {
    hide FeedAll, Heads;
    ReaderIsDecoder(Tagged(NAMESPACE, t), c, globals);
  }

  /** At any place in a stream a tag other than 28, 29 and 296 is as good as not there. */
  lemma OtherTagSkipped(m: Machine, tag: nat, rest: seq<Head>, globals: Globals)
    requires m.value.None? && tag != 28 && tag != 29 && tag != 296
    ensures FeedAll(m, [TagHead(tag)] + rest, globals) == FeedAll(m, rest, globals)
  {
    hide FeedAll, HandleValue;
    FeedFirst(m, TagHead(tag), rest, globals);
  }

  // ---------------------------------------------------------------- references

  /** The heads have the effect of the value `r`, after which `rest` follows; if an outer handler fails on it,
      reading ends with that error. */
  ghost predicate ReadsAs(m: Machine, heads: seq<Head>, r: Ref, rest: seq<Head>, globals: Globals) {
    var done, end := HandleValue(m, Ok(r), globals), FeedAll(m, heads + rest, globals);
    end == FeedAll(done, rest, globals) || (done.value.Some? && done.value.value.Err? && end.value == done.value)
  }

  /** Reading ends here, with an error and with the objects and the table as they were. */
  ghost predicate EndsWith(m: Machine, heads: seq<Head>, error: Error, rest: seq<Head>, globals: Globals) {
    var end := FeedAll(m, heads + rest, globals);
    end.value == Some(Err(error)) && end.core == m.core && end.stack == m.stack
  }

  /** At any place in a stream: a reference by a known name is the value with that name, one by an unknown name
      is an error. */
  lemma NameRead(m: Machine, name: string, rest: seq<Head>, globals: Globals)
    requires m.value.None?
    ensures var heads := [TagHead(29), Scalar(Str(name))];
            match globals(name)
            case Some(v) => ReadsAs(m, heads, v, rest, globals)
            case None => EndsWith(m, heads, UnknownGlobal, rest, globals)
  {
    hide HandleValue, FeedAll;
    ReferenceRead(m, Str(name), rest, globals);
    assert m.(core := m.core) == m;
  }

  /** A reference by index gives the value that is there; one by the index of no entry, or by anything but an
      index or a name, is an error. */
  lemma IndexRead(m: Machine, a: Atom, rest: seq<Head>, globals: Globals)
    requires m.value.None? && !a.Str?
    ensures var heads, table := [TagHead(29), Scalar(a)], m.core.reused;
            if a.Int? && 0 <= a.i < |table| then
              (table[a.i].Full? ==> ReadsAs(m, heads, table[a.i].ref, rest, globals))
            else EndsWith(m, heads, InvalidPrevious, rest, globals)
  {
    hide HandleValue, FeedAll;
    ReferenceRead(m, a, rest, globals);
    assert m.(core := m.core) == m;
  }

  lemma ReferenceRead(m: Machine, a: Atom, rest: seq<Head>, globals: Globals)
    requires m.value.None?
    ensures var (o, c) := UsePrevious(m.core, Leaf(a), globals);
            var end := FeedAll(m, [TagHead(29), Scalar(a)] + rest, globals);
            if o.Err? then end.value == Some(o) && end.core == c && end.stack == m.stack
            else
              var done := HandleValue(m.(core := c), o, globals);
              end == FeedAll(done, rest, globals) || (done.value.Some? && done.value.value.Err? && end.value == done.value)
  {
    hide Deliver, UsePrevious, FeedAll;
    assert [TagHead(29), Scalar(a)] + rest == [TagHead(29)] + ([Scalar(a)] + rest);
    FeedFirst(m, TagHead(29), [Scalar(a)] + rest, globals);
    var tagged := m.(tags := Tag(SharedRef, m.tags));
    assert Feed(m, TagHead(29), globals) == tagged;
    FeedFirst(tagged, Scalar(a), rest, globals);
    var (o, c) := UsePrevious(m.core, Leaf(a), globals);
    assert ApplyTags(tagged.tags, m.core, Leaf(a), globals) == if o.Err? then (o, c) else ApplyTags(m.tags, c, o.ref, globals);
    NoMoreIfDone(Feed(tagged, Scalar(a), globals), rest, globals);
  }
}
