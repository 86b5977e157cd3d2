/** The records behind the reader's stacks (src/ml_cbor.c): tags and collections are linked by `Prev` and
    recycled through two free lists. The lists always end and share no record, and they hold the stacks of
    the reader. The records stand in tables from addresses; address 0 is NULL. */
module CborPools {
  import opened CborDecoder

  type Address = nat

  datatype TagRecord = TagRecord(prev: Address, pending: Pending)

  datatype CollectionRecord = CollectionRecord(prev: Address, tags: Address, key: Key, id: nat, remaining: nat)

  type TagMemory = map<Address, TagRecord>

  type CollectionMemory = map<Address, CollectionRecord>

  // ---------------------------------------------------------------- linked lists

  /** Following `Prev` from `head` visits these records and ends at NULL. */
  predicate TagChain(mem: TagMemory, head: Address, list: seq<Address>)
    decreases |list|
  {
    if list == [] then head == 0
    else head == list[0] && head != 0 && head in mem && TagChain(mem, mem[head].prev, list[1..])
  }

  predicate CollectionChain(mem: CollectionMemory, head: Address, list: seq<Address>)
    decreases |list|
  {
    if list == [] then head == 0
    else head == list[0] && head != 0 && head in mem && CollectionChain(mem, mem[head].prev, list[1..])
  }

  /** Each live collection keeps the tags that wait for it. */
  predicate SavedChains(mem: TagMemory, cmem: CollectionMemory, live: seq<Address>, saved: seq<seq<Address>>) {
    |live| == |saved| &&
    (live == [] || (live[0] in cmem && TagChain(mem, cmem[live[0]].tags, saved[0]) && SavedChains(mem, cmem, live[1..], saved[1..])))
  }

  function Concat(lists: seq<seq<Address>>): seq<Address> {
    if lists == [] then [] else lists[0] + Concat(lists[1..])
  }

  /** The tags that a list of records stands for. */
  function TagsOf(mem: TagMemory, list: seq<Address>): Tags {
    if list == [] then NoTags
    else Tag(if list[0] in mem then mem[list[0]].pending else SharedRef, TagsOf(mem, list[1..]))
  }

  function StackOf(mem: TagMemory, cmem: CollectionMemory, live: seq<Address>, saved: seq<seq<Address>>): Stack
    requires |live| == |saved|
  {
    if live == [] || live[0] !in cmem then Bottom
    else
      var c := cmem[live[0]];
      Push(Collection(TagsOf(mem, saved[0]), c.key, c.id, c.remaining), StackOf(mem, cmem, live[1..], saved[1..]))
  }

  /** No record is in two places. */
  ghost predicate Once(all: multiset<Address>) {
    forall a :: all[a] <= 1
  }

  // ---------------------------------------------------------------- a record that is not in a list

  lemma {:induction false} TagElsewhere(mem: TagMemory, head: Address, list: seq<Address>, a: Address, r: TagRecord)
    requires a !in list && TagChain(mem, head, list)
    ensures TagChain(mem[a := r], head, list) && TagsOf(mem[a := r], list) == TagsOf(mem, list)
    decreases |list|
  {
    if list != [] {
      TagElsewhere(mem, mem[head].prev, list[1..], a, r);
    }
  }

  lemma {:induction false} CollectionElsewhere(mem: CollectionMemory, head: Address, list: seq<Address>, a: Address, r: CollectionRecord)
    requires a !in list && CollectionChain(mem, head, list)
    ensures CollectionChain(mem[a := r], head, list)
    decreases |list|
  {
    if list != [] {
      CollectionElsewhere(mem, mem[head].prev, list[1..], a, r);
    }
  }

  lemma {:induction false} SavedElsewhere(mem: TagMemory, cmem: CollectionMemory, live: seq<Address>, saved: seq<seq<Address>>, a: Address, r: TagRecord)
    requires SavedChains(mem, cmem, live, saved) && a !in Concat(saved)
    ensures SavedChains(mem[a := r], cmem, live, saved)
    ensures StackOf(mem[a := r], cmem, live, saved) == StackOf(mem, cmem, live, saved)
  {
    if live != [] {
      TagElsewhere(mem, cmem[live[0]].tags, saved[0], a, r);
      SavedElsewhere(mem, cmem, live[1..], saved[1..], a, r);
    }
  }

  lemma {:induction false} StackElsewhere(mem: TagMemory, cmem: CollectionMemory, live: seq<Address>, saved: seq<seq<Address>>, a: Address, r: CollectionRecord)
    requires SavedChains(mem, cmem, live, saved) && a !in live
    ensures SavedChains(mem, cmem[a := r], live, saved)
    ensures StackOf(mem, cmem[a := r], live, saved) == StackOf(mem, cmem, live, saved)
  {
    if live != [] {
      StackElsewhere(mem, cmem, live[1..], saved[1..], a, r);
    }
  }

  /** The last record of a list is linked to another list. */
  lemma {:induction false} ChainJoined(mem: TagMemory, head: Address, list: seq<Address>, other: Address, more: seq<Address>)
    requires list != [] && TagChain(mem, head, list) && TagChain(mem, other, more) && Once(multiset(list) + multiset(more))
    requires list[|list| - 1] in mem
    ensures var last := list[|list| - 1];
            TagChain(mem[last := mem[last].(prev := other)], head, list + more)
    decreases |list|
  {
    var last := list[|list| - 1];
    var r := mem[last].(prev := other);
    assert list == [list[0]] + list[1..] && (list + more)[1..] == list[1..] + more;
    assert (multiset(list) + multiset(more))[last] <= 1 && last in list;
    if |list| == 1 {
      TagElsewhere(mem, other, more, last, r);
      assert list + more == [last] + more;
    } else {
      OnceTail(list, more);
      assert list[1..][|list| - 2] == last && last in list[1..];
      ChainJoined(mem, mem[head].prev, list[1..], other, more);
    }
  }

  lemma OnceTail(list: seq<Address>, more: seq<Address>)
    requires list != [] && Once(multiset(list) + multiset(more))
    ensures Once(multiset(list[1..]) + multiset(more)) && list[0] !in list[1..]
  {
    assert list == [list[0]] + list[1..];
    assert multiset(list) == multiset{list[0]} + multiset(list[1..]);
    assert (multiset(list) + multiset(more))[list[0]] <= 1;
    forall a ensures (multiset(list[1..]) + multiset(more))[a] <= 1 {
      assert (multiset(list) + multiset(more))[a] <= 1;
    }
  }

  lemma OnceLess(all: multiset<Address>, a: Address)
    requires Once(all + multiset{a})
    ensures Once(all) && all[a] == 0
  {
    assert (all + multiset{a})[a] <= 1;
    forall b ensures all[b] <= 1 {
      assert (all + multiset{a})[b] <= 1;
    }
  }

  lemma OnceMore(all: multiset<Address>, a: Address)
    requires Once(all) && all[a] == 0
    ensures Once(all + multiset{a})
  {
  }

  // ---------------------------------------------------------------- the four lists

  /** The fields of the reader that concern its records. */
  datatype Links = Links(tagMem: TagMemory, collectionMem: CollectionMemory, unused: Address,
                         tags: Address, freeTag: Address, collection: Address, freeCollection: Address)

  /** The records in the order of the lists. */
  datatype Lists = Lists(pending: seq<Address>, freeTags: seq<Address>,
                         live: seq<Address>, saved: seq<seq<Address>>, freeCollections: seq<Address>)

  function AllTags(l: Lists): multiset<Address> {
    multiset(l.pending) + multiset(Concat(l.saved)) + multiset(l.freeTags)
  }

  function AllCollections(l: Lists): multiset<Address> {
    multiset(l.live) + multiset(l.freeCollections)
  }

  predicate TagsOk(k: Links, l: Lists) {
    TagChain(k.tagMem, k.tags, l.pending) && TagChain(k.tagMem, k.freeTag, l.freeTags)
  }

  predicate CollectionsOk(k: Links, l: Lists) {
    CollectionChain(k.collectionMem, k.collection, l.live) && CollectionChain(k.collectionMem, k.freeCollection, l.freeCollections)
  }

  predicate Bounded(k: Links) {
    k.unused > 0 && (forall a | a in k.tagMem :: a < k.unused) && (forall a | a in k.collectionMem :: a < k.unused)
  }

  /** The four lists and the lists saved in the collections end, and no record is in two of them. */
  ghost predicate Linked(k: Links, l: Lists) {
    && TagsOk(k, l) && CollectionsOk(k, l) && SavedChains(k.tagMem, k.collectionMem, l.live, l.saved)
    && Once(AllTags(l)) && Once(AllCollections(l)) && Bounded(k)
  }

  /** The stacks of the reader that the records hold. */
  function Abstract(k: Links, l: Lists): (Tags, Stack)
    requires |l.live| == |l.saved|
  {
    (TagsOf(k.tagMem, l.pending), StackOf(k.tagMem, k.collectionMem, l.live, l.saved))
  }

  lemma NotInLists(l: Lists, a: Address)
    ensures AllTags(l)[a] == 0 <==> a !in l.pending && a !in Concat(l.saved) && a !in l.freeTags
    ensures AllCollections(l)[a] == 0 <==> a !in l.live && a !in l.freeCollections
  {
    assert a in l.pending <==> multiset(l.pending)[a] > 0;
    assert a in Concat(l.saved) <==> multiset(Concat(l.saved))[a] > 0;
    assert a in l.freeTags <==> multiset(l.freeTags)[a] > 0;
    assert a in l.live <==> multiset(l.live)[a] > 0;
    assert a in l.freeCollections <==> multiset(l.freeCollections)[a] > 0;
  }

  lemma UnusedIsNew(k: Links, l: Lists)
    requires Linked(k, l)
    ensures AllTags(l)[k.unused] == 0 && AllCollections(l)[k.unused] == 0
  {
    hide AllTags, AllCollections, Once;
    ChainInMemory(k.tagMem, k.tags, l.pending);
    ChainInMemory(k.tagMem, k.freeTag, l.freeTags);
    SavedInMemory(k.tagMem, k.collectionMem, l.live, l.saved);
    CollectionInMemory(k.collectionMem, k.collection, l.live);
    CollectionInMemory(k.collectionMem, k.freeCollection, l.freeCollections);
    NotInLists(l, k.unused);
  }

  lemma MultisetHead(s: seq<Address>)
    requires s != []
    ensures multiset(s) == multiset{s[0]} + multiset(s[1..])
  {
    assert s == [s[0]] + s[1..];
  }

  // ---------------------------------------------------------------- tags

  lemma TagTaken(k: Links, l: Lists)
    requires Linked(k, l) && k.freeTag != 0
    ensures k.freeTag in k.tagMem && l.freeTags != []
    ensures Linked(k.(freeTag := k.tagMem[k.freeTag].prev), l.(freeTags := l.freeTags[1..]))
    ensures AllTags(l.(freeTags := l.freeTags[1..]))[k.freeTag] == 0 && k.freeTag < k.unused
  {
    hide CollectionChain, SavedChains, Once;
    var l' := l.(freeTags := l.freeTags[1..]);
    MultisetHead(l.freeTags);
    assert AllTags(l) == AllTags(l') + multiset{k.freeTag};
    OnceLess(AllTags(l'), k.freeTag);
  }

  lemma TagPushed(k: Links, l: Lists, a: Address, p: Pending)
    requires Linked(k, l) && AllTags(l)[a] == 0 && a != 0 && a < k.unused
    ensures var k' := k.(tagMem := k.tagMem[a := TagRecord(k.tags, p)], tags := a);
            var l' := l.(pending := [a] + l.pending);
            Linked(k', l') && Abstract(k', l') == (Tag(p, Abstract(k, l).0), Abstract(k, l).1)
  {
    hide CollectionChain, SavedChains, Once, StackOf, Concat;
    var r := TagRecord(k.tags, p);
    var l' := l.(pending := [a] + l.pending);
    NotInLists(l, a);
    TagElsewhere(k.tagMem, k.tags, l.pending, a, r);
    TagElsewhere(k.tagMem, k.freeTag, l.freeTags, a, r);
    SavedElsewhere(k.tagMem, k.collectionMem, l.live, l.saved, a, r);
    assert ([a] + l.pending)[1..] == l.pending;
    assert AllTags(l') == AllTags(l) + multiset{a};
    OnceMore(AllTags(l), a);
  }

  lemma TagsRecycled(k: Links, l: Lists, last: Address)
    requires Linked(k, l) && l.pending != [] && last == l.pending[|l.pending| - 1] && last in k.tagMem
    ensures var k' := k.(tagMem := k.tagMem[last := k.tagMem[last].(prev := k.freeTag)], freeTag := k.tags, tags := 0);
            var l' := l.(pending := [], freeTags := l.pending + l.freeTags);
            Linked(k', l') && Abstract(k', l') == (NoTags, Abstract(k, l).1)
  {
    hide CollectionChain, SavedChains, Once, StackOf, Concat, TagChain;
    var r := k.tagMem[last].(prev := k.freeTag);
    var l' := l.(pending := [], freeTags := l.pending + l.freeTags);
    LastOnce(l, last);
    ChainJoined(k.tagMem, k.tags, l.pending, k.freeTag, l.freeTags);
    SavedElsewhere(k.tagMem, k.collectionMem, l.live, l.saved, last, r);
    assert AllTags(l') == AllTags(l);
    NoChain(k.tagMem[last := r]);
  }

  lemma NoChain(mem: TagMemory)
    ensures TagChain(mem, 0, [])
  {
  }

  lemma LastOnce(l: Lists, last: Address)
    requires Once(AllTags(l)) && last in l.pending
    ensures last !in Concat(l.saved) && Once(multiset(l.pending) + multiset(l.freeTags))
  {
    hide Concat;
    assert multiset(l.pending)[last] >= 1 && AllTags(l)[last] <= 1;
    forall a ensures (multiset(l.pending) + multiset(l.freeTags))[a] <= 1 {
      assert AllTags(l)[a] <= 1;
    }
  }

  // ---------------------------------------------------------------- collections

  lemma CollectionTaken(k: Links, l: Lists)
    requires Linked(k, l) && k.freeCollection != 0
    ensures k.freeCollection in k.collectionMem && l.freeCollections != []
    ensures Linked(k.(freeCollection := k.collectionMem[k.freeCollection].prev), l.(freeCollections := l.freeCollections[1..]))
    ensures AllCollections(l.(freeCollections := l.freeCollections[1..]))[k.freeCollection] == 0 && k.freeCollection < k.unused
  {
    hide TagChain, SavedChains, Once;
    var l' := l.(freeCollections := l.freeCollections[1..]);
    MultisetHead(l.freeCollections);
    assert AllCollections(l) == AllCollections(l') + multiset{k.freeCollection};
    OnceLess(AllCollections(l'), k.freeCollection);
  }

  lemma CollectionPushed(k: Links, l: Lists, a: Address, key: Key, id: nat, remaining: nat)
    requires Linked(k, l) && AllCollections(l)[a] == 0 && a != 0 && a < k.unused
    ensures var r := CollectionRecord(k.collection, k.tags, key, id, remaining);
            var k' := k.(collectionMem := k.collectionMem[a := r], collection := a, tags := 0);
            var l' := l.(live := [a] + l.live, saved := [l.pending] + l.saved, pending := []);
            Linked(k', l') && Abstract(k', l') == (NoTags, Push(Collection(Abstract(k, l).0, key, id, remaining), Abstract(k, l).1))
  {
    hide Once, TagChain, CollectionChain, AllTags, AllCollections, Concat;
    var r := CollectionRecord(k.collection, k.tags, key, id, remaining);
    var l' := l.(live := [a] + l.live, saved := [l.pending] + l.saved, pending := []);
    NotInLists(l, a);
    CollectionElsewhere(k.collectionMem, k.collection, l.live, a, r);
    CollectionElsewhere(k.collectionMem, k.freeCollection, l.freeCollections, a, r);
    StackElsewhere(k.tagMem, k.collectionMem, l.live, l.saved, a, r);
    assert ([a] + l.live)[1..] == l.live && ([l.pending] + l.saved)[1..] == l.saved;
    ChainLonger(k.collectionMem[a := r], a, l.live);
    NoChain(k.tagMem);
    PushedLists(l, a);
    OnceMore(AllCollections(l), a);
  }

  lemma PushedLists(l: Lists, a: Address)
    ensures var l' := l.(live := [a] + l.live, saved := [l.pending] + l.saved, pending := []);
            AllTags(l') == AllTags(l) && AllCollections(l') == AllCollections(l) + multiset{a}
  {
    assert ([l.pending] + l.saved)[1..] == l.saved;
  }

  lemma ChainLonger(mem: CollectionMemory, a: Address, list: seq<Address>)
    requires a != 0 && a in mem && CollectionChain(mem, mem[a].prev, list)
    ensures CollectionChain(mem, a, [a] + list)
  {
    assert ([a] + list)[1..] == list;
  }

  lemma TopAlone(l: Lists)
    requires l.live != [] && Once(AllCollections(l))
    ensures l.live[0] !in l.live[1..] && l.live[0] !in l.freeCollections
  {
    MultisetHead(l.live);
    assert AllCollections(l)[l.live[0]] <= 1;
    CountedIfThere(l.live[1..], l.live[0]);
  }

  lemma CountedIfThere(s: seq<Address>, a: Address)
    ensures a in s <==> multiset(s)[a] > 0
  {
  }

  lemma CollectionPopped(k: Links, l: Lists)
    requires Linked(k, l) && k.collection != 0
    ensures k.collection in k.collectionMem && l.live != [] && l.saved != []
    ensures var c := k.collectionMem[k.collection];
            var r := c.(prev := k.freeCollection, key := NoKey);
            var k' := k.(collectionMem := k.collectionMem[k.collection := r], freeCollection := k.collection,
                         collection := c.prev, tags := c.tags);
            var l' := l.(pending := l.saved[0], live := l.live[1..], saved := l.saved[1..], freeCollections := [k.collection] + l.freeCollections);
            Linked(k', l') && Abstract(k, l).1.Push? && Abstract(k, l).1.top.id == c.id &&
            Abstract(k', l') == (Abstract(k, l).1.top.tags, Abstract(k, l).1.below)
  {
    hide Once;
    var a, c := k.collection, k.collectionMem[k.collection];
    var r := c.(prev := k.freeCollection, key := NoKey);
    TopAlone(l);
    hide TagChain;
    PoppedLists(l, a);
    CollectionElsewhere(k.collectionMem, c.prev, l.live[1..], a, r);
    CollectionElsewhere(k.collectionMem, k.freeCollection, l.freeCollections, a, r);
    StackElsewhere(k.tagMem, k.collectionMem, l.live[1..], l.saved[1..], a, r);
    ChainLonger(k.collectionMem[a := r], a, l.freeCollections);
  }

  lemma ChainEnds(mem: TagMemory, list: seq<Address>)
    requires TagChain(mem, 0, list)
    ensures list == []
  {
  }

  lemma PoppedLists(l: Lists, a: Address)
    requires l.live != [] && l.live[0] == a && l.saved != [] && Once(AllTags(l))
    ensures var l' := l.(pending := l.saved[0], live := l.live[1..], saved := l.saved[1..], freeCollections := [a] + l.freeCollections);
            AllCollections(l') == AllCollections(l) && Once(AllTags(l'))
  {
    MultisetHead(l.live);
    var l' := l.(pending := l.saved[0], live := l.live[1..], saved := l.saved[1..], freeCollections := [a] + l.freeCollections);
    assert AllTags(l) == multiset(l.pending) + AllTags(l');
    OncePart(multiset(l.pending), AllTags(l'));
  }

  lemma OncePart(a: multiset<Address>, b: multiset<Address>)
    requires Once(a + b)
    ensures Once(b)
  {
    forall x ensures b[x] <= 1 {
      assert (a + b)[x] <= 1;
    }
  }

  lemma TopSet(k: Links, l: Lists, key: Key, remaining: nat)
    requires Linked(k, l) && k.collection != 0
    ensures k.collection in k.collectionMem && |l.live| == |l.saved|
    ensures var r := k.collectionMem[k.collection].(key := key, remaining := remaining);
            var k' := k.(collectionMem := k.collectionMem[k.collection := r]);
            var (t, m) := Abstract(k, l);
            Linked(k', l) && m.Push? && Abstract(k', l) == (t, Push(m.top.(key := key, remaining := remaining), m.below))
  {
    hide Once, TagChain;
    var a, r := k.collection, k.collectionMem[k.collection].(key := key, remaining := remaining);
    TopAlone(l);
    CollectionElsewhere(k.collectionMem, r.prev, l.live[1..], a, r);
    CollectionElsewhere(k.collectionMem, k.freeCollection, l.freeCollections, a, r);
    StackElsewhere(k.tagMem, k.collectionMem, l.live[1..], l.saved[1..], a, r);
  }

  // ---------------------------------------------------------------- the reader's part

  class Pools {
    var tagMem: TagMemory
    var collectionMem: CollectionMemory
    var unused: Address
    var tags: Address
    var freeTag: Address
    var collection: Address
    var freeCollection: Address
    ghost var lists: Lists

    ghost function State(): Links
      reads this
    {
      Links(tagMem, collectionMem, unused, tags, freeTag, collection, freeCollection)
    }

    ghost predicate Valid()
      reads this
    {
      |lists.live| == |lists.saved| && Linked(State(), lists)
    }

    /** The stacks of the reader: pending tags and open collections. */
    ghost function Stacks(): (Tags, Stack)
      reads this
      requires Valid()
    {
      Abstract(State(), lists)
    }

    constructor ()
      ensures Valid() && Stacks() == (NoTags, Bottom)
    {
      tagMem, collectionMem, unused := map[], map[], 1;
      tags, freeTag, collection, freeCollection := 0, 0, 0, 0;
      lists := Lists([], [], [], [], []);
    }

    /** The case of a tag: a record from the free list, or a new one, goes in front of the pending tags. */
    method PushTag(p: Pending)
      requires Valid()
      modifies this
      ensures Valid()
      ensures Stacks() == (Tag(p, old(Stacks()).0), old(Stacks()).1)
    {
      hide Linked, Abstract, AllTags;
      SameLength(State(), lists);
      var a := freeTag;
      if a != 0 {
        TagTaken(State(), lists);
        TakenAbstract(State(), lists);
        freeTag := tagMem[a].prev;
        lists := lists.(freeTags := lists.freeTags[1..]);
      } else {
        a := unused;
        UnusedIsNew(State(), lists);
        OneMore(State(), lists);
        unused := unused + 1;
      }
      TagPushed(State(), lists, a, p);
      tagMem := tagMem[a := TagRecord(tags, p)];
      tags := a;
      lists := lists.(pending := [a] + lists.pending);
    }

    /** The end of the tags in value_handler: all pending tags go to the free list at once, through the last
        of them, which the loop over their handlers has found. */
    method RecycleTags(last: Address)
      requires Valid() && tags != 0 && lists.pending != [] && last == lists.pending[|lists.pending| - 1]
      modifies this
      ensures Valid() && Stacks() == (NoTags, old(Stacks()).1)
    {
      hide Linked, Abstract;
      LastInMemory(State(), lists);
      TagsRecycled(State(), lists, last);
      tagMem := tagMem[last := tagMem[last].(prev := freeTag)];
      freeTag, tags := tags, 0;
      lists := lists.(pending := [], freeTags := lists.pending + lists.freeTags);
    }

    /** collection_push: the pending tags wait in the new collection. */
    method PushCollection(key: Key, id: nat, remaining: nat)
      requires Valid()
      modifies this
      ensures Valid()
      ensures var (t, m) := old(Stacks());
              Stacks() == (NoTags, Push(Collection(t, key, id, remaining), m))
    {
      hide Linked, Abstract, AllCollections;
      var a := freeCollection;
      if a != 0 {
        CollectionTaken(State(), lists);
        TakenAbstract(State(), lists);
        freeCollection := collectionMem[a].prev;
        lists := lists.(freeCollections := lists.freeCollections[1..]);
      } else {
        a := unused;
        UnusedIsNew(State(), lists);
        OneMore(State(), lists);
        unused := unused + 1;
      }
      CollectionPushed(State(), lists, a, key, id, remaining);
      collectionMem := collectionMem[a := CollectionRecord(collection, tags, key, id, remaining)];
      collection, tags := a, 0;
      lists := lists.(live := [a] + lists.live, saved := [lists.pending] + lists.saved, pending := []);
    }

    /** collection_pop: the tags that waited in the collection are pending again, in place of any others. */
    method PopCollection() returns (id: nat)
      requires Valid() && collection != 0
      modifies this
      ensures Valid()
      ensures var m := old(Stacks()).1;
              m.Push? && Stacks() == (m.top.tags, m.below) && id == m.top.id
    {
      hide Linked, Abstract;
      CollectionPopped(State(), lists);
      var a, c := collection, collectionMem[collection];
      lists := lists.(pending := lists.saved[0], live := lists.live[1..], saved := lists.saved[1..],
                      freeCollections := [a] + lists.freeCollections);
      collectionMem := collectionMem[a := c.(prev := freeCollection, key := NoKey)];
      freeCollection, collection, tags, id := a, c.prev, c.tags, c.id;
    }

    /** The fields of the innermost collection. */
    method Top() returns (key: Key, id: nat, remaining: nat)
      requires Valid() && collection != 0
      ensures var m := Stacks().1;
              m.Push? && key == m.top.key && id == m.top.id && remaining == m.top.remaining
    {
      TopIs(State(), lists);
      var c := collectionMem[collection];
      key, id, remaining := c.key, c.id, c.remaining;
    }

    /** The fields of the innermost collection that an element changes. */
    method SetTop(key: Key, remaining: nat)
      requires Valid() && collection != 0
      modifies this
      ensures Valid()
      ensures var (t, m) := old(Stacks());
              m.Push? && Stacks() == (t, Push(m.top.(key := key, remaining := remaining), m.below))
    {
      hide Linked, Abstract;
      TopSet(State(), lists, key, remaining);
      collectionMem := collectionMem[collection := collectionMem[collection].(key := key, remaining := remaining)];
    }
  }

  lemma SameLength(k: Links, l: Lists)
    requires Linked(k, l)
    ensures |l.live| == |l.saved|
  {
  }

  /** NULL stands for the empty stacks. */
  lemma StacksEnd(p: Pools)
    requires p.Valid()
    ensures p.tags == 0 <==> p.Stacks().0.NoTags?
    ensures p.collection == 0 <==> p.Stacks().1.Bottom?
    ensures TagChain(p.tagMem, p.tags, p.lists.pending) && TagsOf(p.tagMem, p.lists.pending) == p.Stacks().0
  {
    if p.tags == 0 {
      ChainEnds(p.tagMem, p.lists.pending);
    }
    assert p.collection == 0 <==> p.lists.live == [];
  }

  lemma LastInMemory(k: Links, l: Lists)
    requires Linked(k, l) && l.pending != []
    ensures |l.live| == |l.saved| && l.pending[|l.pending| - 1] in k.tagMem
  {
    ChainInMemory(k.tagMem, k.tags, l.pending);
  }

  lemma TopIs(k: Links, l: Lists)
    requires Linked(k, l) && k.collection != 0
    ensures k.collection in k.collectionMem && |l.live| == |l.saved|
    ensures var c, m := k.collectionMem[k.collection], Abstract(k, l).1;
            m.Push? && c.key == m.top.key && c.id == m.top.id && c.remaining == m.top.remaining
  {
  }

  /** The free lists are not part of what the records stand for. */
  lemma TakenAbstract(k: Links, l: Lists)
    requires |l.live| == |l.saved|
    ensures forall f, fs :: Abstract(k.(freeTag := f), l.(freeTags := fs)) == Abstract(k, l)
    ensures forall f, fs :: Abstract(k.(freeCollection := f), l.(freeCollections := fs)) == Abstract(k, l)
  {
  }

  lemma OneMore(k: Links, l: Lists)
    requires Linked(k, l)
    ensures Linked(k.(unused := k.unused + 1), l) && |l.live| == |l.saved|
    ensures Abstract(k.(unused := k.unused + 1), l) == Abstract(k, l) && k.unused != 0
  {
    hide TagChain, CollectionChain, Once, SavedChains;
    SameLength(k, l);
  }

  lemma {:induction false} ChainInMemory(mem: TagMemory, head: Address, list: seq<Address>)
    requires TagChain(mem, head, list)
    ensures forall a | a in list :: a in mem
    decreases |list|
  {
    if list != [] {
      ChainInMemory(mem, mem[head].prev, list[1..]);
    }
  }

  lemma {:induction false} CollectionInMemory(mem: CollectionMemory, head: Address, list: seq<Address>)
    requires CollectionChain(mem, head, list)
    ensures forall a | a in list :: a in mem
    decreases |list|
  {
    if list != [] {
      CollectionInMemory(mem, mem[head].prev, list[1..]);
    }
  }

  lemma {:induction false} SavedInMemory(mem: TagMemory, cmem: CollectionMemory, live: seq<Address>, saved: seq<seq<Address>>)
    requires SavedChains(mem, cmem, live, saved)
    ensures forall a | a in Concat(saved) :: a in mem
  {
    if live != [] {
      ChainInMemory(mem, cmem[live[0]].tags, saved[0]);
      SavedInMemory(mem, cmem, live[1..], saved[1..]);
    }
  }
}
