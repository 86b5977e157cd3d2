/** The writer (src/ml_cbor.c): tables of references and of reused objects, a counter, and the heads
    written so far. */
module CborWriter {
  import opened CborItem
  import opened CborGraph

  class Writer {
    var references: set<nat>
    var reused: map<nat, nat>
    var reusedKeys: map<string, nat>
    var index: nat
    const reuse: bool
    /** Externals: the objects of the graph that have a name. */
    const names: map<nat, string>
    var output: seq<Head>
    ghost var given: Numbers

    constructor (flag: bool, externals: map<nat, string>)
      ensures references == {} && reused == map[] && reusedKeys == map[] && index == 0 && output == []
      ensures reuse == flag && names == externals && given == Numbers(map[], map[], 0) && Valid()
    {
      references, reused, reusedKeys, index, output := {}, map[], map[], 0, [];
      given := Numbers(map[], map[], 0);
      reuse := flag;
      names := externals;
    }

    /** What the search has found. */
    function Search(): Found
      reads this`references, this`reused
    {
      Found(references, reused.Keys)
    }

    /** ml_cbor_writer_ref_fn for a list or map: 0 if it was met before. */
    method RefFn(id: nat) returns (more: bool)
      requires forall a | a in reused :: reused[a] == 0
      modifies this`references, this`reused
      ensures more <==> id !in old(references)
      ensures forall a | a in reused :: reused[a] == 0
      ensures Search() == if more then old(Search()).(seen := old(references) + {id}) else old(Search()).(dups := old(reused).Keys + {id})
    {
      more := id !in references;
      references := references + {id};
      if !more {
        reused := reused[id := 0];
        assert reused.Keys == old(reused).Keys + {id};
        assert references == old(references);
      }
    }

    /** ml_cbor_writer_find_refs: terminates on every graph and finds what is reached more than once. */
    method FindRefs(g: Heap, r: Ref)
      requires forall a | a in reused :: reused[a] == 0
      modifies this`references, this`reused
      ensures Search() == Find(g, r, old(Search()))
      ensures forall a | a in reused :: reused[a] == 0
      decreases Ids(g) - references
    {
      hide Find, FindIn;
      FindUnfolds(g, r, Search());
      if r.Obj? && r.id < |g| {
        ghost var before := Search();
        var more := RefFn(r.id);
        if more {
          assert r.id in Ids(g);
          ghost var start := Search();
          var n := g[r.id];
          match n {
            case List(items) =>
              for i := 0 to |items|
                invariant FindIn(g, n, i, Search()) == FindIn(g, n, 0, start)
                invariant start.seen <= references && forall a | a in reused :: reused[a] == 0
              {
                FindInUnfolds(g, n, i, Search());
                FindRefs(g, items[i]);
              }
              FindInUnfolds(g, n, |items|, Search());
            case Map(pairs) =>
              for i := 0 to |pairs|
                invariant FindIn(g, n, i, Search()) == FindIn(g, n, 0, start)
                invariant start.seen <= references && forall a | a in reused :: reused[a] == 0
              {
                FindInUnfolds(g, n, i, Search());
                FindRefs(g, pairs[i].0);
                FindRefs(g, pairs[i].1);
              }
              FindInUnfolds(g, n, |pairs|, Search());
            case Named(_) =>
              FindInUnfolds(g, n, 0, Search());
          }
        }
      }
    }
  
    /** The indices given out so far; the tables hold them plus one, and 0 for none. */
    ghost predicate Valid()
      reads this`given, this`reused, this`reusedKeys, this`index
    {
      && given.next == index
      && (forall a :: a in given.index <==> a in reused && reused[a] > 0)
      && (forall a | a in given.index :: given.index[a] == reused[a] - 1)
      && (forall t :: t in given.keys <==> t in reusedKeys && reusedKeys[t] > 0)
      && (forall t | t in given.keys :: given.keys[t] == reusedKeys[t] - 1)
    }

    method Emit(h: Head)
      modifies this`output
      ensures output == old(output) + [h]
    {
      output := output + [h];
    }

    /** ml_cbor_write: terminates on every graph that was searched, and writes the item of `r`. */
    method Write(g: Heap, r: Ref, ghost f: Found, ghost rest: seq<Head>)
      requires Unnamed(g) && GraphOk(AsNamed(g, names)) && RefOk(AsNamed(g, names), r)
      requires Find(AsNamed(g, names), r, f).dups <= reused.Keys && InStep(reused.Keys, f.seen, given) && Valid()
      modifies this`reused, this`reusedKeys, this`index, this`output, this`given
      ensures reused.Keys == old(reused.Keys) && Valid()
      ensures var out := CborGraph.Write(AsNamed(g, names), old(reused.Keys), reuse, r, f.seen, old(given));
              output + rest == old(output) + Heads(out.tree, rest) && given == out.numbers
      decreases Ids(g) - f.seen, 0, 0
    {
      hide GraphOk, Find, CborGraph.Write, WriteItems, WritePairs, Heads, FindIn;
      ghost var h := AsNamed(g, names);
      ghost var shared, before := reused.Keys, given;
      WriteUnfolds(h, shared, reuse, r, f, before);
      match r {
        case Leaf(a) =>
          EmitAtom(a, rest);
        case Known(name) =>
          EmitName(name, rest);
        case Obj(id) =>
          if id in reused && reused[id] != 0 {
            EmitShared(reused[id] - 1, rest);
          } else {
            ghost var body := WriteNode(h, shared, reuse, h[id], f.seen + {id}, Numbered(shared, id, before)).tree;
            if id in reused {
              Share(id);
            }
            NumberedInStep(shared, f.seen, id, before);
            Tagging(shared, id, old(output), body, rest);
            assert id in Ids(h) && h[id] in h && g[id] in g;
            if id in names {
              EmitName(names[id], rest);
            } else {
              WriteContents(g, g[id], f.(seen := f.seen + {id}), rest);
            }
          }
      }
    }

    /** A reference by name. */
    method EmitName(name: string, ghost rest: seq<Head>)
      modifies this`output
      ensures output + rest == old(output) + Heads(Called(name), rest)
    {
      Emit(TagHead(SHAREDREF));
      Emit(Scalar(Str(name)));
      assert Heads(Plain(Str(name)), rest) == [Scalar(Str(name))] + rest;
      assert output + rest == old(output) + ([TagHead(SHAREDREF)] + ([Scalar(Str(name))] + rest));
    }

    /** A reference to an object or key that has an index. */
    method EmitShared(i: nat, ghost rest: seq<Head>)
      modifies this`output
      ensures output + rest == old(output) + Heads(Shared(i), rest)
    {
      Emit(TagHead(SHAREDREF));
      Emit(Scalar(Int(i)));
      assert Heads(Plain(Int(i)), rest) == [Scalar(Int(i))] + rest;
      assert output + rest == old(output) + ([TagHead(SHAREDREF)] + ([Scalar(Int(i))] + rest));
    }

    /** A shared object that is met for the first time gets an index and a tag. */
    method Share(id: nat)
      requires Valid() && id in reused && reused[id] == 0
      modifies this`reused, this`index, this`output, this`given
      ensures Valid() && reused.Keys == old(reused.Keys)
      ensures given == Numbered(reused.Keys, id, old(given)) && output == old(output) + [TagHead(SHAREABLE)]
    {
      index := index + 1;
      reused := reused[id := index];
      given := given.(index := given.index[id := given.next], next := given.next + 1);
      assert reused.Keys == old(reused.Keys);
      Emit(TagHead(SHAREABLE));
    }

    method WriteContents(g: Heap, n: Node, ghost f: Found, ghost rest: seq<Head>)
      requires Unnamed(g) && GraphOk(AsNamed(g, names)) && n in AsNamed(g, names) && !n.Named?
      requires FindIn(AsNamed(g, names), n, 0, f).dups <= reused.Keys && InStep(reused.Keys, f.seen, given) && Valid()
      modifies this`reused, this`reusedKeys, this`index, this`output, this`given
      ensures reused.Keys == old(reused.Keys) && Valid()
      ensures var out := WriteNode(AsNamed(g, names), old(reused.Keys), reuse, n, f.seen, old(given));
              output + rest == old(output) + Heads(out.tree, rest) && given == out.numbers
      decreases Ids(g) - f.seen, 2
    {
      hide GraphOk, FindIn, WriteItems, WritePairs;
      match n {
        case List(items) => WriteList(g, n, f, rest);
        case Map(pairs) => WriteMap(g, n, f, rest);
      }
    }

    method WriteList(g: Heap, n: Node, ghost f: Found, ghost rest: seq<Head>)
      requires Unnamed(g) && GraphOk(AsNamed(g, names)) && n in AsNamed(g, names) && n.List?
      requires FindIn(AsNamed(g, names), n, 0, f).dups <= reused.Keys && InStep(reused.Keys, f.seen, given) && Valid()
      modifies this`reused, this`reusedKeys, this`index, this`output, this`given
      ensures reused.Keys == old(reused.Keys) && Valid()
      ensures var out := WriteItems(AsNamed(g, names), old(reused.Keys), reuse, n.items, 0, f.seen, old(given));
              output + rest == old(output) + ([ArrayHead(|n.items|)] + HeadsOfAll(out.tree, rest)) && given == out.numbers
      decreases Ids(g) - f.seen, 1
    {
      hide GraphOk, Find, FindIn, CborGraph.Write, InStep, Valid, Heads, AsNamed, Unnamed;
      ghost var h := AsNamed(g, names);
      ghost var shared, all := reused.Keys, WriteItems(h, reused.Keys, reuse, n.items, 0, f.seen, given);
      ghost var fi := f;
      Emit(ArrayHead(|n.items|));
      ghost var base := output;
      for i := 0 to |n.items|
        invariant reused.Keys == shared && f.seen <= fi.seen
        invariant FindIn(h, n, i, fi).dups <= shared && InStep(shared, fi.seen, given) && Valid()
        invariant var now := WriteItems(h, shared, reuse, n.items, i, fi.seen, given);
                  output + HeadsOfAll(now.tree, rest) == base + HeadsOfAll(all.tree, rest) && now.numbers == all.numbers
      {
        FindInUnfolds(h, n, i, fi);
        ElementOk(h, n, i);
        ghost var first := CborGraph.Write(h, shared, reuse, n.items[i], fi.seen, given);
        ghost var more := WriteItems(h, shared, reuse, n.items, i + 1, first.seen, first.numbers);
        StillFound(h, n, i, fi, shared);
        PassesAgree(h, shared, reuse, n.items[i], fi, given);
        Write(g, n.items[i], fi, HeadsOfAll(more.tree, rest));
        fi := Find(h, n.items[i], fi);
      }
      assert output + rest == base + HeadsOfAll(all.tree, rest);
      assert base + HeadsOfAll(all.tree, rest) == old(output) + ([ArrayHead(|n.items|)] + HeadsOfAll(all.tree, rest));
    }

    method WriteMap(g: Heap, n: Node, ghost f: Found, ghost rest: seq<Head>)
      requires Unnamed(g) && GraphOk(AsNamed(g, names)) && n in AsNamed(g, names) && n.Map?
      requires FindIn(AsNamed(g, names), n, 0, f).dups <= reused.Keys && InStep(reused.Keys, f.seen, given) && Valid()
      modifies this`reused, this`reusedKeys, this`index, this`output, this`given
      ensures reused.Keys == old(reused.Keys) && Valid()
      ensures var out := WritePairs(AsNamed(g, names), old(reused.Keys), reuse, n.pairs, 0, f.seen, old(given));
              output + rest == old(output) + ([MapHead(|n.pairs|)] + HeadsOfPairs(out.tree, rest)) && given == out.numbers
      decreases Ids(g) - f.seen, 1
    {
      hide GraphOk, Find, FindIn, CborGraph.Write, CborGraph.WriteKey, InStep, Valid, Heads, AsNamed, Unnamed;
      ghost var h := AsNamed(g, names);
      ghost var shared, all := reused.Keys, WritePairs(h, reused.Keys, reuse, n.pairs, 0, f.seen, given);
      ghost var fi := f;
      Emit(MapHead(|n.pairs|));
      ghost var base := output;
      for i := 0 to |n.pairs|
        invariant reused.Keys == shared && f.seen <= fi.seen
        invariant FindIn(h, n, i, fi).dups <= shared && InStep(shared, fi.seen, given) && Valid()
        invariant var now := WritePairs(h, shared, reuse, n.pairs, i, fi.seen, given);
                  output + HeadsOfPairs(now.tree, rest) == base + HeadsOfPairs(all.tree, rest) && now.numbers == all.numbers
      {
        ghost var k, v := n.pairs[i].0, n.pairs[i].1;
        FindInUnfolds(h, n, i, fi);
        ElementOk(h, n, i);
        ghost var f1 := Find(h, k, fi);
        ghost var key := CborGraph.WriteKey(h, shared, reuse, k, fi.seen, given);
        ghost var value := CborGraph.Write(h, shared, reuse, v, f1.seen, key.numbers);
        ghost var more := WritePairs(h, shared, reuse, n.pairs, i + 1, value.seen, value.numbers);
        StillFound(h, n, i, fi, shared);
        KeysAgree(h, shared, reuse, k, fi, given);
        PassesAgree(h, shared, reuse, v, f1, key.numbers);
        WriteKey(g, n.pairs[i].0, fi, Heads(value.tree, HeadsOfPairs(more.tree, rest)));
        Write(g, n.pairs[i].1, f1, HeadsOfPairs(more.tree, rest));
        fi := Find(h, v, f1);
      }
      assert output + rest == base + HeadsOfPairs(all.tree, rest);
      assert base + HeadsOfPairs(all.tree, rest) == old(output) + ([MapHead(|n.pairs|)] + HeadsOfPairs(all.tree, rest));
    }

    /** The key part of the loop over a map. */
    method WriteKey(g: Heap, k: Ref, ghost f: Found, ghost rest: seq<Head>)
      requires Unnamed(g) && GraphOk(AsNamed(g, names)) && RefOk(AsNamed(g, names), k)
      requires Find(AsNamed(g, names), k, f).dups <= reused.Keys && InStep(reused.Keys, f.seen, given) && Valid()
      modifies this`reused, this`reusedKeys, this`index, this`output, this`given
      ensures reused.Keys == old(reused.Keys) && Valid()
      ensures var out := CborGraph.WriteKey(AsNamed(g, names), old(reused.Keys), reuse, k, f.seen, old(given));
              output + rest == old(output) + Heads(out.tree, rest) && given == out.numbers
      decreases Ids(g) - f.seen, 0, 1
    {
      hide GraphOk, Find, InStep, CborGraph.Write;
      if reuse && k.Leaf? && k.atom.Str? {
        WriteString(k.atom.s, rest);
      } else {
        Write(g, k, f, rest);
      }
    }
  
    /** A string key: short ones are written as they are. */
    method WriteString(s: string, ghost rest: seq<Head>)
      requires Valid()
      modifies this`reusedKeys, this`index, this`output, this`given
      ensures Valid() && given.index == old(given.index)
      ensures if |s| < SHORT_KEY then output + rest == old(output) + Heads(Plain(Str(s)), rest) && given == old(given)
              else if s in old(given).keys then output + rest == old(output) + Heads(Shared(old(given).keys[s]), rest) && given == old(given)
              else output + rest == old(output) + Heads(Tagged(SHAREABLE, Plain(Str(s))), rest)
                   && given == old(given).(keys := old(given).keys[s := old(given).next], next := old(given).next + 1)
    {
      hide Heads;
      var slot := if s in reusedKeys then reusedKeys[s] else 0;
      if |s| < SHORT_KEY {
        EmitAtom(Str(s), rest);
      } else if slot != 0 {
        EmitShared(slot - 1, rest);
      } else {
        index := index + 1;
        reusedKeys := reusedKeys[s := index];
        given := given.(keys := given.keys[s := given.next], next := given.next + 1);
        Emit(TagHead(SHAREABLE));
        Tagging({0}, 0, old(output), Plain(Str(s)), rest);
        EmitAtom(Str(s), rest);
      }
    }

    method EmitAtom(a: Atom, ghost rest: seq<Head>)
      modifies this`output
      ensures output + rest == old(output) + Heads(Plain(a), rest)
    {
      Emit(Scalar(a));
      assert output + rest == old(output) + ([Scalar(a)] + rest);
    }
  }

  /** Before the writing pass no index has been given. */
  lemma NothingGiven(w: Writer)
    requires w.given == FIRST && w.index == 0 && w.reusedKeys == map[] && forall a | a in w.reused :: w.reused[a] == 0
    ensures w.Valid()
  {
  }

  /** The heads of an object follow the tag, if it is shared. */
  lemma Tagging(shared: set<nat>, id: nat, output: seq<Head>, body: Tree, rest: seq<Head>)
    ensures (if id in shared then output + [TagHead(SHAREABLE)] else output) + Heads(body, rest)
         == output + Heads(if id in shared then Tagged(SHAREABLE, body) else body, rest)
  {
    hide HeadsOfAll, HeadsOfPairs;
    if id in shared {
      assert Heads(Tagged(SHAREABLE, body), rest) == [TagHead(SHAREABLE)] + Heads(body, rest);
    }
  }

  lemma ElementOk(g: Heap, n: Node, i: nat)
    requires GraphOk(g) && n in g && i < Size(n)
    ensures n.List? ==> RefOk(g, n.items[i])
    ensures n.Map? ==> RefOk(g, n.pairs[i].0) && RefOk(g, n.pairs[i].1)
  {
    assert NodeOk(g, n);
    if n.Map? {
      assert n.pairs[i] in n.pairs;
    }
  }

  /** What the search still finds again in a node covers what it finds again in the next element. */
  lemma StillFound(g: Heap, n: Node, i: nat, f: Found, shared: set<nat>)
    requires i < Size(n) && FindIn(g, n, i, f).dups <= shared
    ensures n.List? ==> Find(g, n.items[i], f).dups <= shared
    ensures n.Map? ==> Find(g, n.pairs[i].0, f).dups <= shared && Find(g, n.pairs[i].1, Find(g, n.pairs[i].0, f)).dups <= shared
  {
    hide Find;
    FindInUnfolds(g, n, i, f);
  }

  lemma WriteUnfolds(g: Heap, shared: set<nat>, reuse: bool, r: Ref, f: Found, w: Numbers)
    requires RefOk(g, r) && Find(g, r, f).dups <= shared && InStep(shared, f.seen, w)
    ensures r.Leaf? ==> CborGraph.Write(g, shared, reuse, r, f.seen, w) == Written(Plain(r.atom), f.seen, w)
    ensures r.Known? ==> CborGraph.Write(g, shared, reuse, r, f.seen, w) == Written(Called(r.name), f.seen, w)
    ensures r.Obj? && r.id in shared && r.id in w.index ==>
              CborGraph.Write(g, shared, reuse, r, f.seen, w) == Written(Shared(w.index[r.id]), f.seen, w)
    ensures r.Obj? && !(r.id in shared && r.id in w.index) ==>
              r.id !in f.seen && FindIn(g, g[r.id], 0, f.(seen := f.seen + {r.id})).dups <= shared &&
              var out := WriteNode(g, shared, reuse, g[r.id], f.seen + {r.id}, Numbered(shared, r.id, w));
              CborGraph.Write(g, shared, reuse, r, f.seen, w)
                == if r.id in shared then out.(tree := Tagged(SHAREABLE, out.tree)) else out
  {
    hide WriteNode, FindIn, Numbered;
  }

  lemma FindUnfolds(g: Heap, r: Ref, f: Found)
    ensures Find(g, r, f) == if r.Obj? && r.id < |g| then
              if r.id in f.seen then f.(dups := f.dups + {r.id}) else FindIn(g, g[r.id], 0, f.(seen := f.seen + {r.id}))
            else f
  {
    hide FindIn;
  }

  lemma FindInUnfolds(g: Heap, n: Node, i: nat, f: Found)
    requires i <= Size(n)
    ensures FindIn(g, n, i, f) == if i == Size(n) then f
            else if n.List? then FindIn(g, n, i + 1, Find(g, n.items[i], f))
            else FindIn(g, n, i + 1, Find(g, n.pairs[i].1, Find(g, n.pairs[i].0, f)))
    ensures i < Size(n) && n.List? ==> Grows(g, f, Find(g, n.items[i], f))
    ensures i < Size(n) && n.Map? ==> Grows(g, f, Find(g, n.pairs[i].0, f)) && Grows(g, Find(g, n.pairs[i].0, f), Find(g, n.pairs[i].1, Find(g, n.pairs[i].0, f)))
  {
    hide Find;
  }
}
