/** The loops of `inthash_insert` (src/inthash.c) on the key and value arrays: displacing smaller keys
    along their own probe sequences, and rehashing a sorted table into one twice its size. */
module InthashStore {
  import opened Probing
  import opened InthashLayout

  /** An empty slot holds no value. */
  ghost predicate EmptiesAreNull(keys: seq<Word>, values: seq<Word>) {
    && |keys| == |values|
    && forall i: nat | i < |keys| :: keys[i] == 0 ==> values[i] == 0
  }

  /** What every table state satisfies, also between two displacements. */
  ghost predicate Sound(keys: seq<Word>, values: seq<Word>) {
    && PowerOfTwo(|keys|) && |keys| <= UINT32_LIMIT
    && Distinct(keys) && Ordered(keys) && EmptiesAreNull(keys, values)
  }

  /** `key` may be put into slot `i`: it is absent, and `i` is on its probe sequence behind larger keys
      only. */
  ghost predicate FitsAt(keys: seq<Word>, key: Word, i: nat, j: nat)
    requires |keys| > 0
  {
    && key != 0 && key !in keys
    && j < |keys| && Probe(key, |keys|, j) == i && Clear(keys, key, j)
  }

  lemma GoneAfterOverwrite(keys: seq<Word>, i: nat, key: Word)
    requires Distinct(keys) && i < |keys| && keys[i] != 0 ==> key != keys[i]
    ensures Distinct(keys) && i < |keys| && keys[i] != 0 ==> keys[i] !in keys[i := key]
  {
  }

  /** A clear stretch ends before the first slot that holds no larger key. */
  lemma ClearStops(keys: seq<Word>, key: Word, j: nat, last: nat)
    requires |keys| > 0 && Clear(keys, key, j) && keys[Probe(key, |keys|, last)] <= key
    ensures j <= last
  {
  }

  lemma ClearExtends(keys: seq<Word>, key: Word, j: nat)
    requires |keys| > 0 && Clear(keys, key, j) && keys[Probe(key, |keys|, j)] > key
    ensures Clear(keys, key, j + 1)
  {
  }

  lemma ContentsNoZero(keys: seq<Word>, values: seq<Word>)
    requires |keys| == |values| && Distinct(keys)
    ensures Contents(keys, values) - {0} == Contents(keys, values)
  {
  }

  lemma AfterPlacing(keys: seq<Word>, values: seq<Word>, i: nat, key: Word, value: Word, j: nat)
    returns (j': nat)
    requires Sound(keys, values) && FitsAt(keys, key, i, j) && keys[i] < key
    ensures Sound(keys[i := key], values[i := value])
    ensures Contents(keys[i := key], values[i := value]) == (Contents(keys, values) - {keys[i]})[key := value]
    ensures |Occupied(keys[i := key])| == |Occupied(keys)| + if keys[i] == 0 then 1 else 0
    ensures keys[i] != 0 ==> FitsAt(keys[i := key], keys[i], i, j')
  {
    hide Clear, Ordered, Distinct, Occupied, Contents;
    GoneAfterOverwrite(keys, i, key);
    ContentsOverwrite(keys, values, i, key, value);
    Displace(keys, i, key, j);
    OccupiedOverwrite(keys, i, key);
    j' := 0;
    if keys[i] != 0 {
      j' :| Probe(keys[i], |keys|, j') == i && j' < |keys| && Clear(keys[i := key], keys[i], j');
    }
  }

  /** Puts a key into its slot and hands back the pair that was there. */
  method Place(ks: array<Word>, vs: array<Word>, i: nat, key: Word, value: Word, ghost j: nat)
    returns (k: Word, v: Word, ghost j': nat)
    requires ks != vs && Sound(ks[..], vs[..]) && FitsAt(ks[..], key, i, j) && ks[i] < key
    modifies ks, vs
    ensures ks[..] == old(ks[..])[i := key] && vs[..] == old(vs[..])[i := value]
    ensures k == old(ks[i]) && v == old(vs[i])
    ensures Sound(ks[..], vs[..])
    ensures Contents(ks[..], vs[..]) == (old(Contents(ks[..], vs[..])) - {k})[key := value]
    ensures |Occupied(ks[..])| == |old(Occupied(ks[..]))| + if k == 0 then 1 else 0
    ensures k != 0 ==> FitsAt(ks[..], k, i, j')
    ensures k != 0 ==> k in old(Contents(ks[..], vs[..])) && old(Contents(ks[..], vs[..]))[k] == v
  {
    hide Clear, Ordered, Distinct;
    ghost var keys, values := ks[..], vs[..];
    j' := AfterPlacing(keys, values, i, key, value, j);
    k, v := ks[i], vs[i];
    ks[i] := key;
    vs[i] := value;
    assert ks[..] == keys[i := key] && vs[..] == values[i := value];
  }

  /** Moves along the probe sequence of `key` to the first slot that holds no larger key. */
  method SkipLarger(ks: array<Word>, i0: nat, key: Word, ghost j0: nat) returns (i: nat, ghost j: nat)
    requires PowerOfTwo(ks.Length) && ks.Length <= UINT32_LIMIT && |Occupied(ks[..])| < ks.Length
    requires FitsAt(ks[..], key, i0, j0)
    ensures FitsAt(ks[..], key, i, j) && ks[i] < key
  {
    hide Clear, Next32, Incr32, Probe, Occupied, PowerOfTwo;
    ghost var keys := ks[..];
    ghost var last := EmptySlotOnPath(keys, key);
    ClearStops(keys, key, j0, last);
    var incr := Incr32(key);
    i, j := i0, j0;
    while ks[i] > key
      invariant FitsAt(keys, key, i, j) && j <= last
      decreases last - j
    {
      StepsAgree(key, ks.Length, j);
      ClearExtends(keys, key, j);
      ClearStops(keys, key, j + 1, last);
      i := Next32(i, incr, ks.Length);
      j := j + 1;
    }
    assert keys[i] in keys;
  }

  /** The displacement loop: the new key takes its slot, and every smaller key that loses its slot
      moves on along its own probe sequence until one lands in an empty slot. */
  method DisplaceFrom(ks: array<Word>, vs: array<Word>, i0: nat, key: Word, value: Word, ghost j0: nat)
    requires ks != vs && Sound(ks[..], vs[..]) && |Occupied(ks[..])| < ks.Length
    requires FitsAt(ks[..], key, i0, j0) && ks[i0] < key
    modifies ks, vs
    ensures Sound(ks[..], vs[..])
    ensures Contents(ks[..], vs[..]) == old(Contents(ks[..], vs[..]))[key := value]
    ensures |Occupied(ks[..])| == |old(Occupied(ks[..]))| + 1
  {
    hide FitsAt, Clear, Ordered, Distinct, Occupied, Contents;
    ghost var target := Contents(ks[..], vs[..])[key := value];
    ghost var count := |Occupied(ks[..])|;
    var k1, v1, i, k2, v2;
    ghost var j;
    i := i0;
    k1, v1, j := Place(ks, vs, i, key, value, j0);
    while k1 != 0
      invariant Sound(ks[..], vs[..])
      invariant k1 != 0 ==> FitsAt(ks[..], k1, i, j)
      invariant target == if k1 == 0 then Contents(ks[..], vs[..]) else Contents(ks[..], vs[..])[k1 := v1]
      invariant |Occupied(ks[..])| == count + if k1 == 0 then 1 else 0
      decreases k1
    {
      i, j := SkipLarger(ks, i, k1, j);
      ghost var m := Contents(ks[..], vs[..]);
      k2, v2, j := Place(ks, vs, i, k1, v1, j);
      Swapped(m, k1, v1, k2, v2);
      k1, v1 := k2, v2;
    }
  }

  lemma Swapped(m: map<Word, Word>, k1: Word, v1: Word, k2: Word, v2: Word)
    requires k2 != 0 ==> k2 in m && m[k2] == v2
    requires k2 < k1 && 0 !in m
    ensures k2 != 0 ==> (m - {k2})[k1 := v1][k2 := v2] == m[k1 := v1]
    ensures k2 == 0 ==> (m - {k2})[k1 := v1] == m[k1 := v1]
  {
  }

  // ---------------------------------------------------------------- growing

  /** `(Index + 1) & Mask` in `uint32_t` arithmetic. */
  function NextSlot(i: nat, size: nat): (r: nat)
    requires i < size <= UINT32_LIMIT
    ensures r == if i + 1 == size then 0 else i + 1
  {
    ((i + 1) % UINT32_LIMIT) % size
  }

  /** The loop before a grow: linear probing to any empty slot. */
  method NextEmpty(ks: array<Word>, i0: nat) returns (i: nat)
    requires i0 < ks.Length <= UINT32_LIMIT && |Occupied(ks[..])| < ks.Length
    ensures i < ks.Length && ks[i] == 0
  {
    hide NextSlot;
    ghost var e := EmptySlot(ks[..]);
    i := i0;
    while ks[i] != 0
      invariant i < ks.Length
      decreases if i <= e then e - i else e - i + ks.Length
    {
      i := NextSlot(i, ks.Length);
    }
  }

  ghost predicate KeysDescend(keys: seq<Word>) {
    forall i, j | 0 <= i < j < |keys| :: keys[i] >= keys[j]
  }

  /** The keys before position `i` of a descending table are in place in the new table. */
  ghost predicate Rehashed(ks: seq<Word>, vs: seq<Word>, i: nat, keys2: seq<Word>, values2: seq<Word>) {
    && i <= |ks| == |vs| && Distinct(ks[..i])
    && |keys2| == |values2| == 2 * |ks| && Distinct(keys2) && Sound(keys2, values2)
    && Contents(keys2, values2) == Contents(ks[..i], vs[..i])
    && |Occupied(keys2)| == i
  }

  lemma RehashedKeysLarger(ks: seq<Word>, vs: seq<Word>, i: nat, keys2: seq<Word>, values2: seq<Word>, s: nat)
    requires Rehashed(ks, vs, i, keys2, values2) && i < |ks| && ks[i] != 0
    requires Distinct(ks) && KeysDescend(ks) && s < |keys2| && keys2[s] != 0
    ensures keys2[s] > ks[i]
  {
    assert keys2[s] in Contents(ks[..i], vs[..i]);
    var h: nat :| h < i && ks[..i][h] == keys2[s];
    assert ks[h] >= ks[i] && ks[h] != ks[i];
  }

  lemma RehashedNext(ks: seq<Word>, vs: seq<Word>, i: nat, keys2: seq<Word>, values2: seq<Word>, s: nat, j: nat)
    requires Rehashed(ks, vs, i, keys2, values2) && i < |ks| && ks[i] != 0
    requires Distinct(ks) && KeysDescend(ks)
    requires s < |keys2| && FitsAt(keys2, ks[i], s, j) && keys2[s] == 0
    ensures Rehashed(ks, vs, i + 1, keys2[s := ks[i]], values2[s := vs[i]])
  {
    hide Distinct, Ordered, EmptiesAreNull, PowerOfTwo, Contents, Occupied, FitsAt, KeysDescend;
    ContentsNoZero(keys2, values2);
    var j' := AfterPlacing(keys2, values2, s, ks[i], vs[i], j);
    PrefixContents(ks, vs, i);
  }

  lemma PrefixContents(ks: seq<Word>, vs: seq<Word>, i: nat)
    requires i < |ks| == |vs| && Distinct(ks) && ks[i] != 0
    ensures Distinct(ks[..i]) && Distinct(ks[..i + 1])
    ensures Contents(ks[..i + 1], vs[..i + 1]) == Contents(ks[..i], vs[..i])[ks[i] := vs[i]]
    ensures 0 !in Contents(ks[..i], vs[..i])
  {
    var m := Contents(ks[..i], vs[..i])[ks[i] := vs[i]];
    assert ks[..i + 1] == ks[..i] + [ks[i]];
    assert vs[..i + 1] == vs[..i] + [vs[i]];
    ContentsAre(ks[..i + 1], vs[..i + 1], m);
  }

  /** What follows the first empty slot of a descending table is empty. */
  lemma PrefixIsAll(ks: seq<Word>, vs: seq<Word>, i: nat)
    requires i < |ks| == |vs| && Distinct(ks) && KeysDescend(ks) && ks[i] == 0
    ensures Distinct(ks[..i]) && Contents(ks[..i], vs[..i]) == Contents(ks, vs)
  {
    var m := Contents(ks[..i], vs[..i]);
    forall h: nat | h < |ks| && ks[h] != 0 ensures ks[h] in m && m[ks[h]] == vs[h] {
      assert h < i;
      assert ks[..i][h] == ks[h] && vs[..i][h] == vs[h];
    }
    forall k | k in m ensures k in ks {
      var h: nat :| h < i && ks[..i][h] == k;
      assert ks[h] == k;
    }
    ContentsAre(ks, vs, m);
  }

  /** The probe loop of the rehash: the first empty slot on the probe sequence. Every key that is
      already in the table is larger, so this is also the first slot without a larger key. */
  method FirstFree(ks: seq<Word>, vs: seq<Word>, n: nat, keys2: array<Word>, values2: array<Word>)
    returns (i: nat, ghost j: nat)
    requires n < |ks| == |vs| && ks[n] != 0 && Distinct(ks) && KeysDescend(ks)
    requires Rehashed(ks, vs, n, keys2[..], values2[..])
    ensures i < keys2.Length && keys2[i] == 0 && FitsAt(keys2[..], ks[n], i, j)
  {
    hide Next32, Incr32, Probe, Occupied, PowerOfTwo, Ordered, Contents, EmptiesAreNull;
    var key := ks[n];
    ghost var keys := keys2[..];
    ghost var last := EmptySlotOnPath(keys, key);
    var incr := Incr32(key);
    i, j := Start(key, keys2.Length), 0;
    StartIsFirstProbe(key, keys2.Length);
    while keys2[i] != 0
      invariant i < keys2.Length && i == Probe(key, |keys|, j) && j <= last && Clear(keys, key, j)
      decreases last - j
    {
      RehashedKeysLarger(ks, vs, n, keys, values2[..], i);
      StepsAgree(key, keys2.Length, j);
      ClearExtends(keys, key, j);
      i := Next32(i, incr, keys2.Length);
      j := j + 1;
      ClearStops(keys, key, j, last);
    }
    forall s: nat | s < |keys| && keys[s] != 0 ensures keys[s] > key {
      RehashedKeysLarger(ks, vs, n, keys, values2[..], s);
    }
  }

  lemma StartIsFirstProbe(key: Word, size: nat)
    requires size > 0
    ensures Probe(key, size, 0) == Start(key, size)
  {
  }

  /** Rehashes a table whose pairs are sorted into a fresh table of twice the size. */
  method Rehash(ks: array<Word>, vs: array<Word>) returns (keys2: array<Word>, values2: array<Word>)
    requires ks != vs && ks.Length == vs.Length && PowerOfTwo(2 * ks.Length) && 2 * ks.Length <= UINT32_LIMIT
    requires Distinct(ks[..]) && KeysDescend(ks[..]) && exists e: nat :: e < ks.Length && ks[e] == 0
    ensures fresh(keys2) && fresh(values2) && keys2 != values2
    ensures keys2.Length == values2.Length == 2 * ks.Length
    ensures Sound(keys2[..], values2[..]) && Distinct(keys2[..])
    ensures Contents(keys2[..], values2[..]) == Contents(ks[..], vs[..])
  {
    hide Sound, Distinct, FitsAt, Contents, PowerOfTwo, KeysDescend, Rehashed;
    ghost var keys, values := ks[..], vs[..];
    ghost var e: nat :| e < ks.Length && ks[e] == 0;
    keys2 := new Word[2 * ks.Length](_ => 0);
    values2 := new Word[2 * ks.Length](_ => 0);
    EmptyRehashed(keys, values, keys2[..], values2[..]);
    var i := 0;
    while ks[i] != 0
      invariant i <= e
      invariant Rehashed(keys, values, i, keys2[..], values2[..])
      invariant ks[..] == keys && vs[..] == values
      decreases e - i
    {
      var slot;
      ghost var j;
      slot, j := FirstFree(ks[..], vs[..], i, keys2, values2);
      RehashedNext(keys, values, i, keys2[..], values2[..], slot, j);
      ghost var k2, v2 := keys2[..], values2[..];
      keys2[slot] := ks[i];
      values2[slot] := vs[i];
      assert keys2[..] == k2[slot := ks[i]] && values2[..] == v2[slot := vs[i]];
      i := i + 1;
    }
    RehashDone(keys, values, i, keys2[..], values2[..]);
  }

  lemma RehashDone(ks: seq<Word>, vs: seq<Word>, i: nat, keys2: seq<Word>, values2: seq<Word>)
    requires Rehashed(ks, vs, i, keys2, values2)
    requires i < |ks| && Distinct(ks) && KeysDescend(ks) && ks[i] == 0
    ensures Sound(keys2, values2) && Distinct(keys2) && Contents(keys2, values2) == Contents(ks, vs)
  {
    hide Sound, Contents, KeysDescend;
    PrefixIsAll(ks, vs, i);
  }

  lemma EmptyRehashed(ks: seq<Word>, vs: seq<Word>, keys2: seq<Word>, values2: seq<Word>)
    requires |ks| == |vs| && |keys2| == |values2| == 2 * |ks|
    requires PowerOfTwo(|keys2|) && |keys2| <= UINT32_LIMIT
    requires forall i: nat | i < |keys2| :: keys2[i] == 0 && values2[i] == 0
    ensures Rehashed(ks, vs, 0, keys2, values2)
  {
    assert Occupied(keys2) == {};
    assert Contents(keys2, values2) == map[];
    assert Contents(ks[..0], vs[..0]) == map[];
  }
}
