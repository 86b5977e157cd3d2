/** The contents and the slot invariant of an inthash as facts about its `Keys` and `Values`
    sequences, and the theorem that the layout of the keys is canonical. */
module InthashLayout {
  import opened Arithmetic
  import opened Finite
  import opened Probing

  // ---------------------------------------------------------------- the slot invariant

  /** Key 0 marks an empty slot; no other key appears twice. */
  ghost predicate Distinct(keys: seq<Word>) {
    forall i, j | 0 <= i < j < |keys| :: keys[i] != 0 ==> keys[i] != keys[j]
  }

  /** The first `j` slots that `key` probes all hold larger keys. */
  ghost predicate Clear(keys: seq<Word>, key: Word, j: nat)
    requires |keys| > 0
  {
    forall i: nat | i < j :: keys[Probe(key, |keys|, i)] > key
  }

  /** The key in slot `i` is at the first slot of its probe sequence that holds no larger key. */
  ghost predicate Settled(keys: seq<Word>, i: nat)
    requires i < |keys|
  {
    exists j: nat :: Probe(keys[i], |keys|, j) == i && j < |keys| && Clear(keys, keys[i], j)
  }

  ghost predicate Ordered(keys: seq<Word>) {
    forall i: nat | i < |keys| :: keys[i] != 0 ==> Settled(keys, i)
  }

  function Occupied(keys: seq<Word>): (s: set<nat>)
    ensures forall i: nat :: i in s <==> i < |keys| && keys[i] != 0
  {
    set i: nat | i in Below(|keys|) && keys[i] != 0
  }

  /** The number of keys fits the number of slots: more than a quarter is free, and a table that
      has grown was filled to three quarters at half its size. */
  predicate LoadBounds(count: nat, size: nat) {
    && 4 * count < 3 * size
    && (size == 8 || 8 * count >= 3 * size)
  }

  /** Everything an inthash keeps about `Keys`, `Size == |keys|` and `Space`. */
  ghost predicate TableOk(keys: seq<Word>, space: nat) {
    && PowerOfTwo(|keys|) && 8 <= |keys| <= UINT32_LIMIT
    && Distinct(keys)
    && Ordered(keys)
    && |Occupied(keys)| + space == |keys|
    && LoadBounds(|Occupied(keys)|, |keys|)
  }

  // ---------------------------------------------------------------- contents

  ghost function Contents(keys: seq<Word>, values: seq<Word>): (m: map<Word, Word>)
    requires |keys| == |values| && Distinct(keys)
    ensures forall i: nat | i < |keys| :: keys[i] != 0 ==> keys[i] in m && m[keys[i]] == values[i]
    ensures forall k :: k in m ==> k != 0 && k in keys
  {
    map i: nat | i in Occupied(keys) :: keys[i] := values[i]
  }

  lemma ContentsSize(keys: seq<Word>, values: seq<Word>)
    requires |keys| == |values| && Distinct(keys)
    ensures |Contents(keys, values)| == |Occupied(keys)|
  {
    KeySetSize(keys, Occupied(keys));
    assert Contents(keys, values).Keys == KeySet(keys, Occupied(keys));
  }

  function KeySet(keys: seq<Word>, slots: set<nat>): set<Word>
    requires forall i | i in slots :: i < |keys|
  {
    set i | i in slots :: keys[i]
  }

  lemma {:induction false} KeySetSize(keys: seq<Word>, slots: set<nat>)
    requires Distinct(keys)
    requires forall i | i in slots :: i < |keys| && keys[i] != 0
    ensures |KeySet(keys, slots)| == |slots|
    decreases |slots|
  {
    if slots == {} {
      assert KeySet(keys, slots) == {};
    } else {
      var i :| i in slots;
      KeySetSize(keys, slots - {i});
      assert keys[i] !in KeySet(keys, slots - {i});
      assert KeySet(keys, slots) == KeySet(keys, slots - {i}) + {keys[i]};
    }
  }

  lemma ContentsAre(keys: seq<Word>, values: seq<Word>, m: map<Word, Word>)
    requires |keys| == |values| && Distinct(keys)
    requires forall i: nat | i < |keys| :: keys[i] != 0 ==> keys[i] in m && m[keys[i]] == values[i]
    requires forall k :: k in m ==> k != 0 && k in keys
    ensures Contents(keys, values) == m
  {
    var c := Contents(keys, values);
    assert c.Keys == m.Keys;
  }

  lemma StillThere(keys: seq<Word>, i: nat, k: Word, x: Word)
    requires i < |keys| && (x == k || (x in keys && x != keys[i]))
    ensures x in keys[i := k]
  {
    if x == k {
      assert keys[i := k][i] == k;
    } else {
      var s :| 0 <= s < |keys| && keys[s] == x;
      assert keys[i := k][s] == x;
    }
  }

  /** Overwriting a slot with a new key replaces the key that was there. */
  lemma ContentsOverwrite(keys: seq<Word>, values: seq<Word>, i: nat, k: Word, v: Word)
    requires |keys| == |values| && Distinct(keys) && i < |keys| && k != 0 && k !in keys
    ensures Distinct(keys[i := k])
    ensures Contents(keys[i := k], values[i := v]) == (Contents(keys, values) - {keys[i]})[k := v]
  {
    var m := (Contents(keys, values) - {keys[i]})[k := v];
    forall x | x in m ensures x in keys[i := k] {
      StillThere(keys, i, k, x);
    }
    ContentsAre(keys[i := k], values[i := v], m);
  }

  lemma ContentsUpdate(keys: seq<Word>, values: seq<Word>, i: nat, v: Word)
    requires |keys| == |values| && Distinct(keys) && i < |keys| && keys[i] != 0
    ensures Contents(keys, values[i := v]) == Contents(keys, values)[keys[i] := v]
  {
    ContentsAre(keys, values[i := v], Contents(keys, values)[keys[i] := v]);
  }

  // ---------------------------------------------------------------- searching

  /** A probe sequence always meets an empty slot. */
  lemma EmptySlotOnPath(keys: seq<Word>, key: Word) returns (j: nat)
    requires PowerOfTwo(|keys|) && |Occupied(keys)| < |keys|
    ensures j < |keys| && keys[Probe(key, |keys|, j)] == 0
  {
    var i := EmptySlot(keys);
    j := ProbeReaches(key, |keys|, i);
  }

  lemma EmptySlot(keys: seq<Word>) returns (i: nat)
    requires |Occupied(keys)| < |keys|
    ensures i < |keys| && keys[i] == 0
  {
    if forall i: nat | i < |keys| :: keys[i] != 0 {
      assert Occupied(keys) == Below(|keys|);
      assert false;
    }
    i :| i < |keys| && keys[i] == 0;
  }

  /** A search that has passed only larger keys and stands on a smaller one can stop: the key is
      nowhere in the table. */
  lemma AbsentWhenSmaller(keys: seq<Word>, key: Word, j: nat)
    requires |keys| > 0 && Ordered(keys)
    requires Clear(keys, key, j) && keys[Probe(key, |keys|, j)] < key
    ensures key !in keys
  {
  }

  // ---------------------------------------------------------------- inserting

  /** Raising the key in some slot keeps what was clear clear. */
  lemma ClearMonotone(keys: seq<Word>, i: nat, k: Word, key: Word, j: nat)
    requires i < |keys| && keys[i] <= k && Clear(keys, key, j)
    ensures Clear(keys[i := k], key, j)
  {
  }

  /** Putting a key into the first slot of its probe sequence that holds no larger key keeps every
      other key settled, and leaves the displaced key clear up to the slot it is leaving. */
  lemma Displace(keys: seq<Word>, i: nat, k: Word, j: nat)
    requires i < |keys| && Ordered(keys) && k > keys[i]
    requires Probe(k, |keys|, j) == i && j < |keys| && Clear(keys, k, j)
    ensures Ordered(keys[i := k])
    ensures keys[i] != 0 ==>
              exists h: nat :: Probe(keys[i], |keys|, h) == i && h < |keys| && Clear(keys[i := k], keys[i], h)
  {
    var keys' := keys[i := k];
    forall s: nat | s < |keys'| && keys'[s] != 0 ensures Settled(keys', s) {
      if s == i {
        ClearMonotone(keys, i, k, k, j);
        assert Probe(keys'[s], |keys'|, j) == s;
      } else {
        assert Settled(keys, s);
        var h: nat :| Probe(keys[s], |keys|, h) == s && h < |keys| && Clear(keys, keys[s], h);
        ClearMonotone(keys, i, k, keys[s], h);
        assert Probe(keys'[s], |keys'|, h) == s;
      }
    }
    if keys[i] != 0 {
      assert Settled(keys, i);
      var h: nat :| Probe(keys[i], |keys|, h) == i && h < |keys| && Clear(keys, keys[i], h);
      ClearMonotone(keys, i, k, keys[i], h);
    }
  }

  lemma OccupiedOverwrite(keys: seq<Word>, i: nat, k: Word)
    requires i < |keys| && k != 0
    ensures Occupied(keys[i := k]) == Occupied(keys) + {i}
    ensures |Occupied(keys[i := k])| == |Occupied(keys)| + if keys[i] == 0 then 1 else 0
  {
    assert Occupied(keys[i := k]) == Occupied(keys) + {i};
    if keys[i] != 0 {
      assert Occupied(keys) + {i} == Occupied(keys);
    }
  }

  // ---------------------------------------------------------------- canonicity

  /** The number of keys determines the size of the table. */
  lemma {:induction false} SizeDetermined(count: nat, m: nat, n: nat)
    requires PowerOfTwo(m) && PowerOfTwo(n) && m >= 8 && n >= 8
    requires LoadBounds(count, m) && LoadBounds(count, n)
    ensures m == n
  {
    if m < n {
      PowersDivide(m, n);
      DivisibleAtLeastTwice(m, n);
    } else if n < m {
      PowersDivide(n, m);
      DivisibleAtLeastTwice(n, m);
    }
  }

  lemma DivisibleAtLeastTwice(m: nat, n: nat)
    requires 0 < m < n && n % m == 0
    ensures n >= 2 * m
  {
    if n < 2 * m {
      ModUnique(n, m, 1, n - m);
    }
  }

  lemma FirstFit(keys: seq<Word>, i: nat) returns (j: nat)
    requires i < |keys| && keys[i] != 0 && Ordered(keys)
    ensures j < |keys| && Probe(keys[i], |keys|, j) == i && Clear(keys, keys[i], j)
  {
    assert Settled(keys, i);
    j :| Probe(keys[i], |keys|, j) == i && j < |keys| && Clear(keys, keys[i], j);
  }

  /** Two settled tables of one size that hold the same keys hold them in the same slots. The proof
      takes the largest key that the tables place differently. */
  lemma {:induction false} SameSlots(a: seq<Word>, b: seq<Word>, i: nat)
    requires |a| == |b| && Distinct(a) && Distinct(b) && Ordered(a) && Ordered(b)
    requires forall x: Word | x != 0 :: x in a <==> x in b
    requires i < |a| && a[i] != 0
    ensures b[i] == a[i]
    decreases WORD_LIMIT - a[i]
  {
    var k := a[i];
    assert k in b;
    var i': nat :| i' < |b| && b[i'] == k;
    var j := FirstFit(a, i);
    var j' := FirstFit(b, i');
    if j < j' {
      assert b[Probe(k, |b|, j)] > k;
      SameSlots(b, a, i);
    } else if j' < j {
      assert a[Probe(k, |a|, j')] > k;
      SameSlots(a, b, i');
    }
  }

  /** The layout is canonical: `Size`, `Space` and the whole `Keys` array depend only on the set of
      keys in the table, whatever inserts led there. */
  lemma LayoutIsCanonical(a: seq<Word>, spaceA: nat, b: seq<Word>, spaceB: nat)
    requires TableOk(a, spaceA) && TableOk(b, spaceB)
    requires forall x: Word | x != 0 :: x in a <==> x in b
    ensures |a| == |b| && spaceA == spaceB && a == b
  {
    KeySetSize(a, Occupied(a));
    KeySetSize(b, Occupied(b));
    var ka, kb := KeySet(a, Occupied(a)), KeySet(b, Occupied(b));
    forall x: Word ensures x in ka <==> x in kb {
      if x in ka {
        assert x in b;
        var i: nat :| i < |b| && b[i] == x;
        assert i in Occupied(b);
      }
      if x in kb {
        assert x in a;
        var i: nat :| i < |a| && a[i] == x;
        assert i in Occupied(a);
      }
    }
    assert ka == kb;
    SizeDetermined(|Occupied(a)|, |a|, |b|);
    forall i: nat | i < |a| ensures a[i] == b[i] {
      if a[i] != 0 {
        SameSlots(a, b, i);
      } else if b[i] != 0 {
        SameSlots(b, a, i);
      }
    }
  }
}
