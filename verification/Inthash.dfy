/** The ordered open-addressing hash table of src/inthash.c and src/inthash.h. */
module Inthash {
  import opened Finite
  import opened Probing
  import opened InthashLayout
  import InthashSort
  import opened InthashStore

  const INITIAL_SIZE: nat := 8

  /** Growth doubles a `uint32_t` size, so the last size that can grow is 2^30. */
  const MAX_SIZE: nat := 0x8000_0000

  datatype SearchResult = SearchResult(value: Word, present: bool)

  class Table {
    var Keys: array?<Word>
    var Values: array?<Word>
    var Size: nat
    var Space: nat

    ghost predicate Valid()
      reads this, Keys, Values
    {
      if Keys == null then
        Values == null && Size == 0 && Space == 0
      else
        && Values != null && Values != Keys
        && Keys.Length == Values.Length == Size
        && StateOk(Keys[..], Values[..], Space)
    }

    /** The map that the table stands for. */
    ghost function Model(): map<Word, Word>
      reads this, Keys, Values
      requires Valid()
    {
      if Keys == null then map[] else Contents(Keys[..], Values[..])
    }

    /** There is no need to grow beyond the largest size. */
    ghost predicate CanInsert(key: Word)
      reads this, Keys, Values
      requires Valid()
    {
      Size < MAX_SIZE || key in Model() || Space - 1 > Size / 4
    }

    constructor ()
      ensures Valid() && Model() == map[] && Keys == null
    {
      Keys, Values, Size, Space := null, null, 0, 0;
    }

    /** `inthash_search`. */
    method Search(key: Word) returns (v: Word)
      requires Valid()
      ensures v == Find(Model(), key)
    {
      if Size == 0 {
        return 0;
      }
      var slot, found := Locate(key);
      return if found then Values[slot] else 0;
    }

    /** `inthash_search2`. */
    method Search2(key: Word) returns (r: SearchResult)
      requires Valid()
      ensures key != 0 ==> r == SearchResult(Find(Model(), key), key in Model())
      ensures key == 0 ==> r == SearchResult(0, Size != 0)
    {
      if Size == 0 {
        return SearchResult(0, false);
      }
      var slot, found := Locate(key);
      return if found then SearchResult(Values[slot], true) else SearchResult(0, false);
    }

    /** The probe loop of the two searches, with the 32-bit index arithmetic of inthash.c. */
    method Locate(key: Word) returns (slot: nat, found: bool)
      requires Valid() && Size != 0
      ensures found ==> slot < Keys.Length && Keys[slot] == key
      ensures !found ==> key != 0 && key !in Keys[..]
    {
      hide Clear, Next32, Next64, Incr32, Stride, Probe, Occupied, PowerOfTwo, Ordered, Distinct;
      ghost var keys := Keys[..];
      ghost var last := EmptySlotOnPath(keys, key);
      slot := Start(key, Size);
      ghost var j := 0;
      StartIsFirstProbe(key, Size);
      NothingBeforeStart(keys, key);
      if Keys[slot] == key {
        return slot, true;
      }
      if Keys[slot] < key {
        AbsentWhenSmaller(keys, key, 0);
        return slot, false;
      }
      var incr := Incr32(key);
      ClearExtends(keys, key, 0);
      ClearStops(keys, key, 1, last);
      while true
        invariant slot == Probe(key, |keys|, j) && Clear(keys, key, j + 1) && j < last
        decreases last - j
      {
        StepsAgree(key, Size, j);
        slot := Next32(slot, incr, Size);
        j := j + 1;
        if Keys[slot] == key {
          return slot, true;
        }
        if !(Keys[slot] > key) {
          AbsentWhenSmaller(keys, key, j);
          return slot, false;
        }
        ClearExtends(keys, key, j);
        ClearStops(keys, key, j + 1, last);
      }
    }

    /** The probe loop of `inthash_search_inline`, `inthash_search2_inline` and
        `inthash_contains_inline`, with their 64-bit index arithmetic. */
    method LocateInline(key: Word) returns (slot: nat, found: bool)
      requires Valid() && Size != 0
      ensures found ==> slot < Keys.Length && Keys[slot] == key
      ensures !found ==> key != 0 && key !in Keys[..]
    {
      hide Clear, Next32, Next64, Incr32, Stride, Probe, Occupied, PowerOfTwo, Ordered, Distinct;
      ghost var keys := Keys[..];
      ghost var last := EmptySlotOnPath(keys, key);
      slot := Start(key, Size);
      ghost var j := 0;
      StartIsFirstProbe(key, Size);
      NothingBeforeStart(keys, key);
      if Keys[slot] == key {
        return slot, true;
      }
      if Keys[slot] < key {
        AbsentWhenSmaller(keys, key, 0);
        return slot, false;
      }
      var incr := Stride(key);
      ClearExtends(keys, key, 0);
      ClearStops(keys, key, 1, last);
      while true
        invariant slot == Probe(key, |keys|, j) && Clear(keys, key, j + 1) && j < last
        decreases last - j
      {
        StepsAgree(key, Size, j);
        slot := Next64(slot, incr, Size);
        j := j + 1;
        if Keys[slot] == key {
          return slot, true;
        }
        if !(Keys[slot] > key) {
          AbsentWhenSmaller(keys, key, j);
          return slot, false;
        }
        ClearExtends(keys, key, j);
        ClearStops(keys, key, j + 1, last);
      }
    }

    /** `inthash_search_inline`. */
    method SearchInline(key: Word) returns (v: Word)
      requires Valid()
      ensures v == Find(Model(), key)
    {
      if Size == 0 {
        return 0;
      }
      var slot, found := LocateInline(key);
      return if found then Values[slot] else 0;
    }

    /** `inthash_search2_inline`. */
    method Search2Inline(key: Word) returns (r: SearchResult)
      requires Valid()
      ensures key != 0 ==> r == SearchResult(Find(Model(), key), key in Model())
      ensures key == 0 ==> r == SearchResult(0, Size != 0)
    {
      if Size == 0 {
        return SearchResult(0, false);
      }
      var slot, found := LocateInline(key);
      return if found then SearchResult(Values[slot], true) else SearchResult(0, false);
    }

    /** `inthash_contains_inline`. */
    method ContainsInline(key: Word) returns (b: bool)
      requires Valid()
      ensures b == if key == 0 then Size != 0 else key in Model()
    {
      if Size == 0 {
        return false;
      }
      var slot, found := LocateInline(key);
      return found;
    }

    /** The probe loop of `inthash_insert`: the slot of the key, or the slot where it belongs. */
    method Seek(key: Word) returns (slot: nat, found: bool, ghost j: nat)
      requires Valid() && Size != 0 && key != 0
      ensures slot < Keys.Length
      ensures found ==> Keys[slot] == key
      ensures !found ==> FitsAt(Keys[..], key, slot, j) && Keys[slot] < key
    {
      hide Clear, Next32, Incr32, Stride, Probe, Occupied, PowerOfTwo, Ordered, Distinct;
      ghost var keys := Keys[..];
      ghost var last := EmptySlotOnPath(keys, key);
      slot := Start(key, Size);
      var incr := Incr32(key);
      j := 0;
      StartIsFirstProbe(key, Size);
      NothingBeforeStart(keys, key);
      while true
        invariant slot == Probe(key, |keys|, j) && Clear(keys, key, j) && slot < |keys| && j <= last
        decreases last - j
      {
        ClearStops(keys, key, j, last);
        if Keys[slot] == key {
          return slot, true, j;
        }
        if Keys[slot] < key {
          AbsentWhenSmaller(keys, key, j);
          return slot, false, j;
        }
        ClearExtends(keys, key, j);
        ClearStops(keys, key, j + 1, last);
        StepsAgree(key, Size, j);
        slot := Next32(slot, incr, Size);
        j := j + 1;
      }
    }

    /** `inthash_insert`: maps the key to the value and returns the old value, or NULL. */
    method Insert(key: Word, value: Word) returns (was: Word)
      requires Valid() && key != 0 && CanInsert(key)
      modifies this, Keys, Values
      ensures Valid() && Keys != null
      ensures Keys == old(Keys) || fresh(Keys)
      ensures Values == old(Values) || fresh(Values)
      ensures was == Find(old(Model()), key)
      ensures Model() == old(Model())[key := value]
    {
      if Keys == null {
        InsertFirst(key, value);
        return 0;
      }
      hide StateOk, Contents, FitsAt, Occupied;
      AllocatedSize(Keys[..], Values[..], Space);
      var slot, found;
      ghost var j;
      slot, found, j := Seek(key);
      if found {
        was := Overwrite(slot, value);
      } else {
        FitsMeansAbsent(Keys[..], key, slot, j);
        InsertNew(slot, key, value, j);
        was := 0;
      }
    }

    /** The key is absent and `slot` is where it belongs. */
    method InsertNew(slot: nat, key: Word, value: Word, ghost j: nat)
      requires Valid() && Keys != null && slot < Size && Keys[slot] < key
      requires Size < MAX_SIZE || Space - 1 > Size / 4
      requires FitsAt(Keys[..], key, slot, j)
      modifies this, Keys, Values
      ensures Valid() && Keys != null
      ensures Keys == old(Keys) || fresh(Keys)
      ensures Values == old(Values) || fresh(Values)
      ensures key !in old(Model()) && Model() == old(Model())[key := value]
    {
      hide StateOk, Sound, Distinct, Occupied, Contents, LoadBounds, FitsAt, PowerOfTwo;
      ghost var keys, values := Keys[..], Values[..];
      StateFacts(keys, values, Space);
      FitsMeansAbsent(keys, key, slot, j);
      Space := Space - 1;
      if Space > Size / 4 {
        DisplaceFrom(Keys, Values, slot, key, value, j);
        LoadAfterInsert(keys, Keys[..]);
        StateFromSound(Keys[..], Values[..], Space);
      } else {
        Grow(slot, key, value);
      }
    }

    /** The key is there already: only its value changes. */
    method Overwrite(slot: nat, value: Word) returns (was: Word)
      requires Valid() && slot < Size && Keys[slot] != 0
      modifies Values
      ensures Valid()
      ensures was == old(Values[slot]) && Keys[slot] in old(Model()) && was == old(Model())[Keys[slot]]
      ensures Model() == old(Model())[Keys[slot] := value]
    {
      hide Contents, Occupied, Ordered, PowerOfTwo;
      ghost var keys, values := Keys[..], Values[..];
      was := Values[slot];
      Values[slot] := value;
      assert Values[..] == values[slot := value] && Keys[..] == keys;
      ContentsUpdate(keys, values, slot, value);
    }

    /** The first insert allocates the table. */
    method InsertFirst(key: Word, value: Word)
      requires Valid() && Keys == null && key != 0
      modifies this
      ensures Valid() && Keys != null && fresh(Keys) && fresh(Values)
      ensures Model() == map[key := value]
    {
      hide StateOk, Sound, Clear, Occupied, Contents, Probe;
      var ks := new Word[INITIAL_SIZE](_ => 0);
      var vs := new Word[INITIAL_SIZE](_ => 0);
      EmptyIsSound(ks[..], vs[..]);
      var slot := Start(key, INITIAL_SIZE);
      StartIsFirstProbe(key, INITIAL_SIZE);
      NothingBeforeStart(ks[..], key);
      var k, v;
      ghost var j;
      k, v, j := Place(ks, vs, slot, key, value, 0);
      StateFromSound(ks[..], vs[..], INITIAL_SIZE - 1);
      assert Contents(ks[..], vs[..]) == map[key := value];
      Keys, Values, Size, Space := ks, vs, INITIAL_SIZE, INITIAL_SIZE - 1;
    }

    /** The growing branch of `inthash_insert`. */
    method Grow(slot: nat, key: Word, value: Word)
      requires Keys != null && Values != null && Keys != Values
      requires Keys.Length == Values.Length == Size && 8 <= Size < MAX_SIZE
      requires PowerOfTwo(Size) && Distinct(Keys[..]) && key != 0 && key !in Keys[..] && slot < Size
      requires |Occupied(Keys[..])| + 1 + Space == Size && 0 < Space <= Size / 4
      modifies this, Keys, Values
      ensures Valid() && Keys != null && fresh(Keys) && fresh(Values)
      ensures Model() == old(Contents(Keys[..], Values[..]))[key := value]
    {
      hide StateOk, Sound, Occupied, Contents, Distinct, PowerOfTwo, LoadBounds;
      PowerOfTwoDouble(Size);
      var keys2, values2 := SortAndRehash(Keys, Values, slot, key, value);
      LoadAfterGrow(Size, Space);
      DoubleFits(Size);
      StateFromSound(keys2[..], values2[..], Space + Size);
      Keys, Values := keys2, values2;
      Space := Space + Size;
      Size := 2 * Size;
    }
  }

  /** Adds the key in any empty slot, sorts the pairs descending and rehashes them. */
  method SortAndRehash(ks: array<Word>, vs: array<Word>, slot: nat, key: Word, value: Word)
    returns (keys2: array<Word>, values2: array<Word>)
    requires ks != vs && ks.Length == vs.Length && slot < ks.Length && PowerOfTwo(2 * ks.Length)
    requires 2 * ks.Length <= UINT32_LIMIT && Distinct(ks[..]) && key != 0 && key !in ks[..]
    requires |Occupied(ks[..])| + 1 < ks.Length
    modifies ks, vs
    ensures fresh(keys2) && fresh(values2) && keys2 != values2
    ensures keys2.Length == values2.Length == 2 * ks.Length
    ensures Sound(keys2[..], values2[..]) && Distinct(keys2[..])
    ensures Contents(keys2[..], values2[..]) == old(Contents(ks[..], vs[..]))[key := value]
    ensures |Occupied(keys2[..])| == old(|Occupied(ks[..])|) + 1
  {
    hide Sound, Occupied, Contents, Distinct, PowerOfTwo, KeysDescend;
    hide InthashSort.Moved, InthashSort.Descending, InthashSort.Pairs;
    ghost var keys, values := ks[..], vs[..];
    var i := NextEmpty(ks, slot);
    ks[i] := key;
    vs[i] := value;
    ghost var keys1, values1 := ks[..], vs[..];
    assert keys1 == keys[i := key] && values1 == values[i := value];
    FillEmpty(keys, values, i, key, value);
    InthashSort.Sort(ks, vs, 0, ks.Length - 1);
    SortedTable(keys1, values1, ks[..], vs[..]);
    keys2, values2 := Rehash(ks, vs);
    ContentsSize(keys2[..], values2[..]);
    ContentsSize(keys1, values1);
  }

  ghost predicate StateOk(keys: seq<Word>, values: seq<Word>, space: nat) {
    && TableOk(keys, space) && |keys| <= MAX_SIZE && space < |keys|
    && EmptiesAreNull(keys, values)
  }

  lemma StateFacts(keys: seq<Word>, values: seq<Word>, space: nat)
    requires StateOk(keys, values, space)
    ensures Sound(keys, values) && Distinct(keys) && PowerOfTwo(|keys|) && 8 <= |keys| <= MAX_SIZE
    ensures |Occupied(keys)| + space == |keys| && LoadBounds(|Occupied(keys)|, |keys|)
    ensures 4 * space > |keys|
    ensures Contents(keys, values).Keys <= (set k | k in keys)
  {
  }

  lemma AllocatedSize(keys: seq<Word>, values: seq<Word>, space: nat)
    requires StateOk(keys, values, space)
    ensures |keys| >= 8
  {
  }

  lemma FitsMeansAbsent(keys: seq<Word>, key: Word, slot: nat, j: nat)
    requires |keys| > 0 && FitsAt(keys, key, slot, j)
    ensures key !in keys
  {
  }

  lemma StateFromSound(keys: seq<Word>, values: seq<Word>, space: nat)
    requires Sound(keys, values) && 8 <= |keys| <= MAX_SIZE
    requires |Occupied(keys)| + space == |keys| && LoadBounds(|Occupied(keys)|, |keys|) && space < |keys|
    ensures StateOk(keys, values, space)
  {
  }

  /** A lookup that answers NULL for a missing key. */
  function Find(m: map<Word, Word>, key: Word): Word {
    if key in m then m[key] else 0
  }

  lemma NothingBeforeStart(keys: seq<Word>, key: Word)
    requires |keys| > 0
    ensures Clear(keys, key, 0)
  {
  }

  lemma EmptyIsSound(keys: seq<Word>, values: seq<Word>)
    requires |keys| == |values| == INITIAL_SIZE
    requires forall i: nat | i < |keys| :: keys[i] == 0 && values[i] == 0
    ensures Sound(keys, values) && Occupied(keys) == {} && Contents(keys, values) == map[]
  {
    assert PowerOfTwo(INITIAL_SIZE) by {
      PowerOfTwoDouble(2);
      PowerOfTwoDouble(4);
    }
  }

  lemma EightDivides(n: nat)
    requires PowerOfTwo(n) && n >= 8
    ensures n % 8 == 0
  {
    EmptyIsSound([0, 0, 0, 0, 0, 0, 0, 0], [0, 0, 0, 0, 0, 0, 0, 0]);
    PowersDivide(8, n);
  }

  /** The only size that cannot grow is 2^31 itself. */
  lemma DoubleFits(size: nat)
    requires PowerOfTwo(size) && size < MAX_SIZE
    ensures 2 * size <= MAX_SIZE
  {
    PowerOfTwoTimes65536(1);
    PowerOfTwoTimes16(0x1_0000);
    PowerOfTwoTimes16(0x10_0000);
    PowerOfTwoTimes16(0x100_0000);
    PowerOfTwoDouble(0x1000_0000);
    PowerOfTwoDouble(0x2000_0000);
    PowerOfTwoDouble(0x4000_0000);
    PowersDivide(size, MAX_SIZE);
    DivisibleAtLeastTwice(size, MAX_SIZE);
  }

  lemma LoadAfterInsert(before: seq<Word>, after: seq<Word>)
    requires PowerOfTwo(|before|) && |before| >= 8 && |after| == |before|
    requires LoadBounds(|Occupied(before)|, |before|)
    requires |Occupied(after)| == |Occupied(before)| + 1
    requires |before| - |Occupied(after)| > |before| / 4
    ensures LoadBounds(|Occupied(after)|, |after|)
  {
    EightDivides(|before|);
  }

  lemma LoadAfterGrow(size: nat, space: nat)
    requires PowerOfTwo(size) && size >= 8 && 0 < space <= size / 4
    ensures LoadBounds(size - space, 2 * size)
  {
    EightDivides(size);
  }

  /** Filling any empty slot adds the key, whether or not the slot is on its probe sequence. */
  lemma FillEmpty(keys: seq<Word>, values: seq<Word>, i: nat, key: Word, value: Word)
    requires |keys| == |values| && Distinct(keys) && i < |keys| && keys[i] == 0
    requires key != 0 && key !in keys
    ensures Distinct(keys[i := key])
    ensures Contents(keys[i := key], values[i := value]) == Contents(keys, values)[key := value]
    ensures |Occupied(keys[i := key])| == |Occupied(keys)| + 1
  {
    ContentsOverwrite(keys, values, i, key, value);
    ContentsNoZero(keys, values);
    OccupiedOverwrite(keys, i, key);
  }

  /** What the rehash may assume of the sorted table. */
  lemma SortedTable(keys: seq<Word>, values: seq<Word>, keys': seq<Word>, values': seq<Word>)
    requires |keys| == |values| == |keys'| == |values'| && Distinct(keys) && |Occupied(keys)| < |keys|
    requires InthashSort.Moved(InthashSort.Pairs(keys, values), InthashSort.Pairs(keys', values'), 0, |keys| - 1)
    requires InthashSort.Descending(InthashSort.Pairs(keys', values'), 0, |keys|)
    ensures Distinct(keys') && KeysDescend(keys')
    ensures Contents(keys', values') == Contents(keys, values)
    ensures |Occupied(keys')| == |Occupied(keys)|
    ensures exists e: nat :: e < |keys'| && keys'[e] == 0
  {
    hide Contents, Occupied, InthashSort.Moved;
    InthashSort.MovedContents(keys, values, keys', values', 0, |keys| - 1);
    ContentsSize(keys, values);
    ContentsSize(keys', values');
    var e := EmptySlot(keys');
    forall i, j | 0 <= i < j < |keys'| ensures keys'[i] >= keys'[j] {
      assert InthashSort.Pairs(keys', values')[i].0 >= InthashSort.Pairs(keys', values')[j].0;
    }
  }

  // ---------------------------------------------------------------- runs

  /** `Size - Space` is the number of keys, and more than a quarter of the slots is free. */
  lemma CountIsSizeMinusSpace(t: Table)
    requires t.Valid()
    ensures |t.Model()| == t.Size - t.Space
    ensures t.Size != 0 ==> 4 * t.Space > t.Size
  {
    if t.Keys != null {
      ContentsSize(t.Keys[..], t.Values[..]);
    }
  }

  /** A table of 2^31 slots has to grow when it holds this many keys. */
  const MAX_COUNT: nat := 0x5FFF_FFFF

  /** A key can be inserted if and only if it is there already or there are fewer keys than that. */
  lemma RoomToInsert(t: Table, key: Word)
    requires t.Valid()
    ensures t.CanInsert(key) <==> key in t.Model() || |t.Model()| < MAX_COUNT
  {
    hide PowerOfTwo, Contents, Occupied, Sound, Ordered, Distinct;
    CountIsSizeMinusSpace(t);
    if t.Keys != null {
      SizeFacts(t.Keys[..], t.Values[..], t.Space);
      if t.Size < MAX_SIZE {
        HalfAtMost(t.Size);
      }
    }
  }

  lemma SizeFacts(keys: seq<Word>, values: seq<Word>, space: nat)
    requires StateOk(keys, values, space)
    ensures PowerOfTwo(|keys|) && |keys| <= MAX_SIZE
    ensures |Occupied(keys)| + space == |keys| && LoadBounds(|Occupied(keys)|, |keys|)
  {
  }

  lemma HalfAtMost(size: nat)
    requires PowerOfTwo(size) && size < MAX_SIZE
    ensures 2 * size <= MAX_SIZE
  {
    WordSizesArePowers();
    assert PowerOfTwo(2 * MAX_SIZE);
    PowersApart(size, MAX_SIZE);
  }

  /** The layout of a reachable table depends on its key set alone. */
  lemma LayoutDependsOnKeys(a: Table, b: Table)
    requires a.Valid() && b.Valid() && a.Model().Keys == b.Model().Keys
    ensures a.Size == b.Size && a.Space == b.Space
    ensures (a.Keys == null) == (b.Keys == null)
    ensures a.Keys != null ==> a.Keys[..] == b.Keys[..]
  {
    CountIsSizeMinusSpace(a);
    CountIsSizeMinusSpace(b);
    if a.Keys != null && b.Keys != null {
      forall x: Word | x != 0 ensures x in a.Keys[..] <==> x in b.Keys[..] {
        assert x in a.Keys[..] <==> x in a.Model();
        assert x in b.Keys[..] <==> x in b.Model();
      }
      LayoutIsCanonical(a.Keys[..], a.Space, b.Keys[..], b.Space);
    }
  }

  type Op = (Word, Word)

  /** What a run of inserts leaves in a map. */
  ghost function Applied(m: map<Word, Word>, ops: seq<Op>): map<Word, Word>
    decreases |ops|
  {
    if ops == [] then m else Applied(m[ops[0].0 := ops[0].1], ops[1..])
  }

  lemma {:induction false} AppliedKeys(m: map<Word, Word>, ops: seq<Op>)
    ensures Applied(m, ops).Keys == m.Keys + KeysOf(ops)
    decreases |ops|
  {
    if ops == [] {
    } else {
      var m' := m[ops[0].0 := ops[0].1];
      AppliedKeys(m', ops[1..]);
      assert ops == [ops[0]] + ops[1..];
      assert m'.Keys == m.Keys + {ops[0].0};
    }
  }

  ghost function KeysOf(ops: seq<Op>): set<Word> {
    set op | op in ops :: op.0
  }

  /** A map with some of the keys that are to come, and not with this one, is smaller than their number. */
  lemma KeyToCome(m: map<Word, Word>, ops: seq<Op>, i: nat)
    requires i < |ops| && m.Keys <= KeysOf(ops)
    ensures ops[i].0 in KeysOf(ops) && (ops[i].0 in m || |m| < |KeysOf(ops)|)
  {
    var k := ops[i].0;
    assert ops[i] in ops;
    if k !in m {
      SubsetSmaller(m.Keys + {k}, KeysOf(ops));
      assert |m.Keys + {k}| == |m| + 1;
    }
  }

  /** One insert of a run. */
  method InsertNext(t: Table, ops: seq<Op>, i: nat)
    requires t.Valid() && i < |ops| && t.Model().Keys <= KeysOf(ops)
    requires |KeysOf(ops)| <= MAX_COUNT && 0 !in KeysOf(ops)
    modifies t, t.Keys, t.Values
    ensures t.Valid() && t.Keys != null
    ensures t.Keys == old(t.Keys) || fresh(t.Keys)
    ensures t.Values == old(t.Values) || fresh(t.Values)
    ensures t.Model().Keys <= KeysOf(ops) && Applied(t.Model(), ops[i + 1..]) == Applied(old(t.Model()), ops[i..])
  {
    hide StateOk, Contents, KeysOf;
    KeyToCome(t.Model(), ops, i);
    RoomToInsert(t, ops[i].0);
    assert ops[i..][0] == ops[i] && ops[i..][1..] == ops[i + 1..];
    var was := t.Insert(ops[i].0, ops[i].1);
  }

  /** A run of inserts from an empty table. */
  method Build(ops: seq<Op>) returns (t: Table)
    requires |KeysOf(ops)| <= MAX_COUNT && 0 !in KeysOf(ops)
    ensures fresh(t) && t.Valid() && t.Model() == Applied(map[], ops)
  {
    t := new Table();
    for i := 0 to |ops|
      invariant t.Valid() && fresh(t) && (t.Keys != null ==> fresh(t.Keys)) && (t.Values != null ==> fresh(t.Values))
      invariant Applied(t.Model(), ops[i..]) == Applied(map[], ops)
      invariant t.Model().Keys <= KeysOf(ops)
    {
      InsertNext(t, ops, i);
    }
  }

  /** Two runs that insert the same set of keys, in any order and with any repeats, end in tables
      with the same layout. */
  method BuildTwice(ops: seq<Op>, ops': seq<Op>) returns (a: Table, b: Table)
    requires KeysOf(ops) == KeysOf(ops') && |KeysOf(ops)| <= MAX_COUNT && 0 !in KeysOf(ops)
    ensures a.Valid() && b.Valid() && a.Size == b.Size && a.Space == b.Space
    ensures (a.Keys == null) == (b.Keys == null) && (a.Keys != null ==> a.Keys[..] == b.Keys[..])
  {
    a := Build(ops);
    b := Build(ops');
    AppliedKeys(map[], ops);
    AppliedKeys(map[], ops');
    LayoutDependsOnKeys(a, b);
  }
}
