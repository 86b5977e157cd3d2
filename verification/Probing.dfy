/** Arithmetic of the probe sequence of an inthash (src/inthash.c): a key starts at
    `(Key >> 6) & Mask` and steps by `(Key >> 9) | 1`, which is odd, so that in a table whose
    size is a power of two it visits every slot exactly once before it repeats. */
module Probing {
  import opened Arithmetic
  import opened Finite

  const WORD_LIMIT: int := 0x1_0000_0000_0000_0000
  const UINT32_LIMIT: int := 0x1_0000_0000

  /** A `uintptr_t`. */
  type Word = x: int | 0 <= x < WORD_LIMIT

  predicate PowerOfTwo(n: int) {
    n == 1 || (n > 1 && n % 2 == 0 && PowerOfTwo(n / 2))
  }

  /** `(Key >> INTHASH_INDEX_SHIFT) & (size - 1)`. */
  function Start(key: Word, size: nat): (i: nat)
    requires size > 0
    ensures i < size
  {
    (key / 64) % size
  }

  /** `(Key >> INTHASH_INCR_SHIFT) | 1`, as a 64-bit value. */
  function Stride(key: Word): (d: Word)
    ensures d % 2 == 1
  {
    var x := key / 512;
    if x % 2 == 0 then x + 1 else x
  }

  /** The slot reached after `j` steps of `d` from `s` around a table of `size` slots. */
  function Walk(s: nat, d: nat, size: nat, j: nat): (i: nat)
    requires s < size && d < size
    ensures i < size
  {
    if j == 0 then s else Wrap(Walk(s, d, size, j - 1) + d, size)
  }

  function Wrap(t: nat, size: nat): (i: nat)
    requires t < 2 * size
    ensures i < size
  {
    if t >= size then t - size else t
  }

  /** The slot that `key` probes after `j` steps. */
  function Probe(key: Word, size: nat, j: nat): (i: nat)
    requires size > 0
    ensures i < size
  {
    Walk(Start(key, size), Stride(key) % size, size, j)
  }

  /** The increment as inthash.c keeps it, truncated to `uint32_t`. */
  function Incr32(key: Word): (d: nat) {
    Stride(key) % UINT32_LIMIT
  }

  /** `(index + incr) & mask` in `uint32_t` arithmetic, as in inthash.c: the sum may wrap. */
  function Next32(index: nat, incr: nat, size: nat): (i: nat)
    requires size > 0
    ensures i < size
  {
    ((index + incr) % UINT32_LIMIT) % size
  }

  /** `(index + incr) & mask` in `size_t` arithmetic, as in the inline searches of inthash.h. */
  function Next64(index: nat, incr: nat, size: nat): (i: nat)
    requires size > 0
    ensures i < size
  {
    ((index + incr) % WORD_LIMIT) % size
  }

  // ---------------------------------------------------------------- powers of two

  lemma {:induction false} PowersDivide(n: nat, m: nat)
    requires PowerOfTwo(n) && PowerOfTwo(m) && n <= m
    ensures m % n == 0
    decreases m
  {
    if n == 1 {
    } else {
      PowersDivide(n / 2, m / 2);
      var k := (m / 2) / (n / 2);
      assert m / 2 == (n / 2) * k;
      assert m == n * k + 0 by {
        assert m == 2 * (m / 2) && n == 2 * (n / 2);
        assert 2 * ((n / 2) * k) == (2 * (n / 2)) * k;
      }
      ModUnique(m, n, k, 0);
    }
  }

  lemma {:induction false} PowersApart(n: nat, m: nat)
    requires PowerOfTwo(n) && PowerOfTwo(m) && n < m
    ensures 2 * n <= m
    decreases m
  {
    if n > 1 {
      PowersApart(n / 2, m / 2);
    }
  }

  lemma PowerOfTwoDouble(n: nat)
    requires PowerOfTwo(n)
    ensures PowerOfTwo(2 * n)
  {
  }

  lemma PowerOfTwoTimes16(n: nat)
    requires PowerOfTwo(n)
    ensures PowerOfTwo(16 * n)
  {
    PowerOfTwoDouble(n);
    PowerOfTwoDouble(2 * n);
    PowerOfTwoDouble(4 * n);
    PowerOfTwoDouble(8 * n);
  }

  lemma PowerOfTwoTimes65536(n: nat)
    requires PowerOfTwo(n)
    ensures PowerOfTwo(0x1_0000 * n)
  {
    PowerOfTwoTimes16(n);
    PowerOfTwoTimes16(0x10 * n);
    PowerOfTwoTimes16(0x100 * n);
    PowerOfTwoTimes16(0x1000 * n);
  }

  lemma WordSizesArePowers()
    ensures PowerOfTwo(UINT32_LIMIT) && PowerOfTwo(WORD_LIMIT)
  {
    PowerOfTwoTimes65536(1);
    PowerOfTwoTimes65536(0x1_0000);
    PowerOfTwoTimes65536(0x1_0000_0000);
    PowerOfTwoTimes65536(0x1_0000_0000_0000);
  }

  lemma WrapIsMod(i: nat, d: nat, size: nat)
    requires i < size
    ensures (i + d) % size == Wrap(i + d % size, size)
  {
    var q, r := d / size, d % size;
    assert d == size * q + r;
    if i + r >= size {
      assert i + d == size * (q + 1) + (i + r - size);
      ModUnique(i + d, size, q + 1, i + r - size);
    } else {
      ModUnique(i + d, size, q, i + r);
    }
  }

  lemma Step32IsModStep(index: nat, d: Word, size: nat)
    requires PowerOfTwo(size) && size <= UINT32_LIMIT
    ensures ((index + d % UINT32_LIMIT) % UINT32_LIMIT) % size == (index + d) % size
  {
    WordSizesArePowers();
    PowersDivide(size, UINT32_LIMIT);
    var t := d % UINT32_LIMIT;
    ModMod(index + t, UINT32_LIMIT, size);
    ModMod(d, UINT32_LIMIT, size);
    SameRemainder(index, t, d, size);
  }

  lemma SameRemainder(x: int, y: int, z: int, n: int)
    requires n > 0 && y % n == z % n
    ensures (x + y) % n == (x + z) % n
  {
    ModAddMod2(x, y, n);
    ModAddMod2(x, z, n);
  }

  lemma Step64IsModStep(index: nat, d: Word, size: nat)
    requires PowerOfTwo(size) && size <= WORD_LIMIT
    ensures ((index + d) % WORD_LIMIT) % size == (index + d) % size
  {
    WordSizesArePowers();
    PowersDivide(size, WORD_LIMIT);
    ModMod(index + d, WORD_LIMIT, size);
  }

  /** The 32-bit and the 64-bit steps both move along the probe sequence: no wrap-around and no
      truncation is visible behind the mask. */
  lemma StepsAgree(key: Word, size: nat, j: nat)
    requires PowerOfTwo(size) && size <= UINT32_LIMIT
    ensures Next32(Probe(key, size, j), Incr32(key), size) == Probe(key, size, j + 1)
    ensures Next64(Probe(key, size, j), Stride(key), size) == Probe(key, size, j + 1)
  {
    var i := Probe(key, size, j);
    Step32IsModStep(i, Stride(key), size);
    Step64IsModStep(i, Stride(key), size);
    WrapIsMod(i, Stride(key), size);
  }

  /** How often a walk has wrapped around the table. */
  function Wraps(s: nat, d: nat, size: nat, j: nat): (w: nat)
    requires s < size && d < size
  {
    if j == 0 then 0
    else Wraps(s, d, size, j - 1) + if Walk(s, d, size, j - 1) + d >= size then 1 else 0
  }

  lemma LinearStep(s: int, d: int, size: int, j: int, w: int, r: int)
    requires s + (j - 1) * d == size * w + r
    ensures s + j * d == size * w + (r + d)
    ensures s + j * d == size * (w + 1) + (r + d - size)
  {
    assert j * d == (j - 1) * d + d;
    assert size * (w + 1) == size * w + size;
  }

  lemma {:induction false} WalkIsLinear(s: nat, d: nat, size: nat, j: nat)
    requires s < size && d < size
    ensures s + j * d == size * Wraps(s, d, size, j) + Walk(s, d, size, j)
  {
    if j == 0 {
      assert 0 * d == 0 && size * 0 == 0;
    } else {
      var w, r := Wraps(s, d, size, j - 1), Walk(s, d, size, j - 1);
      WalkIsLinear(s, d, size, j - 1);
      LinearStep(s, d, size, j, w, r);
      if r + d >= size {
        assert Wraps(s, d, size, j) == w + 1;
        assert Walk(s, d, size, j) == r + d - size;
      } else {
        assert Wraps(s, d, size, j) == w;
        assert Walk(s, d, size, j) == r + d;
      }
    }
  }

  lemma HalveProduct(size: int, q: int, h: int, d: int)
    requires size % 2 == 0 && (2 * h) * d == size * q
    ensures h * d == (size / 2) * q
  {
    var s := size / 2;
    assert (2 * h) * d == 2 * (h * d);
    assert (2 * s) * q == 2 * (s * q);
  }

  lemma DoubleMultiple(size: nat, h: int)
    requires size > 0 && size % 2 == 0 && h % (size / 2) == 0
    ensures (2 * h) % size == 0
  {
    var s := size / 2;
    var k := h / s;
    assert h == s * k;
    assert 2 * (s * k) == (2 * s) * k;
    ModUnique(2 * h, size, k, 0);
  }

  lemma OddFactorEven(m: int, d: int)
    requires d % 2 == 1 && (m * d) % 2 == 0
    ensures m % 2 == 0
  {
    var e := d / 2;
    assert m * d == m * (2 * e + 1) == 2 * (m * e) + m;
  }

  /** An odd factor can be cancelled from a multiple of a power of two. */
  lemma {:induction false} OddCancels(size: nat, m: nat, d: nat)
    requires PowerOfTwo(size) && d % 2 == 1 && (m * d) % size == 0
    ensures m % size == 0
  {
    if size == 1 {
    } else {
      var q := (m * d) / size;
      assert m * d == size * q;
      ModMod(m * d, size, 2);
      OddFactorEven(m, d);
      var h := m / 2;
      HalveProduct(size, q, h, d);
      ModUnique(h * d, size / 2, q, 0);
      OddCancels(size / 2, h, d);
      DoubleMultiple(size, h);
    }
  }

  lemma ProductDifference(h: int, d: int, i: int, j: int, size: nat, v: int, w: int, r: int)
    requires size > 0
    requires h + i * d == size * v + r && h + j * d == size * w + r
    ensures ((j - i) * d) % size == 0
  {
    assert (j - i) * d == j * d - i * d;
    assert size * (w - v) == size * w - size * v;
    ModUnique((j - i) * d, size, w - v, 0);
  }

  lemma NoSmallMultiple(size: nat, m: nat, d: nat)
    requires PowerOfTwo(size) && d % 2 == 1 && 0 < m < size
    ensures (m * d) % size != 0
  {
    if (m * d) % size == 0 {
      OddCancels(size, m, d);
      ModUnique(m, size, 0, m);
    }
  }

  lemma WalkInjective(s: nat, d: nat, size: nat, i: nat, j: nat)
    requires PowerOfTwo(size) && d % 2 == 1 && i < j < size && s < size && d < size
    ensures Walk(s, d, size, i) != Walk(s, d, size, j)
  {
    var r, r' := Walk(s, d, size, i), Walk(s, d, size, j);
    var v, w := Wraps(s, d, size, i), Wraps(s, d, size, j);
    WalkIsLinear(s, d, size, i);
    WalkIsLinear(s, d, size, j);
    NoSmallMultiple(size, j - i, d);
    if r == r' {
      ProductDifference(s, d, i, j, size, v, w, r);
    }
  }

  lemma OddModEven(d: nat, size: nat)
    requires d % 2 == 1 && size > 0 && size % 2 == 0
    ensures (d % size) % 2 == 1
  {
    ModMod(d, size, 2);
  }

  /** No slot is probed twice in the first `size` probes of a key. */
  lemma ProbeInjective(key: Word, size: nat, i: nat, j: nat)
    requires PowerOfTwo(size) && i < j < size
    ensures Probe(key, size, i) != Probe(key, size, j)
  {
    OddModEven(Stride(key), size);
    WalkInjective(Start(key, size), Stride(key) % size, size, i, j);
  }

  // ---------------------------------------------------------------- the full cycle

  function Visited(key: Word, size: nat, n: nat): (s: set<nat>)
    requires size > 0
  {
    set j: nat | j < n :: Probe(key, size, j)
  }

  lemma {:induction false} VisitedSize(key: Word, size: nat, n: nat)
    requires PowerOfTwo(size) && n <= size
    ensures |Visited(key, size, n)| == n
  {
    if n == 0 {
    } else {
      VisitedSize(key, size, n - 1);
      forall j: nat | j < n - 1 ensures Probe(key, size, j) != Probe(key, size, n - 1) {
        ProbeInjective(key, size, j, n - 1);
      }
      assert Visited(key, size, n) == Visited(key, size, n - 1) + {Probe(key, size, n - 1)};
    }
  }

  /** Every slot is reached within `size` probes, from any key. */
  lemma ProbeReaches(key: Word, size: nat, slot: nat) returns (j: nat)
    requires PowerOfTwo(size) && slot < size
    ensures j < size && Probe(key, size, j) == slot
  {
    VisitedSize(key, size, size);
    assert Visited(key, size, size) <= Below(size);
    SubsetFull(Visited(key, size, size), Below(size));
    assert slot in Below(size);
    j :| j < size && Probe(key, size, j) == slot;
  }
}
