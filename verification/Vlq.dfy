/** The variable-length integer code of src/ml_bytecode.c. */
module Vlq {
  import opened Arithmetic

  type byte = x: int | 0 <= x < 256

  const INT64_LIMIT: int := 0x8000_0000_0000_0000
  const UINT64_LIMIT: int := 0x1_0000_0000_0000_0000
  const TWO54: int := 0x40_0000_0000_0000
  const TWO56: int := 0x100_0000_0000_0000
  const TWO62: int := 0x4000_0000_0000_0000

  type int64 = x: int | -INT64_LIMIT <= x < INT64_LIMIT
  type uint64 = x: int | 0 <= x < UINT64_LIMIT

  /** The unsigned value that is coded: the sign goes into the lowest bit. */
  function Fold(v: int64): (x: uint64) {
    var w: int := v;
    if w < 0 then 2 * (-w - 1) + 1 else 2 * w
  }

  function Unfold(x: uint64): (v: int64) {
    if x % 2 != 0 then -(x / 2) - 1 else x / 2
  }

  lemma FoldBijective(v: int64, x: uint64)
    ensures Unfold(Fold(v)) == v
    ensures Fold(Unfold(x)) == x
  {
  }

  /** The `n` low bytes of `x`, most significant first. */
  function BigEndian(x: nat, n: nat): (s: seq<byte>)
    ensures |s| == n
  {
    if n == 0 then [] else BigEndian(x / 256, n - 1) + [x % 256]
  }

  function FromBigEndian(s: seq<byte>): (x: nat) {
    if s == [] then 0 else 256 * FromBigEndian(s[..|s| - 1]) + s[|s| - 1]
  }

  function Power256(n: nat): (x: nat)
    ensures x > 0
  {
    if n == 0 then 1 else 256 * Power256(n - 1)
  }

  /** The arms of `vlq64_encode`. The last one shifts by 54 where the place value is 56. */
  function EncodeWord(x: uint64): (s: seq<byte>)
    ensures 1 <= |s| <= 9
  {
    if x <= 240 then [x]
    else if x <= 2287 then [(x - 240) / 256 + 241, (x - 240) % 256]
    else if x <= 67823 then [249] + BigEndian(x - 2288, 2)
    else if x <= 0xFF_FFFF then [250] + BigEndian(x, 3)
    else if x <= 0xFFFF_FFFF then [251] + BigEndian(x, 4)
    else if x <= 0xFF_FFFF_FFFF then [252] + BigEndian(x, 5)
    else if x <= 0xFFFF_FFFF_FFFF then [253] + BigEndian(x, 6)
    else if x <= 0xFF_FFFF_FFFF_FFFF then [254] + BigEndian(x, 7)
    else [255, (x / TWO54) % 256] + BigEndian(x, 7)
  }

  function Encode(v: int64): (s: seq<byte>)
    ensures 1 <= |s| <= 9
  {
    EncodeWord(Fold(v))
  }

  /** How many bytes the first byte announces. */
  function Width(first: byte): (n: nat)
    ensures 1 <= n <= 9
  {
    if first <= 240 then 1 else if first <= 248 then 2 else first - 246
  }

  /** The unsigned value of a complete code. */
  function DecodeWord(s: seq<byte>): (x: uint64)
    requires |s| > 0 && Width(s[0]) <= |s|
  {
    var b, n := s[0], Width(s[0]);
    if b <= 240 then b
    else if b <= 248 then 240 + (b - 241) * 256 + s[1]
    else if b == 249 then 2288 + Tail(s, 1, 3)
    else if b <= 254 then Tail(s, 1, n)
    else s[1] * TWO54 + Tail(s, 2, 9)
  }

  /** Bytes `from` to `to` as one number. */
  function Tail(s: seq<byte>, from: nat, to: nat): (x: nat)
    requires from <= to <= |s| && to - from <= 7
    ensures x < TWO56
  {
    BigEndianBound(s[from..to]);
    PowerMonotone(to - from, 7);
    FromBigEndian(s[from..to])
  }

  /** `vlq64_decode`: the value and the number of bytes; a code that is cut off decodes as zero. */
  function Decode(s: seq<byte>): (r: (int64, nat))
    requires |s| > 0
  {
    var n := Width(s[0]);
    (if n <= |s| then Unfold(DecodeWord(s)) else 0, n)
  }

  // ---------------------------------------------------------------- big-endian bytes

  /** The code at the borders of its arms: one byte up to 240, two up to 2287, three up to 67823, and then a
      byte that counts the bytes of the number. */
  lemma Borders()
    ensures Encode(0) == [0] && Encode(-1) == [1] && Encode(1) == [2] && Encode(-2) == [3]
    ensures EncodeWord(240) == [240] && EncodeWord(241) == [241, 1] && EncodeWord(2287) == [248, 255]
    ensures EncodeWord(2288) == [249, 0, 0] && EncodeWord(67823) == [249, 255, 255] && EncodeWord(67824) == [250, 1, 8, 240]
    ensures EncodeWord(0xFF_FFFF) == [250, 255, 255, 255] && EncodeWord(0x100_0000) == [251, 1, 0, 0, 0]
  {
    hide BigEndian;
    TwoBytes(0);
    TwoBytes(65535);
    MoreBytes(67824, 2);
    TwoBytes(264);
    MoreBytes(0xFF_FFFF, 2);
    MoreBytes(0x100_0000, 3);
    MoreBytes(0x1_0000, 2);
    TwoBytes(0x100);
  }

  /** How long the code of a number is, and what its first byte says. */
  lemma CodeLength(x: uint64)
    ensures var code := EncodeWord(x);
            && (x <= 240 ==> |code| == 1 && code[0] == x)
            && (240 < x <= 2287 ==> |code| == 2 && 241 <= code[0] <= 248)
            && (2287 < x <= 67823 ==> |code| == 3)
            && (67823 < x < 0x100_0000 ==> |code| == 4)
            && (0x100_0000 <= x < 0x1_0000_0000 ==> |code| == 5)
            && (0x1_0000_0000 <= x < 0x100_0000_0000 ==> |code| == 6)
            && (0x100_0000_0000 <= x < 0x1_0000_0000_0000 ==> |code| == 7)
            && (0x1_0000_0000_0000 <= x < 0x100_0000_0000_0000 ==> |code| == 8)
            && (0x100_0000_0000_0000 <= x ==> |code| == 9)
            && (2287 < x ==> code[0] == 246 + |code|)
  {
    hide BigEndian;
  }

  lemma TwoBytes(x: nat)
    ensures BigEndian(x, 2) == [(x / 256) % 256, x % 256]
  {
    assert BigEndian(x / 256 / 256, 0) == [] && BigEndian(x / 256, 1) == [] + [(x / 256) % 256];
    assert BigEndian(x, 2) == BigEndian(x / 256, 1) + [x % 256];
  }

  lemma MoreBytes(x: nat, n: nat)
    ensures BigEndian(x, n + 1) == BigEndian(x / 256, n) + [x % 256]
  {
  }

  lemma {:induction false} BigEndianBound(s: seq<byte>)
    ensures FromBigEndian(s) < Power256(|s|)
  {
    if s == [] {
    } else {
      BigEndianBound(s[..|s| - 1]);
    }
  }

  lemma {:induction false} PowerMonotone(m: nat, n: nat)
    requires m <= n <= 7
    ensures Power256(m) <= Power256(n) <= Power256(7) == TWO56
    decreases 7 - m
  {
    if m < 7 {
      PowerMonotone(m + 1, if n > m then n else m + 1);
    } else {
      assert Power256(7) == 256 * Power256(6);
      assert Power256(5) == 256 * Power256(4);
      assert Power256(3) == 256 * Power256(2);
    }
  }

  lemma {:induction false} BigEndianRoundTrip(x: nat, n: nat)
    ensures FromBigEndian(BigEndian(x, n)) == x % Power256(n)
  {
    if n == 0 {
    } else {
      BigEndianRoundTrip(x / 256, n - 1);
      var s := BigEndian(x, n);
      assert s[..n - 1] == BigEndian(x / 256, n - 1);
      ModStep(x, Power256(n - 1));
    }
  }

  lemma ModStep(x: nat, p: nat)
    requires p > 0
    ensures x % (256 * p) == 256 * ((x / 256) % p) + x % 256
  {
    var y := x / 256;
    var q, r := y / p, y % p;
    assert y == p * q + r;
    var z := 256 * r + x % 256;
    assert x == (256 * p) * q + z by { assert 256 * (p * q) == (256 * p) * q; }
    ModUnique(x, 256 * p, q, z);
  }

  /** A code followed by anything: its last bytes are read back. */
  lemma TailOfCode(prefix: seq<byte>, x: nat, n: nat, rest: seq<byte>)
    requires n <= 7
    ensures Tail(prefix + BigEndian(x, n) + rest, |prefix|, |prefix| + n) == x % Power256(n)
  {
    var s := prefix + BigEndian(x, n) + rest;
    assert s[|prefix|..|prefix| + n] == BigEndian(x, n);
    BigEndianRoundTrip(x, n);
  }

  lemma PowerValues()
    ensures Power256(2) == 0x1_0000 && Power256(3) == 0x100_0000 && Power256(4) == 0x1_0000_0000
    ensures Power256(5) == 0x100_0000_0000 && Power256(6) == 0x1_0000_0000_0000 && Power256(7) == TWO56
  {
    assert Power256(2) == 256 * Power256(1);
    assert Power256(3) == 256 * Power256(2);
    assert Power256(4) == 256 * Power256(3);
    assert Power256(5) == 256 * Power256(4);
    assert Power256(6) == 256 * Power256(5);
    assert Power256(7) == 256 * Power256(6);
  }

  // ---------------------------------------------------------------- the round trip

  /** The folded values that survive: everything below 2^56, and above it those in which bits 54, 55,
      62 and 63 are zero. */
  predicate Survives(x: uint64) {
    x < TWO56 || ((x / TWO54) % 4 == 0 && x / TWO62 == 0)
  }

  /** What comes back out of the nine-byte arm. */
  lemma NineByteArm(x: uint64, rest: seq<byte>)
    requires x >= TWO56
    ensures Width((EncodeWord(x) + rest)[0]) == 9
    ensures DecodeWord(EncodeWord(x) + rest) == ((x / TWO54) % 256) * TWO54 + x % TWO56
  {
    var s := EncodeWord(x) + rest;
    assert s == [255, (x / TWO54) % 256] + BigEndian(x, 7) + rest;
    TailOfCode([255, (x / TWO54) % 256], x, 7, rest);
    PowerValues();
  }

  lemma NineByteArithmetic(x: uint64)
    requires x >= TWO56
    ensures ((x / TWO54) % 256) * TWO54 + x % TWO56 == x <==> Survives(x)
  {
    var h := x / TWO54;
    assert x % TWO56 == (h % 4) * TWO54 + x % TWO54;
    assert x == h * TWO54 + x % TWO54;
    assert h < 1024;
    assert x / TWO62 == h / 256;
    assert (h % 256) + (h % 4) == h <==> h % 4 == 0 && h / 256 == 0;
  }

  lemma ShortCode(x: uint64, prefix: byte, n: nat, rest: seq<byte>)
    requires 3 <= n <= 7 && x < Power256(n) && prefix == 247 + n
    ensures DecodeWord([prefix] + BigEndian(x, n) + rest) == x
  {
    TailOfCode([prefix], x, n, rest);
    SmallMod(x, Power256(n));
  }

  lemma SmallMod(x: nat, n: nat)
    requires x < n
    ensures x % n == x
  {
  }

  /** Decoding undoes encoding of the folded value below 2^56, whatever follows. */
  lemma WordRoundTrip(x: uint64, rest: seq<byte>)
    requires x < TWO56
    ensures Width((EncodeWord(x) + rest)[0]) == |EncodeWord(x)|
    ensures DecodeWord(EncodeWord(x) + rest) == x
  {
    hide FromBigEndian, BigEndian, Power256, Tail;
    PowerValues();
    if x <= 2287 {
    } else if x <= 67823 {
      TailOfCode([249], x - 2288, 2, rest);
    } else if x <= 0xFF_FFFF {
      ShortCode(x, 250, 3, rest);
    } else if x <= 0xFFFF_FFFF {
      ShortCode(x, 251, 4, rest);
    } else if x <= 0xFF_FFFF_FFFF {
      ShortCode(x, 252, 5, rest);
    } else if x <= 0xFFFF_FFFF_FFFF {
      ShortCode(x, 253, 6, rest);
    } else {
      ShortCode(x, 254, 7, rest);
    }
  }

  /** The value and exactly its own bytes come back, whatever follows, if and only if bits 54, 55, 62
      and 63 of a folded value of more than 56 bits are zero. */
  lemma RoundTrip(v: int64, rest: seq<byte>)
    ensures Decode(Encode(v) + rest).1 == |Encode(v)|
    ensures Decode(Encode(v) + rest).0 == v <==> Survives(Fold(v))
  {
    hide EncodeWord, DecodeWord, Survives;
    var x := Fold(v);
    if x < TWO56 {
      WordRoundTrip(x, rest);
      SmallSurvives(x);
    } else {
      NineByteArm(x, rest);
      NineByteLength(x);
      NineByteArithmetic(x);
    }
    var y := DecodeWord(Encode(v) + rest);
    FoldBijective(v, y);
  }

  lemma SmallSurvives(x: uint64)
    requires x < TWO56
    ensures Survives(x)
  {
  }

  lemma NineByteLength(x: uint64)
    requires x >= TWO56
    ensures |EncodeWord(x)| == 9
  {
  }

  /** In particular every value of 56 bits comes back. */
  lemma RoundTripSmall(v: int64, rest: seq<byte>)
    requires -0x80_0000_0000_0000 <= v < 0x80_0000_0000_0000
    ensures Decode(Encode(v) + rest) == (v, |Encode(v)|)
  {
    RoundTrip(v, rest);
  }

  /** A value that does not come back: bit 54 of the folded value counts twice. */
  lemma LostValue()
    ensures var v := 0xA0_0000_0000_0000;
            Decode(Encode(v)) == (0xC0_0000_0000_0000, 9)
  {
    hide EncodeWord, DecodeWord;
    var v, x := 0xA0_0000_0000_0000, 5 * TWO54;
    assert Encode(v) == EncodeWord(x);
    assert EncodeWord(x) + [] == EncodeWord(x);
    NineByteArm(x, []);
    NineByteLength(x);
    assert DecodeWord(EncodeWord(x)) == 6 * TWO54;
  }

  /** No code is the beginning of another one; only values that do not come back can share one. */
  lemma PrefixFree(v: int64, w: int64)
    requires Encode(v) <= Encode(w)
    ensures Encode(v) == Encode(w)
    ensures Survives(Fold(v)) && Survives(Fold(w)) ==> v == w
  {
    hide Encode, Decode, Survives;
    var rest := Encode(w)[|Encode(v)|..];
    assert Encode(w) == Encode(v) + rest;
    RoundTrip(v, rest);
    assert Encode(w) + [] == Encode(w);
    RoundTrip(w, []);
    assert rest == [];
    assert Encode(v) + rest == Encode(v);
  }

  // ---------------------------------------------------------------- order

  /** `a` comes before `b`, byte by byte, neither being a prefix of the other. */
  ghost predicate LexLess(a: seq<byte>, b: seq<byte>) {
    exists i: nat :: i < |a| && i < |b| && a[..i] == b[..i] && a[i] < b[i]
  }

  lemma LexAt(a: seq<byte>, b: seq<byte>, i: nat)
    requires i < |a| && i < |b| && a[..i] == b[..i] && a[i] < b[i]
    ensures LexLess(a, b)
  {
  }

  lemma {:induction false} BigEndianOrder(x: nat, y: nat, n: nat)
    requires x < y < Power256(n)
    ensures LexLess(BigEndian(x, n), BigEndian(y, n))
  {
    var a, b := BigEndian(x, n), BigEndian(y, n);
    if x / 256 < y / 256 {
      BigEndianOrder(x / 256, y / 256, n - 1);
      var a', b' := BigEndian(x / 256, n - 1), BigEndian(y / 256, n - 1);
      var i: nat :| i < |a'| && i < |b'| && a'[..i] == b'[..i] && a'[i] < b'[i];
      assert a[..i] == a'[..i] && b[..i] == b'[..i];
      LexAt(a, b, i);
    } else {
      assert a[..n - 1] == b[..n - 1];
      LexAt(a, b, n - 1);
    }
  }

  lemma BehindPrefix(p: byte, a: seq<byte>, b: seq<byte>)
    requires LexLess(a, b)
    ensures LexLess([p] + a, [p] + b)
  {
    var i: nat :| i < |a| && i < |b| && a[..i] == b[..i] && a[i] < b[i];
    assert ([p] + a)[..i + 1] == [p] + a[..i] && ([p] + b)[..i + 1] == [p] + b[..i];
    LexAt([p] + a, [p] + b, i + 1);
  }

  /** Below 2^56 the codes are ordered like the folded values. */
  lemma EncodePreservesOrder(x: uint64, y: uint64)
    requires x < y < TWO56
    ensures LexLess(EncodeWord(x), EncodeWord(y))
  {
    hide BigEndian, Power256, LexLess;
    PowerValues();
    var a, b := EncodeWord(x), EncodeWord(y);
    if a[0] < b[0] {
      LexAt(a, b, 0);
    } else if y <= 2287 {
      assert a[..1] == b[..1];
      LexAt(a, b, 1);
    } else {
      var n := |b| - 1;
      var x', y' := if y <= 67823 then x - 2288 else x, if y <= 67823 then y - 2288 else y;
      assert a == [b[0]] + BigEndian(x', n) && b == [b[0]] + BigEndian(y', n);
      BigEndianOrder(x', y', n);
      BehindPrefix(b[0], BigEndian(x', n), BigEndian(y', n));
    }
  }

  // ---------------------------------------------------------------- the order of all codes

  /** What the codes are ordered by: the nine-byte arm loses bits 62 and 63. */
  function Rank(x: uint64): nat {
    if x < TWO56 then x else TWO56 + x % TWO62
  }

  lemma NineByteRank(x: uint64)
    requires x >= TWO56
    ensures x % TWO62 == ((x / TWO54) % 256) * TWO54 + x % TWO54
    ensures x % TWO56 == ((x / TWO54) % 4) * TWO54 + x % TWO54
    ensures ((x / TWO54) % 256) % 4 == (x / TWO54) % 4
  {
    var h := x / TWO54;
    assert x == h * TWO54 + x % TWO54;
    assert x / TWO62 == h / 256;
  }

  lemma NineByteLess(x: uint64, y: uint64)
    requires x >= TWO56 && y >= TWO56 && x % TWO62 < y % TWO62
    ensures var g, h := (x / TWO54) % 256, (y / TWO54) % 256;
            g < h || (g == h && x % TWO56 < y % TWO56)
  {
    NineByteRank(x);
    NineByteRank(y);
  }

  /** In the nine-byte arm the second byte and then the lower 56 bits decide. */
  lemma NineByteOrder(x: uint64, y: uint64)
    requires x >= TWO56 && y >= TWO56 && x % TWO62 < y % TWO62
    ensures LexLess(EncodeWord(x), EncodeWord(y))
  {
    hide BigEndian, Power256, LexLess;
    PowerValues();
    NineByteLess(x, y);
    var g, h := (x / TWO54) % 256, (y / TWO54) % 256;
    var a, b := EncodeWord(x), EncodeWord(y);
    if g < h {
      assert a[..1] == b[..1];
      LexAt(a, b, 1);
    } else {
      BigEndianLow(x, 7);
      BigEndianLow(y, 7);
      BigEndianOrder(x % TWO56, y % TWO56, 7);
      BehindPrefix(g, BigEndian(x, 7), BigEndian(y, 7));
      BehindPrefix(255, [g] + BigEndian(x, 7), [g] + BigEndian(y, 7));
      assert a == [255] + ([g] + BigEndian(x, 7)) && b == [255] + ([g] + BigEndian(y, 7));
    }
  }

  /** Only the lower bytes are written. */
  lemma {:induction false} BigEndianLow(x: nat, n: nat)
    ensures BigEndian(x, n) == BigEndian(x % Power256(n), n)
  {
    if n > 0 {
      var z := x % Power256(n);
      ModStep(x, Power256(n - 1));
      assert z / 256 == (x / 256) % Power256(n - 1) && z % 256 == x % 256;
      BigEndianLow(x / 256, n - 1);
    }
  }

  lemma SameRank(x: uint64, y: uint64)
    requires Rank(x) == Rank(y)
    ensures EncodeWord(x) == EncodeWord(y)
  {
    hide BigEndian, Power256;
    PowerValues();
    if x >= TWO56 {
      NineByteRank(x);
      NineByteRank(y);
      assert x % TWO56 == y % TWO56;
      BigEndianLow(x, 7);
      BigEndianLow(y, 7);
    }
  }

  lemma RankOrder(x: uint64, y: uint64)
    requires Rank(x) < Rank(y)
    ensures LexLess(EncodeWord(x), EncodeWord(y))
  {
    hide LexLess, BigEndian;
    if y < TWO56 {
      EncodePreservesOrder(x, y);
    } else if x < TWO56 {
      LexAt(EncodeWord(x), EncodeWord(y), 0);
    } else {
      NineByteOrder(x, y);
    }
  }

  lemma LexAsymmetric(a: seq<byte>, b: seq<byte>)
    requires LexLess(a, b)
    ensures !LexLess(b, a)
  {
    var i: nat :| i < |a| && i < |b| && a[..i] == b[..i] && a[i] < b[i];
    forall j | 0 <= j < i ensures a[j] == b[j] {
      assert a[..i][j] == b[..i][j];
    }
    assert forall j | i < j <= |a| && j <= |b| :: a[..j][i] == a[i] && b[..j][i] == b[i];
    if LexLess(b, a) {
      assert false;
    }
  }

  /** The order of any two codes: that of the folded values up to 2^56, and above it that of their lower 62
      bits, behind all shorter codes. */
  lemma EncodeOrderExactly(x: uint64, y: uint64)
    ensures LexLess(EncodeWord(x), EncodeWord(y)) <==> Rank(x) < Rank(y)
  {
    hide Rank, EncodeWord, LexLess;
    if Rank(x) < Rank(y) {
      RankOrder(x, y);
    } else if Rank(y) < Rank(x) {
      RankOrder(y, x);
      LexAsymmetric(EncodeWord(y), EncodeWord(x));
    } else {
      SameRank(x, y);
      LexIrreflexive(EncodeWord(x));
    }
  }

  lemma LexIrreflexive(a: seq<byte>)
    ensures !LexLess(a, a)
  {
  }

  /** Hence the codes keep the order of two folded values exactly if they do not lose it with bits 62 and 63. */
  lemma OrderKeptExactly(x: uint64, y: uint64)
    requires x < y
    ensures LexLess(EncodeWord(x), EncodeWord(y)) <==> x < TWO56 || x % TWO62 < y % TWO62
  {
    hide EncodeWord, LexLess;
    EncodeOrderExactly(x, y);
  }
}
