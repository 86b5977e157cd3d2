/** The parity of a permutation by its inversions, and how exchanging two entries changes it. */
module Parity {
  import opened Exchange

  /** How many entries of `s` are smaller than `x`. */
  function Smaller(s: seq<int>, x: int): nat {
    if s == [] then 0 else (if s[0] < x then 1 else 0) + Smaller(s[1..], x)
  }

  /** The number of pairs that stand in the wrong order. */
  function Inversions(s: seq<int>): nat {
    if s == [] then 0 else Smaller(s[1..], s[0]) + Inversions(s[1..])
  }

  ghost predicate AllDifferent(s: seq<int>) {
    forall i, j | 0 <= i < j < |s| :: s[i] != s[j]
  }

  lemma {:induction false} SwapKeepsSmaller(s: seq<int>, k: nat, x: int)
    requires k + 1 < |s|
    ensures Smaller(Swap(s, k, k + 1), x) == Smaller(s, x)
  {
    var w := Swap(s, k, k + 1);
    if k == 0 {
      assert w[1..][1..] == s[1..][1..];
    } else {
      assert w[1..] == Swap(s[1..], k - 1, k);
      SwapKeepsSmaller(s[1..], k - 1, x);
    }
  }

  lemma InversionsOfTwo(a: int, b: int, rest: seq<int>)
    ensures Inversions([a, b] + rest)
         == (if b < a then 1 else 0) + Smaller(rest, a) + Smaller(rest, b) + Inversions(rest)
  {
    var s := [a, b] + rest;
    assert s[1..] == [b] + rest;
    assert s[1..][1..] == rest;
    assert Smaller(s[1..], a) == (if b < a then 1 else 0) + Smaller(rest, a);
  }

  lemma {:induction false} AdjacentSwapFlips(s: seq<int>, k: nat)
    requires k + 1 < |s| && s[k] != s[k + 1]
    ensures Inversions(Swap(s, k, k + 1)) % 2 != Inversions(s) % 2
  {
    var w := Swap(s, k, k + 1);
    if k == 0 {
      hide Inversions, Smaller;
      InversionsOfTwo(s[0], s[1], s[2..]);
      InversionsOfTwo(s[1], s[0], s[2..]);
      assert s == [s[0], s[1]] + s[2..];
      assert w == [s[1], s[0]] + s[2..];
    } else {
      assert w[1..] == Swap(s[1..], k - 1, k);
      SwapKeepsSmaller(s[1..], k - 1, s[0]);
      AdjacentSwapFlips(s[1..], k - 1);
    }
  }

  /** Exchanging any two entries of a permutation flips its parity. */
  lemma {:induction false} SwapFlipsParity(s: seq<int>, p: nat, q: nat)
    requires p < q < |s| && AllDifferent(s)
    ensures Inversions(Swap(s, p, q)) % 2 != Inversions(s) % 2
    decreases q
  {
    hide Inversions;
    if q == p + 1 {
      AdjacentSwapFlips(s, p);
    } else {
      var s1 := Swap(s, q - 1, q);
      var s2 := Swap(s1, p, q - 1);
      AdjacentSwapFlips(s, q - 1);
      SwapFlipsParity(s1, p, q - 1);
      AdjacentSwapFlips(s2, q - 1);
      assert Swap(s2, q - 1, q) == Swap(s, p, q);
    }
  }

  lemma {:induction false} SmallerZero(s: seq<int>, x: int)
    requires forall i | 0 <= i < |s| :: s[i] >= x
    ensures Smaller(s, x) == 0
  {
    if s == [] {
    } else {
      SmallerZero(s[1..], x);
    }
  }

  /** A sequence in order has no inversions. */
  lemma {:induction false} AscendingIsEven(s: seq<int>)
    requires forall i, j | 0 <= i < j < |s| :: s[i] <= s[j]
    ensures Inversions(s) == 0
  {
    if s == [] {
    } else {
      SmallerZero(s[1..], s[0]);
      AscendingIsEven(s[1..]);
    }
  }

  /** After `swaps` exchanges from the identity. */
  ghost predicate ParityOf(p: seq<int>, swaps: nat) {
    AllDifferent(p) && Inversions(p) % 2 == swaps % 2
  }

  lemma ParityInitially(p: seq<int>)
    requires forall i | 0 <= i < |p| :: p[i] == i
    ensures ParityOf(p, 0)
  {
    AscendingIsEven(p);
  }

  lemma ParitySwaps(p: seq<int>, swaps: nat, i: nat, j: nat)
    requires ParityOf(p, swaps) && i < j < |p|
    ensures ParityOf(Swap(p, i, j), swaps + 1)
  {
    hide Inversions;
    SwapFlipsParity(p, i, j);
  }
}
