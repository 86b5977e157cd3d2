/** The in-place descending quicksort of parallel key and value arrays that src/inthash.c runs
    before it rehashes. */
module InthashSort {
  import opened Exchange
  import opened Probing
  import opened InthashLayout

  type Pair = (Word, Word)

  /** The key/value pairs of two parallel arrays. */
  function Pairs(ks: seq<Word>, vs: seq<Word>): (w: seq<Pair>)
    requires |ks| == |vs|
    ensures |w| == |ks| && forall i: nat | i < |w| :: w[i] == (ks[i], vs[i])
  {
    seq(|ks|, i requires 0 <= i < |ks| => (ks[i], vs[i]))
  }

  ghost predicate Inverse(p: seq<nat>, q: seq<nat>) {
    && |p| == |q|
    && (forall i: nat | i < |p| :: p[i] < |p| && q[p[i]] == i)
    && (forall i: nat | i < |p| :: q[i] < |p| && p[q[i]] == i)
  }

  /** `after` is `before` rearranged by the permutation `p` of `[lo, hi]`, whose inverse is `q`. */
  ghost predicate MovedBy(before: seq<Pair>, after: seq<Pair>, lo: nat, hi: nat, p: seq<nat>, q: seq<nat>) {
    && |before| == |after| == |p| && Inverse(p, q)
    && (forall i: nat | i < |p| :: if lo <= i <= hi then lo <= p[i] <= hi else p[i] == i)
    && (forall i: nat | i < |p| :: after[i] == before[p[i]])
  }

  ghost predicate Moved(before: seq<Pair>, after: seq<Pair>, lo: nat, hi: nat) {
    exists p, q :: MovedBy(before, after, lo, hi, p, q)
  }

  lemma MovedRefl(w: seq<Pair>, lo: nat, hi: nat)
    ensures Moved(w, w, lo, hi)
  {
    var id := seq(|w|, i requires 0 <= i < |w| => i as nat);
    assert MovedBy(w, w, lo, hi, id, id);
  }

  lemma MovedSwap(w0: seq<Pair>, w: seq<Pair>, lo: nat, hi: nat, a: nat, b: nat)
    requires Moved(w0, w, lo, hi) && lo <= a <= hi && lo <= b <= hi && hi < |w|
    ensures Moved(w0, Swap(w, a, b), lo, hi)
  {
    var p, q :| MovedBy(w0, w, lo, hi, p, q);
    var p', q' := Swap(p, a, b), q[p[a] := b][p[b] := a];
    assert Inverse(p', q');
    assert MovedBy(w0, Swap(w, a, b), lo, hi, p', q');
  }

  lemma MovedTrans(a: seq<Pair>, b: seq<Pair>, c: seq<Pair>, lo: nat, hi: nat, lo': nat, hi': nat)
    requires Moved(a, b, lo, hi) && Moved(b, c, lo', hi') && lo <= lo' && hi' <= hi
    ensures Moved(a, c, lo, hi)
  {
    var p, q :| MovedBy(a, b, lo, hi, p, q);
    var p', q' :| MovedBy(b, c, lo', hi', p', q');
    var r := seq(|p|, i requires 0 <= i < |p| => p[p'[i]]);
    var s := seq(|p|, i requires 0 <= i < |p| => q'[q[i]]);
    assert Inverse(r, s);
    assert MovedBy(a, c, lo, hi, r, s);
  }

  ghost predicate Descending(w: seq<Pair>, lo: nat, hi: nat)
    requires hi <= |w|
  {
    forall i, j | lo <= i < j < hi :: w[i].0 >= w[j].0
  }

  ghost predicate Split(w: seq<Pair>, lo: nat, m: nat, hi: nat) {
    && lo <= m <= hi < |w|
    && (forall i | lo <= i < m :: w[i].0 > w[m].0)
    && (forall i | m < i <= hi :: w[i].0 <= w[m].0)
  }

  lemma SplitMovedLeft(w: seq<Pair>, w': seq<Pair>, lo: nat, m: nat, hi: nat)
    requires Split(w, lo, m, hi) && m > 0 && Moved(w, w', lo, m - 1)
    ensures Split(w', lo, m, hi)
  {
    var p, q :| MovedBy(w, w', lo, m - 1, p, q);
  }

  lemma SplitMovedRight(w: seq<Pair>, w': seq<Pair>, lo: nat, m: nat, hi: nat)
    requires Split(w, lo, m, hi) && Descending(w, lo, m) && Moved(w, w', m + 1, hi)
    ensures Split(w', lo, m, hi) && Descending(w', lo, m)
  {
    var p, q :| MovedBy(w, w', m + 1, hi, p, q);
  }

  lemma SplitSorted(w: seq<Pair>, lo: nat, m: nat, hi: nat)
    requires Split(w, lo, m, hi) && Descending(w, lo, m) && Descending(w, m + 1, hi + 1)
    ensures Descending(w, lo, hi + 1)
  {
  }

  /** What the partition loop maintains: `w` is the rearrangement in progress, which agrees with the
      arrays except that the elements of the two holes `a` and `b` are held outside. */
  ghost predicate Filling(w: seq<Pair>, now: seq<Pair>, lo: nat, a: nat, b: nat, hi: nat, held: Pair, pivot: Pair) {
    && lo <= a <= b <= hi < |w| && |now| == |w|
    && (forall i: nat | i < |w| && i != a && i != b :: now[i] == w[i])
    && (a < b ==> w[a] == held) && w[b] == pivot
    && (forall i | lo <= i < a :: w[i].0 > pivot.0)
    && (forall i | b < i <= hi :: w[i].0 <= pivot.0)
  }

  lemma FillLeft(w: seq<Pair>, now: seq<Pair>, lo: nat, a: nat, b: nat, hi: nat, held: Pair, pivot: Pair)
    requires Filling(w, now, lo, a, b, hi, held, pivot) && a < b && held.0 > pivot.0
    ensures Filling(w, now[a := held], lo, a + 1, b, hi, now[a + 1], pivot)
  {
  }

  lemma FillRight(w: seq<Pair>, now: seq<Pair>, lo: nat, a: nat, b: nat, hi: nat, held: Pair, pivot: Pair)
    requires Filling(w, now, lo, a, b, hi, held, pivot) && a < b && held.0 <= pivot.0
    ensures Filling(Swap(Swap(w, a, b), a, b - 1), now[b := held], lo, a, b - 1, hi, now[b := held][b - 1], pivot)
  {
  }

  /** One pass of the sort: everything greater than the pivot goes left of it, the rest right. */
  method Partition(ks: array<Word>, vs: array<Word>, lo: nat, hi: nat) returns (m: nat)
    requires ks != vs && ks.Length == vs.Length && lo <= hi < ks.Length
    modifies ks, vs
    ensures lo <= m <= hi && Split(Pairs(ks[..], vs[..]), lo, m, hi)
    ensures Moved(old(Pairs(ks[..], vs[..])), Pairs(ks[..], vs[..]), lo, hi)
  {
    hide Moved;
    ghost var w0 := Pairs(ks[..], vs[..]);
    ghost var w, now := w0, w0;
    MovedRefl(w, lo, hi);
    var a, b := lo, hi;
    var kt, kp := ks[lo], ks[hi];
    var vt, vp := vs[lo], vs[hi];
    while a < b
      invariant lo <= a <= b <= hi
      invariant now == Pairs(ks[..], vs[..])
      invariant Filling(w, now, lo, a, b, hi, (kt, vt), (kp, vp))
      invariant Moved(w0, w, lo, hi) && |w| == ks.Length
    {
      if kt > kp {
        FillLeft(w, now, lo, a, b, hi, (kt, vt), (kp, vp));
        now := Store(ks, vs, a, kt, vt, now);
        a := a + 1;
        kt := ks[a];
        vt := vs[a];
      } else {
        FillRight(w, now, lo, a, b, hi, (kt, vt), (kp, vp));
        MovedSwap(w0, w, lo, hi, a, b);
        MovedSwap(w0, Swap(w, a, b), lo, hi, a, b - 1);
        w := Swap(Swap(w, a, b), a, b - 1);
        now := Store(ks, vs, b, kt, vt, now);
        b := b - 1;
        kt := ks[b];
        vt := vs[b];
      }
    }
    now := Store(ks, vs, a, kp, vp, now);
    assert now == w;
    m := a;
  }

  /** Writes one key/value pair; the ghost sequence follows the arrays. */
  method Store(ks: array<Word>, vs: array<Word>, i: nat, k: Word, v: Word, ghost was: seq<Pair>)
    returns (ghost now: seq<Pair>)
    requires ks != vs && ks.Length == vs.Length && i < ks.Length
    requires was == Pairs(ks[..], vs[..])
    modifies ks, vs
    ensures now == Pairs(ks[..], vs[..]) == was[i := (k, v)]
  {
    ks[i] := k;
    vs[i] := v;
    now := Pairs(ks[..], vs[..]);
    assert now == was[i := (k, v)];
  }

  /** `inthash_nodes_sort`: sorts the keys of `[lo, hi]` descending and takes the values along. */
  method Sort(ks: array<Word>, vs: array<Word>, lo: nat, hi: nat)
    requires ks != vs && ks.Length == vs.Length && lo <= hi < ks.Length
    modifies ks, vs
    ensures Descending(Pairs(ks[..], vs[..]), lo, hi + 1)
    ensures Moved(old(Pairs(ks[..], vs[..])), Pairs(ks[..], vs[..]), lo, hi)
    decreases hi - lo
  {
    hide Moved, Split, Descending;
    ghost var w0 := Pairs(ks[..], vs[..]);
    var m := Partition(ks, vs, lo, hi);
    ghost var w1 := Pairs(ks[..], vs[..]);
    ghost var w2 := w1;
    if m - lo > 1 {
      Sort(ks, vs, lo, m - 1);
      w2 := Pairs(ks[..], vs[..]);
      SplitMovedLeft(w1, w2, lo, m, hi);
      MovedTrans(w0, w1, w2, lo, hi, lo, m - 1);
    }
    ghost var w3 := w2;
    if hi - m > 1 {
      Sort(ks, vs, m + 1, hi);
      w3 := Pairs(ks[..], vs[..]);
      SplitMovedRight(w2, w3, lo, m, hi);
      MovedTrans(w0, w2, w3, lo, hi, m + 1, hi);
    }
    SplitSorted(w3, lo, m, hi);
  }

  /** Sorting keeps the table's contents. */
  lemma MovedContents(ks: seq<Word>, vs: seq<Word>, ks': seq<Word>, vs': seq<Word>, lo: nat, hi: nat)
    requires |ks| == |vs| && |ks'| == |vs'| && Distinct(ks)
    requires Moved(Pairs(ks, vs), Pairs(ks', vs'), lo, hi)
    ensures Distinct(ks') && Contents(ks', vs') == Contents(ks, vs)
  {
    var p, q :| MovedBy(Pairs(ks, vs), Pairs(ks', vs'), lo, hi, p, q);
    assert Gathered(ks, ks', p) && Gathered(vs, vs', p) by {
      assert forall i: nat | i < |p| :: Pairs(ks', vs')[i] == Pairs(ks, vs)[p[i]];
    }
    hide MovedBy, Pairs;
    forall i, j | 0 <= i < j < |ks'| && ks'[i] != 0 ensures ks'[i] != ks'[j] {
      assert q[p[i]] == i && q[p[j]] == j;
    }
    forall k | k in Contents(ks, vs) ensures k in ks' {
      var i: nat :| i < |ks| && ks[i] == k;
      assert p[q[i]] == i;
      assert ks'[q[i]] == k;
    }
    ContentsAre(ks', vs', Contents(ks, vs));
  }

  ghost predicate Gathered<T>(before: seq<T>, after: seq<T>, p: seq<nat>) {
    && |before| == |after| == |p|
    && forall i: nat | i < |p| :: p[i] < |p| && after[i] == before[p[i]]
  }
}
