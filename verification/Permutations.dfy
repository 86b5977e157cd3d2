/** The permutation routines of src/ml_array.c: reordering in place by following cycles, and the
    construction of random permutations and random cycles. */
module Permutations {
  import Finite

  /** A permutation of [0, |p|). */
  ghost predicate Permutes(p: seq<int>) {
    && (forall i | 0 <= i < |p| :: 0 <= p[i] < |p|)
    && (forall i, j | 0 <= i < j < |p| :: p[i] != p[j])
  }

  ghost predicate Inverses(p: seq<int>, q: seq<int>) {
    && |p| == |q|
    && (forall i | 0 <= i < |p| :: 0 <= p[i] < |p| && q[p[i]] == i)
    && (forall i | 0 <= i < |p| :: 0 <= q[i] < |p| && p[q[i]] == i)
  }

  lemma InverseExists(p: seq<int>) returns (q: seq<int>)
    requires Permutes(p)
    ensures Inverses(p, q)
  {
    q := [];
    while |q| < |p|
      invariant |q| <= |p|
      invariant forall i | 0 <= i < |q| :: 0 <= q[i] < |p| && p[q[i]] == i
    {
      var r := Finite.InjectionIsOnto(p, |p|, |q|);
      q := q + [r];
    }
  }

  // ---------------------------------------------------------------- ml_array_reorder

  /** Between two cycles: the consumed entries are whole cycles whose values are in place, everything
      else is untouched. */
  ghost predicate Between(v0: seq<real>, o0: seq<int>, v: seq<real>, o: seq<int>) {
    && |v0| == |o0| == |v| == |o|
    && (forall k | 0 <= k < |o0| :: 0 <= o0[k] < |o0|)
    && (forall k | 0 <= k < |o| :: o[k] == -1 || o[k] == o0[k])
    && (forall k | 0 <= k < |o| :: o[k] == -1 <==> o[o0[k]] == -1)
    && (forall k | 0 <= k < |o| :: if o[k] == -1 then v[o0[k]] == v0[k] else v[k] == v0[k])
  }

  /** On the way around the cycle of `i`: the places in `done` have received the value of their
      predecessor (by the inverse order `q`), and `last` is the place whose value is being held. */
  ghost predicate Walked(v1: seq<real>, o0: seq<int>, q: seq<int>, o1: seq<int>, i: int, last: int, done: set<int>,
                         v: seq<real>, o: seq<int>)
  {
    && |v1| == |o0| == |o1| == |v| == |o| && Inverses(o0, q)
    && 0 <= i < |o| && i !in done && last in done + {i}
    && (forall p | p in done + {i} :: 0 <= p < |o| && o1[p] != -1)
    && (forall p | p in done :: q[p] in done + {i} && q[p] != last && o[p] == -1 && v[p] == v1[q[p]])
    && (forall p | p in done + {i} && p != last :: o0[p] in done)
    && (forall p | 0 <= p < |o| && p !in done :: o[p] == o1[p] && v[p] == v1[p])
  }

  lemma WalkStart(v0: seq<real>, o0: seq<int>, q: seq<int>, v1: seq<real>, o1: seq<int>, i: nat)
    requires Between(v0, o0, v1, o1) && Inverses(o0, q) && i < |o1| && o1[i] != -1
    ensures Walked(v1, o0, q, o1, i, i, {}, v1, o1) && o1[i] == o0[i]
  {
  }

  /** The next place has not been visited. */
  lemma NextIsNew(v0: seq<real>, o0: seq<int>, q: seq<int>, v1: seq<real>, o1: seq<int>, i: int, last: int, done: set<int>,
                  v: seq<real>, o: seq<int>)
    requires Between(v0, o0, v1, o1) && Walked(v1, o0, q, o1, i, last, done, v, o) && o0[last] != i
    ensures o0[last] !in done && o1[o0[last]] == o0[o0[last]] != -1
    ensures o[o0[last]] == o1[o0[last]] && v[o0[last]] == v1[o0[last]]
    ensures |done| < |o| && 0 <= o0[last] < |o| && q[o0[last]] == last
  {
    var j := o0[last];
    assert q[j] == last;
    assert o1[last] != -1;
    RoomForOne(done, j, |o|);
  }

  lemma RoomForOne(done: set<int>, j: int, n: nat)
    requires j !in done && forall p | p in done + {j} :: 0 <= p < n
    ensures |done| < n
  {
    Finite.SubsetSmaller(done + {j}, Finite.Below(n));
  }

  lemma WalkStep(v0: seq<real>, o0: seq<int>, q: seq<int>, v1: seq<real>, o1: seq<int>, i: int, last: int, done: set<int>,
                 v: seq<real>, o: seq<int>)
    requires Between(v0, o0, v1, o1) && Walked(v1, o0, q, o1, i, last, done, v, o) && o0[last] != i
    ensures Walked(v1, o0, q, o1, i, o0[last], done + {o0[last]}, v[o0[last] := v1[last]], o[o0[last] := -1])
  {
    hide Between, Inverses;
    NextIsNew(v0, o0, q, v1, o1, i, last, done, v, o);
  }

  /** The cycle is closed: its values are in place and its entries consumed. */
  lemma CycleDone(v0: seq<real>, o0: seq<int>, q: seq<int>, v1: seq<real>, o1: seq<int>, i: int, last: int, done: set<int>,
                  v: seq<real>, o: seq<int>)
    requires Between(v0, o0, v1, o1) && Walked(v1, o0, q, o1, i, last, done, v, o) && o0[last] == i
    ensures Between(v0, o0, v[i := v1[last]], o[i := -1])
  {
    var v', o', cycle := v[i := v1[last]], o[i := -1], done + {i};
    assert q[i] == last;
    forall k | 0 <= k < |o| ensures CycleAt(v0, o0, v1, o1, cycle, v', o', k) {
      CycleClosed(v0, o0, q, v1, o1, i, last, done, v, o, k);
    }
    hide Walked;
    forall k | 0 <= k < |o|
      ensures (o'[k] == -1 || o'[k] == o0[k]) && (o'[k] == -1 <==> o'[o0[k]] == -1)
      ensures if o'[k] == -1 then v'[o0[k]] == v0[k] else v'[k] == v0[k]
    {
      assert CycleAt(v0, o0, v1, o1, cycle, v', o', k) && CycleAt(v0, o0, v1, o1, cycle, v', o', o0[k]);
    }
  }

  /** Place k afterwards: consumed if it was or if it is on the cycle. */
  ghost predicate CycleAt(v0: seq<real>, o0: seq<int>, v1: seq<real>, o1: seq<int>, cycle: set<int>, v': seq<real>, o': seq<int>, k: int)
    requires 0 <= k < |o0| && 0 <= o0[k] < |o0| && |v0| == |o0| == |v1| == |o1| == |v'| == |o'|
  {
    && (k in cycle <==> o0[k] in cycle)
    && o'[k] == (if k in cycle then -1 else o1[k])
    && (k in cycle ==> v'[o0[k]] == v0[k])
    && (k !in cycle ==> v'[k] == v1[k])
  }

  lemma CycleClosed(v0: seq<real>, o0: seq<int>, q: seq<int>, v1: seq<real>, o1: seq<int>, i: int, last: int, done: set<int>,
                    v: seq<real>, o: seq<int>, k: int)
    requires Between(v0, o0, v1, o1) && Walked(v1, o0, q, o1, i, last, done, v, o) && o0[last] == i && 0 <= k < |o|
    ensures CycleAt(v0, o0, v1, o1, done + {i}, v[i := v1[last]], o[i := -1], k)
  {
    assert q[o0[k]] == k && q[i] == last;
  }

  /** Every value has gone to the place its order entry names. */
  ghost predicate Reordered(v0: seq<real>, o0: seq<int>, v: seq<real>) {
    && |v0| == |o0| == |v|
    && forall i | 0 <= i < |o0| :: 0 <= o0[i] < |v| && v[o0[i]] == v0[i]
  }

  /** `ml_array_reorder`: moves every value to the place its order entry names, following each cycle
      once and consuming the order entries on the way. */
  method Reorder(values: array<real>, order: array<int>)
    requires order.Length == values.Length && Permutes(order[..])
    modifies values, order
    ensures Reordered(old(values[..]), old(order[..]), values[..])
    ensures forall i | 0 <= i < order.Length :: order[i] == -1
  {
    hide Between, Inverses, Reordered, Permutes, Consumed;
    ghost var v0, o0 := values[..], order[..];
    ghost var q := InverseExists(o0);
    BetweenInitially(v0, o0);
    for i := 0 to values.Length
      invariant Between(v0, o0, values[..], order[..])
      invariant Consumed(order[..], i)
    {
      if order[i] != -1 {
        FollowCycle(values, order, i, v0, o0, q);
      }
      OneMoreConsumed(order[..], i);
    }
    AllDone(v0, o0, values[..], order[..]);
  }

  ghost predicate Consumed(o: seq<int>, n: nat) {
    n <= |o| && forall k | 0 <= k < n :: o[k] == -1
  }

  lemma OneMoreConsumed(o: seq<int>, n: nat)
    requires Consumed(o, n) && n < |o| && o[n] == -1
    ensures Consumed(o, n + 1)
  {
  }

  lemma BetweenInitially(v: seq<real>, o: seq<int>)
    requires |v| == |o| && Permutes(o)
    ensures Between(v, o, v, o) && Consumed(o, 0)
  {
  }

  lemma AllDone(v0: seq<real>, o0: seq<int>, v: seq<real>, o: seq<int>)
    requires Between(v0, o0, v, o) && Consumed(o, |o|)
    ensures Reordered(v0, o0, v) && forall i | 0 <= i < |o| :: o[i] == -1
  {
  }

  /** The inner loop: walks the cycle of position i. */
  method FollowCycle(values: array<real>, order: array<int>, i: nat, ghost v0: seq<real>, ghost o0: seq<int>, ghost q: seq<int>)
    requires values.Length == order.Length && i < order.Length && order[i] != -1
    requires Between(v0, o0, values[..], order[..]) && Inverses(o0, q) && Consumed(order[..], i)
    modifies values, order
    ensures Between(v0, o0, values[..], order[..]) && order[i] == -1 && Consumed(order[..], i)
  {
    hide Between, Inverses, Walked, Consumed;
    ghost var v1, o1 := values[..], order[..];
    ghost var last, done: set<int> := i, {};
    WalkStart(v0, o0, q, v1, o1, i);
    WalkBounds(v0, o0, q, v1, o1, i, last, done, v1, o1);
    var j := order[i];
    var value := values[i];
    while j != i
      invariant |o0| == values.Length && 0 <= last < |o0| && 0 <= j < order.Length
      invariant Walked(v1, o0, q, o1, i, last, done, values[..], order[..])
      invariant j == o0[last] && value == v1[last]
      invariant Consumed(order[..], i)
      decreases values.Length - |done|
    {
      ghost var v, o := values[..], order[..];
      NextIsNew(v0, o0, q, v1, o1, i, last, done, v, o);
      WalkStep(v0, o0, q, v1, o1, i, last, done, v, o);
      var temp := values[j];
      values[j] := value;
      value := temp;
      var k := order[j];
      order[j] := -1;
      assert values[..] == v[j := v1[last]] && order[..] == o[j := -1];
      StillConsumed(o, i, j);
      last, done := j, done + {j};
      WalkBounds(v0, o0, q, v1, o1, i, last, done, values[..], order[..]);
      j := k;
    }
    ghost var v, o := values[..], order[..];
    CycleDone(v0, o0, q, v1, o1, i, last, done, v, o);
    values[i] := value;
    order[i] := -1;
    assert values[..] == v[i := value] && order[..] == o[i := -1];
    StillConsumed(o, i, i);
  }

  lemma StillConsumed(o: seq<int>, n: nat, j: nat)
    requires Consumed(o, n) && j < |o|
    ensures Consumed(o[j := -1], n)
  {
  }

  lemma WalkBounds(v0: seq<real>, o0: seq<int>, q: seq<int>, v1: seq<real>, o1: seq<int>, i: int, last: int, done: set<int>,
                   v: seq<real>, o: seq<int>)
    requires Between(v0, o0, v1, o1) && Walked(v1, o0, q, o1, i, last, done, v, o)
    ensures |o0| == |v| == |v1| == |o1| && 0 <= last < |o0| && 0 <= o0[last] < |o0|
  {
  }

  // ---------------------------------------------------------------- random permutations

  /** The accepted draws: draw number k, made in round k + 2, lies below k + 2. */
  ghost predicate Draws(draws: seq<nat>) {
    forall k | 0 <= k < |draws| :: draws[k] <= k + 1
  }

  /** One round: the next number goes to place j, and what was there to the end. */
  ghost function Extended(before: seq<int>, j: nat): (p: seq<int>)
    requires j <= |before|
    ensures |p| == |before| + 1
  {
    if j == |before| then before + [|before| + 1] else before[j := |before| + 1] + [before[j]]
  }

  /** What the loop has built after the given draws: entries 1..|draws| + 1. */
  ghost function Built(draws: seq<nat>): (p: seq<int>)
    requires Draws(draws)
    ensures |p| == |draws| + 1
  {
    if draws == [] then [1] else Extended(Built(draws[..|draws| - 1]), draws[|draws| - 1])
  }

  /** A permutation of 1..n. */
  ghost predicate PermutesFromOne(p: seq<int>) {
    && (forall i | 0 <= i < |p| :: 1 <= p[i] <= |p|)
    && (forall i, j | 0 <= i < j < |p| :: p[i] != p[j])
  }

  lemma ExtendedPermutes(p: seq<int>, j: nat)
    requires PermutesFromOne(p) && j <= |p|
    ensures PermutesFromOne(Extended(p, j))
  {
  }

  lemma {:induction false} BuiltPermutes(draws: seq<nat>)
    requires Draws(draws)
    ensures PermutesFromOne(Built(draws))
    decreases |draws|
  {
    if draws == [] {
    } else {
      hide PermutesFromOne, Extended;
      BuiltPermutes(draws[..|draws| - 1]);
      ExtendedPermutes(Built(draws[..|draws| - 1]), draws[|draws| - 1]);
    }
  }

  /** A round can be undone: the place of the largest entry tells the draw. */
  lemma ExtendedInjective(p: seq<int>, j: nat, p': seq<int>, j': nat)
    requires PermutesFromOne(p) && PermutesFromOne(p') && |p| == |p'| && j <= |p| && j' <= |p|
    requires Extended(p, j) == Extended(p', j')
    ensures p == p' && j == j'
  {
    var b, n := Extended(p, j), |p|;
    assert b[j] == n + 1;
    forall k | 0 <= k < n ensures p[k] == p'[k] {
      if k != j {
        assert b[k] == p[k] && b[k] == p'[k];
      } else {
        assert b[n] == p[j] && b[n] == p'[j];
      }
    }
  }

  /** Different draws build different permutations. */
  lemma {:induction false} BuiltInjective(d: seq<nat>, e: seq<nat>)
    requires Draws(d) && Draws(e) && Built(d) == Built(e)
    ensures d == e
    decreases |d|
  {
    hide PermutesFromOne, Extended;
    assert |d| == |e|;
    if d == [] {
    } else {
      var n := |d| - 1;
      BuiltPermutes(d[..n]);
      BuiltPermutes(e[..n]);
      ExtendedInjective(Built(d[..n]), d[n], Built(e[..n]), e[n]);
      BuiltInjective(d[..n], e[..n]);
      assert d == d[..n] + [d[n]] && e == e[..n] + [e[n]];
    }
  }

  /** What was there before the round that led to `p`. */
  ghost function Before(p: seq<int>, j: nat): (b: seq<int>)
    requires j < |p|
    ensures |b| == |p| - 1
  {
    var n := |p| - 1;
    if j == n then p[..n] else p[..n][j := p[n]]
  }

  lemma ExtendedBefore(p: seq<int>, j: nat)
    requires j < |p| && p[j] == |p|
    ensures Extended(Before(p, j), j) == p
  {
  }

  lemma BeforePermutes(p: seq<int>, j: nat)
    requires PermutesFromOne(p) && j < |p| && p[j] == |p|
    ensures PermutesFromOne(Before(p, j))
  {
    var b, n := Before(p, j), |p| - 1;
    forall i | 0 <= i < n ensures 1 <= b[i] <= n {
      assert b[i] == p[if i == j then n else i] != p[j];
    }
    forall i, k | 0 <= i < k < n ensures b[i] != b[k] {
      assert b[i] == p[if i == j then n else i] && b[k] == p[if k == j then n else k];
    }
  }

  lemma LargestAt(p: seq<int>) returns (j: nat)
    requires PermutesFromOne(p) && |p| > 0
    ensures j < |p| && p[j] == |p|
  {
    j := Finite.InjectionIsOnto(Shifted(p), |p|, |p| - 1);
    assert Shifted(p)[j] == p[j] - 1;
  }

  /** Every permutation is built by some draws, hence by one sequence of draws only. */
  lemma {:induction false} EveryPermutationBuilt(p: seq<int>) returns (draws: seq<nat>)
    requires PermutesFromOne(p) && |p| > 0
    ensures Draws(draws) && Built(draws) == p
    decreases |p|
  {
    hide PermutesFromOne, Extended, Before;
    if |p| == 1 {
      draws := [];
      OnlyOne(p);
    } else {
      var j := LargestAt(p);
      BeforePermutes(p, j);
      var more := EveryPermutationBuilt(Before(p, j));
      ExtendedBefore(p, j);
      draws := more + [j];
      assert draws[..|more|] == more;
    }
  }

  lemma OnlyOne(p: seq<int>)
    requires PermutesFromOne(p) && |p| == 1
    ensures p == [1]
  {
  }

  /** `RandomPermutation`, given the accepted draws. */
  method RandomPermutation(limit: nat, draws: seq<nat>) returns (values: array<int>)
    requires limit > 0 && |draws| == limit - 1 && Draws(draws)
    ensures fresh(values) && values[..] == Built(draws) && PermutesFromOne(values[..])
  {
    values := new int[limit](_ => 0);
    values[0] := 1;
    BuiltNone(draws);
    for i := 2 to limit + 1
      invariant values[..i - 1] == Built(draws[..i - 2])
    {
      ghost var before := values[..i - 1];
      var j := draws[i - 2];
      assert draws[..i - 1][..i - 2] == draws[..i - 2];
      if j + 1 == i {
        values[i - 1] := i;
        assert values[..i] == before + [i];
      } else {
        var was := values[j];
        values[j] := i;
        values[i - 1] := was;
        assert values[..i] == before[j := i] + [before[j]];
      }
    }
    assert draws[..limit - 1] == draws;
    BuiltPermutes(draws);
  }

  lemma BuiltNone(draws: seq<nat>)
    ensures draws[..0] == [] && Built([]) == [1]
  {
  }

  // ---------------------------------------------------------------- random cycles

  /** `tour` visits every number of 1..n once, and `p` sends each stop to the next one. */
  ghost predicate Tour(p: seq<int>, tour: seq<int>) {
    && |tour| == |p| && PermutesFromOne(tour)
    && forall k | 0 <= k < |tour| :: p[tour[k] - 1] == tour[if k + 1 < |tour| then k + 1 else 0]
  }

  ghost predicate SingleCycle(p: seq<int>) {
    exists tour :: Tour(p, tour)
  }

  /** A new number put in behind stop `j`. */
  lemma Insert(p: seq<int>, j: nat)
    requires SingleCycle(p) && j < |p|
    ensures SingleCycle(p[j := |p| + 1] + [p[j]])
  {
    var tour :| Tour(p, tour);
    var n := |p|;
    var k := Finite.InjectionIsOnto(Shifted(tour), n, j);
    assert tour[k] == j + 1;
    InsertInTour(p, tour, k);
  }

  function Shifted(s: seq<int>): (r: seq<int>)
    ensures |r| == |s| && forall i | 0 <= i < |s| :: r[i] == s[i] - 1
  {
    seq(|s|, i requires 0 <= i < |s| => s[i] - 1)
  }

  lemma InsertInTour(p: seq<int>, tour: seq<int>, k: nat)
    requires Tour(p, tour) && k < |tour|
    ensures 0 <= tour[k] - 1 < |p|
    ensures SingleCycle(p[tour[k] - 1 := |p| + 1] + [p[tour[k] - 1]])
  {
    var j := tour[k] - 1;
    var tour' := tour[..k + 1] + [|p| + 1] + tour[k + 1..];
    InsertPermutes(tour, k);
    var p' := p[j := |p| + 1] + [p[j]];
    forall s | 0 <= s < |tour'| ensures Linked(p', tour', s) {
      hide Linked, Tour;
      InsertLink(p, tour, k, p', tour', s);
    }
    LinkedTour(p', tour');
  }

  lemma LinkedTour(p: seq<int>, tour: seq<int>)
    requires |tour| == |p| && PermutesFromOne(tour) && forall s | 0 <= s < |tour| :: Linked(p, tour, s)
    ensures SingleCycle(p)
  {
    forall s | 0 <= s < |tour|
      ensures 0 <= tour[s] - 1 < |p| && p[tour[s] - 1] == tour[if s + 1 < |tour| then s + 1 else 0]
    {
      assert Linked(p, tour, s);
    }
    assert Tour(p, tour);
  }

  /** Stop s sends to the next stop. */
  ghost predicate Linked(p: seq<int>, tour: seq<int>, s: int)
    requires 0 <= s < |tour|
  {
    0 <= tour[s] - 1 < |p| && p[tour[s] - 1] == tour[if s + 1 < |tour| then s + 1 else 0]
  }

  /** Behind stop k the new number follows, and behind it what followed stop k before. */
  lemma InsertLink(p: seq<int>, tour: seq<int>, k: nat, p': seq<int>, tour': seq<int>, s: nat)
    requires Tour(p, tour) && k < |tour| && s < |tour'|
    requires tour' == tour[..k + 1] + [|p| + 1] + tour[k + 1..]
    requires p' == p[tour[k] - 1 := |p| + 1] + [p[tour[k] - 1]]
    ensures Linked(p', tour', s)
  {
    if s < k {
      assert tour'[s] == tour[s] != tour[k];
      assert p[tour[s] - 1] == tour[s + 1];
    } else if s > k + 1 {
      assert tour'[s] == tour[s - 1] != tour[k];
      assert p[tour[s - 1] - 1] == tour[if s < |tour| then s else 0];
    } else {
      assert p[tour[k] - 1] == tour[if k + 1 < |tour| then k + 1 else 0];
    }
  }

  lemma InsertPermutes(tour: seq<int>, k: nat)
    requires PermutesFromOne(tour) && k < |tour|
    ensures PermutesFromOne(tour[..k + 1] + [|tour| + 1] + tour[k + 1..])
  {
  }

  /** What the loop has built after the given draws, of which each lies below the round's length. */
  ghost function CycleBuilt(draws: seq<nat>): (p: seq<int>)
    requires Draws(draws)
    ensures |p| == |draws| + 2
  {
    if draws == [] then [2, 1] else Extended(CycleBuilt(draws[..|draws| - 1]), draws[|draws| - 1])
  }

  lemma {:induction false} CycleBuiltIsCycle(draws: seq<nat>)
    requires Draws(draws)
    ensures SingleCycle(CycleBuilt(draws)) && PermutesFromOne(CycleBuilt(draws))
    decreases |draws|
  {
    hide SingleCycle, PermutesFromOne;
    if draws == [] {
      TwoCycle([2, 1]);
    } else {
      var p, j := CycleBuilt(draws[..|draws| - 1]), draws[|draws| - 1];
      CycleBuiltIsCycle(draws[..|draws| - 1]);
      Insert(p, j);
      ExtendedPermutes(p, j);
    }
  }

  /** Different draws build different cycles. */
  lemma {:induction false} CycleBuiltInjective(d: seq<nat>, e: seq<nat>)
    requires Draws(d) && Draws(e) && CycleBuilt(d) == CycleBuilt(e)
    ensures d == e
    decreases |d|
  {
    hide PermutesFromOne, Extended, SingleCycle;
    assert |d| == |e|;
    if d == [] {
    } else {
      var n := |d| - 1;
      CycleBuiltIsCycle(d[..n]);
      CycleBuiltIsCycle(e[..n]);
      ExtendedInjective(CycleBuilt(d[..n]), d[n], CycleBuilt(e[..n]), e[n]);
      CycleBuiltInjective(d[..n], e[..n]);
      assert d == d[..n] + [d[n]] && e == e[..n] + [e[n]];
    }
  }

  /** A number taken out of a tour: the stop before it sends to the stop behind it. */
  lemma TakenFromTour(p: seq<int>, tour: seq<int>, k: nat, j: nat)
    requires Tour(p, tour) && |p| > 1 && k < |tour| && tour[k] == |p| && j < |p| && p[j] == |p|
    ensures j < |p| - 1 && SingleCycle(Before(p, j))
  {
    var n := |p| - 1;
    var before := if k == 0 then n else k - 1;
    assert tour[before] != tour[k] && p[tour[before] - 1] == tour[k];
    PlaceUnique(p, tour, before, j);
    var tour', p' := tour[..k] + tour[k + 1..], Before(p, j);
    TakenPermutes(tour, k);
    forall s | 0 <= s < n ensures Linked(p', tour', s) {
      hide Linked, Tour, Before;
      TakenLink(p, tour, k, before, j, s);
    }
    LinkedTour(p', tour');
  }

  /** In a tour only one stop sends to a given one. */
  lemma PlaceUnique(p: seq<int>, tour: seq<int>, s: nat, j: nat)
    requires Tour(p, tour) && s < |tour| && j < |p| && p[j] == p[tour[s] - 1]
    ensures j == tour[s] - 1
  {
    var i := Finite.InjectionIsOnto(Shifted(tour), |p|, j);
    assert tour[i] == j + 1;
    var a, b := if i + 1 < |tour| then i + 1 else 0, if s + 1 < |tour| then s + 1 else 0;
    assert tour[a] == tour[b];
    assert a == b && i == s;
  }

  lemma TakenPermutes(tour: seq<int>, k: nat)
    requires PermutesFromOne(tour) && k < |tour| && tour[k] == |tour|
    ensures PermutesFromOne(tour[..k] + tour[k + 1..])
  {
    var t := tour[..k] + tour[k + 1..];
    forall i | 0 <= i < |t| ensures 1 <= t[i] <= |t| {
      assert t[i] == tour[if i < k then i else i + 1] != tour[k];
    }
    forall i, j | 0 <= i < j < |t| ensures t[i] != t[j] {
      assert t[i] == tour[if i < k then i else i + 1] && t[j] == tour[if j < k then j else j + 1];
    }
  }

  lemma TakenLink(p: seq<int>, tour: seq<int>, k: nat, before: nat, j: nat, s: nat)
    requires Tour(p, tour) && |p| > 1 && k < |tour| && tour[k] == |p| && s < |p| - 1
    requires before == (if k == 0 then |p| - 1 else k - 1) && j == tour[before] - 1 < |p| - 1
    ensures Linked(Before(p, j), tour[..k] + tour[k + 1..], s)
  {
    hide Tour, Before;
    var n := |p| - 1;
    var t := tour[..k] + tour[k + 1..];
    var i := if s < k then s else s + 1;
    StopAt(p, tour, k, k);
    StopAt(p, tour, i, k);
    StopAt(p, tour, before, i);
    BeforeAt(p, j, tour[i] - 1);
    if i == before {
      assert t[if s + 1 < n then s + 1 else 0] == tour[if k + 1 < |tour| then k + 1 else 0];
    } else {
      assert t[if s + 1 < n then s + 1 else 0] == tour[if i + 1 < |tour| then i + 1 else 0];
    }
  }

  lemma StopAt(p: seq<int>, tour: seq<int>, i: nat, k: nat)
    requires Tour(p, tour) && i < |tour| && k < |tour|
    ensures |tour| == |p| && 1 <= tour[i] <= |p| && p[tour[i] - 1] == tour[if i + 1 < |tour| then i + 1 else 0]
    ensures i != k ==> tour[i] != tour[k]
  {
  }

  lemma BeforeAt(p: seq<int>, j: nat, m: nat)
    requires j < |p| - 1 && m < |p| - 1
    ensures Before(p, j)[m] == if m == j then p[|p| - 1] else p[m]
  {
  }

  /** Every single cycle is built by some draws, hence by one sequence of draws only. */
  lemma {:induction false} EveryCycleBuilt(p: seq<int>) returns (draws: seq<nat>)
    requires SingleCycle(p) && |p| > 1
    ensures Draws(draws) && CycleBuilt(draws) == p
    decreases |p|
  {
    hide Tour, Extended, Before, SingleCycle, PermutesFromOne;
    if |p| == 2 {
      draws := [];
      OnlyCycleOfTwo(p);
    } else {
      var j := TakenOut(p);
      var more := EveryCycleBuilt(Before(p, j));
      ExtendedBefore(p, j);
      draws := more + [j];
      assert draws[..|more|] == more;
    }
  }

  lemma TakenOut(p: seq<int>) returns (j: nat)
    requires SingleCycle(p) && |p| > 1
    ensures j < |p| - 1 && p[j] == |p| && SingleCycle(Before(p, j))
  {
    hide PermutesFromOne;
    var tour :| Tour(p, tour);
    var k := LargestAt(tour);
    j := PreviousStop(p, tour, k);
    TakenFromTour(p, tour, k, j);
  }

  lemma PreviousStop(p: seq<int>, tour: seq<int>, k: nat) returns (j: nat)
    requires Tour(p, tour) && k < |tour|
    ensures j < |p| && p[j] == tour[k]
  {
    var before := if k == 0 then |tour| - 1 else k - 1;
    j := tour[before] - 1;
    assert p[tour[before] - 1] == tour[k];
  }

  lemma OnlyCycleOfTwo(p: seq<int>)
    requires SingleCycle(p) && |p| == 2
    ensures p == [2, 1]
  {
    var tour :| Tour(p, tour);
    assert p[tour[0] - 1] == tour[1] && p[tour[1] - 1] == tour[0];
  }

  /** `RandomCycle`, given the accepted draws: draw number k, made in round k + 2, lies below k + 2. */
  method RandomCycle(limit: nat, draws: seq<nat>) returns (values: array<int>)
    requires limit > 0 && |draws| + 2 == (if limit == 1 then 2 else limit) && Draws(draws)
    ensures fresh(values) && values[..] == (if limit == 1 then [1] else CycleBuilt(draws))
    ensures SingleCycle(values[..])
  {
    hide SingleCycle;
    values := new int[limit](_ => 0);
    if limit == 1 {
      values[0] := 1;
      OneCycle(values[..]);
      return;
    }
    values[0] := 2;
    values[1] := 1;
    assert draws[..0] == [] && values[..2] == [2, 1];
    for i := 2 to limit
      invariant values[..i] == CycleBuilt(draws[..i - 2])
    {
      ghost var before := values[..i];
      var j := draws[i - 2];
      assert draws[..i - 1][..i - 2] == draws[..i - 2];
      var was := values[j];
      values[j] := i + 1;
      values[i] := was;
      assert values[..i + 1] == before[j := i + 1] + [before[j]];
    }
    assert draws[..limit - 2] == draws;
    CycleBuiltIsCycle(draws);
    assert values[..limit] == values[..];
  }

  lemma OneCycle(p: seq<int>)
    requires p == [1]
    ensures SingleCycle(p)
  {
    assert Tour(p, [1]);
  }

  lemma TwoCycle(p: seq<int>)
    requires p == [2, 1]
    ensures SingleCycle(p) && PermutesFromOne(p)
  {
    assert Tour(p, [1, 2]);
  }
}
