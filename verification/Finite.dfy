/** Counting arguments on finite ranges of indices. */
module Finite {

  function Below(n: nat): (s: set<int>)
    ensures forall i :: i in s <==> 0 <= i < n
    ensures |s| == n
  {
    if n == 0 then {} else Below(n - 1) + {n - 1}
  }

  lemma SubsetFull<T>(a: set<T>, b: set<T>)
    requires a <= b && |a| == |b|
    ensures a == b
  {
    assert |b - a| == |b| - |a|;
    assert b - a == {};
  }

  lemma SubsetSmaller<T>(a: set<T>, b: set<T>)
    requires a <= b
    ensures |a| <= |b|
  {
    assert |b - a| == |b| - |a|;
  }

  function Image(p: seq<int>, n: nat): set<int>
    requires n <= |p|
  {
    set i | 0 <= i < n :: p[i]
  }

  lemma {:induction false} ImageSize(p: seq<int>, n: nat)
    requires n <= |p| && forall i, j | 0 <= i < j < n :: p[i] != p[j]
    ensures |Image(p, n)| == n
  {
    if n == 0 {
    } else {
      ImageSize(p, n - 1);
      assert Image(p, n) == Image(p, n - 1) + {p[n - 1]};
    }
  }

  /** An injection of a finite range into itself reaches everything. */
  lemma InjectionIsOnto(p: seq<int>, n: nat, i: int) returns (r: int)
    requires n <= |p| && 0 <= i < n
    requires forall k | 0 <= k < n :: 0 <= p[k] < n
    requires forall j, k | 0 <= j < k < n :: p[j] != p[k]
    ensures 0 <= r < n && p[r] == i
  {
    ImageSize(p, n);
    SubsetFull(Image(p, n), Below(n));
    assert i in Image(p, n);
    r :| 0 <= r < n && p[r] == i;
  }

  function Values(phi: map<nat, nat>): set<int> {
    set a | a in phi :: phi[a]
  }

  lemma ValuesStep(phi: map<nat, nat>, less: map<nat, nat>, x: nat)
    requires x in phi && less == phi - {x}
    requires forall a, b | a in phi && b in phi && phi[a] == phi[b] :: a == b
    ensures Values(phi) == Values(less) + {phi[x]} && phi[x] !in Values(less)
  {
    forall i | i in Values(phi) ensures i in Values(less) + {phi[x]} {
      var a :| a in phi && phi[a] == i;
      assert a == x || (a in less && less[a] == i);
    }
    forall i | i in Values(less) ensures i in Values(phi) {
      var a :| a in less && less[a] == i;
      assert a in phi && phi[a] == i;
    }
  }

  lemma {:induction false} ValuesSize(phi: map<nat, nat>)
    requires forall a, b | a in phi && b in phi && phi[a] == phi[b] :: a == b
    ensures |Values(phi)| == |phi|
    decreases |phi|
  {
    if phi != map[] {
      var x :| x in phi;
      var less := phi - {x};
      assert phi.Keys == less.Keys + {x};
      ValuesSize(less);
      ValuesStep(phi, less, x);
    }
  }

  /** An injective map into as many numbers as it has keys reaches each of them. */
  lemma {:induction false} ValuesOnto(phi: map<nat, nat>, n: nat, i: nat) returns (a: nat)
    requires forall a | a in phi :: phi[a] < n
    requires forall a, b | a in phi && b in phi && phi[a] == phi[b] :: a == b
    requires |phi| == n && i < n
    ensures a in phi && phi[a] == i
  {
    ValuesSize(phi);
    SubsetFull(Values(phi), Below(n));
    assert i in Values(phi);
    a :| a in phi && phi[a] == i;
  }
}
