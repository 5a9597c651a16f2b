/** Sums of multisets over the nodes of a tree. */
module Sums {

  ghost function Union<P>(m: map<nat, multiset<P>>): multiset<P> {
    if m == map[] then multiset{} else var n :| n in m; m[n] + Union(m - {n})
  }

  lemma {:induction false} UnionRemove<P>(m: map<nat, multiset<P>>, n: nat)
    requires n in m
    ensures Union(m) == m[n] + Union(m - {n})
    decreases |m|
  {
    var k :| k in m && Union(m) == m[k] + Union(m - {k});
    if k != n {
      UnionRemove(m - {k}, n);
      UnionRemove(m - {n}, k);
      assert m - {k} - {n} == m - {n} - {k};
    }
  }

  /** Sums that differ at one node. */
  lemma UnionChanged<P>(m: map<nat, multiset<P>>, m': map<nat, multiset<P>>, n: nat)
    requires m'.Keys == m.Keys && n in m && forall k :: k in m && k != n ==> m'[k] == m[k]
    ensures m[n] <= Union(m) && Union(m') == Union(m) - m[n] + m'[n]
  {
    UnionRemove(m, n);
    UnionRemove(m', n);
    assert m' - {n} == m - {n};
  }

  lemma {:induction false} UnionEmpty<P>(m: map<nat, multiset<P>>)
    requires forall n :: n in m ==> m[n] == multiset{}
    ensures Union(m) == multiset{}
    decreases |m|
  {
    if m != map[] {
      var n :| n in m && Union(m) == m[n] + Union(m - {n});
      UnionEmpty(m - {n});
    }
  }

  /** An element of the sum is an element at some node. */
  lemma {:induction false} UnionMember<P>(m: map<nat, multiset<P>>, p: P) returns (n: nat)
    requires p in Union(m)
    ensures n in m && p in m[n]
    decreases |m|
  {
    var k :| k in m && Union(m) == m[k] + Union(m - {k});
    if p in m[k] {
      n := k;
    } else {
      n := UnionMember(m - {k}, p);
    }
  }

  /** An element at one node only is in the sum as often as it is there. */
  lemma UnionOnly<P>(m: map<nat, multiset<P>>, n: nat, p: P)
    requires n in m && forall k :: k in m && k != n ==> p !in m[k]
    ensures Union(m)[p] == m[n][p]
  {
    UnionRemove(m, n);
    if p in Union(m - {n}) {
      var k := UnionMember(m - {n}, p);
    }
  }

  lemma Regroup<P>(a: multiset<P>, b: multiset<P>, d: multiset<P>, r: multiset<P>)
    ensures a + (b + (d + r)) == (a + b + d) + r
  {
  }

  /** A node's share given to it and two new nodes. */
  lemma SplitUnion<P>(m: map<nat, multiset<P>>, m': map<nat, multiset<P>>, n: nat)
    requires n > 0 && n in m && 2 * n !in m && 2 * n + 1 !in m && m'.Keys == m.Keys + {2 * n, 2 * n + 1}
    requires forall k :: k in m && k != n ==> m'[k] == m[k]
    requires m[n] == m'[2 * n] + m'[2 * n + 1] + m'[n]
    ensures Union(m') == Union(m)
  {
    hide Union;
    var l, r := 2 * n, 2 * n + 1;
    var m1, m2 := m' - {l}, m' - {l} - {r};
    UnionRemove(m, n);
    UnionRemove(m', l);
    UnionRemove(m1, r);
    UnionRemove(m2, n);
    assert m1[r] == m'[r] && m2[n] == m'[n];
    assert m2 - {n} == m - {n};
    Regroup(m'[l], m'[r], m'[n], Union(m - {n}));
  }

  /** Leaving out nodes that do not have an element does not change how often it is there. */
  lemma {:induction false} UnionDrop<P>(m: map<nat, multiset<P>>, m': map<nat, multiset<P>>, p: P)
    requires m'.Keys <= m.Keys && forall k :: k in m' ==> m'[k] == m[k]
    requires forall k :: k in m && k !in m' ==> p !in m[k]
    ensures Union(m)[p] == Union(m')[p]
    decreases |m|
  {
    if m'.Keys == m.Keys {
      assert m == m';
    } else {
      var n :| n in m && n !in m';
      UnionRemove(m, n);
      UnionDrop(m - {n}, m', p);
    }
  }

  lemma SameCounts<P>(a: multiset<P>, b: multiset<P>)
    requires forall p :: p in a || p in b ==> a[p] == b[p]
    ensures a == b
  {
    assert forall p :: p in a ==> a[p] == b[p];
    assert forall p :: p in b ==> a[p] == b[p];
  }

  lemma SubSize<P>(a: multiset<P>, b: multiset<P>)
    requires forall p :: p in a ==> a[p] <= b[p]
    ensures |a| <= |b|
    ensures |a| == |b| ==> a == b
  {
    assert b == a + (b - a);
  }

  ghost function OneIf<P>(b: bool, p: P): multiset<P> {
    if b then multiset{p} else multiset{}
  }

  /** One element more in one of three parts is one more in all. */
  lemma AddToOne<P>(a: multiset<P>, b: multiset<P>, d: multiset<P>, inA: bool, inB: bool, inD: bool, x: P)
    requires if inA then !inB && !inD else inB != inD
    ensures (a + OneIf(inA, x)) + (b + OneIf(inB, x)) + (d + OneIf(inD, x)) == (a + b + d) + multiset{x}
  {
  }
}
