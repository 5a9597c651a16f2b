/** Keys as numbers, as often as they occur: sorting them, sharing them out by position and by size, counting them. */
module Ranking {
  import opened NonEmptyVec
  import opened Multimap
  import opened BTreeVecApi

  predicate Ascends(s: seq<int>) {
    forall i, j :: 0 <= i < j < |s| ==> s[i] <= s[j]
  }

  /** A number more, behind those that are not larger. */
  function Insert(s: seq<int>, k: int): seq<int> {
    if s == [] || k < s[0] then [k] + s else [s[0]] + Insert(s[1..], k)
  }

  function Sort(ks: seq<int>): seq<int> {
    if ks == [] then [] else Insert(Sort(ks[..|ks| - 1]), ks[|ks| - 1])
  }

  ghost function Filter(ks: seq<int>, p: int -> bool): seq<int> {
    if ks == [] then [] else if p(ks[0]) then [ks[0]] + Filter(ks[1..], p) else Filter(ks[1..], p)
  }

  /** How many are below `k`. */
  function Less(ks: seq<int>, k: int): nat {
    if ks == [] then 0 else (if ks[0] < k then 1 else 0) + Less(ks[1..], k)
  }

  // Sorting --------------------------------------------------------------------------------------

  lemma {:induction false} InsertHas(s: seq<int>, k: int)
    ensures multiset(Insert(s, k)) == multiset(s) + multiset{k}
  {
    if s != [] && s[0] <= k {
      InsertHas(s[1..], k);
      assert s == [s[0]] + s[1..];
    }
  }

  lemma {:induction false} SortHas(ks: seq<int>)
    ensures multiset(Sort(ks)) == multiset(ks)
  {
    if ks != [] {
      var n := |ks| - 1;
      SortHas(ks[..n]);
      InsertHas(Sort(ks[..n]), ks[n]);
      assert ks == ks[..n] + [ks[n]];
    }
  }

  /** Sorting keeps the numbers and how many they are. */
  lemma SortKeeps(ks: seq<int>)
    ensures |Sort(ks)| == |ks| && forall k :: k in Sort(ks) <==> k in ks
  {
    SortHas(ks);
    assert |multiset(Sort(ks))| == |Sort(ks)| && |multiset(ks)| == |ks|;
    forall k ensures k in Sort(ks) <==> k in ks {
      assert k in multiset(Sort(ks)) <==> k in multiset(ks);
    }
  }

  lemma InsertKeeps(s: seq<int>, k: int)
    ensures |Insert(s, k)| == |s| + 1 && forall x :: x in Insert(s, k) <==> x == k || x in s
  {
    InsertHas(s, k);
    assert |multiset(Insert(s, k))| == |Insert(s, k)| && |multiset(s)| == |s|;
    forall x ensures x in Insert(s, k) <==> x == k || x in s {
      assert x in multiset(Insert(s, k)) <==> x in multiset(s) + multiset{k};
    }
  }

  lemma {:induction false} InsertAscends(s: seq<int>, k: int)
    requires Ascends(s)
    ensures Ascends(Insert(s, k))
  {
    if s != [] && s[0] <= k {
      var t := Insert(s[1..], k);
      InsertAscends(s[1..], k);
      InsertKeeps(s[1..], k);
      forall i | 0 <= i < |t| ensures s[0] <= t[i] {
        assert t[i] in t;
      }
    }
  }

  lemma {:induction false} SortAscends(ks: seq<int>)
    ensures Ascends(Sort(ks))
  {
    if ks != [] {
      SortAscends(ks[..|ks| - 1]);
      InsertAscends(Sort(ks[..|ks| - 1]), ks[|ks| - 1]);
    }
  }

  /** A number goes behind all that are not larger, and in front of all that are. */
  lemma {:induction false} InsertBetween(a: seq<int>, b: seq<int>, k: int)
    requires forall i :: 0 <= i < |a| ==> a[i] <= k
    requires b != [] ==> k < b[0]
    ensures Insert(a + b, k) == a + [k] + b
  {
    if a == [] {
      assert a + b == b;
    } else {
      InsertBetween(a[1..], b, k);
      assert (a + b)[1..] == a[1..] + b;
      assert [a[0]] + (a[1..] + [k] + b) == a + [k] + b;
    }
  }

  lemma {:induction false} SortSorted(s: seq<int>)
    requires Ascends(s)
    ensures Sort(s) == s
  {
    if s != [] {
      var n := |s| - 1;
      SortSorted(s[..n]);
      InsertBetween(s[..n], [], s[n]);
      assert s[..n] + [] == s[..n];
    }
  }

  // Filtering ------------------------------------------------------------------------------------

  lemma {:induction false} FilterHas(ks: seq<int>, p: int -> bool, x: int)
    ensures x in Filter(ks, p) <==> x in ks && p(x)
    ensures |Filter(ks, p)| <= |ks|
  {
    if ks != [] {
      FilterHas(ks[1..], p, x);
      assert ks == [ks[0]] + ks[1..];
    }
  }

  lemma {:induction false} FilterConcat(a: seq<int>, b: seq<int>, p: int -> bool)
    ensures Filter(a + b, p) == Filter(a, p) + Filter(b, p)
  {
    if a == [] {
      assert a + b == b;
    } else {
      FilterConcat(a[1..], b, p);
      assert (a + b)[1..] == a[1..] + b && (a + b)[0] == a[0];
    }
  }

  lemma FilterLast(ks: seq<int>, k: int, p: int -> bool)
    ensures Filter(ks + [k], p) == if p(k) then Filter(ks, p) + [k] else Filter(ks, p)
  {
    FilterConcat(ks, [k], p);
    assert [k][1..] == [];
  }

  /** One filter after another. */
  lemma {:induction false} FilterTwice(ks: seq<int>, p: int -> bool, q: int -> bool, both: int -> bool)
    requires forall k :: both(k) == (p(k) && q(k))
    ensures Filter(Filter(ks, p), q) == Filter(ks, both)
  {
    if ks != [] {
      var rest := Filter(ks[1..], p);
      FilterTwice(ks[1..], p, q, both);
      if p(ks[0]) { assert ([ks[0]] + rest)[1..] == rest; }
    }
  }

  /** A weaker filter lets no fewer through. */
  lemma {:induction false} FilterMore(ks: seq<int>, p: int -> bool, q: int -> bool)
    requires forall k :: p(k) ==> q(k)
    ensures |Filter(ks, p)| <= |Filter(ks, q)|
  {
    if ks != [] { FilterMore(ks[1..], p, q); }
  }

  lemma {:induction false} FilterAll(ks: seq<int>, p: int -> bool)
    requires forall k :: k in ks ==> p(k)
    ensures Filter(ks, p) == ks
  {
    if ks != [] {
      var k := ks[0];
      assert k in ks && p(k);
      assert ks == [k] + ks[1..];
      FilterAll(ks[1..], p);
    }
  }

  lemma {:induction false} InsertFilter(s: seq<int>, k: int, p: int -> bool)
    requires Ascends(s)
    ensures Filter(Insert(s, k), p) == if p(k) then Insert(Filter(s, p), k) else Filter(s, p)
  {
    if s == [] || k < s[0] {
      assert ([k] + s)[1..] == s;
      var g := Filter(s, p);
      if g != [] { FilterHas(s, p, g[0]); }
    } else {
      InsertFilter(s[1..], k, p);
      var t := Insert(s[1..], k);
      assert ([s[0]] + t)[1..] == t;
      if p(s[0]) {
        var g := Filter(s[1..], p);
        assert ([s[0]] + g)[1..] == g;
      }
    }
  }

  /** It makes no difference whether the sorting or the filtering comes first. */
  lemma {:induction false} SortFilter(ks: seq<int>, p: int -> bool)
    ensures Sort(Filter(ks, p)) == Filter(Sort(ks), p)
  {
    if ks != [] {
      hide Filter, Insert, Ascends;
      var n := |ks| - 1;
      var before, k := ks[..n], ks[n];
      SortFilter(before, p);
      SortAscends(before);
      InsertFilter(Sort(before), k, p);
      FilterLast(before, k, p);
      assert ks == before + [k];
      if p(k) { SortLast(Filter(before, p), k); }
    }
  }

  lemma SortLast(ks: seq<int>, k: int)
    ensures Sort(ks + [k]) == Insert(Sort(ks), k)
  {
    assert (ks + [k])[..|ks|] == ks;
  }

  // Counting -------------------------------------------------------------------------------------

  lemma {:induction false} InsertLess(s: seq<int>, x: int, k: int)
    ensures Less(Insert(s, x), k) == Less(s, k) + if x < k then 1 else 0
  {
    if s == [] || x < s[0] {
      assert ([x] + s)[1..] == s;
    } else {
      InsertLess(s[1..], x, k);
      assert ([s[0]] + Insert(s[1..], x))[1..] == Insert(s[1..], x);
    }
  }

  lemma {:induction false} LessLast(ks: seq<int>, x: int, k: int)
    ensures Less(ks + [x], k) == Less(ks, k) + if x < k then 1 else 0
  {
    if ks == [] {
      assert [x][1..] == [] && ks + [x] == [x];
    } else {
      LessLast(ks[1..], x, k);
      assert (ks + [x])[1..] == ks[1..] + [x];
    }
  }

  lemma {:induction false} SortLess(ks: seq<int>, k: int)
    ensures Less(Sort(ks), k) == Less(ks, k)
  {
    if ks != [] {
      var n := |ks| - 1;
      SortLess(ks[..n], k);
      InsertLess(Sort(ks[..n]), ks[n], k);
      LessLast(ks[..n], ks[n], k);
      assert ks == ks[..n] + [ks[n]];
    }
  }

  /** Sorted, those below `k` come first. */
  lemma {:induction false} LessFirst(s: seq<int>, k: int)
    requires Ascends(s)
    ensures Less(s, k) <= |s|
    ensures forall i :: 0 <= i < |s| ==> (i < Less(s, k) <==> s[i] < k)
  {
    if s != [] {
      LessFirst(s[1..], k);
      forall i | 0 <= i < |s| ensures i < Less(s, k) <==> s[i] < k {
        if i > 0 { assert s[i] == s[1..][i - 1]; }
      }
    }
  }

  /** Among the first `q` of some sorted numbers, and among the others. */
  lemma InFirst(s: seq<int>, q: nat, k: int)
    requires Ascends(s) && q <= |s|
    ensures k in s[..q] <==> k in s && Less(s, k) < q
    ensures k in s[q..] <==> k in s && Less(s, k + 1) > q
  {
    var below, upTo := Less(s, k), Less(s, k + 1);
    LessFirst(s, k);
    LessFirst(s, k + 1);
    if k in s {
      var i :| 0 <= i < |s| && s[i] == k;
      assert below <= i < upTo && s[below] == k && s[upTo - 1] == k;
      if below < q { assert s[..q][below] == k; }
      if upTo > q { assert s[q..][upTo - 1 - q] == k; }
    }
  }

  /** How many of the first `q` are below `k`. */
  lemma LessOfFirst(s: seq<int>, q: nat, k: int)
    requires Ascends(s) && q <= |s|
    ensures Less(s[..q], k) == if Less(s, k) < q then Less(s, k) else q
  {
    LessFirst(s, k);
    LessFirst(s[..q], k);
    var c := Less(s[..q], k);
    if c < q { assert s[..q][c] == s[c]; }
    if c > 0 { assert s[..q][c - 1] == s[c - 1]; }
  }

  // What a multimap holds, as numbers ------------------------------------------------------------

  ghost function RanksOf<E, V>(ps: seq<(Key<E>, V)>): (r: seq<int>)
    ensures |r| == |ps|
  {
    seq(|ps|, i requires 0 <= i < |ps| => ps[i].0.rank)
  }

  ghost function Ranks<E, V>(f: seq<Entry<E, V>>): seq<int> {
    RanksOf(Flattened(f))
  }

  lemma RanksConcat<E, V>(a: seq<(Key<E>, V)>, b: seq<(Key<E>, V)>)
    ensures RanksOf(a + b) == RanksOf(a) + RanksOf(b)
  {
  }

  /** Draining yields the keys in the order iterating does. */
  lemma {:induction false} RanksDrained<E, V>(f: seq<Entry<E, V>>)
    ensures RanksOf(DrainedPairs(f)) == Ranks(f)
  {
    if f != [] {
      RanksDrained(f[1..]);
      var key, items := f[0].key, f[0].items;
      RanksConcat(Pairs(key, items.Drained()), DrainedPairs(f[1..]));
      RanksConcat(Pairs(key, items.Items()), Flattened(f[1..]));
      assert RanksOf(Pairs(key, items.Drained())) == RanksOf(Pairs(key, items.Items()));
    }
  }

  lemma RanksAscend<E, V>(f: seq<Entry<E, V>>)
    requires Sorted(f)
    ensures Ascends(Ranks(f))
  {
    FlattenedNondecreasing(f);
  }

  lemma RanksFirst<E, V>(f: seq<Entry<E, V>>)
    requires f != []
    ensures Ranks(f) == RanksOf(Pairs(f[0].key, f[0].items.Items())) + Ranks(f[1..])
    ensures Ranks(f)[0] == f[0].key.rank
  {
    RanksConcat(Pairs(f[0].key, f[0].items.Items()), Flattened(f[1..]));
  }

  lemma {:induction false} RanksAdded<E, V>(f: seq<Entry<E, V>>, key: Key<E>, v: V)
    requires Sorted(f)
    ensures Ranks(Added(f, key, v)) == Insert(Ranks(f), key.rank)
  {
    hide Flattened, Sorted;
    var g := Added(f, key, v);
    RanksFirst(g);
    if f == [] {
      assert Ranks(f) == [] by { assert Flattened(f) == [] by { NothingFlattened<E, V>(); } }
      assert g[1..] == f;
    } else {
      RanksFirst(f);
      var k, here, rest := key.rank, RanksOf(Pairs(f[0].key, f[0].items.Items())), Ranks(f[1..]);
      TailSorted(f);
      if k < f[0].key.rank {
        assert g[1..] == f;
        assert RanksOf(Pairs(key, [v])) == [k] && g[0].items.Items() == [v];
      } else if f[0].key.rank == k {
        assert g[1..] == f[1..];
        assert RanksOf(Pairs(g[0].key, g[0].items.Items())) == here + [k];
        if f[1..] != [] { RanksFirst(f[1..]); } else { NothingFlattened<E, V>(); }
        InsertBetween(here, rest, k);
      } else {
        assert g[1..] == Added(f[1..], key, v);
        RanksAdded(f[1..], key, v);
        InsertPast(here, rest, k);
      }
    }
  }

  lemma NothingFlattened<E, V>()
    ensures Flattened<E, V>([]) == []
  {
  }

  lemma TailSorted<E, V>(f: seq<Entry<E, V>>)
    requires Sorted(f) && f != []
    ensures Sorted(f[1..]) && (f[1..] != [] ==> f[0].key.rank < f[1..][0].key.rank)
  {
  }

  lemma {:induction false} InsertPast(a: seq<int>, b: seq<int>, k: int)
    requires forall i :: 0 <= i < |a| ==> a[i] <= k
    ensures Insert(a + b, k) == a + Insert(b, k)
  {
    if a == [] {
      assert a + b == b;
    } else {
      InsertPast(a[1..], b, k);
      assert (a + b)[1..] == a[1..] + b;
      assert [a[0]] + (a[1..] + Insert(b, k)) == a + Insert(b, k);
    }
  }

  /** A run of pushes sorts its keys. */
  lemma {:induction false} RanksPushed<E, V>(ps: seq<(Key<E>, V)>)
    ensures Ranks(Pushed(ps)) == Sort(RanksOf(ps))
  {
    hide Added;
    if ps == [] {
      NothingFlattened<E, V>();
    } else {
      var n := |ps| - 1;
      RanksPushed(ps[..n]);
      PushedSorted(ps[..n]);
      RanksAdded(Pushed(ps[..n]), ps[n].0, ps[n].1);
      assert RanksOf(ps)[..n] == RanksOf(ps[..n]);
    }
  }

  /** A lookup finds something just if the key is among those held. */
  lemma LookupRanks<E, V>(f: seq<Entry<E, V>>, k: int)
    requires Sorted(f)
    ensures Lookup(f, k).Some? <==> k in Ranks(f)
  {
    hide Flattened, Lookup;
    LookupEntry(f, k);
    if Lookup(f, k).Some? {
      var i :| 0 <= i < |f| && f[i].key.rank == k;
      FlattenedHas(f, i);
      var j :| 0 <= j < |Flattened(f)| && Flattened(f)[j] == (f[i].key, f[i].items.front);
      assert Ranks(f)[j] == k;
    }
    if k in Ranks(f) {
      var j :| 0 <= j < |Ranks(f)| && Ranks(f)[j] == k;
      FlattenedNondecreasing(f);
      var p := Flattened(f)[j];
      var e :| e in f && e.key == p.0;
    }
  }
}
