/**
 What a `BTreeVec` stands for: a sorted sequence of entries, each a key with the values pushed under it.
 Keys are ordered by rank alone. The extent plays no part in comparison, so two keys with the same rank
 share an entry and the entry keeps the key that was pushed first.
 */
module Multimap {
  import opened Wrappers
  import opened NonEmptyVec

  datatype Key<E> = Key(rank: int, ext: E)

  datatype Entry<E, V> = Entry(key: Key<E>, items: NonEmpty<V>)

  ghost predicate Sorted<E, V>(f: seq<Entry<E, V>>) {
    forall i, j :: 0 <= i < j < |f| ==> f[i].key.rank < f[j].key.rank
  }

  /** Every rank of `f` lies in `lo..hi`. */
  ghost predicate Within<E, V>(f: seq<Entry<E, V>>, lo: int, hi: int) {
    forall i :: 0 <= i < |f| ==> lo <= f[i].key.rank <= hi
  }

  ghost predicate Below<E, V>(f: seq<Entry<E, V>>, rank: int) {
    forall i :: 0 <= i < |f| ==> f[i].key.rank < rank
  }

  ghost predicate Above<E, V>(f: seq<Entry<E, V>>, rank: int) {
    forall i :: 0 <= i < |f| ==> rank < f[i].key.rank
  }

  /** Adding one pair to the multimap. */
  ghost function Added<E, V>(f: seq<Entry<E, V>>, key: Key<E>, value: V): seq<Entry<E, V>> {
    if f == [] || key.rank < f[0].key.rank then [Entry(key, NonEmpty(value, []))] + f
    else if f[0].key.rank == key.rank then [f[0].(items := f[0].items.Push(value))] + f[1..]
    else [f[0]] + Added(f[1..], key, value)
  }

  ghost function Lookup<E, V>(f: seq<Entry<E, V>>, rank: int): Option<NonEmpty<V>> {
    if f == [] then None
    else if f[0].key.rank == rank then Some(f[0].items)
    else Lookup(f[1..], rank)
  }

  ghost function Pairs<E, V>(key: Key<E>, vs: seq<V>): (r: seq<(Key<E>, V)>)
    ensures |r| == |vs|
  {
    seq(|vs|, i requires 0 <= i < |vs| => (key, vs[i]))
  }

  /** The pairs in the order `iter` yields them. */
  ghost function Flattened<E, V>(f: seq<Entry<E, V>>): seq<(Key<E>, V)> {
    if f == [] then [] else Pairs(f[0].key, f[0].items.Items()) + Flattened(f[1..])
  }

  /** The multimap that a run of pushes builds, from the empty one. */
  ghost function Pushed<E, V>(ps: seq<(Key<E>, V)>): seq<Entry<E, V>> {
    if ps == [] then [] else var n := |ps| - 1; Added(Pushed(ps[..n]), ps[n].0, ps[n].1)
  }

  /** The values of the pairs with a given rank, in order. */
  ghost function ValuesAt<E, V>(ps: seq<(Key<E>, V)>, rank: int): seq<V> {
    if ps == [] then []
    else var n := |ps| - 1; ValuesAt(ps[..n], rank) + if ps[n].0.rank == rank then [ps[n].1] else []
  }

  // Adding, seen from both ends ------------------------------------------------------------------

  lemma {:induction false} AddedAfter<E, V>(a: seq<Entry<E, V>>, b: seq<Entry<E, V>>, key: Key<E>, value: V)
    requires Below(a, key.rank)
    ensures Added(a + b, key, value) == a + Added(b, key, value)
  {
    if a == [] {
      assert a + b == b;
    } else {
      AddedAfter(a[1..], b, key, value);
      assert (a + b)[1..] == a[1..] + b;
      assert (a + b)[0] == a[0];
    }
  }

  lemma {:induction false} AddedBefore<E, V>(a: seq<Entry<E, V>>, b: seq<Entry<E, V>>, key: Key<E>, value: V)
    requires Above(b, key.rank)
    ensures Added(a + b, key, value) == Added(a, key, value) + b
  {
    var c, e := a + b, Entry(key, NonEmpty(value, []));
    if a == [] {
      assert c == b;
    } else {
      assert c[0] == a[0] && c[1..] == a[1..] + b;
      if key.rank < a[0].key.rank {
        assert [e] + c == ([e] + a) + b;
      } else if a[0].key.rank == key.rank {
        var grown := a[0].(items := a[0].items.Push(value));
        assert [grown] + c[1..] == ([grown] + a[1..]) + b;
      } else {
        AddedBefore(a[1..], b, key, value);
        assert [a[0]] + (Added(a[1..], key, value) + b) == ([a[0]] + Added(a[1..], key, value)) + b;
      }
    }
  }

  /** Adding into the middle part, when the outer parts are strictly to either side. */
  lemma AddedBetween<E, V>(a: seq<Entry<E, V>>, b: seq<Entry<E, V>>, c: seq<Entry<E, V>>, key: Key<E>, value: V)
    requires Below(a, key.rank)
    requires Above(c, key.rank)
    ensures Added(a + b + c, key, value) == a + Added(b, key, value) + c
  {
    AddedBefore(a + b, c, key, value);
    AddedAfter(a, b, key, value);
  }

  /** Every entry after adding has the new pair's key, or the key of an entry from before. */
  lemma {:induction false} AddedKeys<E, V>(f: seq<Entry<E, V>>, key: Key<E>, value: V, i: nat)
    requires i < |Added(f, key, value)|
    ensures var e := Added(f, key, value)[i];
            e.key == key || exists j :: 0 <= j < |f| && f[j].key == e.key
  {
    var g := Added(f, key, value);
    if f == [] || key.rank < f[0].key.rank {
      if i > 0 { assert g[i] == f[i - 1]; }
    } else if f[0].key.rank == key.rank {
      if i > 0 { assert g[i] == f[i]; }
    } else if i == 0 {
      assert g[0] == f[0];
    } else {
      AddedKeys(f[1..], key, value, i - 1);
      if g[i].key != key {
        var j :| 0 <= j < |f[1..]| && f[1..][j].key == g[i].key;
        assert f[j + 1] == f[1..][j];
      }
    }
  }

  /** Adding keeps the entries sorted. */
  lemma {:induction false} AddedSorted<E, V>(f: seq<Entry<E, V>>, key: Key<E>, value: V)
    requires Sorted(f)
    ensures Sorted(Added(f, key, value))
  {
    if f != [] && f[0].key.rank < key.rank {
      var g := Added(f[1..], key, value);
      AddedSorted(f[1..], key, value);
      forall i | 0 <= i < |g| ensures f[0].key.rank < g[i].key.rank {
        AddedKeys(f[1..], key, value, i);
      }
    }
  }

  /** Looking up after adding: the pushed value goes last under its own key, and no other key changes. */
  lemma {:induction false} LookupAdded<E, V>(f: seq<Entry<E, V>>, key: Key<E>, value: V, rank: int)
    requires Sorted(f)
    ensures Lookup(Added(f, key, value), rank) ==
            if rank != key.rank then Lookup(f, rank)
            else match Lookup(f, rank)
              case None => Some(NonEmpty(value, []))
              case Some(ne) => Some(ne.Push(value))
  {
    var g := Added(f, key, value);
    if f == [] {
    } else if key.rank < f[0].key.rank {
      assert g[1..] == f;
      LookupAbsent(f, key.rank);
    } else if f[0].key.rank == key.rank {
      assert g[1..] == f[1..];
    } else {
      assert g[1..] == Added(f[1..], key, value);
      LookupAdded(f[1..], key, value, rank);
    }
  }

  lemma {:induction false} LookupAbsent<E, V>(f: seq<Entry<E, V>>, rank: int)
    requires forall i :: 0 <= i < |f| ==> f[i].key.rank != rank
    ensures Lookup(f, rank) == None
  {
    if f != [] {
      LookupAbsent(f[1..], rank);
    }
  }

  lemma {:induction false} LookupConcat<E, V>(a: seq<Entry<E, V>>, b: seq<Entry<E, V>>, rank: int)
    ensures Lookup(a + b, rank) == if Lookup(a, rank).Some? then Lookup(a, rank) else Lookup(b, rank)
  {
    if a == [] {
      assert a + b == b;
    } else {
      assert (a + b)[1..] == a[1..] + b;
      LookupConcat(a[1..], b, rank);
    }
  }

  /** What a lookup finds is what some entry has. */
  lemma {:induction false} LookupEntry<E, V>(f: seq<Entry<E, V>>, rank: int)
    ensures Lookup(f, rank).Some? ==>
              exists i :: 0 <= i < |f| && f[i].key.rank == rank && f[i].items == Lookup(f, rank).value
    ensures Lookup(f, rank).None? ==> forall i :: 0 <= i < |f| ==> f[i].key.rank != rank
  {
    if f != [] {
      LookupEntry(f[1..], rank);
      if f[0].key.rank != rank && Lookup(f, rank).Some? {
        var i :| 0 <= i < |f[1..]| && f[1..][i].key.rank == rank && f[1..][i].items == Lookup(f, rank).value;
        assert f[i + 1] == f[1..][i];
      }
    }
  }

  lemma {:induction false} FlattenedConcat<E, V>(a: seq<Entry<E, V>>, b: seq<Entry<E, V>>)
    ensures Flattened(a + b) == Flattened(a) + Flattened(b)
  {
    if a == [] {
      assert a + b == b;
    } else {
      assert (a + b)[0] == a[0] && (a + b)[1..] == a[1..] + b;
      FlattenedConcat(a[1..], b);
    }
  }

  lemma FlattenedOne<E, V>(e: Entry<E, V>)
    ensures Flattened([e]) == Pairs(e.key, e.items.Items())
  {
    hide Pairs;
    assert [e][1..] == [];
  }

  lemma FlattenedLast<E, V>(f: seq<Entry<E, V>>)
    requires f != []
    ensures var n := |f| - 1; Flattened(f) == Flattened(f[..n]) + Pairs(f[n].key, f[n].items.Items())
  {
    hide Flattened, Pairs;
    var n := |f| - 1;
    assert f == f[..n] + [f[n]];
    FlattenedConcat(f[..n], [f[n]]);
    FlattenedOne(f[n]);
  }

  /** Every entry is among the pairs, with its first value. */
  lemma {:induction false} FlattenedHas<E, V>(f: seq<Entry<E, V>>, i: nat)
    requires i < |f|
    ensures (f[i].key, f[i].items.front) in Flattened(f)
  {
    if i == 0 {
      assert Pairs(f[0].key, f[0].items.Items())[0] in Pairs(f[0].key, f[0].items.Items());
    } else {
      FlattenedHas(f[1..], i - 1);
    }
  }

  // Runs of pushes -------------------------------------------------------------------------------

  lemma PushedNext<E, V>(ps: seq<(Key<E>, V)>, p: (Key<E>, V))
    ensures Pushed(ps + [p]) == Added(Pushed(ps), p.0, p.1)
  {
    assert (ps + [p])[..|ps|] == ps;
  }

  lemma {:induction false} PushedSorted<E, V>(ps: seq<(Key<E>, V)>)
    ensures Sorted(Pushed(ps))
  {
    if ps != [] {
      var n := |ps| - 1;
      PushedSorted(ps[..n]);
      AddedSorted(Pushed(ps[..n]), ps[n].0, ps[n].1);
    }
  }

  /** The keys of a run's multimap are keys of the run. */
  lemma {:induction false} PushedKeys<E, V>(ps: seq<(Key<E>, V)>, i: nat) returns (j: nat)
    requires i < |Pushed(ps)|
    ensures j < |ps| && ps[j].0 == Pushed(ps)[i].key
  {
    hide Added;
    var n := |ps| - 1;
    var f := Pushed(ps[..n]);
    AddedKeys(f, ps[n].0, ps[n].1, i);
    if Pushed(ps)[i].key == ps[n].0 {
      j := n;
    } else {
      var k :| 0 <= k < |f| && f[k].key == Pushed(ps)[i].key;
      j := PushedKeys(ps[..n], k);
    }
  }

  /** A key's values are exactly the values pushed with that rank, in the order of the pushes. */
  lemma {:induction false} LookupPushed<E, V>(ps: seq<(Key<E>, V)>, rank: int)
    ensures Lookup(Pushed(ps), rank) ==
            if ValuesAt(ps, rank) == [] then None
            else Some(NonEmpty(ValuesAt(ps, rank)[0], ValuesAt(ps, rank)[1..]))
  {
    if ps != [] {
      var n := |ps| - 1;
      LookupPushed(ps[..n], rank);
      PushedSorted(ps[..n]);
      LookupAdded(Pushed(ps[..n]), ps[n].0, ps[n].1, rank);
      var vs := ValuesAt(ps[..n], rank);
      if ps[n].0.rank == rank {
        if vs == [] {
          assert ValuesAt(ps, rank) == [ps[n].1];
        } else {
          assert (vs + [ps[n].1])[1..] == vs[1..] + [ps[n].1];
        }
      } else {
        assert ValuesAt(ps, rank) == vs;
      }
    }
  }

  lemma {:induction false} ValuesAtConcat<E, V>(a: seq<(Key<E>, V)>, b: seq<(Key<E>, V)>, rank: int)
    ensures ValuesAt(a + b, rank) == ValuesAt(a, rank) + ValuesAt(b, rank)
  {
    if b == [] {
      assert a + b == a;
    } else {
      var n := |b| - 1;
      assert (a + b)[..|a + b| - 1] == a + b[..n];
      ValuesAtConcat(a, b[..n], rank);
    }
  }

  lemma {:induction false} ValuesAtPairs<E, V>(key: Key<E>, vs: seq<V>, rank: int)
    ensures ValuesAt(Pairs(key, vs), rank) == if key.rank == rank then vs else []
  {
    if vs != [] {
      var n := |vs| - 1;
      assert Pairs(key, vs)[..n] == Pairs(key, vs[..n]);
      ValuesAtPairs(key, vs[..n], rank);
      assert vs == vs[..n] + [vs[n]];
    }
  }

  lemma NoValues<E, V>(rank: int)
    ensures ValuesAt<E, V>([], rank) == []
  {
  }

  /** Reading a sorted multimap out pair by pair shows each key's values exactly as stored. */
  lemma {:induction false} FlattenedValues<E, V>(f: seq<Entry<E, V>>, rank: int)
    requires Sorted(f)
    ensures ValuesAt(Flattened(f), rank) == match Lookup(f, rank) case None => [] case Some(ne) => ne.Items()
  {
    hide ValuesAt, Pairs;
    if f == [] {
      NoValues<E, V>(rank);
    } else {
      var here := Pairs(f[0].key, f[0].items.Items());
      ValuesAtConcat(here, Flattened(f[1..]), rank);
      ValuesAtPairs(f[0].key, f[0].items.Items(), rank);
      FlattenedValues(f[1..], rank);
      if f[0].key.rank == rank {
        LookupAbsent(f[1..], rank);
      }
    }
  }

  ghost predicate RanksNondecreasing<E, V>(ps: seq<(Key<E>, V)>) {
    forall i, j :: 0 <= i < j < |ps| ==> ps[i].0.rank <= ps[j].0.rank
  }

  lemma {:induction false} FlattenedNondecreasing<E, V>(f: seq<Entry<E, V>>)
    requires Sorted(f)
    ensures RanksNondecreasing(Flattened(f))
    ensures forall p :: p in Flattened(f) ==> exists e :: e in f && e.key == p.0
  {
    if f != [] {
      var here, rest := Pairs(f[0].key, f[0].items.Items()), Flattened(f[1..]);
      FlattenedNondecreasing(f[1..]);
      forall p | p in Flattened(f) ensures exists e :: e in f && e.key == p.0 {
        if p in here {
          assert f[0] in f;
        } else {
          var e :| e in f[1..] && e.key == p.0;
          assert e in f;
        }
      }
      forall j | 0 <= j < |rest| ensures f[0].key.rank <= rest[j].0.rank {
        assert rest[j] in rest;
        var e :| e in f[1..] && e.key == rest[j].0;
      }
    }
  }

  /**
   Iterating after any run of pushes yields the stable sort of the pushed pairs by rank: ranks never
   go down, and the values at each rank are those of the run, in the run's order.
   */
  lemma PushesSortStably<E, V>(ps: seq<(Key<E>, V)>)
    ensures RanksNondecreasing(Flattened(Pushed(ps)))
    ensures forall rank :: ValuesAt(Flattened(Pushed(ps)), rank) == ValuesAt(ps, rank)
  {
    PushedSorted(ps);
    FlattenedNondecreasing(Pushed(ps));
    forall rank ensures ValuesAt(Flattened(Pushed(ps)), rank) == ValuesAt(ps, rank) {
      FlattenedValues(Pushed(ps), rank);
      LookupPushed(ps, rank);
    }
  }
}
