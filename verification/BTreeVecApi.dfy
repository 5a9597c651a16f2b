/** The container itself, its iterators, and building it from a sorted stream. */
module BTreeVecApi {
  import opened Wrappers
  import opened NonEmptyVec
  import opened Multimap
  import opened Nodes = BTreeVec

  class BTreeVec<E, V> {
    var itms: Node<E, V>
    var len: nat

    ghost predicate Valid()
      reads this
    {
      WellFormed(itms) && len == |Flattened(Contents())|
    }

    ghost function Contents(): seq<Entry<E, V>>
      reads this
    {
      Flat(itms)
    }

    constructor ()
      ensures Valid() && Contents() == []
    {
      itms, len := Node([], []), 0;
    }

    method Push(key: Key<E>, value: V)
      requires Valid()
      modifies this
      ensures Valid()
      ensures Contents() == Added(old(Contents()), key, value)
    {
      AddedLength(Contents(), key, value);
      len := len + 1;
      itms := PushInto(itms, key, value);
    }

    method Get(key: Key<E>) returns (r: Option<NonEmpty<V>>)
      requires Valid()
      ensures r == Lookup(Contents(), key.rank)
    {
      r := GetIn(itms, key);
    }

    method IsEmpty() returns (b: bool)
      requires Valid()
      ensures b <==> Contents() == []
    {
      b := len == 0;
      if Contents() != [] {
        assert Flattened(Contents()) != [];
      }
    }
  }

  /** `from_iter`: pushes in order, so that iterating gives the stable sort of the input. */
  method FromIter<E, V>(ps: seq<(Key<E>, V)>) returns (l: BTreeVec<E, V>)
    ensures fresh(l) && l.Valid()
    ensures l.Contents() == Pushed(ps)
    ensures RanksNondecreasing(Flattened(l.Contents()))
    ensures forall rank :: ValuesAt(Flattened(l.Contents()), rank) == ValuesAt(ps, rank)
  {
    l := new BTreeVec();
    for i := 0 to |ps|
      invariant fresh(l) && l.Valid()
      invariant l.Contents() == Pushed(ps[..i])
    {
      assert ps[..i + 1][..i] == ps[..i];
      l.Push(ps[i].0, ps[i].1);
    }
    assert ps[..|ps|] == ps;
    PushesSortStably(ps);
  }

  lemma {:induction false} AddedLength<E, V>(f: seq<Entry<E, V>>, key: Key<E>, value: V)
    ensures |Flattened(Added(f, key, value))| == |Flattened(f)| + 1
  {
    if f == [] || key.rank < f[0].key.rank {
      assert Added(f, key, value)[1..] == f;
    } else if f[0].key.rank == key.rank {
      assert Added(f, key, value)[1..] == f[1..];
    } else {
      AddedLength(f[1..], key, value);
      assert Added(f, key, value)[1..] == Added(f[1..], key, value);
    }
  }

  // Building from a sorted stream ----------------------------------------------------------------

  /** The items of a stream before its first error. */
  ghost function Values<T, X>(stream: seq<Result<T, X>>): seq<T> {
    if stream == [] || stream[0].Err? then [] else [stream[0].value] + Values(stream[1..])
  }

  ghost function FirstError<T, X>(stream: seq<Result<T, X>>): Option<X> {
    if stream == [] then None else if stream[0].Err? then Some(stream[0].error) else FirstError(stream[1..])
  }

  lemma {:induction false} ValuesPrefix<T, X>(stream: seq<Result<T, X>>, i: nat)
    requires i < |stream| && FirstError(stream[..i]) == None
    ensures FirstError(stream[..i + 1]) == if stream[i].Err? then Some(stream[i].error) else None
    ensures Values(stream[..i + 1]) == Values(stream[..i]) + if stream[i].Ok? then [stream[i].value] else []
    ensures stream[i].Err? ==> FirstError(stream) == Some(stream[i].error)
  {
    if i == 0 {
      assert stream[..1][1..] == [];
    } else {
      assert stream[..i + 1][1..] == stream[1..][..i] && stream[..i][1..] == stream[1..][..i - 1];
      ValuesPrefix(stream[1..], i - 1);
    }
  }

  /** A node of leaves only, one slot for each entry. */
  ghost predicate IsFlatNode<E, V>(n: Node<E, V>, f: seq<Entry<E, V>>) {
    && |n.keys| == |n.values| == |f|
    && forall i :: 0 <= i < |f| ==> n.keys[i] == (f[i].key, f[i].key) && n.values[i] == Leaf(f[i].items)
  }

  lemma {:induction false} FlatNode<E, V>(n: Node<E, V>, f: seq<Entry<E, V>>)
    requires IsFlatNode(n, f) && Sorted(f)
    ensures WellFormed(n) && Flat(n) == f
    decreases f
  {
    if f != [] {
      FlatNode(Node(n.keys[1..], n.values[1..]), f[1..]);
      assert FlatValue(n.keys[0].0, n.values[0]) == [f[0]];
      assert f == [f[0]] + f[1..];
    }
  }

  /** Adding at the end, where the new rank is the last one or past it. */
  lemma AddedAtEnd<E, V>(f: seq<Entry<E, V>>, last: Entry<E, V>, key: Key<E>, value: V)
    requires Sorted(f + [last]) && last.key.rank <= key.rank
    ensures Added(f + [last], key, value) ==
            if key.rank == last.key.rank then f + [last.(items := last.items.Push(value))]
            else f + [last] + [Entry(key, NonEmpty(value, []))]
  {
    forall i | 0 <= i < |f| ensures f[i].key.rank < key.rank {
      assert (f + [last])[i] == f[i] && (f + [last])[|f|] == last;
    }
    AddedAfter(f, [last], key, value);
    assert [last][1..] == [];
  }

  /** The first `len` items gathered: the node's entries, and the entry still being gathered. */
  ghost predicate Gathered<E, V, X>(stream: seq<Result<(Key<E>, V), X>>, len: nat, n: Node<E, V>,
                                    done: seq<Entry<E, V>>, last: Entry<E, V>) {
    && 1 <= len <= |stream|
    && FirstError(stream[..len]) == None && |Values(stream[..len])| == len
    && IsFlatNode(n, done)
    && done + [last] == Pushed(Values(stream[..len]))
    && last.key.rank == Values(stream[..len])[len - 1].0.rank
  }

  lemma GatherFirst<E, V, X>(stream: seq<Result<(Key<E>, V), X>>)
    requires stream != [] && stream[0].Ok?
    ensures Gathered(stream, 1, Node([], []), [], Entry(stream[0].value.0, NonEmpty(stream[0].value.1, [])))
  {
    var none: seq<(Key<E>, V)> := [];
    ValuesPrefix(stream, 0);
    assert stream[..0] == [];
    assert Values(stream[..1]) == [stream[0].value] == none + [stream[0].value];
    PushedNext(none, stream[0].value);
  }

  /** One item more: it joins the entry being gathered, or that entry is done and it starts the next. */
  lemma GatherNext<E, V, X>(stream: seq<Result<(Key<E>, V), X>>, len: nat, n: Node<E, V>,
                            done: seq<Entry<E, V>>, last: Entry<E, V>)
    requires Gathered(stream, len, n, done, last) && len < |stream| && RanksNondecreasing(Values(stream))
    ensures stream[len].Err? ==> FirstError(stream) == Some(stream[len].error)
    ensures stream[len].Ok? ==>
              var (key, value) := stream[len].value;
              if key.rank == last.key.rank then
                Gathered(stream, len + 1, n, done, last.(items := last.items.Push(value)))
              else Gathered(stream, len + 1, Node(n.keys + [(last.key, last.key)], n.values + [Leaf(last.items)]),
                            done + [last], Entry(key, NonEmpty(value, [])))
  {
    hide Values, FirstError, Pushed, RanksNondecreasing, Added;
    ValuesPrefix(stream, len);
    if stream[len].Ok? {
      var p := stream[len].value;
      PushedNext(Values(stream[..len]), p);
      PushedSorted(Values(stream[..len]));
      SortedStream(stream, len);
      AddedAtEnd(done, last, p.0, p.1);
    }
  }

  lemma GatherEnd<E, V, X>(stream: seq<Result<(Key<E>, V), X>>, n: Node<E, V>, done: seq<Entry<E, V>>,
      last: Entry<E, V>)
    requires Gathered(stream, |stream|, n, done, last)
    ensures var r := Node(n.keys + [(last.key, last.key)], n.values + [Leaf(last.items)]);
            WellFormed(r) && Flat(r) == Pushed(Values(stream))
    ensures FirstError(stream) == None && |Values(stream)| == |stream|
  {
    hide Values, FirstError, Pushed, WellFormed, Flat;
    assert stream[..|stream|] == stream;
    PushedSorted(Values(stream));
    FlatNode(Node(n.keys + [(last.key, last.key)], n.values + [Leaf(last.items)]), done + [last]);
  }

  /**
   `deduplicate`: a stream sorted by key becomes the node that pushing its pairs one by one would mean;
   the first error in the stream is returned instead.
   */
  method Deduplicate<E, V, X>(stream: seq<Result<(Key<E>, V), X>>) returns (r: Result<(nat, Node<E, V>), X>)
    requires RanksNondecreasing(Values(stream))
    ensures r.Err? <==> FirstError(stream).Some?
    ensures r.Err? ==> FirstError(stream) == Some(r.error)
    ensures r.Ok? ==> WellFormed(r.value.1) && Flat(r.value.1) == Pushed(Values(stream))
    ensures r.Ok? ==> r.value.0 == |stream| == |Values(stream)|
  {
    if stream == [] {
      return Ok((0, Node([], [])));
    }
    if stream[0].Err? {
      return Err(stream[0].error);
    }
    hide Gathered, Values, FirstError, Pushed, WellFormed, Flat;
    GatherFirst(stream);
    var keys, values := [], [];
    var oldKey, oldValue := stream[0].value.0, NonEmpty(stream[0].value.1, []);
    var len := 1;
    ghost var done: seq<Entry<E, V>> := [];
    while len < |stream|
      invariant len <= |stream| && Gathered(stream, len, Node(keys, values), done, Entry(oldKey, oldValue))
    {
      GatherNext(stream, len, Node(keys, values), done, Entry(oldKey, oldValue));
      if stream[len].Err? {
        return Err(stream[len].error);
      }
      var newKey, newValue := stream[len].value.0, stream[len].value.1;
      len := len + 1;
      if newKey.rank == oldKey.rank {
        oldValue := oldValue.Push(newValue);
      } else {
        keys, values := keys + [(oldKey, oldKey)], values + [Leaf(oldValue)];
        done := done + [Entry(oldKey, oldValue)];
        oldKey, oldValue := newKey, NonEmpty(newValue, []);
      }
    }
    GatherEnd(stream, Node(keys, values), done, Entry(oldKey, oldValue));
    return Ok((len, Node(keys + [(oldKey, oldKey)], values + [Leaf(oldValue)])));
  }

  lemma {:induction false} ValuesOfPrefix<T, X>(stream: seq<Result<T, X>>, i: nat)
    requires i <= |stream|
    ensures Values(stream[..i]) <= Values(stream)
  {
    if i > 0 && stream[0].Ok? {
      assert stream[..i][1..] == stream[1..][..i - 1];
      ValuesOfPrefix(stream[1..], i - 1);
    }
  }

  lemma SortedStream<E, V, X>(stream: seq<Result<(Key<E>, V), X>>, i: nat)
    requires RanksNondecreasing(Values(stream)) && 0 < i < |stream|
    requires FirstError(stream[..i]) == None && stream[i].Ok? && |Values(stream[..i])| == i
    ensures Values(stream[..i])[i - 1].0.rank <= stream[i].value.0.rank
  {
    ValuesPrefix(stream, i);
    ValuesOfPrefix(stream, i + 1);
    var vs, ws := Values(stream[..i + 1]), Values(stream);
    assert vs[i - 1] == Values(stream[..i])[i - 1] && vs[i] == stream[i].value;
    assert ws[i - 1] == vs[i - 1] && ws[i] == vs[i];
  }

  // Iterators that own a stack of what is left ---------------------------------------------------

  type Frame<E, V> = (seq<Range<E>>, seq<NodeValue<E, V>>)

  ghost predicate Framed<E, V>(stack: seq<Frame<E, V>>) {
    forall i :: 0 <= i < |stack| ==>
                  && |stack[i].0| == |stack[i].1|
                  && forall j :: 0 <= j < |stack[i].0| ==> WellFormedValue(stack[i].0[j], stack[i].1[j])
  }

  /** The entries left, the innermost list first. */
  ghost function StackEntries<E, V>(stack: seq<Frame<E, V>>): seq<Entry<E, V>> {
    if stack == [] then []
    else var top := stack[|stack| - 1]; FlatSlots(top.0, top.1) + StackEntries(stack[..|stack| - 1])
  }

  ghost function ValueSize<E, V>(value: NodeValue<E, V>): nat
    decreases value
  {
    match value case Leaf(_) => 1 case ChildList(list) => 2 + SlotsSize(list.values)
  }

  ghost function SlotsSize<E, V>(values: seq<NodeValue<E, V>>): nat
    decreases values
  {
    if values == [] then 0 else ValueSize(values[0]) + SlotsSize(values[1..])
  }

  ghost function StackSize<E, V>(stack: seq<Frame<E, V>>): nat {
    if stack == [] then 0
    else 1 + SlotsSize(stack[|stack| - 1].1) + StackSize(stack[..|stack| - 1])
  }

  lemma StackTop<E, V>(below: seq<Frame<E, V>>, top: Frame<E, V>)
    ensures StackEntries(below + [top]) == FlatSlots(top.0, top.1) + StackEntries(below)
    ensures StackSize(below + [top]) == 1 + SlotsSize(top.1) + StackSize(below)
  {
    assert (below + [top])[..|below|] == below;
  }

  /** A stack of one frame, the whole node. */
  lemma WholeStack<E, V>(n: Node<E, V>)
    requires WellFormed(n)
    ensures Framed([(n.keys, n.values)]) && StackEntries([(n.keys, n.values)]) == Flat(n)
  {
    StackTop([], (n.keys, n.values));
    assert [] + [(n.keys, n.values)] == [(n.keys, n.values)];
  }

  /** Taking the first slot of the innermost list. */
  lemma TakeSlot<E, V>(stack: seq<Frame<E, V>>)
    requires Framed(stack) && stack != [] && stack[|stack| - 1].0 != []
    ensures var n := |stack| - 1;
            var (keys, values) := stack[n];
            var left := stack[n := (keys[1..], values[1..])];
            && WellFormedValue(keys[0], values[0])
            && Framed(left)
            && StackEntries(stack) == FlatValue(keys[0].0, values[0]) + StackEntries(left)
            && StackSize(stack) == ValueSize(values[0]) + StackSize(left)
  {
    var n := |stack| - 1;
    var keys, values := stack[n].0, stack[n].1;
    StackTop(stack[..n], (keys[1..], values[1..]));
    assert stack[n := (keys[1..], values[1..])] == stack[..n] + [(keys[1..], values[1..])];
  }

  /** The loop both iterators share: the next leaf in key order, popping and pushing frames on the way. */
  method NextLeaf<E, V>(stack: seq<Frame<E, V>>)
    returns (leaf: Option<(Key<E>, NonEmpty<V>)>, stack': seq<Frame<E, V>>)
    requires Framed(stack)
    ensures Framed(stack')
    ensures leaf.None? <==> StackEntries(stack) == []
    ensures leaf.None? ==> stack' == []
    ensures leaf.Some? ==>
              && StackEntries(stack) == [Entry(leaf.value.0, leaf.value.1)] + StackEntries(stack')
              && StackSize(stack') < StackSize(stack)
  {
    stack' := stack;
    while stack' != []
      invariant Framed(stack') && StackEntries(stack') == StackEntries(stack)
      invariant StackSize(stack') <= StackSize(stack)
      decreases StackSize(stack')
    {
      var n := |stack'| - 1;
      var keys, values := stack'[n].0, stack'[n].1;
      if keys == [] {
        stack' := stack'[..n];
        continue;
      }
      var k, v := keys[0], values[0];
      TakeSlot(stack');
      stack' := stack'[n := (keys[1..], values[1..])];
      match v {
        case Leaf(items) =>
          return Some((k.0, items)), stack';
        case ChildList(list) =>
          StackTop(stack', (list.keys, list.values));
          stack' := stack' + [(list.keys, list.values)];
      }
    }
    leaf := None;
  }

  /** The pairs in the order the consuming iterator yields them: within a key, the newest first, the oldest last. */
  ghost function DrainedPairs<E, V>(f: seq<Entry<E, V>>): seq<(Key<E>, V)> {
    if f == [] then [] else Pairs(f[0].key, f[0].items.Drained()) + DrainedPairs(f[1..])
  }

  /** Draining yields the same pairs as iterating, counted with multiplicity. */
  lemma {:induction false} DrainedSame<E, V>(f: seq<Entry<E, V>>)
    ensures multiset(DrainedPairs(f)) == multiset(Flattened(f))
  {
    if f != [] {
      var key, items := f[0].key, f[0].items;
      PairsReversed(key, items.rest);
      assert Pairs(key, items.Drained()) == Pairs(key, Reversed(items.rest)) + [(key, items.front)];
      assert Pairs(key, items.Items()) == [(key, items.front)] + Pairs(key, items.rest);
      DrainedSame(f[1..]);
    }
  }

  /** What comes out when a multimap is drained: its pairs, each with its entry's key. */
  lemma {:induction false} DrainedFrom<E, V>(f: seq<Entry<E, V>>, i: nat) returns (j: nat)
    requires i < |DrainedPairs(f)|
    ensures j < |f| && DrainedPairs(f)[i].0 == f[j].key
  {
    var here := Pairs(f[0].key, f[0].items.Drained());
    if i < |here| {
      j := 0;
    } else {
      var k := DrainedFrom(f[1..], i - |here|);
      j := k + 1;
    }
  }

  lemma {:induction false} PairsReversed<E, V>(key: Key<E>, s: seq<V>)
    ensures multiset(Pairs(key, Reversed(s))) == multiset(Pairs(key, s))
  {
    if s != [] {
      var n := |s| - 1;
      PairsReversed(key, s[..n]);
      assert Pairs(key, Reversed(s)) == [(key, s[n])] + Pairs(key, Reversed(s[..n]));
      assert Pairs(key, s) == Pairs(key, s[..n]) + [(key, s[n])];
    }
  }

  /** `IntoIter` of the container: one key's values at a time, then the next leaf. */
  class IntoIter<E, V> {
    var kv: Option<(Key<E>, seq<V>)>
    var outerStack: seq<Frame<E, V>>

    ghost predicate Valid()
      reads this
    {
      Framed(outerStack)
    }

    ghost function Remaining(): seq<(Key<E>, V)>
      reads this
    {
      Left(kv, StackEntries(outerStack))
    }

    static ghost function Left(kv: Option<(Key<E>, seq<V>)>, f: seq<Entry<E, V>>): seq<(Key<E>, V)> {
      (if kv.Some? then Pairs(kv.value.0, kv.value.1) else []) + DrainedPairs(f)
    }

    constructor (itms: Node<E, V>)
      requires WellFormed(itms)
      ensures Valid() && Remaining() == DrainedPairs(Flat(itms))
    {
      kv, outerStack := None, [(itms.keys, itms.values)];
      new;
      WholeStack(itms);
      hide Framed, StackEntries, Flat, WellFormed;
    }

    /** Taking one value of the current key. */
    static lemma LeftValue(k: Key<E>, vs: seq<V>, f: seq<Entry<E, V>>)
      requires vs != []
      ensures Left(Some((k, vs)), f) == [(k, vs[0])] + Left(Some((k, vs[1..])), f)
    {
      assert Pairs(k, vs) == [(k, vs[0])] + Pairs(k, vs[1..]);
    }

    /** Moving the next leaf's values to the front. */
    static lemma LeftLeaf(k: Key<E>, items: NonEmpty<V>, f: seq<Entry<E, V>>)
      ensures Left(None, [Entry(k, items)] + f) == Left(Some((k, items.Drained())), f)
    {
      assert ([Entry(k, items)] + f)[1..] == f;
    }

    method Next() returns (r: Option<(Key<E>, V)>)
      requires Valid()
      modifies this
      ensures Valid()
      ensures r.None? ==> old(Remaining()) == [] && Remaining() == []
      ensures r.Some? ==> old(Remaining()) == [r.value] + Remaining()
    {
      while true
        invariant Valid() && Remaining() == old(Remaining())
        decreases StackSize(outerStack), if kv.Some? then 1 else 0
      {
        if kv.Some? {
          var k, vs := kv.value.0, kv.value.1;
          if vs == [] {
            kv := None;
            continue;
          }
          LeftValue(k, vs, StackEntries(outerStack));
          kv := Some((k, vs[1..]));
          return Some((k, vs[0]));
        }
        var leaf, rest := NextLeaf(outerStack);
        outerStack := rest;
        if leaf.None? {
          return None;
        }
        LeftLeaf(leaf.value.0, leaf.value.1, StackEntries(rest));
        kv := Some((leaf.value.0, leaf.value.1.Drained()));
      }
    }
  }
}
