/**
 `BTreeVec`: an ordered multimap kept as nested lists of key ranges.

 A node has two parallel vectors: ranges of keys, and what each range holds, either one key's values or
 another node. Pushing at the end or into a short list works on the list itself; only a full list nests.
 */
module BTreeVec {
  import opened Wrappers
  import opened NonEmptyVec
  import opened Multimap

  const MAX_ITEMS_FOR_INSERT := 32

  type Range<E> = (Key<E>, Key<E>)

  datatype NodeValue<E, V> = Leaf(items: NonEmpty<V>) | ChildList(list: Node<E, V>)

  datatype Node<E, V> = Node(keys: seq<Range<E>>, values: seq<NodeValue<E, V>>)

  // The entries a node stands for ----------------------------------------------------------------

  ghost function FlatValue<E, V>(key: Key<E>, value: NodeValue<E, V>): seq<Entry<E, V>>
    decreases value
  {
    match value
    case Leaf(items) => [Entry(key, items)]
    case ChildList(list) => FlatSlots(list.keys, list.values)
  }

  ghost function FlatSlots<E, V>(keys: seq<Range<E>>, values: seq<NodeValue<E, V>>): seq<Entry<E, V>>
    decreases values
  {
    if keys == [] || values == [] then []
    else FlatValue(keys[0].0, values[0]) + FlatSlots(keys[1..], values[1..])
  }

  ghost function Flat<E, V>(n: Node<E, V>): seq<Entry<E, V>> {
    FlatSlots(n.keys, n.values)
  }

  // The nested range invariant -------------------------------------------------------------------

  ghost predicate WellFormedValue<E, V>(range: Range<E>, value: NodeValue<E, V>)
    decreases value
  {
    match value
    case Leaf(_) => range.0 == range.1
    case ChildList(list) =>
      && WellFormed(list)
      && list.keys != []
      && list.keys[0].0.rank == range.0.rank
      && list.keys[|list.keys| - 1].1.rank == range.1.rank
  }

  ghost predicate RangesDisjoint<E>(keys: seq<Range<E>>) {
    && (forall i :: 0 <= i < |keys| ==> keys[i].0.rank <= keys[i].1.rank)
    && (forall i, j :: 0 <= i < j < |keys| ==> keys[i].1.rank < keys[j].0.rank)
  }

  /** Ranges are sorted and disjoint, leaf ranges are single keys, and a nested list fills its range exactly. */
  ghost predicate WellFormed<E, V>(n: Node<E, V>)
    decreases n
  {
    && |n.keys| == |n.values|
    && RangesDisjoint(n.keys)
    && forall i :: 0 <= i < |n.keys| ==> WellFormedValue(n.keys[i], n.values[i])
  }

  lemma {:induction false} FlatSlotsConcat<E, V>(k1: seq<Range<E>>, v1: seq<NodeValue<E, V>>,
                                                 k2: seq<Range<E>>, v2: seq<NodeValue<E, V>>)
    requires |k1| == |v1|
    ensures FlatSlots(k1 + k2, v1 + v2) == FlatSlots(k1, v1) + FlatSlots(k2, v2)
  {
    if k1 == [] {
      assert k1 + k2 == k2 && v1 + v2 == v2;
    } else {
      assert (k1 + k2)[1..] == k1[1..] + k2 && (v1 + v2)[1..] == v1[1..] + v2;
      FlatSlotsConcat(k1[1..], v1[1..], k2, v2);
    }
  }

  lemma FlatSlot<E, V>(key: Range<E>, value: NodeValue<E, V>)
    ensures FlatSlots([key], [value]) == FlatValue(key.0, value)
  {
    assert FlatSlots([key][1..], [value][1..]) == [];
  }

  lemma FlatMiddle<E, V>(k1: seq<Range<E>>, v1: seq<NodeValue<E, V>>, key: Range<E>, value: NodeValue<E, V>,
                         k2: seq<Range<E>>, v2: seq<NodeValue<E, V>>)
    requires |k1| == |v1|
    ensures FlatSlots(k1 + [key] + k2, v1 + [value] + v2)
            == FlatSlots(k1, v1) + FlatValue(key.0, value) + FlatSlots(k2, v2)
  {
    FlatSlot(key, value);
    FlatSlotsConcat(k1, v1, [key], [value]);
    FlatSlotsConcat(k1 + [key], v1 + [value], k2, v2);
  }

  /** The entries before slot `i`, at slot `i`, and after it. */
  lemma FlatAround<E, V>(n: Node<E, V>, i: nat)
    requires |n.keys| == |n.values| && i < |n.keys|
    ensures Flat(n) == FlatSlots(n.keys[..i], n.values[..i]) + FlatValue(n.keys[i].0, n.values[i])
                       + FlatSlots(n.keys[i + 1..], n.values[i + 1..])
  {
    FlatMiddle(n.keys[..i], n.values[..i], n.keys[i], n.values[i], n.keys[i + 1..], n.values[i + 1..]);
    assert n.keys == n.keys[..i] + [n.keys[i]] + n.keys[i + 1..];
    assert n.values == n.values[..i] + [n.values[i]] + n.values[i + 1..];
  }

  lemma FlatSplit<E, V>(n: Node<E, V>, i: nat)
    requires |n.keys| == |n.values| && i <= |n.keys|
    ensures Flat(n) == FlatSlots(n.keys[..i], n.values[..i]) + FlatSlots(n.keys[i..], n.values[i..])
  {
    FlatSlotsConcat(n.keys[..i], n.values[..i], n.keys[i..], n.values[i..]);
    assert n.keys == n.keys[..i] + n.keys[i..] && n.values == n.values[..i] + n.values[i..];
  }

  /** The entries of a slot fill its range: sorted, within it, and touching both ends. */
  ghost predicate Fills<E, V>(f: seq<Entry<E, V>>, lo: int, hi: int) {
    && f != [] && Sorted(f) && Within(f, lo, hi)
    && f[0].key.rank == lo && f[|f| - 1].key.rank == hi
  }

  lemma {:induction false} FlatValueFills<E, V>(range: Range<E>, value: NodeValue<E, V>)
    requires WellFormedValue(range, value)
    ensures Fills(FlatValue(range.0, value), range.0.rank, range.1.rank)
    decreases value
  {
    match value
    case Leaf(_) =>
    case ChildList(list) =>
      FlatSlotsFill(list.keys, list.values);
  }

  lemma {:induction false} FlatSlotsFill<E, V>(keys: seq<Range<E>>, values: seq<NodeValue<E, V>>)
    requires |keys| == |values| && RangesDisjoint(keys)
    requires forall i :: 0 <= i < |keys| ==> WellFormedValue(keys[i], values[i])
    ensures Sorted(FlatSlots(keys, values))
    ensures if keys == [] then FlatSlots(keys, values) == []
            else Fills(FlatSlots(keys, values), keys[0].0.rank, keys[|keys| - 1].1.rank)
    decreases values
  {
    if keys != [] {
      FlatValueFills(keys[0], values[0]);
      FlatSlotsFill(keys[1..], values[1..]);
      if |keys| > 1 {
        assert keys[1..][0] == keys[1];
      }
    }
  }

  lemma FlatSorted<E, V>(n: Node<E, V>)
    requires WellFormed(n)
    ensures Sorted(Flat(n))
  {
    FlatSlotsFill(n.keys, n.values);
  }

  /** Any run of slots keeps the preconditions of the lemma above. */
  lemma SlotsBefore<E, V>(n: Node<E, V>, i: nat, rank: int)
    requires WellFormed(n) && i <= |n.keys|
    requires forall j :: 0 <= j < i ==> n.keys[j].1.rank < rank
    ensures Below(FlatSlots(n.keys[..i], n.values[..i]), rank)
  {
    FlatSlotsFill(n.keys[..i], n.values[..i]);
  }

  lemma SlotsAfter<E, V>(n: Node<E, V>, i: nat, rank: int)
    requires WellFormed(n) && i <= |n.keys|
    requires forall j :: i <= j < |n.keys| ==> rank < n.keys[j].0.rank
    ensures Above(FlatSlots(n.keys[i..], n.values[i..]), rank)
  {
    FlatSlotsFill(n.keys[i..], n.values[i..]);
  }

  // Searching ------------------------------------------------------------------------------------

  /** `Ok(i)`: the key is in range `i`. `Err(i)`: it is in none, and belongs just before range `i`. */
  ghost predicate SearchResult<E>(keys: seq<Range<E>>, key: Key<E>, r: Result<nat, nat>) {
    match r
    case Ok(i) => i < |keys| && keys[i].0.rank <= key.rank <= keys[i].1.rank
    case Err(i) =>
      && i <= |keys|
      && (forall j :: 0 <= j < i ==> keys[j].1.rank < key.rank)
      && (forall j :: i <= j < |keys| ==> key.rank < keys[j].0.rank)
  }

  /** On disjoint ranges there is one answer, so every correct search strategy agrees with every other. */
  lemma SearchAgrees<E>(keys: seq<Range<E>>, key: Key<E>, r: Result<nat, nat>, s: Result<nat, nat>)
    requires RangesDisjoint(keys)
    requires SearchResult(keys, key, r) && SearchResult(keys, key, s)
    ensures r == s
  {
    match (r, s)
    case (Ok(i), Ok(j)) => assert !(i < j) && !(j < i);
    case (Ok(i), Err(j)) => assert false;
    case (Err(i), Ok(j)) => assert false;
    case (Err(i), Err(j)) =>
      var k := if i < j then i else j;
      if k < |keys| { assert keys[k].0.rank <= keys[k].1.rank; }
  }

  method BinarySearch<E>(keys: seq<Range<E>>, key: Key<E>) returns (r: Result<nat, nat>)
    requires RangesDisjoint(keys)
    ensures SearchResult(keys, key, r)
  {
    var lo, hi := 0, |keys|;
    while lo < hi
      invariant 0 <= lo <= hi <= |keys|
      invariant forall j :: 0 <= j < lo ==> keys[j].1.rank < key.rank
      invariant forall j :: hi <= j < |keys| ==> key.rank < keys[j].0.rank
    {
      var mid := lo + (hi - lo) / 2;
      if key.rank < keys[mid].0.rank {
        hi := mid;
      } else if key.rank == keys[mid].0.rank || key.rank <= keys[mid].1.rank {
        return Ok(mid);
      } else {
        lo := mid + 1;
      }
    }
    return Err(lo);
  }

  method LinearSearch<E>(keys: seq<Range<E>>, key: Key<E>) returns (r: Result<nat, nat>)
    requires RangesDisjoint(keys)
    ensures SearchResult(keys, key, r)
  {
    for i := 0 to |keys|
      invariant forall j :: 0 <= j < i ==> keys[j].1.rank < key.rank
    {
      if key.rank < keys[i].0.rank {
        return Err(i);
      }
      if key.rank == keys[i].0.rank || key.rank <= keys[i].1.rank {
        return Ok(i);
      }
    }
    return Err(|keys|);
  }

  method BTreeSearch<E>(keys: seq<Range<E>>, key: Key<E>) returns (r: Result<nat, nat>)
    requires RangesDisjoint(keys)
    ensures SearchResult(keys, key, r)
  {
    if |keys| > MAX_ITEMS_FOR_INSERT * 2 {
      r := BinarySearch(keys, key);
    } else {
      r := LinearSearch(keys, key);
    }
  }

  // Lookup ---------------------------------------------------------------------------------------

  /** `get` on a node returns exactly the values pushed under the key. */
  method GetIn<E, V>(n: Node<E, V>, key: Key<E>) returns (r: Option<NonEmpty<V>>)
    requires WellFormed(n)
    ensures r == Lookup(Flat(n), key.rank)
    decreases n
  {
    var index := BTreeSearch(n.keys, key);
    match index
    case Err(i) =>
      SlotsBefore(n, i, key.rank);
      SlotsAfter(n, i, key.rank);
      FlatSplit(n, i);
      LookupAbsent(Flat(n), key.rank);
      r := None;
    case Ok(i) =>
      LookupAtSlot(n, i, key.rank);
      match n.values[i] {
        case Leaf(items) => r := Some(items);
        case ChildList(list) => r := GetIn(list, key);
      }
  }

  lemma LookupAtSlot<E, V>(n: Node<E, V>, i: nat, rank: int)
    requires WellFormed(n) && i < |n.keys|
    requires n.keys[i].0.rank <= rank <= n.keys[i].1.rank
    ensures Lookup(Flat(n), rank) == Lookup(FlatValue(n.keys[i].0, n.values[i]), rank)
  {
    var a, b, c := FlatSlots(n.keys[..i], n.values[..i]), FlatValue(n.keys[i].0, n.values[i]),
      FlatSlots(n.keys[i + 1..], n.values[i + 1..]);
    FlatAround(n, i);
    SlotsBefore(n, i, rank);
    SlotsAfter(n, i + 1, rank);
    LookupAbsent(a, rank);
    LookupAbsent(c, rank);
    LookupConcat(a + b, c, rank);
    LookupConcat(a, b, rank);
  }

  // Pushing --------------------------------------------------------------------------------------

  function MinKey<E>(a: Key<E>, b: Key<E>): Key<E> {
    if b.rank < a.rank then b else a
  }

  /** What replaces the leaf `oldValue` of a full node: the two-entry list of it and the new pair. */
  method MakeLeafToListWithAdded<E, V>(oldKey: Key<E>, oldValue: NonEmpty<V>, key: Key<E>, newValue: V)
    returns (range: Range<E>, list: Node<E, V>)
    requires key.rank != oldKey.rank
    ensures WellFormedValue(range, ChildList(list))
    ensures Flat(list) == Added([Entry(oldKey, oldValue)], key, newValue)
    ensures key.rank < oldKey.rank ==> range == (key, oldKey)
    ensures oldKey.rank < key.rank ==> range == (oldKey, key)
  {
    if key.rank > oldKey.rank {
      list := Node([(oldKey, oldKey), (key, key)], [Leaf(oldValue), Leaf(NonEmpty(newValue, []))]);
      range := (oldKey, key);
    } else {
      list := Node([(key, key), (oldKey, oldKey)], [Leaf(NonEmpty(newValue, [])), Leaf(oldValue)]);
      range := (key, oldKey);
    }
    FlatTwo(list);
  }

  lemma FlatTwo<E, V>(n: Node<E, V>)
    requires |n.keys| == |n.values| == 2
    ensures Flat(n) == FlatValue(n.keys[0].0, n.values[0]) + FlatValue(n.keys[1].0, n.values[1])
  {
    FlatAround(n, 0);
    FlatSlot(n.keys[1], n.values[1]);
    assert n.keys[1..] == [n.keys[1]] && n.values[1..] == [n.values[1]];
    assert n.keys[..0] == [];
  }

  function ReplaceSlot<E, V>(n: Node<E, V>, i: nat, range: Range<E>, value: NodeValue<E, V>): Node<E, V>
    requires i < |n.keys| && i < |n.values|
  {
    Node(n.keys[i := range], n.values[i := value])
  }

  function InsertSlot<E, V>(n: Node<E, V>, i: nat, key: Key<E>, value: V): Node<E, V>
    requires i <= |n.keys| && i <= |n.values|
  {
    Node(n.keys[..i] + [(key, key)] + n.keys[i..],
         n.values[..i] + [Leaf(NonEmpty(value, []))] + n.values[i..])
  }

  /** A new leaf between two slots adds the pair, and every slot keeps its place in the order. */
  lemma InsertSlotAdds<E, V>(n: Node<E, V>, i: nat, key: Key<E>, value: V)
    requires WellFormed(n)
    requires SearchResult(n.keys, key, Err(i))
    ensures Flat(InsertSlot(n, i, key, value)) == Added(Flat(n), key, value)
  {
    var a, c := FlatSlots(n.keys[..i], n.values[..i]), FlatSlots(n.keys[i..], n.values[i..]);
    SlotsBefore(n, i, key.rank);
    SlotsAfter(n, i, key.rank);
    AddedBetween(a, [], c, key, value);
    assert a + [] + c == a + c;
    FlatSplit(n, i);
    FlatMiddle(n.keys[..i], n.values[..i], (key, key), Leaf(NonEmpty(value, [])), n.keys[i..], n.values[i..]);
  }

  lemma InsertSlotWellFormed<E, V>(n: Node<E, V>, i: nat, key: Key<E>, value: V)
    requires WellFormed(n)
    requires SearchResult(n.keys, key, Err(i))
    ensures WellFormed(InsertSlot(n, i, key, value))
  {
    var r := InsertSlot(n, i, key, value);
    InsertKeepsDisjoint(n.keys, i, key);
    forall j | 0 <= j < |r.keys| ensures WellFormedValue(r.keys[j], r.values[j]) {
      if j < i {
        assert r.keys[j] == n.keys[j] && r.values[j] == n.values[j];
      } else if i < j {
        assert r.keys[j] == n.keys[j - 1] && r.values[j] == n.values[j - 1];
      }
    }
  }

  lemma InsertKeepsDisjoint<E>(keys: seq<Range<E>>, i: nat, key: Key<E>)
    requires RangesDisjoint(keys) && SearchResult(keys, key, Err(i))
    ensures RangesDisjoint(keys[..i] + [(key, key)] + keys[i..])
  {
    var r := keys[..i] + [(key, key)] + keys[i..];
    forall j, k | 0 <= j < k < |r| ensures r[j].1.rank < r[k].0.rank {
      var j', k' := if j < i then j else j - 1, if k < i then k else k - 1;
      if j != i { assert r[j] == keys[j']; }
      if k != i { assert r[k] == keys[k']; }
    }
  }

  lemma FlatReplaced<E, V>(n: Node<E, V>, i: nat, range: Range<E>, value: NodeValue<E, V>)
    requires |n.keys| == |n.values| && i < |n.keys|
    ensures Flat(ReplaceSlot(n, i, range, value))
            == FlatSlots(n.keys[..i], n.values[..i]) + FlatValue(range.0, value)
               + FlatSlots(n.keys[i + 1..], n.values[i + 1..])
  {
    FlatMiddle(n.keys[..i], n.values[..i], range, value, n.keys[i + 1..], n.values[i + 1..]);
    assert n.keys[i := range] == n.keys[..i] + [range] + n.keys[i + 1..];
    assert n.values[i := value] == n.values[..i] + [value] + n.values[i + 1..];
  }

  /** Growing one slot in place adds the pair to the node. */
  lemma ReplaceSlotAdds<E, V>(n: Node<E, V>, i: nat, range: Range<E>, value: NodeValue<E, V>, key: Key<E>, v: V)
    requires WellFormed(n) && i < |n.keys|
    requires FlatValue(range.0, value) == Added(FlatValue(n.keys[i].0, n.values[i]), key, v)
    requires key.rank <= n.keys[i].1.rank
    requires forall j :: 0 <= j < i ==> n.keys[j].1.rank < key.rank
    ensures Flat(ReplaceSlot(n, i, range, value)) == Added(Flat(n), key, v)
  {
    FlatAround(n, i);
    FlatReplaced(n, i, range, value);
    SlotsBefore(n, i, key.rank);
    SlotsAfter(n, i + 1, key.rank);
    AddedBetween(FlatSlots(n.keys[..i], n.values[..i]), FlatValue(n.keys[i].0, n.values[i]),
                 FlatSlots(n.keys[i + 1..], n.values[i + 1..]), key, v);
  }

  /** A grown slot keeps the node well-formed when its range stays clear of its neighbours. */
  lemma ReplaceSlotWellFormed<E, V>(n: Node<E, V>, i: nat, range: Range<E>, value: NodeValue<E, V>)
    requires WellFormed(n) && i < |n.keys|
    requires WellFormedValue(range, value)
    requires range.0.rank <= range.1.rank == n.keys[i].1.rank
    requires forall j :: 0 <= j < i ==> n.keys[j].1.rank < range.0.rank
    ensures WellFormed(ReplaceSlot(n, i, range, value))
  {
  }

  /** A key gets a slot of its own past the last range, or between two while a node has few. */
  ghost predicate TakesSlot<E>(keys: seq<Range<E>>, key: Key<E>) {
    || (forall i :: 0 <= i < |keys| ==> keys[i].1.rank < key.rank)
    || (|keys| < MAX_ITEMS_FOR_INSERT
        && forall i :: 0 <= i < |keys| ==> !(keys[i].0.rank <= key.rank <= keys[i].1.rank))
  }

  /** Pushing into a node: the nested range invariant is kept, and the node stands for one more pair. */
  method PushInto<E, V>(n: Node<E, V>, key: Key<E>, value: V) returns (r: Node<E, V>)
    requires WellFormed(n)
    ensures WellFormed(r) && r.keys != []
    ensures Flat(r) == Added(Flat(n), key, value)
    ensures |r.keys| == |n.keys| + if TakesSlot(n.keys, key) then 1 else 0
    decreases n, 2
  {
    if n.keys == [] || key.rank > n.keys[|n.keys| - 1].1.rank {
      InsertSlotAdds(n, |n.keys|, key, value);
      InsertSlotWellFormed(n, |n.keys|, key, value);
      r := Node(n.keys + [(key, key)], n.values + [Leaf(NonEmpty(value, []))]);
      assert r == InsertSlot(n, |n.keys|, key, value);
      return;
    }

    var index := BTreeSearch(n.keys, key);
    match index
    case Ok(i) =>
      r := PushIntoSlot(n, i, n.keys[i], key, value);
    case Err(i) =>
      r := PushBefore(n, i, key, value);
  }

  /** Pushing a key that is in no range, and belongs just before range `i`. */
  method PushBefore<E, V>(n: Node<E, V>, i: nat, key: Key<E>, value: V) returns (r: Node<E, V>)
    requires WellFormed(n) && i < |n.keys| && SearchResult(n.keys, key, Err(i))
    ensures WellFormed(r) && r.keys != []
    ensures Flat(r) == Added(Flat(n), key, value)
    ensures |r.keys| == |n.keys| + if |n.keys| < MAX_ITEMS_FOR_INSERT then 1 else 0
    decreases n, 1
  {
    if |n.keys| < MAX_ITEMS_FOR_INSERT {
      InsertSlotAdds(n, i, key, value);
      InsertSlotWellFormed(n, i, key, value);
      return InsertSlot(n, i, key, value);
    }
    match n.values[i] {
      case Leaf(items) =>
        var range, l := MakeLeafToListWithAdded(n.keys[i].0, items, key, value);
        r := ReplaceSlot(n, i, range, ChildList(l));
        ReplaceSlotAdds(n, i, range, ChildList(l), key, value);
        ReplaceSlotWellFormed(n, i, range, ChildList(l));
      case ChildList(list) =>
        // the list can only be stretched down: a key past the last range was appended before
        r := PushIntoSlot(n, i, (MinKey(n.keys[i].0, key), n.keys[i].1), key, value);
    }
  }

  /** Pushing into what slot `i` holds, whose range becomes `range`. */
  method PushIntoSlot<E, V>(n: Node<E, V>, i: nat, range: Range<E>, key: Key<E>, value: V) returns (r: Node<E, V>)
    requires WellFormed(n) && i < |n.keys|
    requires range.0.rank == MinKey(n.keys[i].0, key).rank && range.1 == n.keys[i].1
    requires key.rank <= range.1.rank
    requires n.values[i].Leaf? ==> range == n.keys[i] && key.rank == range.0.rank
    requires forall j :: 0 <= j < i ==> n.keys[j].1.rank < key.rank
    ensures WellFormed(r) && r.keys != []
    ensures Flat(r) == Added(Flat(n), key, value) && |r.keys| == |n.keys|
    decreases n, 0
  {
    match n.values[i]
    case Leaf(items) =>
      r := ReplaceSlot(n, i, range, Leaf(items.Push(value)));
      ReplaceSlotAdds(n, i, range, Leaf(items.Push(value)), key, value);
      ReplaceSlotWellFormed(n, i, range, Leaf(items.Push(value)));
    case ChildList(list) =>
      var l := PushInto(list, key, value);
      PushedListFits(list, n.keys[i], l, range, key, value);
      r := ReplaceSlot(n, i, range, ChildList(l));
      ReplaceSlotAdds(n, i, range, ChildList(l), key, value);
      ReplaceSlotWellFormed(n, i, range, ChildList(l));
  }

  /** After a push that is not past its end, a nested list fills the range stretched down to the new key. */
  lemma PushedListFits<E, V>(list: Node<E, V>, range: Range<E>, l: Node<E, V>, range': Range<E>, key: Key<E>, value: V)
    requires WellFormedValue(range, ChildList(list))
    requires key.rank <= range.1.rank
    requires WellFormed(l) && l.keys != [] && Flat(l) == Added(Flat(list), key, value)
    requires range'.0.rank == MinKey(range.0, key).rank && range'.1.rank == range.1.rank
    ensures WellFormedValue(range', ChildList(l))
  {
    FlatEnds(list);
    FlatEnds(l);
    AddedEnds(Flat(list), key, value);
  }

  lemma FlatEnds<E, V>(n: Node<E, V>)
    requires WellFormed(n) && n.keys != []
    ensures Flat(n) != []
    ensures Flat(n)[0].key.rank == n.keys[0].0.rank
    ensures Flat(n)[|Flat(n)| - 1].key.rank == n.keys[|n.keys| - 1].1.rank
  {
    FlatSlotsFill(n.keys, n.values);
  }

  lemma {:induction false} AddedEnds<E, V>(f: seq<Entry<E, V>>, key: Key<E>, value: V)
    requires f != [] && key.rank <= f[|f| - 1].key.rank
    ensures var g := Added(f, key, value);
            && g != []
            && g[0].key.rank == (if key.rank < f[0].key.rank then key.rank else f[0].key.rank)
            && g[|g| - 1].key.rank == f[|f| - 1].key.rank
  {
    if f[0].key.rank < key.rank {
      AddedEnds(f[1..], key, value);
    }
  }
}
