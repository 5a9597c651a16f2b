/** Walking a `BTreeVec`: the index path kept outside the container, and the iterators that own a stack. */
module BTreeVecWalk {
  import opened Wrappers
  import opened NonEmptyVec
  import opened Multimap
  import opened BTreeVec

  // The index path ------------------------------------------------------------------------------

  /** Each index but the last leads into a nested list; the last is a slot, or just past the last slot. */
  ghost predicate ValidPath<E, V>(n: Node<E, V>, path: seq<nat>)
    decreases |path|
  {
    && path != []
    && |n.keys| == |n.values|
    && if |path| == 1 then path[0] <= |n.values|
       else path[0] < |n.values| && n.values[path[0]].ChildList? && ValidPath(n.values[path[0]].list, path[1..])
  }

  /** The entries a path has still to visit. */
  ghost function Remaining<E, V>(n: Node<E, V>, path: seq<nat>): seq<Entry<E, V>>
    requires ValidPath(n, path)
    decreases |path|
  {
    if |path| == 1 then FlatSlots(n.keys[path[0]..], n.values[path[0]..])
    else Remaining(n.values[path[0]].list, path[1..]) + FlatSlots(n.keys[path[0] + 1..], n.values[path[0] + 1..])
  }

  ghost predicate ValidPrefix<E, V>(n: Node<E, V>, prefix: seq<nat>)
    decreases |prefix|
  {
    && |n.keys| == |n.values|
    && (prefix != [] ==>
          && prefix[0] < |n.values|
          && n.values[prefix[0]].ChildList?
          && ValidPrefix(n.values[prefix[0]].list, prefix[1..]))
  }

  ghost function NodeAt<E, V>(n: Node<E, V>, prefix: seq<nat>): Node<E, V>
    requires ValidPrefix(n, prefix)
    decreases |prefix|
  {
    if prefix == [] then n else NodeAt(n.values[prefix[0]].list, prefix[1..])
  }

  /** The entries that come after everything under a prefix. */
  ghost function Beyond<E, V>(n: Node<E, V>, prefix: seq<nat>): seq<Entry<E, V>>
    requires ValidPrefix(n, prefix)
    decreases |prefix|
  {
    if prefix == [] then []
    else Beyond(n.values[prefix[0]].list, prefix[1..])
         + FlatSlots(n.keys[prefix[0] + 1..], n.values[prefix[0] + 1..])
  }

  /** A path splits at any point: what is left is what is left under the prefix, then what lies beyond it. */
  lemma {:induction false} PathSplits<E, V>(n: Node<E, V>, prefix: seq<nat>, tail: seq<nat>)
    requires ValidPrefix(n, prefix) && tail != []
    ensures ValidPath(n, prefix + tail) <==> ValidPath(NodeAt(n, prefix), tail)
    ensures ValidPath(n, prefix + tail) ==>
              Remaining(n, prefix + tail) == Remaining(NodeAt(n, prefix), tail) + Beyond(n, prefix)
    decreases |prefix|
  {
    if prefix == [] {
      assert prefix + tail == tail;
    } else {
      assert (prefix + tail)[1..] == prefix[1..] + tail;
      PathSplits(n.values[prefix[0]].list, prefix[1..], tail);
    }
  }

  lemma {:induction false} PrefixExtends<E, V>(n: Node<E, V>, prefix: seq<nat>, i: nat)
    requires ValidPrefix(n, prefix) && WellFormed(n)
    requires i < |NodeAt(n, prefix).values| && NodeAt(n, prefix).values[i].ChildList?
    ensures WellFormed(NodeAt(n, prefix).values[i].list)
    ensures ValidPrefix(n, prefix + [i])
    ensures NodeAt(n, prefix + [i]) == NodeAt(n, prefix).values[i].list
    decreases |prefix|
  {
    if prefix == [] {
      assert prefix + [i] == [i] && [i][1..] == [];
      assert WellFormedValue(n.keys[i], n.values[i]);
    } else {
      assert WellFormedValue(n.keys[prefix[0]], n.values[prefix[0]]);
      assert (prefix + [i])[1..] == prefix[1..] + [i] && (prefix + [i])[0] == prefix[0];
      PrefixExtends(n.values[prefix[0]].list, prefix[1..], i);
    }
  }

  /** One step inside a node, on the last one or two indexes of a path. */
  lemma StepOver<E, V>(n: Node<E, V>, j: nat)
    requires |n.keys| == |n.values| && j < |n.values|
    ensures Remaining(n, [j]) == FlatValue(n.keys[j].0, n.values[j]) + Remaining(n, [j + 1])
  {
    assert n.keys[j..][1..] == n.keys[j + 1..] && n.values[j..][1..] == n.values[j + 1..];
  }

  /** Descending to the front of a nested list visits nothing and skips nothing. */
  lemma Descend<E, V>(n: Node<E, V>, j: nat)
    requires |n.keys| == |n.values| && j < |n.values| && n.values[j].ChildList?
    requires |n.values[j].list.keys| == |n.values[j].list.values|
    ensures ValidPath(n, [j, 0])
    ensures Remaining(n, [j, 0]) == Remaining(n, [j])
  {
    assert [j, 0][1..] == [0];
    StepOver(n, j);
    var l := n.values[j].list;
    assert l.keys[0..] == l.keys && l.values[0..] == l.values;
  }

  /** Leaving a nested list from its end moves to the next slot. */
  lemma Ascend<E, V>(n: Node<E, V>, j: nat, end: nat)
    requires ValidPath(n, [j, end]) && end == |n.values[j].list.values|
    ensures ValidPath(n, [j + 1])
    ensures Remaining(n, [j, end]) == Remaining(n, [j + 1])
  {
    assert [j, end][1..] == [end];
    var l := n.values[j].list;
    assert l.values[end..] == [];
  }

  /** The inner loop of `stateless_next` has followed `i` indexes of the path, to the node `vecs`. */
  ghost predicate Standing<E, V>(root: Node<E, V>, path: seq<nat>, i: nat, vecs: Node<E, V>) {
    && i < |path|
    && ValidPath(root, path)
    && ValidPrefix(root, path[..i])
    && vecs == NodeAt(root, path[..i])
    && WellFormed(vecs)
    && ValidPath(vecs, path[i..])
  }

  lemma StandingAtRoot<E, V>(root: Node<E, V>, path: seq<nat>)
    requires WellFormed(root) && ValidPath(root, path)
    ensures Standing(root, path, 0, root)
  {
    assert path[..0] == [] && path[0..] == path;
  }

  lemma LeafStep<E, V>(n: Node<E, V>, j: nat)
    requires |n.keys| == |n.values| && j < |n.values| && n.values[j].Leaf?
    ensures ValidPath(n, [j]) && ValidPath(n, [j + 1])
    ensures Remaining(n, [j]) == [Entry(n.keys[j].0, n.values[j].items)] + Remaining(n, [j + 1])
  {
    StepOver(n, j);
  }

  lemma LeafEndsPath<E, V>(n: Node<E, V>, path: seq<nat>)
    requires ValidPath(n, path) && path[0] < |n.values| && n.values[path[0]].Leaf?
    ensures path == [path[0]] && |n.keys| == |n.values|
  {
  }

  /** At a leaf: it is the first entry left, and moving the last index on leaves the others. */
  lemma YieldLeaf<E, V>(root: Node<E, V>, path: seq<nat>, i: nat, vecs: Node<E, V>)
    requires Standing(root, path, i, vecs)
    requires path[i] < |vecs.values| && vecs.values[path[i]].Leaf?
    ensures |vecs.keys| == |vecs.values| && ValidPath(root, path[i := path[i] + 1])
    ensures Remaining(root, path) == [Entry(vecs.keys[path[i]].0, vecs.values[path[i]].items)]
                                     + Remaining(root, path[i := path[i] + 1])
  {
    hide WellFormed, Remaining, ValidPath, Beyond, NodeAt, ValidPrefix, FlatSlots;
    var prefix, index := path[..i], path[i];
    LeafEndsPath(vecs, path[i..]);
    assert path == prefix + [index] && path[i := index + 1] == prefix + [index + 1];
    LeafStep(vecs, index);
    PathSplits(root, prefix, [index]);
    PathSplits(root, prefix, [index + 1]);
  }

  /** At a nested list that ends the path: pushing a 0 leaves the same entries, one level down. */
  lemma PushZero<E, V>(root: Node<E, V>, path: seq<nat>, i: nat, vecs: Node<E, V>)
    requires Standing(root, path, i, vecs) && i + 1 == |path|
    requires path[i] < |vecs.values| && vecs.values[path[i]].ChildList?
    ensures Standing(root, path + [0], i, vecs)
    ensures Remaining(root, path + [0]) == Remaining(root, path)
  {
    var prefix, index := path[..i], path[i];
    assert WellFormedValue(vecs.keys[index], vecs.values[index]) && WellFormed(vecs.values[index].list);
    assert path == prefix + [index] && path + [0] == prefix + [index, 0];
    Descend(vecs, index);
    PathSplits(root, prefix, [index]);
    PathSplits(root, prefix, [index, 0]);
    assert (path + [0])[..i] == prefix && (path + [0])[i..] == [index, 0];
  }

  /** At a nested list that does not end the path: following one more index. */
  lemma FollowIndex<E, V>(root: Node<E, V>, path: seq<nat>, i: nat, vecs: Node<E, V>)
    requires Standing(root, path, i, vecs) && WellFormed(root) && i + 1 < |path|
    requires path[i] < |vecs.values| && vecs.values[path[i]].ChildList?
    ensures Standing(root, path, i + 1, vecs.values[path[i]].list)
    ensures vecs.values[path[i]].list.values != []
  {
    assert WellFormedValue(vecs.keys[path[i]], vecs.values[path[i]]);
    PrefixExtends(root, path[..i], path[i]);
    assert path[..i + 1] == path[..i] + [path[i]];
    assert path[i..][1..] == path[i + 1..];
  }

  /** At a nested list: following one more index, after pushing a 0 if the path ends here. */
  lemma EnterList<E, V>(root: Node<E, V>, path: seq<nat>, i: nat, vecs: Node<E, V>) returns (path': seq<nat>)
    requires Standing(root, path, i, vecs) && WellFormed(root)
    requires path[i] < |vecs.values| && vecs.values[path[i]].ChildList?
    ensures path' == if i + 1 == |path| then path + [0] else path
    ensures Standing(root, path', i + 1, vecs.values[path[i]].list)
    ensures vecs.values[path[i]].list.values != []
    ensures Remaining(root, path') == Remaining(root, path)
  {
    path' := path;
    if i + 1 == |path| {
      PushZero(root, path, i, vecs);
      path' := path + [0];
    }
    FollowIndex(root, path', i, vecs);
  }

  /** At the end of a list below the root: popping the last index and moving the one before it on. */
  lemma PopIndex<E, V>(root: Node<E, V>, path: seq<nat>, i: nat, vecs: Node<E, V>)
    requires Standing(root, path, i, vecs) && path[i] >= |vecs.values|
    ensures |path| == i + 1
    ensures i == 0 ==> Remaining(root, path) == []
    ensures i > 0 ==> var up := path[..i - 1] + [path[i - 1] + 1];
                      ValidPath(root, up) && Remaining(root, up) == Remaining(root, path)
  {
    assert path[i..] == [path[i]];
    assert |path| == i + 1 && path[..|path| - 1] == path[..i];
    if i > 0 {
      LeaveList(root, path);
    }
  }

  /**
   `stateless_next`: yields the first entry the path has still to visit and moves the path just past it,
   or, when there is none, returns nothing and empties the path.
   */
  method StatelessNext<E, V>(root: Node<E, V>, path: seq<nat>)
    returns (item: Option<(Key<E>, NonEmpty<V>)>, indexes: seq<nat>)
    requires WellFormed(root) && ValidPath(root, path)
    ensures item.None? <==> Remaining(root, path) == []
    ensures item.None? ==> indexes == []
    ensures item.Some? ==>
              && ValidPath(root, indexes)
              && Remaining(root, path) == [Entry(item.value.0, item.value.1)] + Remaining(root, indexes)
  {
    hide ValidPath, Remaining, WellFormed, NodeAt, ValidPrefix, Beyond;
    indexes := path;
    while true
      invariant ValidPath(root, indexes) && Remaining(root, indexes) == Remaining(root, path)
      decreases |indexes|
    {
      var vecs := root;
      var i := 0;
      ghost var before := |indexes|;
      StandingAtRoot(root, indexes);
      while true
        invariant Standing(root, indexes, i, vecs) && Remaining(root, indexes) == Remaining(root, path)
        invariant |indexes| != before ==> i + 1 == |indexes| && indexes[i] == 0 && vecs.values != []
        decreases vecs
      {
        var index := indexes[i];
        if index >= |vecs.values| {
          PopIndex(root, indexes, i, vecs);
          if i == 0 {
            return None, [];
          }
          indexes := indexes[..i - 1] + [indexes[i - 1] + 1];
          break;
        }
        match vecs.values[index] {
          case Leaf(v) =>
            YieldLeaf(root, indexes, i, vecs);
            return Some((vecs.keys[index].0, v)), indexes[i := index + 1];
          case ChildList(itms) =>
            ghost var entered := EnterList(root, indexes, i, vecs);
            if i + 1 == |indexes| {
              indexes := indexes + [0];
            }
            vecs := itms;
            i := i + 1;
        }
      }
    }
  }

  /** Popping the last index and moving the one before it on, when the last is past its list's end. */
  lemma LeaveList<E, V>(root: Node<E, V>, path: seq<nat>)
    requires ValidPath(root, path) && |path| >= 2
    requires ValidPrefix(root, path[..|path| - 1])
    requires path[|path| - 1] == |NodeAt(root, path[..|path| - 1]).values|
    ensures var up := path[..|path| - 2] + [path[|path| - 2] + 1];
            ValidPath(root, up) && Remaining(root, up) == Remaining(root, path)
    decreases |path|
  {
    hide FlatSlots, FlatValue;
    var n := |path|;
    var up := path[..n - 2] + [path[n - 2] + 1];
    if n == 2 {
      assert path == [path[0], path[1]];
      assert path[..1] == [path[0]] && [path[0]][1..] == [];
      Ascend(root, path[0], path[1]);
      assert up == [path[0] + 1];
    } else {
      var child := root.values[path[0]].list;
      assert path[..n - 1][1..] == path[1..][..n - 2];
      LeaveList(child, path[1..]);
      assert up[1..] == path[1..][..n - 3] + [path[1..][n - 3] + 1];
    }
  }

  /** `begin_iteration`, then `stateless_next` until it returns nothing: every entry once, in key order. */
  method VisitAll<E, V>(root: Node<E, V>) returns (visited: seq<Entry<E, V>>)
    requires WellFormed(root)
    ensures visited == Flat(root)
  {
    visited := [];
    var state := [0];
    assert root.keys[0..] == root.keys && root.values[0..] == root.values;
    var item, next := StatelessNext(root, state);
    while item.Some?
      invariant ValidPath(root, state)
      invariant item.None? <==> Remaining(root, state) == []
      invariant item.Some? ==>
                  && ValidPath(root, next)
                  && Remaining(root, state) == [Entry(item.value.0, item.value.1)] + Remaining(root, next)
      invariant visited + Remaining(root, state) == Flat(root)
      decreases |Remaining(root, state)|
    {
      visited := visited + [Entry(item.value.0, item.value.1)];
      state := next;
      item, next := StatelessNext(root, state);
    }
  }
}
