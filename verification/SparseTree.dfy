/** The sparse tree over one-dimensional keys: its nodes by id, and its pages in storage, taken as a map. */
module SparseTrees {
  import opened Wrappers
  import opened NonEmptyVec
  import opened Multimap
  import opened Vec = BTreeVec
  import opened BTreeVecApi
  import opened BBoxes
  import opened Powers
  import opened NodeIds
  import opened Sums
  import opened TreeNodes
  import opened SparseViews
  import opened SparseDescent
  import opened Ranking
  import opened SparseHistory

  // Sharing children out -------------------------------------------------------------------------

  ghost predicate Parted<V>(ps: seq<Pair<V>>, r: Span, bits: nat, l: Inner<(), V>, r': Inner<(), V>, stay: Inner<(), V>)
  {
    && InnerHolds(l, Pushed(Share(ps, r, bits, Left)))
    && InnerHolds(r', Pushed(Share(ps, r, bits, Right)))
    && InnerHolds(stay, Pushed(Share(ps, r, bits, Neither)))
  }

  lemma PickedNext<V>(ps: seq<Pair<V>>, p: Pair<V>, r: Span, bits: nat, side: Side)
    ensures Pushed(Picked(ps + [p], r, bits, side)) ==
              if HalfFor(r, bits, p.0.rank) == side then Added(Pushed(Picked(ps, r, bits, side)), p.0, p.1)
              else Pushed(Picked(ps, r, bits, side))
  {
    hide HalfFor, Added;
    assert (ps + [p])[..|ps|] == ps;
    if HalfFor(r, bits, p.0.rank) == side {
      PushedNext(Picked(ps, r, bits, side), p);
    } else {
      assert Picked(ps, r, bits, side) + [] == Picked(ps, r, bits, side);
    }
  }

  /** The children sent so far, each where its key goes. */
  ghost predicate Sent<V>(done: seq<Pair<V>>, r: Span, bits: nat, l: Inner<(), V>, r': Inner<(), V>, stay: Inner<(), V>)
  {
    && InnerHolds(l, Pushed(Picked(done, r, bits, Left)))
    && InnerHolds(r', Pushed(Picked(done, r, bits, Right)))
    && InnerHolds(stay, Pushed(Picked(done, r, bits, Neither)))
  }

  method SendChild<V>(child: Pair<V>, left: Span, right: Span, l: Inner<(), V>, r': Inner<(), V>, stay: Inner<(), V>,
                      ghost done: seq<Pair<V>>, ghost r: Span, ghost bits: nat)
    returns (l1: Inner<(), V>, r1: Inner<(), V>, stay1: Inner<(), V>)
    requires (left, right) == Halved(r, bits) && Sent(done, r, bits, l, r', stay)
    ensures Sent(done + [child], r, bits, l1, r1, stay1)
  {
    hide InnerHolds, Halved, InSpan, Picked, Pushed, Added;
    l1, r1, stay1 := l, r', stay;
    var (key, item) := child;
    PickedNext(done, child, r, bits, Left);
    PickedNext(done, child, r, bits, Right);
    PickedNext(done, child, r, bits, Neither);
    if InSpan(key.rank, left) {
      l1 := PushChild(l, key, item, Pushed(Picked(done, r, bits, Left)));
    } else if InSpan(key.rank, right) {
      r1 := PushChild(r', key, item, Pushed(Picked(done, r, bits, Right)));
    } else {
      stay1 := PushChild(stay, key, item, Pushed(Picked(done, r, bits, Neither)));
    }
  }

  /** At a range that can be halved: each child goes where its key does. */
  method PartEvenly<V>(inner: Inner<(), V>, r: Span, bits: nat, left: Span, right: Span, ghost f: Held<V>)
    returns (l: Inner<(), V>, r': Inner<(), V>, stay: Inner<(), V>)
    requires InnerHolds(inner, f) && !AtLimit(r, bits) && (left, right) == Halved(r, bits)
    ensures Parted(DrainedPairs(f), r, bits, l, r', stay)
  {
    hide WellFormed, Flat, LenOf, DrainedPairs, Halved, AtLimit, Sent;
    l, r', stay := NoChildren(), NoChildren(), NoChildren();
    var children := new BTreeVecApi.IntoIter(inner.children);
    ghost var done: seq<Pair<V>> := [];
    NothingSent(r, bits, l);
    var next := children.Next();
    while next.Some?
      invariant fresh(children) && children.Valid()
      invariant next.Some? ==> done + [next.value] + children.Remaining() == DrainedPairs(f)
      invariant next.None? ==> done == DrainedPairs(f)
      invariant Sent(done, r, bits, l, r', stay)
      decreases |DrainedPairs(f)| - |done|, next.Some?
    {
      l, r', stay := SendChild(next.value, left, right, l, r', stay, done, r, bits);
      done := done + [next.value];
      next := children.Next();
    }
    SentAll(done, r, bits, l, r', stay);
  }

  lemma SentAll<V>(ps: seq<Pair<V>>, r: Span, bits: nat, l: Inner<(), V>, r': Inner<(), V>, stay: Inner<(), V>)
    requires !AtLimit(r, bits) && Sent(ps, r, bits, l, r', stay)
    ensures Parted(ps, r, bits, l, r', stay)
  {
    hide AtLimit;
  }

  lemma NothingSent<V>(r: Span, bits: nat, none: Inner<(), V>)
    requires InnerHolds(none, [])
    ensures Sent([], r, bits, none, none, none)
  {
  }

  lemma FirstOfRest<P>(ps: seq<P>, i: nat, first: P, rest: seq<P>)
    requires i < |ps| && ps[i..] == [first] + rest
    ensures first == ps[i] && rest == ps[i + 1..] && ps[..i + 1] == ps[..i] + [ps[i]]
  {
    assert ps[i..][0] == ps[i] && ps[i..][1..] == ps[i + 1..];
  }

  /** Moves up to `limit` of the children that are left into a new vector. */
  method TakeInto<V>(children: BTreeVecApi.IntoIter<(), V>, limit: nat, ghost ps: seq<Pair<V>>)
    returns (r: Inner<(), V>)
    requires children.Valid() && children.Remaining() == ps && limit <= |ps|
    modifies children
    ensures children.Valid() && children.Remaining() == ps[limit..]
    ensures InnerHolds(r, Pushed(ps[..limit]))
  {
    hide InnerHolds, Pushed, Added, Framed, StackEntries, BTreeVecApi.IntoIter.Left;
    r := NoChildren();
    NothingPushed<V>();
    for i := 0 to limit
      invariant children.Valid() && children.Remaining() == ps[i..]
      invariant InnerHolds(r, Pushed(ps[..i]))
    {
      var next := children.Next();
      FirstOfRest(ps, i, next.value, children.Remaining());
      PushedNext(ps[..i], ps[i]);
      r := PushChild(r, next.value.0, next.value.1, Pushed(ps[..i]));
    }
  }

  /** Moves all the children that are left into a new vector. */
  method TakeRest<V>(children: BTreeVecApi.IntoIter<(), V>, ghost ps: seq<Pair<V>>) returns (r: Inner<(), V>)
    requires children.Valid() && children.Remaining() == ps
    modifies children
    ensures InnerHolds(r, Pushed(ps))
  {
    hide InnerHolds, Pushed, Added;
    r := NoChildren();
    NothingPushed<V>();
    ghost var done: seq<Pair<V>> := [];
    var next := children.Next();
    while next.Some?
      invariant children.Valid()
      invariant next.Some? ==> done + [next.value] + children.Remaining() == ps
      invariant next.None? ==> done == ps
      invariant InnerHolds(r, Pushed(done))
      decreases |ps| - |done|, next.Some?
    {
      PushedNext(done, next.value);
      r := PushChild(r, next.value.0, next.value.1, Pushed(done));
      done := done + [next.value];
      next := children.Next();
    }
  }

  /** At the limit: a quarter of the children go left, in the order they are drained, and the rest right. */
  method PartByQuarters<V>(inner: Inner<(), V>, r: Span, bits: nat, ghost f: Held<V>)
    returns (l: Inner<(), V>, r': Inner<(), V>, stay: Inner<(), V>)
    requires InnerHolds(inner, f) && AtLimit(r, bits)
    ensures Parted(DrainedPairs(f), r, bits, l, r', stay)
  {
    hide WellFormed, Flat, LenOf, DrainedPairs, AtLimit, Pushed, Added;
    ghost var ps := DrainedPairs(f);
    DrainedLen(inner, f);
    NothingPushed<V>();
    stay := NoChildren();
    var children := new BTreeVecApi.IntoIter(inner.children);
    var firstAmount := inner.len / 4;
    l := TakeInto(children, firstAmount, ps);
    r' := TakeRest(children, ps[firstAmount..]);
  }

  lemma DrainedLen<V>(inner: Inner<(), V>, f: Held<V>)
    requires InnerHolds(inner, f)
    ensures inner.len == |DrainedPairs(f)|
  {
    DrainedSame(f);
    assert |multiset(DrainedPairs(f))| == |DrainedPairs(f)| && |multiset(Flattened(f))| == |Flattened(f)|;
  }

  lemma NothingPushed<V>()
    ensures Pushed<(), V>([]) == []
  {
  }

  class BinaryTree<V(!new)> {
    const rootSpan: Span
    const bits: nat
    const saturation: nat
    var nodes: map<nat, TreeNode<Span>>
    // storage, as a map from page ids to what the pages hold
    var pages: Pages<(), V>
    var lowestUnallocatedId: nat

    ghost var view: View<V>
    // what has been inserted, in order
    ghost var log: seq<Pair<V>>

    /** A sound tree of the logged pairs, at rest or while an insert is under way. */
    ghost predicate Consistent()
      reads this
    {
      && AllMirror(nodes, pages, lowestUnallocatedId, view)
      && CountsOk(nodes, view)
      && TreeOk(view, bits, rootSpan)
      && AllPairs(view) == multiset(log)
    }

    /** At rest, the log also tells where its keys are. */
    ghost predicate Valid()
      reads this
    {
      && Consistent()
      && ProperSpan(rootSpan, bits)
      && Tells(view, TheRules(), RanksOf(log), None)
    }

    function TheRules(): Rules {
      Rules(rootSpan, bits, saturation)
    }

    /** The counts are the true ones, and a leaf that has a page has something on it. */
    static ghost predicate CountsOk(nodes: map<nat, TreeNode<Span>>, view: View<V>) {
      forall n :: n in nodes && n in view ==>
                    && nodes[n].childrenCount == LenOf(view[n].f)
                    && (!nodes[n].split && nodes[n].pageId.Some? ==> view[n].f != [])
    }

    constructor (root: Span, bits: nat, saturation: nat)
      requires ProperSpan(root, bits)
      ensures Valid() && log == [] && rootSpan == root && this.bits == bits && this.saturation == saturation
    {
      rootSpan, this.bits, this.saturation := root, bits, saturation;
      nodes := map[1 := TreeNode(root, None, 0, false)];
      pages, lowestUnallocatedId := map[], 1;
      view := map[1 := NodeView(root, false, [])];
      log := [];
      new;
      EmptyTree(view, root, bits);
      EmptyTells(view, TheRules());
      assert RanksOf(log) == [];
    }

    static lemma EmptyTree(view: View<V>, root: Span, bits: nat)
      requires ProperSpan(root, bits) && view == map[1 := NodeView(root, false, [])]
      ensures TreeOk(view, bits, root) && AllPairs(view) == multiset{}
    {
      UnionEmpty(NodePairs(view));
    }

    method NewPage(inner: Inner<(), V>) returns (id: nat)
      modifies this`pages, this`lowestUnallocatedId
      ensures id == old(lowestUnallocatedId) && lowestUnallocatedId == id + 1 && pages == old(pages)[id := inner]
    {
      id := lowestUnallocatedId;
      lowestUnallocatedId := id + 1;
      pages := pages[id := inner];
    }

    /** `new_with_children`: a new node, with a page only if it has children. */
    method NewWithChildren(id: nat, bbox: Span, children: Inner<(), V>, ghost f: Held<V>)
      requires AllMirror(nodes, pages, lowestUnallocatedId, view) && id !in nodes && InnerHolds(children, f)
      requires CountsOk(nodes, view)
      modifies this`nodes, this`pages, this`lowestUnallocatedId, this`view
      ensures view == old(view)[id := NodeView(bbox, false, f)]
      ensures AllMirror(nodes, pages, lowestUnallocatedId, view) && CountsOk(nodes, view)
    {
      hide AllMirror, LenOf;
      ghost var nv := NodeView(bbox, false, f);
      view := view[id := nv];
      EmptyHeld(f);
      if children.len == 0 {
        var node := TreeNode(bbox, None, 0, false);
        NodeAdded(nodes, pages, lowestUnallocatedId, old(view), id, node, nv);
        nodes := nodes[id := node];
      } else {
        var node := TreeNode(bbox, Some(lowestUnallocatedId), children.len, false);
        PageAdded(nodes, pages, lowestUnallocatedId, old(view), id, children, node, nv);
        nodes := nodes[id := node];
        var page := NewPage(children);
      }
    }

    /** Shares the children of node `n` out, evenly or by quarters, and leaves it with those that go nowhere. */
    method TakeChildren(n: nat) returns (leftSpan: Span, rightSpan: Span, left: Inner<(), V>, right: Inner<(), V>)
      requires AllMirror(nodes, pages, lowestUnallocatedId, view) && CountsOk(nodes, view)
      requires n in nodes && !nodes[n].split && nodes[n].pageId.Some?
      modifies this`nodes, this`pages, this`view
      ensures n in old(view) && (leftSpan, rightSpan) == Sides(old(view)[n].bbox, bits)
      ensures view == old(view)[n := NodeView(old(view)[n].bbox, true, HeldAfter(old(view), bits, n, Neither))]
      ensures AllMirror(nodes, pages, lowestUnallocatedId, view) && CountsOk(nodes, view)
      ensures InnerHolds(left, HeldAfter(old(view), bits, n, Left))
          && InnerHolds(right, HeldAfter(old(view), bits, n, Right))
    {
      hide AllMirror, InnerHolds, LenOf, HeldAfter, Parted, Halved;
      ghost var v := view;
      var node := nodes[n];
      MirrorOf(nodes, pages, lowestUnallocatedId, view, n);
      SameKeys(nodes, pages, lowestUnallocatedId, view);
      leftSpan, rightSpan := Halved(node.bbox, bits).0, Halved(node.bbox, bits).1;
      var page, stay := node.pageId.value, NoChildren();
      if leftSpan == node.bbox || rightSpan == node.bbox {
        leftSpan, rightSpan := node.bbox, node.bbox;
        left, right, stay := PartByQuarters(pages[page], node.bbox, bits, v[n].f);
      } else {
        left, right, stay := PartEvenly(pages[page], node.bbox, bits, leftSpan, rightSpan, v[n].f);
      }
      PartedIsHeldAfter(v, bits, n, left, right, stay);
      ghost var nv := NodeView(node.bbox, true, HeldAfter(v, bits, n, Neither));
      HoldsLen(stay, HeldAfter(v, bits, n, Neither));
      var parent := node.(childrenCount := stay.len, split := true);
      PageWritten(nodes, pages, lowestUnallocatedId, v, n, stay, parent, nv);
      nodes, pages, view := nodes[n := parent], pages[page := stay], v[n := nv];
    }

    static lemma PartedIsHeldAfter(view: View<V>, bits: nat, n: nat, l: Inner<(), V>, r: Inner<(), V>,
        stay: Inner<(), V>)
      requires n in view && Parted(DrainedPairs(view[n].f), view[n].bbox, bits, l, r, stay)
      ensures InnerHolds(l, HeldAfter(view, bits, n, Left)) && InnerHolds(r, HeldAfter(view, bits, n, Right))
      ensures InnerHolds(stay, HeldAfter(view, bits, n, Neither))
    {
    }

    /** `split_left_right_unchecked`: a node without a page is left whole. */
    method SplitLeftRightUnchecked(n: nat) returns (split: bool)
      requires Consistent() && n in nodes && !nodes[n].split
      modifies this`nodes, this`pages, this`lowestUnallocatedId, this`view
      ensures Consistent() && n in old(view) && split == (old(view)[n].f != [])
      ensures view == if split then SplitView(old(view), bits, n) else old(view)
    {
      hide Shape, HeldAfter, AllMirror, Sides, InnerHolds, TreeOk, AllPairs, CountsOk;
      ghost var v := view;
      MirrorOf(nodes, pages, lowestUnallocatedId, view, n);
      CountOf(nodes, view, n);
      if nodes[n].pageId == None {
        return false;
      }
      ShapeOf(v, bits, rootSpan);
      NoChildrenYet(v, bits, rootSpan, n);
      SplitOk(v, bits, rootSpan, n);
      var leftSpan, rightSpan, left, right := TakeChildren(n);
      SameKeys(nodes, pages, lowestUnallocatedId, view);
      NewWithChildren(2 * n, leftSpan, left, HeldAfter(v, bits, n, Left));
      SameKeys(nodes, pages, lowestUnallocatedId, view);
      NewWithChildren(2 * n + 1, rightSpan, right, HeldAfter(v, bits, n, Right));
      assert view == SplitView(v, bits, n);
      split := true;
    }

    static lemma CountOf(nodes: map<nat, TreeNode<Span>>, view: View<V>, n: nat)
      requires CountsOk(nodes, view) && n in nodes && n in view
      ensures nodes[n].childrenCount == LenOf(view[n].f)
      ensures !nodes[n].split && nodes[n].pageId.Some? ==> view[n].f != []
    {
    }

    /** `try_split_left_right`. */
    method TrySplitLeftRight(n: nat) returns (split: bool)
      requires Consistent() && n in nodes
      modifies this`nodes, this`pages, this`lowestUnallocatedId, this`view
      ensures Consistent() && n in old(view)
      ensures split <==> !old(view)[n].split && old(view)[n].f != [] && LenOf(old(view)[n].f) >= saturation
      ensures view == if split then SplitView(old(view), bits, n) else old(view)
    {
      hide AllMirror, TreeOk, AllPairs, CountsOk;
      MirrorOf(nodes, pages, lowestUnallocatedId, view, n);
      CountOf(nodes, view, n);
      if nodes[n].split {
        return false;
      }
      if nodes[n].childrenCount >= saturation {
        split := SplitLeftRightUnchecked(n);
      } else {
        split := false;
      }
    }

    /** `get_key_leaf_splitting_if_needed`. No key, saturation or tree keeps it from ending. */
    method GetKeyLeafSplittingIfNeeded(k: int) returns (tree: nat)
      requires Valid()
      modifies this`nodes, this`pages, this`lowestUnallocatedId, this`view
      ensures Consistent() && tree in nodes
      ensures OnTheWay(Spot(view, tree), bits, rootSpan, k) && Stops(Spot(view, tree), k, saturation)
      ensures Arrived(view, TheRules(), RanksOf(log), k, tree)
      ensures exists n :: Reaches(Spot(old(view), 1), k, saturation, bits, n, Spot(view, tree))
    {
      hide AllMirror, TreeOk, AllPairs, CountsOk, Path, InSpan, LenOf, SplitView, RunsFor, Tells, Coming, RanksOf,
           Reaches;
      tree := 1;
      ghost var rules, ks := TheRules(), RanksOf(log);
      StartsAtRoot(view, bits, rootSpan, k);
      StartsComing(rules, k);
      MayCome(view, rules, ks, k);
      ghost var steps := DescentEnds(Spot(view, 1), bits, rootSpan, k, saturation);
      ghost var taken := 0;
      StartsThere(Spot(view, 1), k, saturation, bits);
      while true
        invariant Consistent() && OnTheWay(Spot(view, tree), bits, rootSpan, k)
        invariant Tells(view, rules, ks, Some(k)) && Coming(rules, k, tree)
        invariant Reaches(Spot(old(view), 1), k, saturation, bits, taken, Spot(view, tree))
        invariant !RunsFor(Spot(view, tree), k, saturation, bits, steps)
        decreases steps
      {
        ghost var here := Spot(view, tree);
        SameKeys(nodes, pages, lowestUnallocatedId, view);
        MirrorOf(nodes, pages, lowestUnallocatedId, view, tree);
        if nodes[tree].split {
          HalvesAt(view, bits, rootSpan, tree);
          MirrorOf(nodes, pages, lowestUnallocatedId, view, 2 * tree);
          MirrorOf(nodes, pages, lowestUnallocatedId, view, 2 * tree + 1);
          if InSpan(k, nodes[2 * tree].bbox) || InSpan(k, nodes[2 * tree + 1].bbox) {
            ComingDown(view, rules, k, tree);
            tree := if InSpan(k, nodes[2 * tree].bbox) then 2 * tree else 2 * tree + 1;
            OneStep(here, bits, rootSpan, k, saturation, steps);
            ReachesStep(Spot(old(view), 1), k, saturation, bits, taken, here);
            steps, taken := steps - 1, taken + 1;
            continue;
          }
          StuckAtRoot(view, rules, k, tree);
        } else {
          var split := TrySplitLeftRight(tree);
          if split {
            SplitTells(here.view, rules, ks, k, tree);
            OneStep(here, bits, rootSpan, k, saturation, steps);
            ReachesStep(Spot(old(view), 1), k, saturation, bits, taken, here);
            steps, taken := steps - 1, taken + 1;
            continue;
          }
        }
        SameKeys(nodes, pages, lowestUnallocatedId, view);
        return;
      }
    }

    static lemma StartsThere(s: Spot<V>, k: int, saturation: nat, bits: nat)
      ensures Reaches(s, k, saturation, bits, 0, s)
    {
    }

    static lemma StartsAtRoot(view: View<V>, bits: nat, root: Span, k: int)
      requires TreeOk(view, bits, root)
      ensures OnTheWay(Spot(view, 1), bits, root, k)
    {
    }

    static lemma HalvesAt(view: View<V>, bits: nat, root: Span, n: nat)
      requires TreeOk(view, bits, root) && n in view && view[n].split
      ensures 2 * n in view && 2 * n + 1 in view && n > 0
    {
      NodeOf(view, bits, root, n);
    }

    static lemma OneStep(s: Spot<V>, bits: nat, root: Span, k: int, saturation: nat, steps: nat)
      requires OnTheWay(s, bits, root, k) && !Stops(s, k, saturation) && !RunsFor(s, k, saturation, bits, steps)
      ensures steps > 0 && !RunsFor(StepDown(s, k, bits), k, saturation, bits, steps - 1)
      ensures OnTheWay(StepDown(s, k, bits), bits, root, k)
    {
      hide TreeOk, Path, Stops, StepDown, AllPairs;
      StepDownOk(s, bits, root, k, saturation);
    }

    /** The leaf's page, made empty if there is none. */
    method PageOf(leaf: nat) returns (page: nat)
      requires AllMirror(nodes, pages, lowestUnallocatedId, view) && leaf in nodes && CountsOk(nodes, view)
      modifies this`nodes, this`pages, this`lowestUnallocatedId
      ensures AllMirror(nodes, pages, lowestUnallocatedId, view)
      ensures nodes == old(nodes)[leaf := old(nodes)[leaf].(pageId := Some(page))]
    {
      hide AllMirror, InnerHolds, LenOf;
      MirrorOf(nodes, pages, lowestUnallocatedId, view, leaf);
      if nodes[leaf].pageId.Some? {
        return nodes[leaf].pageId.value;
      }
      EmptyHeld(view[leaf].f);
      CountOf(nodes, view, leaf);
      var paged := nodes[leaf].(pageId := Some(lowestUnallocatedId));
      PageAdded(nodes, pages, lowestUnallocatedId, view, leaf, NoChildren(), paged, view[leaf]);
      assert view[leaf := view[leaf]] == view;
      nodes := nodes[leaf := paged];
      page := NewPage(NoChildren());
    }

    /** Adds to the leaf's page, which is made if there is none. */
    method AddToLeaf(leaf: nat, k: int, v: V)
      requires AllMirror(nodes, pages, lowestUnallocatedId, view) && leaf in nodes && CountsOk(nodes, view)
      modifies this`nodes, this`pages, this`lowestUnallocatedId, this`view
      ensures leaf in old(view) && view == AddAt(old(view), leaf, k, v)
      ensures AllMirror(nodes, pages, lowestUnallocatedId, view) && CountsOk(nodes, view)
    {
      hide AllMirror, InnerHolds, LenOf, Added;
      SameKeys(nodes, pages, lowestUnallocatedId, view);
      CountOf(nodes, view, leaf);
      ghost var was, f := view, view[leaf].f;
      var page := PageOf(leaf);
      MirrorOf(nodes, pages, lowestUnallocatedId, view, leaf);
      var inner := PushChild(pages[page], KeyOf(k), v, f);
      var grown := nodes[leaf].(childrenCount := nodes[leaf].childrenCount + 1);
      LenAdded(f, KeyOf(k), v);
      view := AddAt(was, leaf, k, v);
      PageWritten(nodes, pages, lowestUnallocatedId, was, leaf, inner, grown, view[leaf]);
      nodes, pages := nodes[leaf := grown], pages[page := inner];
    }

    static lemma LenAdded(f: Held<V>, key: Key<()>, v: V)
      ensures LenOf(Added(f, key, v)) == LenOf(f) + 1 && Added(f, key, v) != []
    {
      AddedLength(f, key, v);
    }

    /** `insert`, of any key: the tree stays sound and holds exactly one pair more. */
    method Insert(k: int, item: V)
      requires Valid()
      modifies this
      ensures Valid() && log == old(log) + [(KeyOf(k), item)]
      ensures InsertedBy(old(view), k, item, saturation, bits, view)
    {
      hide AllMirror, TreeOk, AllPairs, CountsOk, Path, InSpan, AddAt, Tells, Arrived, Reaches, Stops;
      var leaf := GetKeyLeafSplittingIfNeeded(k);
      ghost var v := view;
      BelongsHere(Spot(v, leaf), bits, rootSpan, k, saturation);
      AddToLeaf(leaf, k, item);
      AddAtOk(v, bits, rootSpan, leaf, k, item);
      AddAtPairs(v, leaf, k, item);
      AddTells(v, TheRules(), RanksOf(log), k, leaf, item);
      log := log + [(KeyOf(k), item)];
      assert RanksOf(log) == RanksOf(old(log)) + [k];
    }

    static lemma BelongsHere(s: Spot<V>, bits: nat, root: Span, k: int, saturation: nat)
      requires OnTheWay(s, bits, root, k) && Stops(s, k, saturation)
      ensures KeyOk(s.view, bits, root, s.at, k)
    {
      hide Avg, Word, HeldOk;
      NodeOf(s.view, bits, root, s.at);
      LimitIff(s.view[s.at].bbox, bits);
      if s.view[s.at].split {
        NodeOf(s.view, bits, root, 2 * s.at);
        NodeOf(s.view, bits, root, 2 * s.at + 1);
      }
    }

    /** `search_leaf_for_key`: by the middles of the ranges it works out itself. */
    method SearchLeafForKey(k: int) returns (tree: nat)
      requires Valid()
      ensures tree in nodes && Searched(view, rootSpan, bits, k, tree) && tree in view && !view[tree].split
    {
      hide AllMirror, TreeOk, AllPairs, CountsOk, Halved, Middle;
      tree := 1;
      var bbox := rootSpan;
      StartsAtRoot(view, bits, rootSpan, k);
      SameKeys(nodes, pages, lowestUnallocatedId, view);
      while true
        invariant Searched(view, rootSpan, bits, k, tree) && bbox == SearchBox(rootSpan, bits, k, tree)
        decreases NodesAfter(view, tree)
      {
        MirrorOf(nodes, pages, lowestUnallocatedId, view, tree);
        if !nodes[tree].split {
          return;
        }
        HalvesAt(view, bits, rootSpan, tree);
        var side := SearchSide(bbox, bits, k);
        var child := ChildId(tree, side);
        assert child in NodesAfter(view, tree) && child !in NodesAfter(view, child);
        tree, bbox := child, SearchHalf(bbox, bits, k);
      }
    }

    static lemma HeldSorted(view: View<V>, bits: nat, root: Span, n: nat)
      requires TreeOk(view, bits, root) && n in view
      ensures Sorted(view[n].f)
    {
      NodeOf(view, bits, root, n);
    }

    /** The first of the values that a node has for a key. */
    static ghost function FirstOf(f: Held<V>, k: int): Option<V> {
      match Lookup(f, k)
      case None => None
      case Some(items) => Some(items.front)
    }

    /**
     `get_owned`: what it finds was inserted under the key, always. Whether it finds a key is told by the keys inserted
     so far. Within the root's range it finds all that were inserted if their search passes no node that was split at
     the rounding limit.
     */
    method GetOwned(k: int) returns (r: Option<V>)
      requires Valid()
      ensures exists leaf :: Searched(view, rootSpan, bits, k, leaf) && leaf in view && !view[leaf].split
                             && r == FirstOf(view[leaf].f, k)
      ensures r.Some? ==> (KeyOf(k), r.value) in log
      ensures r.Some? <==> Findable(TheRules(), RanksOf(log), k)
      ensures InSpan(k, rootSpan) && WayOpen(view, rootSpan, bits, k) ==>
                (r.Some? <==> exists v :: (KeyOf(k), v) in log)
    {
      hide AllMirror, TreeOk, AllPairs, CountsOk, WayOpen, Searched, InnerHolds, Flat, WellFormed, Lookup, InSpan,
           Tells, Findable, Flattened;
      var leaf := SearchLeafForKey(k);
      SearchTells(view, TheRules(), RanksOf(log), k, leaf);
      MirrorOf(nodes, pages, lowestUnallocatedId, view, leaf);
      ghost var f := view[leaf].f;
      HeldSorted(view, bits, rootSpan, leaf);
      LookupRanks(f, k);
      var items: Option<NonEmpty<V>> := None;
      match nodes[leaf].pageId {
        case None => LookupEntry(f, k);
        case Some(p) =>
          HoldsNode(pages[p], f);
          items := GetIn(pages[p].children, KeyOf(k));
      }
      r := if items.Some? then Some(items.value.front) else None;
      if items.Some? {
        FoundIsKept(view, leaf, k, items.value);
      }
      if InSpan(k, rootSpan) && WayOpen(view, rootSpan, bits, k) {
        forall v | (KeyOf(k), v) in log ensures r.Some? {
          assert (KeyOf(k), v) in multiset(log);
          SearchFinds(view, bits, rootSpan, leaf, (KeyOf(k), v));
        }
      }
    }
  }
}
