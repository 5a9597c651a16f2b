/** `StoredTree`: the dense tree itself, its nodes by id and its pages in storage, which is taken as a map. */
module DenseTrees {
  import opened Wrappers
  import opened NonEmptyVec
  import opened Multimap
  import opened Vec = BTreeVec
  import opened BTreeVecApi
  import opened BBoxes
  import opened NodeIds
  import opened Sums
  import opened TreeNodes
  import opened DenseViews
  import opened DenseSteps
  import opened DenseDescent
  import opened DenseLogs
  import opened DenseCapacities
  import opened DenseQueries
  import opened BTreeVecWalk

  const USIZE_MAX := 0xffff_ffff_ffff_ffff

  // Children -------------------------------------------------------------------------------------

  /** The children sent so far. */
  ghost predicate Parted<V>(done: Stream<V>, bbox: BBox, axis: Axis, l: Inner<Size, V>, r: Inner<Size, V>,
      stay: Inner<Size, V>)
  {
    && InnerHolds(l, Pushed(Sent(done, bbox, axis, Left)))
    && InnerHolds(r, Pushed(Sent(done, bbox, axis, Right)))
    && InnerHolds(stay, Pushed(Sent(done, bbox, axis, Neither)))
  }

  /** Sends one child on: to the left half if that has its box, else to the right one if that has, else nowhere. */
  method SendChild<V>(child: (Key<Size>, V), bbox: BBox, leftBox: BBox, rightBox: BBox, l: Inner<Size, V>,
                      r: Inner<Size, V>, stay: Inner<Size, V>, ghost done: Stream<V>, ghost axis: Axis)
    returns (l': Inner<Size, V>, r': Inner<Size, V>, stay': Inner<Size, V>)
    requires (leftBox, rightBox) == SplitOnAxis(bbox, axis)
    requires Parted(done, bbox, axis, l, r, stay)
    ensures Parted(done + [child], bbox, axis, l', r', stay')
  {
    hide InnerHolds, Pushed, Added, SplitOnAxis, Contains, Sent, Abs;
    l', r', stay' := l, r, stay;
    var (childBox, item) := child;
    var absolute := Abs(childBox, bbox);
    SentNext(done, child, bbox, axis, Left);
    SentNext(done, child, bbox, axis, Right);
    SentNext(done, child, bbox, axis, Neither);
    if Contains(leftBox, absolute) {
      l' := PushChild(l, InteriorDelta(absolute, leftBox), item, Pushed(Sent(done, bbox, axis, Left)));
    } else if Contains(rightBox, absolute) {
      r' := PushChild(r, InteriorDelta(absolute, rightBox), item, Pushed(Sent(done, bbox, axis, Right)));
    } else {
      stay' := PushChild(stay, childBox, item, Pushed(Sent(done, bbox, axis, Neither)));
    }
  }

  /** Shares a node's children out between its halves and itself, as they are drained. */
  method PartChildren<V>(inner: Inner<Size, V>, bbox: BBox, axis: Axis, ghost f: Held<V>)
    returns (l: Inner<Size, V>, r: Inner<Size, V>, stay: Inner<Size, V>)
    requires InnerHolds(inner, f)
    ensures Parted(DrainedPairs(f), bbox, axis, l, r, stay)
  {
    hide WellFormed, Flat, LenOf, Parted, DrainedPairs, SplitOnAxis;
    var (leftBox, rightBox) := SplitOnAxis(bbox, axis);
    l, r, stay := NoChildren(), NoChildren(), NoChildren();
    var children := new BTreeVecApi.IntoIter(inner.children);
    ghost var done: Stream<V> := [];
    NothingParted(bbox, axis, l);
    var next := children.Next();
    while next.Some?
      invariant fresh(children) && children.Valid()
      invariant next.Some? ==> done + [next.value] + children.Remaining() == DrainedPairs(f)
      invariant next.None? ==> done == DrainedPairs(f)
      invariant Parted(done, bbox, axis, l, r, stay)
      decreases |DrainedPairs(f)| - |done|, next.Some?
    {
      l, r, stay := SendChild(next.value, bbox, leftBox, rightBox, l, r, stay, done, axis);
      done := done + [next.value];
      next := children.Next();
    }
  }

  lemma NothingParted<V>(bbox: BBox, axis: Axis, none: Inner<Size, V>)
    requires InnerHolds(none, [])
    ensures Parted([], bbox, axis, none, none, none)
  {
  }

  /** One more pair drained: the side it goes to has it pushed, and the others are as they were. */
  lemma SentNext<V>(ps: Stream<V>, p: (Key<Size>, V), bbox: BBox, axis: Axis, side: Side)
    ensures Pushed(Sent(ps + [p], bbox, axis, side)) ==
              if SideOf(bbox, axis, Abs(p.0, bbox)) == side
              then Added(Pushed(Sent(ps, bbox, axis, side)), Rekeyed(p.0, bbox, axis, side), p.1)
              else Pushed(Sent(ps, bbox, axis, side))
  {
    hide SideOf, Abs, Rekeyed, Added;
    assert (ps + [p])[..|ps|] == ps;
    var s := Sent(ps, bbox, axis, side);
    if SideOf(bbox, axis, Abs(p.0, bbox)) == side {
      var q := (Rekeyed(p.0, bbox, axis, side), p.1);
      assert (s + [q])[..|s|] == s;
    } else {
      assert s + [] == s;
    }
  }

  // Searches of the nodes ------------------------------------------------------------------------

  /**
   `search_all_nodes_touching_area`: breadth first from the root, down to a depth. Every node that the query
   touches, and whose parents it touches, is seen once, and no other but the root.
   */
  method SearchAllNodesTouchingArea<V>(nodes: map<nat, TreeNode<BBox>>, rootBox: BBox, q: BBox, maxDepth: nat,
      ghost view: View<V>)
    returns (found: seq<nat>)
    requires Shape(view, rootBox) && SameNodes(nodes, view)
    ensures forall i :: 0 <= i < |found| ==> found[i] in nodes
    ensures forall i, j :: 0 <= i < j < |found| ==> found[i] != found[j]
    ensures forall n :: n in found <==> Touches(view, q, n) && Depth(n) <= maxDepth
  {
    hide Touches, Halves, Depth, Shape, QueueOk, Covered, SplitOnAxis, Overlaps, NextAxis;
    var queue: seq<Waiting> := [(1, rootBox, FIRST_AXIS, 0)];
    found := [];
    ghost var seen: set<nat> := {};
    StartSearch(view, rootBox, q, maxDepth);
    while queue != []
      invariant QueueOk(view, q, queue, seen) && Covered(view, q, maxDepth, queue, seen)
      invariant forall n :: n in seen <==> n in found
      invariant forall i :: 0 <= i < |found| ==> found[i] in nodes
      invariant forall i, j :: 0 <= i < j < |found| ==> found[i] != found[j]
      decreases nodes.Keys - seen, |queue|
    {
      var (parent, bbox, direction, depth) := queue[0];
      if depth > maxDepth {
        SkipNode(view, q, maxDepth, queue, seen);
        queue := queue[1..];
        continue;
      }
      ghost var halves := SeeFront(view, rootBox, q, maxDepth, queue, seen);
      queue := queue[1..];
      ghost var rest := queue;
      if nodes[parent].split {
        var (leftBox, rightBox) := SplitOnAxis(bbox, direction);
        if Overlaps(leftBox, q) {
          queue := queue + [(2 * parent, leftBox, NextAxis(direction), depth + 1)];
        }
        if Overlaps(rightBox, q) {
          queue := queue + [(2 * parent + 1, rightBox, NextAxis(direction), depth + 1)];
        }
      }
      assert queue == rest + halves by { HalvesAre(view, q, (parent, bbox, direction, depth)); }
      found := found + [parent];
      seen := seen + {parent};
    }
    CoveredEnd(view, q, maxDepth, seen);
  }

  lemma HalvesAre<V>(view: View<V>, q: BBox, w: Waiting)
    requires w.0 in view
    ensures var (l, r) := SplitOnAxis(w.1, w.2);
            Halves(view, q, w) ==
              (if view[w.0].split && Overlaps(l, q) then [(2 * w.0, l, NextAxis(w.2), w.3 + 1)] else [])
              + (if view[w.0].split && Overlaps(r, q) then [(2 * w.0 + 1, r, NextAxis(w.2), w.3 + 1)] else [])
  {
    hide SplitOnAxis, Overlaps;
  }

  lemma SeeFront<V>(view: View<V>, root: BBox, q: BBox, maxDepth: nat, queue: seq<Waiting>, seen: set<nat>)
    returns (halves: seq<Waiting>)
    requires Shape(view, root) && queue != [] && queue[0].3 <= maxDepth
    requires QueueOk(view, q, queue, seen) && Covered(view, q, maxDepth, queue, seen)
    ensures queue[0].0 in view && queue[0].0 !in seen && halves == Halves(view, q, queue[0])
    ensures QueueOk(view, q, queue[1..] + halves, seen + {queue[0].0})
    ensures Covered(view, q, maxDepth, queue[1..] + halves, seen + {queue[0].0})
  {
    hide Shape, Covered, Touches, Halves, Depth;
    SeeNode(view, root, q, queue, seen);
    assert WaitingOk(view, q, queue[0]);
    SeeCovers(view, root, q, maxDepth, queue, seen);
    halves := Halves(view, q, queue[0]);
  }

  lemma StartSearch<V>(view: View<V>, root: BBox, q: BBox, maxDepth: nat)
    requires Shape(view, root)
    ensures QueueOk(view, q, [(1, root, FIRST_AXIS, 0)], {})
    ensures Covered(view, q, maxDepth, [(1, root, FIRST_AXIS, 0)], {})
  {
    var queue: seq<Waiting> := [(1, root, FIRST_AXIS, 0)];
    forall n | Touches(view, q, n) ensures exists i :: 0 <= i < |queue| && Under(n, queue[i].0) {
      UnderRoot(n);
      assert Under(n, queue[0].0);
    }
  }

  lemma CoveredEnd<V>(view: View<V>, q: BBox, maxDepth: nat, seen: set<nat>)
    requires Covered(view, q, maxDepth, [], seen)
    ensures forall n :: n in seen <==> Touches(view, q, n) && Depth(n) <= maxDepth
  {
  }

  class StoredTree<V(!new)> {
    const rootBox: BBox
    const saturation: nat
    var nodes: map<nat, TreeNode<BBox>>
    // storage, as a map from page ids to what the pages hold
    var pages: Pages<Size, V>
    var lowestUnallocatedId: nat

    ghost var view: View<V>
    ghost var log: Log<V>

    /** Everything but which nodes are full, which an insert upsets on its way. */
    ghost predicate Consistent()
      reads this
    {
      && Proper(rootBox)
      && AllMirror(nodes, pages, lowestUnallocatedId, view)
      && TreeOk(view, rootBox)
      && Logged(view, log)
    }

    ghost predicate Valid()
      reads this
    {
      Consistent() && Filled(view, saturation)
    }

    constructor (bbox: BBox, saturation: nat)
      requires Proper(bbox)
      ensures Valid() && log == [] && rootBox == bbox && this.saturation == saturation
      ensures view == map[1 := NodeView(bbox, false, [])]
    {
      hide Logged, Filled, TreeOk;
      rootBox, this.saturation := bbox, saturation;
      nodes := map[1 := TreeNode(bbox, None, 0, false)];
      pages, lowestUnallocatedId := map[], 1;
      view := map[1 := NodeView(bbox, false, [])];
      log := [];
      new;
      EmptyTree(view, bbox);
    }

    static lemma EmptyTree(view: View<V>, bbox: BBox)
      requires Proper(bbox) && view == map[1 := NodeView(bbox, false, [])]
      ensures TreeOk(view, bbox) && Logged(view, []) && forall s :: Filled(view, s)
    {
      assert NodeShape(view, 1);
      LeafBelow(view, bbox, 1, true);
      forall c ensures AllPairs(view, c) == multiset{} {
        UnionEmpty(NodePairs(view, c));
      }
    }

    /** Puts a page in storage. */
    method NewPage(inner: Inner<Size, V>) returns (id: nat)
      modifies this`pages, this`lowestUnallocatedId
      ensures id == old(lowestUnallocatedId) && lowestUnallocatedId == id + 1 && pages == old(pages)[id := inner]
    {
      id := lowestUnallocatedId;
      lowestUnallocatedId := id + 1;
      pages := pages[id := inner];
    }

    /** `new_with_children`: a new node, with a page only if it has children. */
    method NewWithChildren(id: nat, bbox: BBox, children: Inner<Size, V>, ghost f: Held<V>)
      requires AllMirror(nodes, pages, lowestUnallocatedId, view) && id !in nodes && InnerHolds(children, f)
      modifies this`nodes, this`pages, this`lowestUnallocatedId, this`view
      ensures view == old(view)[id := NodeView(bbox, false, f)]
      ensures AllMirror(nodes, pages, lowestUnallocatedId, view)
    {
      hide AllMirror;
      ghost var nv := NodeView(bbox, false, f);
      view := view[id := nv];
      if children.len == 0 {
        EmptyHeld(f);
        var node := TreeNode(bbox, None, 0, false);
        NodeAdded(nodes, pages, lowestUnallocatedId, old(view), id, node, nv);
        nodes := nodes[id := node];
      } else {
        var node := TreeNode(bbox, Some(lowestUnallocatedId), children.len, false);
        PageAdded(nodes, pages, lowestUnallocatedId, old(view), id, children, node, nv);
        nodes := nodes[id := node];
        var page := NewPage(children);
      }
    }

    /** Shares the children of node `n` out, and leaves it with those that fit neither half. */
    method TakeChildren(n: nat, leftBox: BBox, rightBox: BBox, direction: Axis)
      returns (left: Inner<Size, V>, right: Inner<Size, V>)
      requires AllMirror(nodes, pages, lowestUnallocatedId, view) && n in nodes && !nodes[n].split
      requires direction == AxisAt(n) && (leftBox, rightBox) == SplitOnAxis(nodes[n].bbox, direction)
      modifies this`nodes, this`pages, this`view
      ensures n in old(view) && old(view)[n].bbox == old(nodes)[n].bbox
      ensures view == old(view)[n := NodeView(old(view)[n].bbox, true, HeldAfter(old(view), n, Neither))]
      ensures AllMirror(nodes, pages, lowestUnallocatedId, view)
      ensures InnerHolds(left, HeldAfter(old(view), n, Left)) && InnerHolds(right, HeldAfter(old(view), n, Right))
    {
      hide AllMirror, SplitOnAxis, InnerHolds, LenOf, HeldAfter, Parted, AxisAt;
      ghost var v := view;
      var node := nodes[n];
      MirrorOf(nodes, pages, lowestUnallocatedId, view, n);
      ghost var nv := NodeView(node.bbox, true, HeldAfter(v, n, Neither));
      view := v[n := nv];
      match node.pageId
      case None =>
        left, right := NoChildren(), NoChildren();
        NothingHeldAfter(v, n);
        NodeAdded(nodes, pages, lowestUnallocatedId, v, n, node.(split := true), nv);
        nodes := nodes[n := node.(split := true)];
      case Some(p) =>
        var stay;
        left, right, stay := PartChildren(pages[p], node.bbox, direction, v[n].f);
        PartedIsHeldAfter(v, n, left, right, stay);
        EmptyHeld(HeldAfter(v, n, Neither));
        HoldsLen(stay, HeldAfter(v, n, Neither));
        // an emptied node lets go of its page, which stays in storage
        var parent := TreeNode(node.bbox, if stay.len == 0 then None else node.pageId, stay.len, true);
        PageWritten(nodes, pages, lowestUnallocatedId, v, n, stay, parent, nv);
        nodes, pages := nodes[n := parent], pages[p := stay];
    }

    static lemma NothingHeldAfter(view: View<V>, n: nat)
      requires n in view && view[n].f == []
      ensures forall side :: HeldAfter(view, n, side) == []
    {
    }

    static lemma PartedIsHeldAfter(view: View<V>, n: nat, l: Inner<Size, V>, r: Inner<Size, V>, stay: Inner<Size, V>)
      requires n in view && Parted(DrainedPairs(view[n].f), view[n].bbox, AxisAt(n), l, r, stay)
      ensures InnerHolds(l, HeldAfter(view, n, Left)) && InnerHolds(r, HeldAfter(view, n, Right))
      ensures InnerHolds(stay, HeldAfter(view, n, Neither))
    {
    }

    /** `split_left_right_unchecked`. */
    method SplitLeftRightUnchecked(n: nat, direction: Axis)
      requires Consistent() && n in nodes && !nodes[n].split && direction == AxisAt(n)
      modifies this`nodes, this`pages, this`lowestUnallocatedId, this`view
      ensures view == SplitView(old(view), n)
      ensures Consistent()
    {
      hide Shape, HeldOk, HeldAfter, AllMirror, SplitOnAxis, InnerHolds, TreeOk, AllPairs, LogPairs;
      ghost var v := view;
      MirrorOf(nodes, pages, lowestUnallocatedId, view, n);
      TreeShape(v, rootBox);
      NoChildrenYet(v, rootBox, n);
      SplitOk(v, rootBox, n);
      SplitPairs(v, rootBox, n, true);
      SplitPairs(v, rootBox, n, false);
      var (leftBox, rightBox) := SplitOnAxis(nodes[n].bbox, direction);
      var left, right := TakeChildren(n, leftBox, rightBox, direction);
      SameKeys(nodes, pages, lowestUnallocatedId, view);
      NewWithChildren(2 * n, leftBox, left, HeldAfter(v, n, Left));
      SameKeys(nodes, pages, lowestUnallocatedId, view);
      NewWithChildren(2 * n + 1, rightBox, right, HeldAfter(v, n, Right));
      assert view == SplitView(v, n);
    }

    static lemma TreeShape(view: View<V>, root: BBox)
      requires TreeOk(view, root)
      ensures Shape(view, root)
    {
    }

    /** `try_split_left_right`: only a leaf with more children than a node may hold is split. */
    method TrySplitLeftRight(n: nat, direction: Axis) returns (split: bool)
      requires Consistent() && n in nodes && direction == AxisAt(n)
      modifies this`nodes, this`pages, this`lowestUnallocatedId, this`view
      ensures n in old(view)
      ensures split <==> !old(view)[n].split && LenOf(old(view)[n].f) > saturation
      ensures view == if split then SplitView(old(view), n) else old(view)
      ensures Consistent()
    {
      hide TreeOk, AllMirror, InnerHolds, Logged;
      MirrorOf(nodes, pages, lowestUnallocatedId, view, n);
      EmptyHeld(view[n].f);
      if nodes[n].split {
        return false;
      }
      var len := if nodes[n].pageId == None then 0 else nodes[n].childrenCount;
      if len <= saturation {
        return false;
      }
      SplitLeftRightUnchecked(n, direction);
      split := true;
    }

    /** `get_key_leaf_splitting_if_needed`: down from the root to where the key belongs, splitting full leaves. */
    method GetKeyLeafSplittingIfNeeded(k: BBox) returns (tree: nat)
      requires Valid() && Proper(k) && Contains(rootBox, k)
      requires !NeverEnds(view, k, saturation)
      modifies this`nodes, this`pages, this`lowestUnallocatedId, this`view
      ensures Consistent() && tree in nodes && tree in view && FilledFor(view, saturation, tree)
      ensures OnTheWay(Spot(view, tree), rootBox, k) && Stops(Spot(view, tree), k, saturation)
      ensures exists steps :: Reaches(Spot(old(view), 1), k, saturation, steps, Spot(view, tree))
      ensures AllPairs(view, true) == AllPairs(old(view), true) && AllPairs(view, false) == AllPairs(old(view), false)
    {
      hide TreeOk, AllMirror, InnerHolds, Logged, Route, NeverEnds, AllPairs, LenOf, Contains, SplitView, ChildFor,
           RunsFor, Filled, FilledFor, Reaches;
      tree := 1;
      var direction := FIRST_AXIS;
      StartsAtRoot(view, rootBox, k);
      StartsFilled(view, saturation, 1);
      ghost var taken := 0;
      StartsThere(Spot(view, 1), k, saturation);
      ghost var steps := DescentEnds(Spot(view, 1), rootBox, k, saturation);
      while true
        invariant Consistent() && OnTheWay(Spot(view, tree), rootBox, k) && direction == AxisAt(tree)
        invariant FilledFor(view, saturation, tree)
        invariant Reaches(Spot(old(view), 1), k, saturation, taken, Spot(view, tree))
        invariant !RunsFor(Spot(view, tree), k, saturation, steps)
        invariant AllPairs(view, true) == AllPairs(old(view), true)
        invariant AllPairs(view, false) == AllPairs(old(view), false)
        decreases steps
      {
        ghost var here := Spot(view, tree);
        SameKeys(nodes, pages, lowestUnallocatedId, view);
        MirrorOf(nodes, pages, lowestUnallocatedId, view, tree);
        if nodes[tree].split {
          HalvesAt(view, rootBox, tree, k);
          MirrorOf(nodes, pages, lowestUnallocatedId, view, 2 * tree);
          MirrorOf(nodes, pages, lowestUnallocatedId, view, 2 * tree + 1);
          if Contains(nodes[2 * tree].bbox, k) || Contains(nodes[2 * tree + 1].bbox, k) {
            tree := if Contains(nodes[2 * tree].bbox, k) then 2 * tree else 2 * tree + 1;
            direction := NextAxis(direction);
            OneStep(here, rootBox, k, saturation, steps);
            OneStepFilled(here, rootBox, k, saturation);
            ReachesStep(Spot(old(view), 1), k, saturation, taken, here);
            steps, taken := steps - 1, taken + 1;
            continue;
          }
        } else {
          var split := TrySplitLeftRight(tree, direction);
          if split {
            OneStep(here, rootBox, k, saturation, steps);
            OneStepFilled(here, rootBox, k, saturation);
            ReachesStep(Spot(old(view), 1), k, saturation, taken, here);
            steps, taken := steps - 1, taken + 1;
            continue;
          }
        }
        SameKeys(nodes, pages, lowestUnallocatedId, view);
        return;
      }
    }

    /** A split node's halves are there, and the first that contains the key is the one it goes to. */
    static lemma HalvesAt(view: View<V>, root: BBox, n: nat, k: BBox)
      requires TreeOk(view, root) && n in view && view[n].split
      ensures 2 * n in view && 2 * n + 1 in view && n > 0
      ensures ChildFor(view, n, k) == if Contains(view[2 * n].bbox, k) then 2 * n
                                      else if Contains(view[2 * n + 1].bbox, k) then 2 * n + 1 else 0
      ensures AxisAt(2 * n) == AxisAt(2 * n + 1) == NextAxis(AxisAt(n))
    {
      hide Contains, Avg;
      TreeNodeOk(view, root, n);
      TreeNodeOk(view, root, 2 * n);
      TreeNodeOk(view, root, 2 * n + 1);
    }

    static lemma OneStep(s: Spot<V>, root: BBox, k: BBox, saturation: nat, steps: nat)
      requires OnTheWay(s, root, k) && !Stops(s, k, saturation) && !RunsFor(s, k, saturation, steps)
      ensures steps > 0 && !RunsFor(StepDown(s, k), k, saturation, steps - 1)
      ensures OnTheWay(StepDown(s, k), root, k)
      ensures AllPairs(StepDown(s, k).view, true) == AllPairs(s.view, true)
      ensures AllPairs(StepDown(s, k).view, false) == AllPairs(s.view, false)
    {
      hide TreeOk, Route, Stops, StepDown, AllPairs;
      StepDownOk(s, root, k, saturation);
    }

    static lemma OneStepFilled(s: Spot<V>, root: BBox, k: BBox, saturation: nat)
      requires OnTheWay(s, root, k) && !Stops(s, k, saturation) && FilledFor(s.view, saturation, s.at)
      ensures FilledFor(StepDown(s, k).view, saturation, StepDown(s, k).at)
    {
      hide TreeOk, Route, FilledFor, LenOf, SplitView;
      if s.view[s.at].split {
        BoxOk(s.view, root, s.at);
        DownFilled(s.view, saturation, s.at, ChildFor(s.view, s.at, k));
      } else {
        SplitFilled(s.view, root, saturation, s.at);
      }
    }

    static lemma StartsThere(s: Spot<V>, k: BBox, saturation: nat)
      ensures Reaches(s, k, saturation, 0, s)
    {
    }

    static lemma StartsAtRoot(view: View<V>, root: BBox, k: BBox)
      requires TreeOk(view, root) && Proper(k) && Contains(root, k)
      ensures OnTheWay(Spot(view, 1), root, k)
    {
    }

    /** Adds to the page of the leaf, or gives it one. */
    method AddToLeaf(leaf: nat, key: Key<Size>, v: V)
      requires AllMirror(nodes, pages, lowestUnallocatedId, view) && leaf in nodes
      modifies this`nodes, this`pages, this`lowestUnallocatedId, this`view
      ensures leaf in old(view) && view == AddAt(old(view), leaf, key, v)
      ensures AllMirror(nodes, pages, lowestUnallocatedId, view)
    {
      hide AllMirror, InnerHolds;
      var node := nodes[leaf];
      MirrorOf(nodes, pages, lowestUnallocatedId, view, leaf);
      ghost var was, f := view, view[leaf].f;
      AddedLength(f, key, v);
      view := AddAt(was, leaf, key, v);
      match node.pageId
      case Some(p) =>
        // `insert_to_existing_page`
        var inner := PushChild(pages[p], key, v, f);
        var grown := node.(childrenCount := node.childrenCount + 1);
        PageWritten(nodes, pages, lowestUnallocatedId, was, leaf, inner, grown, view[leaf]);
        nodes, pages := nodes[leaf := grown], pages[p := inner];
      case None =>
        // `insert_to_new_page`
        var inner := PushChild(NoChildren(), key, v, f);
        var paged := node.(pageId := Some(lowestUnallocatedId), childrenCount := 1);
        assert f == [];
        PageAdded(nodes, pages, lowestUnallocatedId, was, leaf, inner, paged, view[leaf]);
        nodes := nodes[leaf := paged];
        var page := NewPage(inner);
    }

    /**
     `insert`, of a box inside the root's: the descent from the root is taken, with the splits on its way, and the pair
     is added where it ends. No leaf is left too full. It ends just for the inserts that `NeverEnds` leaves.
     */
    method Insert(k: BBox, item: V)
      requires Valid() && Proper(k) && Contains(rootBox, k)
      requires !NeverEnds(view, k, saturation)
      modifies this
      ensures Valid() && log == old(log) + [(k, item)]
      ensures InsertedBy(old(view), k, item, saturation, view)
    {
      hide TreeOk, AllMirror, InnerHolds, Route, NeverEnds, AllPairs, LenOf, Contains, InteriorDelta, AddAt, Added,
           Lawful, LogPairs, Filled, FilledFor, Reaches, Stops;
      var leaf := GetKeyLeafSplittingIfNeeded(k);
      LoggedKept(old(view), view, log);
      MirrorOf(nodes, pages, lowestUnallocatedId, view, leaf);
      ghost var v := view;
      KeyAtHome(Spot(v, leaf), rootBox, k, saturation);
      AddToLeaf(leaf, InteriorDelta(k, nodes[leaf].bbox), item);
      AddAtOk(v, rootBox, leaf, InteriorDelta(k, v[leaf].bbox), item);
      AddLogged(v, rootBox, log, leaf, k, item);
      RoomHere(Spot(v, leaf), rootBox, k, item, saturation);
      log := log + [(k, item)];
    }

    static lemma RoomHere(s: Spot<V>, root: BBox, k: BBox, v: V, saturation: nat)
      requires OnTheWay(s, root, k) && Stops(s, k, saturation) && FilledFor(s.view, saturation, s.at)
      requires KeyOk(s.view, s.at, InteriorDelta(k, s.view[s.at].bbox))
      ensures Filled(AddAt(s.view, s.at, InteriorDelta(k, s.view[s.at].bbox), v), saturation)
    {
      hide TreeOk, FilledFor, Filled, AddAt, LenOf;
      AddFilled(s.view, root, saturation, s.at, InteriorDelta(k, s.view[s.at].bbox), v);
    }

    static lemma LoggedKept(view: View<V>, view': View<V>, log: Log<V>)
      requires Logged(view, log)
      requires AllPairs(view', true) == AllPairs(view, true) && AllPairs(view', false) == AllPairs(view, false)
      ensures Logged(view', log)
    {
    }

    /** Where a descent ends is where the key belongs. */
    static lemma KeyAtHome(s: Spot<V>, root: BBox, k: BBox, saturation: nat)
      requires OnTheWay(s, root, k) && Stops(s, k, saturation)
      ensures KeyOk(s.view, s.at, InteriorDelta(k, s.view[s.at].bbox))
    {
      BoxOk(s.view, root, s.at);
      AbsoluteDelta(k, s.view[s.at].bbox);
    }

    // Queries ------------------------------------------------------------------------------------

    /** `search_leaf_for_key`: follows the halves that enclose the key, by the boxes' own rule. */
    method SearchLeafForKey(k: BBox) returns (tree: nat, bbox: BBox)
      requires Valid() && Proper(k) && Contains(rootBox, k)
      ensures tree in nodes && tree in view && bbox == view[tree].bbox
      ensures Contains(bbox, k) && Home(view, k, tree)
    {
      hide AllMirror, Logged, TreeOk, Route, Contains, ChildFor, SplitEnclosedInSide, HalfOf, SideOf;
      tree, bbox := 1, rootBox;
      var direction := FIRST_AXIS;
      StartsAtRoot(view, rootBox, k);
      RootNode(view, rootBox);
      SameKeys(nodes, pages, lowestUnallocatedId, view);
      while true
        invariant OnTheWay(Spot(view, tree), rootBox, k) && direction == AxisAt(tree) && bbox == view[tree].bbox
        decreases NodesAfter(view, tree)
      {
        MirrorOf(nodes, pages, lowestUnallocatedId, view, tree);
        if !nodes[tree].split {
          return;
        }
        BoxOk(view, rootBox, tree);
        SideRulesAgree(bbox, direction, k);
        ChildBySide(view, tree, k);
        var (side, childBox) := SplitEnclosedInSide(bbox, direction, k);
        if side == Neither {
          return;
        }
        ChildBox(Spot(view, tree), rootBox, k);
        var child := if side == Left then 2 * tree else 2 * tree + 1;
        assert child in NodesAfter(view, tree) && child !in NodesAfter(view, child);
        tree, bbox, direction := child, childBox, NextAxis(direction);
      }
    }

    static lemma RootNode(view: View<V>, root: BBox)
      requires TreeOk(view, root)
      ensures 1 in view && view[1].bbox == root
    {
    }

    static lemma ChildBySide(view: View<V>, n: nat, k: BBox)
      requires n in view && n > 0
      ensures var side := SideOf(view[n].bbox, AxisAt(n), k);
              ChildFor(view, n, k) == if side == Left then 2 * n else if side == Right then 2 * n + 1 else 0
    {
      hide SideOf;
    }

    /**
     `get`: the first value that the box's home has for it, which was inserted at a box with the same corner. If equal
     corners mean equal boxes, the one asked for included, it finds something exactly when the box was inserted, and
     what it finds was inserted with that box.
     */
    method Get(k: BBox) returns (r: Option<V>)
      requires Valid() && Proper(k) && Contains(rootBox, k)
      ensures exists home :: home in view && Home(view, k, home) && r == FirstOf(view[home], k)
      ensures r.Some? ==> exists i :: 0 <= i < |log| && log[i].0.x == k.x && log[i].0.y == k.y && log[i].1 == r.value
      ensures LawfulWith(log, k) ==> (r.Some? <==> InLog(log, k))
      ensures LawfulWith(log, k) && r.Some? ==> (k, r.value) in log
    {
      hide AllMirror, Logged, TreeOk, Route, Contains, InnerHolds, Flat, WellFormed, InteriorDelta, Lookup;
      var leaf, leafBox := SearchLeafForKey(k);
      MirrorOf(nodes, pages, lowestUnallocatedId, view, leaf);
      var delta := InteriorDelta(k, leafBox);
      ghost var f := view[leaf].f;
      var items: Option<NonEmpty<V>> := None;
      match nodes[leaf].pageId {
        case None => LookupEntry(f, delta.rank);
        case Some(p) =>
          HoldsNode(pages[p], f);
          items := GetIn(pages[p].children, delta);
      }
      r := if items.Some? then Some(items.value.front) else None;
      if items.Some? {
        ghost var i := FoundWasInserted(view, rootBox, log, leaf, k, items.value);
        if LawfulWith(log, k) {
          assert log[i] == (k, items.value.front);
        }
      }
      if LawfulWith(log, k) && InLog(log, k) {
        InsertedIsFound(view, rootBox, log, leaf, k);
      }
    }

    /** The first of the values that a node has for a box. */
    static ghost function FirstOf(node: NodeView<BBox, Size, V>, k: BBox): Option<V> {
      match Lookup(node.f, InteriorDelta(k, node.bbox).rank)
      case None => None
      case Some(items) => Some(items.front)
    }

    /** The entries of one node that the query wants, in the order its page has them. */
    method WantedOf(n: nat, q: BBox, touching: bool) returns (entries: seq<(BBox, V)>)
      requires AllMirror(nodes, pages, lowestUnallocatedId, view) && TreeOk(view, rootBox) && n in nodes
      ensures n in view && entries == Wanted(view[n].f, view[n].bbox, q, touching)
    {
      hide AllMirror, TreeOk, InnerHolds, Flat, WellFormed, Matches, Abs, Remaining, Wanted, ValidPath;
      MirrorOf(nodes, pages, lowestUnallocatedId, view, n);
      ghost var f := view[n].f;
      var bbox := nodes[n].bbox;
      entries := [];
      WantedNone(bbox, q, touching);
      match nodes[n].pageId
      case None =>
      case Some(p) =>
        HoldsNode(pages[p], f);
        var children := pages[p].children;
        var state := [0];
        StartPath(children);
        ghost var done: Held<V> := [];
        var item, next := StatelessNext(children, state);
        while item.Some?
          invariant ValidPath(children, state)
          invariant item.None? <==> Remaining(children, state) == []
          invariant item.Some? ==>
                      && ValidPath(children, next)
                      && Remaining(children, state) == [Entry(item.value.0, item.value.1)] + Remaining(children, next)
          invariant done + Remaining(children, state) == f
          invariant entries == Wanted(done, bbox, q, touching)
          decreases |f| - |done|
        {
          var (key, items) := item.value;
          var b := Abs(key, bbox);
          WantedNext(done, Entry(key, items), bbox, q, touching);
          if Matches(q, b, touching) {
            entries := entries + Labelled(b, items.Items());
          }
          done := done + [Entry(key, items)];
          state := next;
          item, next := StatelessNext(children, state);
        }
        assert done + [] == done;
    }

    static lemma WantedNone(bbox: BBox, q: BBox, touching: bool)
      ensures Wanted<V>([], bbox, q, touching) == []
    {
    }

    static lemma WantedNext(f: Held<V>, e: Entry<Size, V>, bbox: BBox, q: BBox, touching: bool)
      ensures Wanted(f + [e], bbox, q, touching) ==
              Wanted(f, bbox, q, touching)
              + if Matches(q, Abs(e.key, bbox), touching) then Labelled(Abs(e.key, bbox), e.items.Items()) else []
    {
      hide Matches, Abs;
      assert (f + [e])[..|f|] == f;
    }

    static lemma StartPath(children: Node<Size, V>)
      requires WellFormed(children)
      ensures ValidPath(children, [0]) && Remaining(children, [0]) == Flat(children)
    {
      assert children.keys[0..] == children.keys && children.values[0..] == children.values;
    }

    /**
     The wanted pairs down to a depth: each one in the tree that touches, or lies in, the query, as often as it is
     there, and nothing else.
     */
    method FindEntries(q: BBox, touching: bool, maxDepth: nat) returns (entries: seq<(BBox, V)>)
      requires Valid()
      ensures forall p :: multiset(entries)[p] ==
                if Matches(q, p.0, touching) then PairsOver(view, DownTo(view, maxDepth))[p] else 0
    {
      hide AllMirror, TreeOk, Logged, Filled, Matches, Touches, Depth, DownTo, Wanted, PairsOver, PairsIn;
      SameKeys(nodes, pages, lowestUnallocatedId, view);
      MirrorsSameNodes(nodes, pages, lowestUnallocatedId, view);
      TreeShape(view, rootBox);
      var found := SearchAllNodesTouchingArea(nodes, rootBox, q, maxDepth, view);
      entries := [];
      ghost var seen: set<nat> := {};
      NoneSeen(view);
      for i := 0 to |found|
        invariant forall n :: n in seen <==> exists j :: 0 <= j < i && found[j] == n
        invariant forall p :: multiset(entries)[p] == if Matches(q, p.0, touching) then PairsOver(view, seen)[p] else 0
      {
        var wanted := WantedOf(found[i], q, touching);
        PairsOverPut(view, seen, found[i]);
        ghost var nv := view[found[i]];
        forall p ensures multiset(entries + wanted)[p] ==
                if Matches(q, p.0, touching) then (PairsOver(view, seen) + PairsIn(nv.f, nv.bbox, false))[p] else 0 {
          WantedCounts(nv.f, nv.bbox, q, touching, p);
        }
        entries := entries + wanted;
        seen := seen + {found[i]};
      }
      assert forall n :: n in seen <==> n in found;
      forall p ensures multiset(entries)[p] ==
                if Matches(q, p.0, touching) then PairsOver(view, DownTo(view, maxDepth))[p] else 0 {
        if Matches(q, p.0, touching) {
          SeenIsAll(view, rootBox, q, touching, maxDepth, seen, p);
        }
      }
    }

    static lemma NoneSeen(view: View<V>)
      ensures PairsOver(view, {}) == multiset{}
    {
    }

    /** Whether every node is within reach of a search to a depth. */
    ghost predicate WithinDepth(maxDepth: nat)
      reads this
    {
      forall n :: n in view ==> Depth(n) <= maxDepth
    }

    /** A search of the whole tree finds exactly the inserted pairs that it wants, if equal corners mean equal boxes. */
    method FindAll(q: BBox, touching: bool, maxDepth: nat) returns (entries: seq<(BBox, V)>)
      requires Valid() && WithinDepth(maxDepth)
      ensures forall p :: multiset(entries)[p] == if Matches(q, p.0, touching) then AllPairs(view, false)[p] else 0
      ensures Lawful(log) ==>
                forall p :: multiset(entries)[p] == if Matches(q, p.0, touching) then multiset(log)[p] else 0
    {
      hide AllMirror, TreeOk, Filled, Matches, Depth, DownTo, PairsOver, AllPairs;
      entries := FindEntries(q, touching, maxDepth);
      DownToAll(view, maxDepth);
      LogIsMultiset(log);
    }

    /** `find_entries_in_box`. */
    method FindEntriesInBox(q: BBox) returns (entries: seq<(BBox, V)>)
      requires Valid() && WithinDepth(USIZE_MAX)
      ensures forall p :: multiset(entries)[p] == if Contains(q, p.0) then AllPairs(view, false)[p] else 0
      ensures Lawful(log) ==> forall p :: multiset(entries)[p] == if Contains(q, p.0) then multiset(log)[p] else 0
    {
      entries := FindAll(q, false, USIZE_MAX);
    }

    /** `find_entries_touching_box`, to the greatest depth. */
    method FindEntriesTouchingBox(q: BBox) returns (entries: seq<(BBox, V)>)
      requires Valid() && WithinDepth(USIZE_MAX)
      ensures forall p :: multiset(entries)[p] == if Overlaps(q, p.0) then AllPairs(view, false)[p] else 0
      ensures Lawful(log) ==> forall p :: multiset(entries)[p] == if Overlaps(q, p.0) then multiset(log)[p] else 0
    {
      entries := FindAll(q, true, USIZE_MAX);
    }
  }
}
