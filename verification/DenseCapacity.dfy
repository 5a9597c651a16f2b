/**
 How full the nodes of a dense tree are, and when they are split: a node is split just if more pairs are at it and below
 it than one more than a node may hold. Where equal corners mean equal boxes that is decided by the boxes inserted so
 far, in whatever order.
 */
module DenseCapacities {
  import opened NonEmptyVec
  import opened Multimap
  import opened BTreeVecApi
  import opened BBoxes
  import opened NodeIds
  import opened Sums
  import opened TreeNodes
  import opened DenseViews
  import opened DenseSteps
  import opened DenseDescent
  import opened DenseLogs

  // What is at a node and below it ---------------------------------------------------------------

  ghost function Below<V>(view: View<V>, n: nat, c: bool): map<nat, multiset<(BBox, V)>> {
    map m | m in view && Under(m, n) :: PairsIn(view[m].f, view[m].bbox, c)
  }

  ghost function PairsBelow<V>(view: View<V>, n: nat, c: bool): multiset<(BBox, V)> {
    Union(Below(view, n, c))
  }

  ghost function SizeBelow<V>(view: View<V>, n: nat): nat {
    |PairsBelow(view, n, true)|
  }

  /** A node is split just if it and the nodes below it hold too much for one: a leaf takes one pair too many. */
  ghost predicate Filled<V>(view: View<V>, saturation: nat) {
    forall n :: n in view ==> (view[n].split <==> SizeBelow(view, n) > saturation + 1)
  }

  /** The same while a pair is on its way down and has come to node `at`. */
  ghost predicate FilledFor<V>(view: View<V>, saturation: nat, at: nat) {
    forall n {:trigger SizeBelow(view, n)} :: n in view ==>
      if view[n].split then SizeBelow(view, n) + (if Under(at, n) then 1 else 0) > saturation + 1
      else SizeBelow(view, n) <= saturation + 1
  }

  /** Nothing lies below a node that is not split. */
  lemma {:induction false} UnderSplit<V>(view: View<V>, root: BBox, m: nat, n: nat)
    requires Shape(view, root) && m in view && Under(m, n) && m != n && n > 0
    ensures n in view && view[n].split
  {
    hide Proper, HalfOf, AxisAt;
    assert NodeShape(view, m);
    UnderLarger(m / 2, n);
    if m / 2 != n { UnderSplit(view, root, m / 2, n); }
  }

  lemma UnionOne<P>(m: map<nat, multiset<P>>, n: nat)
    requires m.Keys == {n}
    ensures Union(m) == m[n]
  {
    UnionRemove(m, n);
    assert m - {n} == map[];
  }

  lemma LeafBelow<V>(view: View<V>, root: BBox, n: nat, c: bool)
    requires Shape(view, root) && n in view && !view[n].split
    ensures PairsBelow(view, n, c) == PairsIn(view[n].f, view[n].bbox, c)
    ensures |PairsBelow(view, n, c)| == LenOf(view[n].f)
  {
    hide PairsIn, Union, Lift, NodeShape;
    var b := Below(view, n, c);
    assert n > 0 by { assert NodeShape(view, n); NodeIsPositive(view, n); }
    forall m | m in b ensures m == n {
      if m != n { UnderSplit(view, root, m, n); }
    }
    assert n in b;
    UnionOne(b, n);
    PairsInSize(view[n].f, view[n].bbox, c);
  }

  lemma NodeIsPositive<V>(view: View<V>, n: nat)
    requires n in view && NodeShape(view, n)
    ensures n > 0
  {
  }

  lemma PairsInSize<V>(f: Held<V>, bbox: BBox, c: bool)
    ensures |PairsIn(f, bbox, c)| == LenOf(f)
  {
    LiftSize(Flattened(f), bbox, c);
  }

  // Descents keep it -----------------------------------------------------------------------------

  lemma StartsFilled<V>(view: View<V>, saturation: nat, at: nat)
    requires Filled(view, saturation)
    ensures FilledFor(view, saturation, at)
  {
    hide SizeBelow;
  }

  lemma DownFilled<V>(view: View<V>, saturation: nat, at: nat, child: nat)
    requires FilledFor(view, saturation, at) && child / 2 == at && child > at
    ensures FilledFor(view, saturation, child)
  {
    hide SizeBelow;
    forall n | Under(at, n) ensures Under(child, n) { UnderLarger(at, n); }
  }

  lemma HalvesUnder(at: nat, half: nat, n: nat)
    requires at > 0 && half / 2 == at && half != n
    ensures Under(half, n) <==> Under(at, n)
  {
    if Under(at, n) { UnderLarger(at, n); }
  }

  lemma SplitNodes<V>(view: View<V>, at: nat, n: nat, c: bool)
    requires at > 0 && at in view && n in view && 2 * at !in view && 2 * at + 1 !in view
    ensures Below(SplitView(view, at), n, c).Keys
         == Below(view, n, c).Keys + if Under(at, n) then {2 * at, 2 * at + 1} else {}
  {
    hide PairsIn, HeldAfter, HalfOf;
    HalvesUnder(at, 2 * at, n);
    HalvesUnder(at, 2 * at + 1, n);
  }

  lemma BelowShares<V>(view: View<V>, root: BBox, at: nat, n: nat, c: bool)
    requires TreeOk(view, root) && at in view && !view[at].split && n in view && Under(at, n)
    ensures at > 0 && 2 * at !in view && 2 * at + 1 !in view
    ensures var b, b' := Below(view, n, c), Below(SplitView(view, at), n, c);
            && at in b && at in b' && 2 * at in b' && 2 * at + 1 in b'
            && b[at] == b'[2 * at] + b'[2 * at + 1] + b'[at]
  {
    hide Shape, HeldOk, HeldAfter, HalfOf, PairsIn, TreeOk;
    TreeParts(view, root);
    NoChildrenYet(view, root, at);
    SplitNodes(view, at, n, c);
    SplitShares(view, root, at, c);
    SplitSame(view, at, n, c);
    hide SplitView, Below, NodePairs, Under;
  }

  /** A split moves pairs only below the node that is split. */
  lemma SplitBelow<V>(view: View<V>, root: BBox, at: nat, n: nat, c: bool)
    requires TreeOk(view, root) && at in view && !view[at].split && n in view
    ensures PairsBelow(SplitView(view, at), n, c) == PairsBelow(view, n, c)
  {
    hide Shape, HeldOk, PairsIn, Union, TreeOk, SplitView, Below, NodePairs, Under;
    TreeParts(view, root);
    NoChildrenYet(view, root, at);
    var b, b' := Below(view, n, c), Below(SplitView(view, at), n, c);
    SplitNodes(view, at, n, c);
    SplitSame(view, at, n, c);
    if Under(at, n) {
      BelowShares(view, root, at, n, c);
      SplitUnion(b, b', at);
    } else {
      assert b' == b;
    }
  }

  lemma TreeParts<V>(view: View<V>, root: BBox)
    requires TreeOk(view, root)
    ensures Shape(view, root)
  {
  }

  lemma SplitSame<V>(view: View<V>, at: nat, n: nat, c: bool)
    requires at > 0 && at in view && n in view && 2 * at !in view && 2 * at + 1 !in view
    ensures var b, b', view' := Below(view, n, c), Below(SplitView(view, at), n, c), SplitView(view, at);
            && (forall m :: m in b && m in b' && m != at ==> b'[m] == b[m])
            && (at in b <==> Under(at, n)) && 2 * at !in b && 2 * at + 1 !in b
            && (at in b ==> b[at] == NodePairs(view, c)[at])
            && (forall m :: m in b' ==> m in view' && b'[m] == NodePairs(view', c)[m])
  {
    hide PairsIn, HeldAfter, HalfOf, Under;
  }

  /** What a half has after a split is part of what the node had. */
  lemma HalfBelow<V>(view: View<V>, root: BBox, at: nat, half: nat)
    requires TreeOk(view, root) && at in view && !view[at].split && (half == 2 * at || half == 2 * at + 1)
    ensures SizeBelow(SplitView(view, at), half) <= LenOf(view[at].f)
  {
    hide Shape, HeldOk, HeldAfter, HalfOf, PairsIn, Union;
    NoChildrenYet(view, root, at);
    SplitOk(view, root, at);
    var view' := SplitView(view, at);
    SplitShares(view, root, at, true);
    LeafBelow(view', root, half, true);
    PairsInSize(view[at].f, view[at].bbox, true);
    PairsInSize(view'[half].f, view'[half].bbox, true);
    assert NodePairs(view, true)[at] == PairsIn(view[at].f, view[at].bbox, true);
    assert NodePairs(view', true)[half] == PairsIn(view'[half].f, view'[half].bbox, true);
  }

  lemma SplitFilled<V>(view: View<V>, root: BBox, saturation: nat, at: nat)
    requires TreeOk(view, root) && at in view && !view[at].split && LenOf(view[at].f) > saturation
    requires FilledFor(view, saturation, at)
    ensures FilledFor(SplitView(view, at), saturation, at)
  {
    hide Shape, HeldOk, HeldAfter, HalfOf, PairsBelow;
    NoChildrenYet(view, root, at);
    var view' := SplitView(view, at);
    LeafBelow(view, root, at, true);
    assert saturation + 1 == SizeBelow(view, at);
    forall n | n in view'
      ensures if view'[n].split then SizeBelow(view', n) + (if Under(at, n) then 1 else 0) > saturation + 1
              else SizeBelow(view', n) <= saturation + 1
    {
      if n in view {
        SplitBelow(view, root, at, n, true);
        assert SizeBelow(view', n) == SizeBelow(view, n);
      } else {
        HalfBelow(view, root, at, n);
      }
    }
  }

  /** A pair more at a node is one more for every node above it. */
  lemma AddBelow<V>(view: View<V>, at: nat, key: Key<Size>, v: V, n: nat)
    requires at in view && IsDelta(key)
    ensures SizeBelow(AddAt(view, at, key, v), n) == SizeBelow(view, n) + if Under(at, n) then 1 else 0
  {
    hide PairsIn, Union, Added, ShowsAlike;
    var b, b' := Below(view, n, true), Below(AddAt(view, at, key, v), n, true);
    if Under(at, n) {
      CornersAlike(view[at].f, key, view[at].bbox);
      AddedPairs(view[at].f, key, v, view[at].bbox, true);
      UnionChanged(b, b', at);
    } else {
      assert b' == b;
    }
  }

  /** Where a descent ends there is room. */
  lemma AddFilled<V>(view: View<V>, root: BBox, saturation: nat, at: nat, key: Key<Size>, v: V)
    requires TreeOk(view, root) && at in view && IsDelta(key) && FilledFor(view, saturation, at)
    requires view[at].split || LenOf(view[at].f) <= saturation
    ensures Filled(AddAt(view, at, key, v), saturation)
  {
    hide Shape, HeldOk, PairsBelow, Added;
    var view' := AddAt(view, at, key, v);
    forall n | n in view' ensures view'[n].split <==> SizeBelow(view', n) > saturation + 1 {
      AddBelow(view, at, key, v, n);
      if !view[n].split && Under(at, n) {
        UnsplitIsLast(view, root, at, n);
        LeafBelow(view, root, at, true);
      }
    }
  }

  lemma UnsplitIsLast<V>(view: View<V>, root: BBox, at: nat, n: nat)
    requires Shape(view, root) && at in view && n in view && !view[n].split && Under(at, n)
    ensures at == n
  {
    assert NodeShape(view, n);
    if at != n { UnderSplit(view, root, at, n); }
  }

  // Which boxes come to a node -------------------------------------------------------------------

  /** The box of a node, whether the tree has it or not. */
  function BoxAt(root: BBox, n: nat): BBox {
    if n <= 1 then root else HalfOf(BoxAt(root, n / 2), AxisAt(n / 2), SideBelow(n))
  }

  /** A box's way through the halves leads to the node. */
  predicate Goes(root: BBox, b: BBox, n: nat) {
    n > 0 && (n > 1 ==> Goes(root, b, n / 2) && SideOf(BoxAt(root, n / 2), AxisAt(n / 2), b) == SideBelow(n))
  }

  /** The inserts whose boxes come to a node. */
  ghost function Going<V>(log: Log<V>, root: BBox, n: nat): Log<V> {
    if log == [] then []
    else
      var last := |log| - 1;
      Going(log[..last], root, n) + if Goes(root, log[last].0, n) then [log[last]] else []
  }

  lemma {:induction false} BoxIs<V>(view: View<V>, root: BBox, n: nat)
    requires Shape(view, root) && n in view
    ensures view[n].bbox == BoxAt(root, n) && n > 0
  {
    hide Proper, HalfOf, AxisAt, SideBelow;
    assert NodeShape(view, n);
    if n > 1 { BoxIs(view, root, n / 2); }
  }

  /** In a tree the way leads through its nodes. */
  lemma {:induction false} RouteIsWay<V>(view: View<V>, root: BBox, b: BBox, n: nat)
    requires Shape(view, root) && n in view
    ensures Route(view, b, n) <==> Goes(root, b, n)
  {
    hide Proper, HalfOf, AxisAt, SideOf;
    BoxIs(view, root, n);
    if n > 1 {
      assert NodeShape(view, n);
      BoxIs(view, root, n / 2);
      RouteIsWay(view, root, b, n / 2);
    }
  }

  lemma {:induction false} GoingPairs<V>(log: Log<V>, root: BBox, n: nat, p: (BBox, V))
    ensures multiset(Going(log, root, n))[p] == if Goes(root, p.0, n) then multiset(log)[p] else 0
  {
    hide Goes;
    if log != [] {
      var last := |log| - 1;
      GoingPairs(log[..last], root, n, p);
      assert log == log[..last] + [log[last]];
    }
  }

  lemma {:induction false} GoingFewer<V>(log: Log<V>, root: BBox, n: nat)
    requires n > 1
    ensures |Going(log, root, n)| <= |Going(log, root, n / 2)|
  {
    if log != [] {
      hide SideOf, BoxAt, AxisAt;
      GoingFewer(log[..|log| - 1], root, n);
    }
  }

  /** The pairs at a node and below it are those whose boxes come there. */
  lemma BelowIsGoing<V>(view: View<V>, root: BBox, n: nat, p: (BBox, V))
    requires TreeOk(view, root) && n in view
    ensures PairsBelow(view, n, false)[p] == if Goes(root, p.0, n) then AllPairs(view, false)[p] else 0
  {
    hide HeldOk, PairsIn, Union, Home, Goes, Route, Shape;
    TreeParts(view, root);
    RouteIsWay(view, root, p.0, n);
    NodePositive(view, root, n);
    var m, b := NodePairs(view, false), Below(view, n, false);
    if Goes(root, p.0, n) {
      forall k | k in m && k !in b ensures p !in m[k] {
        if p in m[k] {
          HomeOf(view, root, k, p);
          RouteAboveHome(view, p.0, n, k);
        }
      }
      UnionDrop(m, b, p);
    } else if p in Union(b) {
      var k := UnionMember(b, p);
      HomeOf(view, root, k, p);
      HomeRoute(view, p.0, k);
      RouteThrough(view, p.0, k, n);
    }
  }

  lemma NodePositive<V>(view: View<V>, root: BBox, n: nat)
    requires Shape(view, root) && n in view
    ensures n > 0
  {
    assert NodeShape(view, n);
  }

  lemma HomeRoute<V>(view: View<V>, b: BBox, n: nat)
    requires Home(view, b, n)
    ensures Route(view, b, n)
  {
  }

  lemma HomeOf<V>(view: View<V>, root: BBox, n: nat, p: (BBox, V))
    requires TreeOk(view, root) && n in view && p in PairsIn(view[n].f, view[n].bbox, false)
    ensures Home(view, p.0, n)
  {
    hide PairsIn, Home;
    TreeNodeOk(view, root, n);
    PairAtHome(view, n, p);
  }

  lemma {:induction false} UnionSize<P, Q>(m: map<nat, multiset<P>>, m': map<nat, multiset<Q>>)
    requires m'.Keys == m.Keys && forall n :: n in m ==> |m'[n]| == |m[n]|
    ensures |Union(m')| == |Union(m)|
    decreases |m|
  {
    if m != map[] {
      var n :| n in m;
      UnionRemove(m, n);
      UnionRemove(m', n);
      UnionSize(m - {n}, m' - {n});
    } else {
      assert m' == map[];
    }
  }

  lemma SizeByBox<V>(view: View<V>, n: nat)
    ensures SizeBelow(view, n) == |PairsBelow(view, n, false)|
  {
    hide PairsIn, Union;
    forall m | m in view
      ensures |PairsIn(view[m].f, view[m].bbox, true)| == |PairsIn(view[m].f, view[m].bbox, false)|
    {
      PairsInSize(view[m].f, view[m].bbox, true);
      PairsInSize(view[m].f, view[m].bbox, false);
    }
    UnionSize(Below(view, n, true), Below(view, n, false));
  }

  /** Where equal corners mean equal boxes, a node and those below it have as many pairs as came to it. */
  lemma SizeIsGoing<V>(view: View<V>, root: BBox, log: Log<V>, n: nat)
    requires TreeOk(view, root) && Logged(view, log) && Lawful(log) && n in view
    ensures SizeBelow(view, n) == |Going(log, root, n)|
    ensures PairsBelow(view, n, false) == multiset(Going(log, root, n))
  {
    hide TreeOk, PairsBelow, SizeBelow, AllPairs, Goes, Going;
    LogIsMultiset(log);
    assert AllPairs(view, false) == multiset(log);
    hide Lawful, Logged;
    var below, going := PairsBelow(view, n, false), multiset(Going(log, root, n));
    forall p ensures below[p] == going[p] {
      BelowIsGoing(view, root, n, p);
      GoingPairs(log, root, n, p);
    }
    SameCounts(below, going);
    SizeByBox(view, n);
  }

  /**
   Where equal corners mean equal boxes, the boxes inserted so far say which nodes there are and which have been split:
   those to which more came than one more than fit.
   */
  lemma {:induction false} SplitIff<V>(view: View<V>, root: BBox, log: Log<V>, saturation: nat, n: nat)
    requires TreeOk(view, root) && Logged(view, log) && Lawful(log) && Filled(view, saturation)
    ensures n in view && view[n].split <==> n > 0 && |Going(log, root, n)| > saturation + 1
    ensures n in view <==> n == 1 || (n > 1 && |Going(log, root, n / 2)| > saturation + 1)
  {
    hide SizeBelow, Logged, Lawful, HeldOk, Going, HalfOf;
    if n in view {
      assert NodeShape(view, n);
      SizeIsGoing(view, root, log, n);
    }
    if n > 1 {
      SplitIff(view, root, log, saturation, n / 2);
      GoingFewer(log, root, n);
      if n / 2 in view && view[n / 2].split { assert NodeShape(view, n / 2); }
    }
  }

  /** So the order of the inserts does not matter, neither for which nodes there are nor for what each of them has. */
  lemma OrderIsFree<V>(view: View<V>, log: Log<V>, view': View<V>, log': Log<V>, root: BBox, saturation: nat, n: nat)
    requires TreeOk(view, root) && Logged(view, log) && Lawful(log) && Filled(view, saturation)
    requires TreeOk(view', root) && Logged(view', log') && Lawful(log') && Filled(view', saturation)
    requires multiset(log) == multiset(log')
    ensures n in view <==> n in view'
    ensures n in view ==> view[n].bbox == view'[n].bbox && view[n].split == view'[n].split
    ensures n in view ==>
              PairsIn(view[n].f, view[n].bbox, false) == PairsIn(view'[n].f, view'[n].bbox, false)
  {
    hide SizeBelow, Logged, Lawful, HeldOk, Going, PairsIn, Shape, AllPairs, Filled;
    SplitIff(view, root, log, saturation, n);
    SplitIff(view', root, log', saturation, n);
    GoingSame(log, log', root, n);
    GoingSame(log, log', root, n / 2);
    if n in view {
      BoxIs(view, root, n);
      BoxIs(view', root, n);
      var ps, ps' := PairsIn(view[n].f, view[n].bbox, false), PairsIn(view'[n].f, view'[n].bbox, false);
      forall p ensures ps[p] == ps'[p] {
        HeldAtHome(view, root, log, n, p);
        HeldAtHome(view', root, log', n, p);
      }
      SameCounts(ps, ps');
    }
  }

  lemma GoingSame<V>(log: Log<V>, log': Log<V>, root: BBox, n: nat)
    requires multiset(log) == multiset(log')
    ensures |Going(log, root, n)| == |Going(log', root, n)|
  {
    hide Goes, Going;
    var ps, ps' := multiset(Going(log, root, n)), multiset(Going(log', root, n));
    forall p ensures ps[p] == ps'[p] {
      GoingPairs(log, root, n, p);
      GoingPairs(log', root, n, p);
    }
    SameCounts(ps, ps');
  }

  /** A node has of a pair what was inserted, if the box's way ends there. */
  lemma HeldAtHome<V>(view: View<V>, root: BBox, log: Log<V>, n: nat, p: (BBox, V))
    requires TreeOk(view, root) && Logged(view, log) && Lawful(log) && n in view
    ensures PairsIn(view[n].f, view[n].bbox, false)[p]
         == if Goes(root, p.0, n) && (view[n].split ==> SideOf(BoxAt(root, n), AxisAt(n), p.0) == Neither)
            then multiset(log)[p] else 0
  {
    hide HeldOk, PairsIn, Union, Goes, Route, Lawful, SideOf;
    LogIsMultiset(log);
    var m := NodePairs(view, false);
    BoxIs(view, root, n);
    RouteIsWay(view, root, p.0, n);
    if Home(view, p.0, n) {
      forall k | k in m && k != n ensures p !in m[k] {
        if p in m[k] {
          HomeOf(view, root, k, p);
          HomeUnique(view, p.0, k, n);
        }
      }
      UnionOnly(m, n, p);
    } else if p in m[n] {
      HomeOf(view, root, n, p);
    }
  }

  // The descent itself ---------------------------------------------------------------------------

  /** A descent that stops nowhere before comes from `s` to `t` in `n` steps. */
  ghost predicate Reaches<V>(s: Spot<V>, k: BBox, saturation: nat, n: nat, t: Spot<V>)
    decreases n
  {
    if n == 0 then s == t
    else s.at in s.view && !Stops(s, k, saturation) && Reaches(StepDown(s, k), k, saturation, n - 1, t)
  }

  lemma {:induction false} ReachesStep<V>(s: Spot<V>, k: BBox, saturation: nat, n: nat, t: Spot<V>)
    requires Reaches(s, k, saturation, n, t) && t.at in t.view && !Stops(t, k, saturation)
    ensures Reaches(s, k, saturation, n + 1, StepDown(t, k))
    decreases n
  {
    hide Stops, StepDown;
    if n > 0 {
      ReachesStep(StepDown(s, k), k, saturation, n - 1, t);
    } else {
      assert Reaches(StepDown(s, k), k, saturation, 0, StepDown(t, k));
    }
  }

  /** The tree after an insert: the descent from the root is taken until it stops, and there the pair is added. */
  ghost predicate InsertedBy<V(!new)>(view: View<V>, k: BBox, v: V, saturation: nat, view': View<V>) {
    exists n, t ::
      && Reaches(Spot(view, 1), k, saturation, n, t) && t.at in t.view && Stops(t, k, saturation)
      && view' == AddAt(t.view, t.at, InteriorDelta(k, t.view[t.at].bbox), v)
  }
}
