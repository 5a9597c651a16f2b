/** What inserts and splits do to a dense tree: each keeps the tree's invariant, and no pair is lost or made up. */
module DenseSteps {
  import opened NonEmptyVec
  import opened Multimap
  import opened BTreeVecApi
  import opened BBoxes
  import opened NodeIds
  import opened Sums
  import opened TreeNodes
  import opened DenseViews

  lemma {:induction false} RouteKept<V>(view: View<V>, view': View<V>, b: BBox, n: nat)
    requires Route(view, b, n) && Extends(view, view')
    ensures Route(view', b, n)
  {
    if n > 1 { RouteKept(view, view', b, n / 2); }
  }

  // Adding a pair at a node ----------------------------------------------------------------------

  ghost function AddAt<V>(view: View<V>, n: nat, key: Key<Size>, v: V): View<V>
    requires n in view
  {
    view[n := view[n].(f := Added(view[n].f, key, v))]
  }

  lemma KeyKept<V>(view: View<V>, view': View<V>, n: nat, key: Key<Size>)
    requires Extends(view, view') && n in view && view'[n].split == view[n].split && KeyOk(view, n, key)
    ensures KeyOk(view', n, key)
  {
    RouteKept(view, view', Abs(key, view[n].bbox), n);
  }

  lemma HeldKept<V>(view: View<V>, view': View<V>, n: nat)
    requires Extends(view, view') && n in view && view'[n] == view[n] && HeldOk(view, n)
    ensures HeldOk(view', n)
  {
    forall i | 0 <= i < |view[n].f| ensures KeyOk(view', n, view[n].f[i].key) {
      KeyKept(view, view', n, view[n].f[i].key);
    }
  }

  lemma AddedHeldOk<V>(view: View<V>, n: nat, key: Key<Size>, v: V)
    requires n in view && HeldOk(view, n) && KeyOk(view, n, key)
    ensures HeldOk(AddAt(view, n, key, v), n)
  {
    hide KeyOk, Sorted;
    var view' := AddAt(view, n, key, v);
    AddedSorted(view[n].f, key, v);
    KeyKept(view, view', n, key);
    forall i | 0 <= i < |view'[n].f| ensures KeyOk(view', n, view'[n].f[i].key) {
      AddedKeys(view[n].f, key, v, i);
      if view'[n].f[i].key != key {
        var j :| 0 <= j < |view[n].f| && view[n].f[j].key == view'[n].f[i].key;
        KeyKept(view, view', n, view[n].f[j].key);
      }
    }
  }

  /** Shape says nothing of what nodes hold. */
  lemma AddAtShape<V>(view: View<V>, root: BBox, n: nat, key: Key<Size>, v: V)
    requires Shape(view, root) && n in view
    ensures Shape(AddAt(view, n, key, v), root)
  {
    hide Proper, HalfOf, AxisAt, SideBelow, Added;
    var view' := AddAt(view, n, key, v);
    forall m | m in view' ensures NodeShape(view', m) {
      assert NodeShape(view, m);
    }
  }

  lemma AddAtOk<V>(view: View<V>, root: BBox, n: nat, key: Key<Size>, v: V)
    requires TreeOk(view, root) && n in view && KeyOk(view, n, key)
    ensures TreeOk(AddAt(view, n, key, v), root)
  {
    hide KeyOk, Shape, HeldOk, Added;
    var view' := AddAt(view, n, key, v);
    AddAtShape(view, root, n, key, v);
    forall m | m in view' ensures HeldOk(view', m) {
      if m != n { HeldKept(view, view', m); } else { AddedHeldOk(view, n, key, v); }
    }
  }

  /** The tree gains exactly the pair that is added: by corner always, by box if the key shows like those it meets. */
  lemma AddAtPairs<V>(view: View<V>, n: nat, key: Key<Size>, v: V, c: bool)
    requires n in view && ShowsAlike(view[n].f, key, view[n].bbox, c)
    ensures AllPairs(AddAt(view, n, key, v), c)
            == AllPairs(view, c) + multiset{(Shown(Abs(key, view[n].bbox), c), v)}
  {
    hide Lift, Flattened, Added, Shown, Abs, PairsIn, ShowsAlike;
    var view' := AddAt(view, n, key, v);
    var m, m' := NodePairs(view, c), NodePairs(view', c);
    AddedPairs(view[n].f, key, v, view[n].bbox, c);
    UnionChanged(m, m', n);
  }

  // Splitting a node -----------------------------------------------------------------------------

  type Stream<V> = seq<(Key<Size>, V)>

  /** A key as the node for one side stores it. */
  function Rekeyed(key: Key<Size>, bbox: BBox, axis: Axis, side: Side): Key<Size> {
    if side == Neither then key else InteriorDelta(Abs(key, bbox), HalfOf(bbox, axis, side))
  }

  /** The pairs that go to one side when a node is split, in the order they come. */
  ghost function Sent<V>(ps: Stream<V>, bbox: BBox, axis: Axis, side: Side): Stream<V> {
    if ps == [] then []
    else
      var n := |ps| - 1;
      Sent(ps[..n], bbox, axis, side)
      + if SideOf(bbox, axis, Abs(ps[n].0, bbox)) == side then [(Rekeyed(ps[n].0, bbox, axis, side), ps[n].1)] else []
  }

  /** Keys inside a box, which come back from the half they are sent to. */
  ghost predicate Inside<V>(ps: Stream<V>, bbox: BBox) {
    Proper(bbox) && forall i :: 0 <= i < |ps| ==> IsDelta(ps[i].0) && Contains(bbox, Abs(ps[i].0, bbox))
  }

  /** Keys that compare equal are equal. */
  ghost predicate RanksTell<V>(ps: Stream<V>) {
    forall i, j :: 0 <= i < |ps| && 0 <= j < |ps| && ps[i].0.rank == ps[j].0.rank ==> ps[i].0 == ps[j].0
  }

  lemma RekeyedShows(key: Key<Size>, bbox: BBox, axis: Axis, side: Side)
    requires Proper(bbox) && IsDelta(key) && Contains(bbox, Abs(key, bbox))
    requires SideOf(bbox, axis, Abs(key, bbox)) == side
    ensures var half := HalfOf(bbox, axis, side);
            && Proper(half) && IsDelta(Rekeyed(key, bbox, axis, side))
            && Abs(Rekeyed(key, bbox, axis, side), half) == Abs(key, bbox)
            && Contains(half, Abs(key, bbox)) && HalfOf(bbox, axis, Neither) == bbox
  {
    hide Avg;
    SplitCovers(bbox, axis);
    if side != Neither {
      AbsoluteDelta(Abs(key, bbox), HalfOf(bbox, axis, side));
    }
  }

  /** The pairs sent to a side, as they show there. */
  ghost function SentPairs<V>(ps: Stream<V>, bbox: BBox, axis: Axis, side: Side, c: bool): multiset<(BBox, V)> {
    Lift(Sent(ps, bbox, axis, side), HalfOf(bbox, axis, side), c)
  }

  lemma SentLast<V>(ps: Stream<V>, p: (Key<Size>, V), bbox: BBox, axis: Axis, side: Side, c: bool)
    requires Inside(ps + [p], bbox)
    ensures SentPairs(ps + [p], bbox, axis, side, c)
            == SentPairs(ps, bbox, axis, side, c)
               + OneIf(SideOf(bbox, axis, Abs(p.0, bbox)) == side, (Shown(Abs(p.0, bbox), c), p.1))
  {
    hide HalfOf, SideOf, Abs, Shown, Rekeyed, Proper, Lift, Contains;
    assert (ps + [p])[..|ps|] == ps && (ps + [p])[|ps|] == p;
    if SideOf(bbox, axis, Abs(p.0, bbox)) == side {
      RekeyedShows(p.0, bbox, axis, side);
      LiftSnoc(Sent(ps, bbox, axis, side), (Rekeyed(p.0, bbox, axis, side), p.1), HalfOf(bbox, axis, side), c);
    } else {
      var before := Sent(ps, bbox, axis, side);
      assert before + [] == before;
    }
  }

  /** Every pair goes to one side, and shows there as it did before. */
  lemma {:induction false} SentShares<V>(ps: Stream<V>, bbox: BBox, axis: Axis, c: bool)
    requires Inside(ps, bbox)
    ensures Lift(ps, bbox, c) == SentPairs(ps, bbox, axis, Left, c) + SentPairs(ps, bbox, axis, Right, c)
                               + SentPairs(ps, bbox, axis, Neither, c)
  {
    if ps == [] {
    } else {
      hide HalfOf, SideOf, Abs, Shown, Sent, SentPairs, Proper, Lift, OneIf, Contains;
      var n := |ps| - 1;
      var before, p := ps[..n], ps[n];
      assert ps == before + [p];
      LiftSnoc(before, p, bbox, c);
      SentShares(before, bbox, axis, c);
      SentLast(before, p, bbox, axis, Left, c);
      SentLast(before, p, bbox, axis, Right, c);
      SentLast(before, p, bbox, axis, Neither, c);
      var side := SideOf(bbox, axis, Abs(p.0, bbox));
      AddToOne(SentPairs(before, bbox, axis, Left, c), SentPairs(before, bbox, axis, Right, c),
               SentPairs(before, bbox, axis, Neither, c), side == Left, side == Right, side == Neither,
               (Shown(Abs(p.0, bbox), c), p.1));
    }
  }

  /** Where a pair that was sent comes from. */
  lemma {:induction false} SentFrom<V>(ps: Stream<V>, bbox: BBox, axis: Axis, side: Side, i: nat) returns (j: nat)
    requires i < |Sent(ps, bbox, axis, side)|
    ensures j < |ps| && SideOf(bbox, axis, Abs(ps[j].0, bbox)) == side
    ensures Sent(ps, bbox, axis, side)[i].0 == Rekeyed(ps[j].0, bbox, axis, side)
  {
    hide SideOf, Rekeyed, Abs;
    var n := |ps| - 1;
    if i < |Sent(ps[..n], bbox, axis, side)| {
      j := SentFrom(ps[..n], bbox, axis, side, i);
    } else {
      j := n;
    }
  }

  /** Pairs sent to a side lie in its half, and there too equal ranks mean equal keys. */
  lemma SentInside<V>(ps: Stream<V>, bbox: BBox, axis: Axis, side: Side)
    requires Inside(ps, bbox) && RanksTell(ps)
    ensures Inside(Sent(ps, bbox, axis, side), HalfOf(bbox, axis, side))
    ensures RanksTell(Sent(ps, bbox, axis, side))
  {
    hide SideOf, Rekeyed, Abs, HalfOf, Proper, Sent, Contains;
    var sent, half := Sent(ps, bbox, axis, side), HalfOf(bbox, axis, side);
    HalfProper(bbox, axis, side);
    forall i | 0 <= i < |sent| ensures IsDelta(sent[i].0) && Contains(half, Abs(sent[i].0, half)) {
      var j := SentFrom(ps, bbox, axis, side, i);
      RekeyedShows(ps[j].0, bbox, axis, side);
    }
    forall i, k | 0 <= i < |sent| && 0 <= k < |sent| && sent[i].0.rank == sent[k].0.rank
      ensures sent[i].0 == sent[k].0
    {
      var j := SentFrom(ps, bbox, axis, side, i);
      var l := SentFrom(ps, bbox, axis, side, k);
      RekeyedShows(ps[j].0, bbox, axis, side);
      RekeyedShows(ps[l].0, bbox, axis, side);
      SameRankSameAbs(sent[i].0, sent[k].0, half, ps[j].0, ps[l].0, bbox);
    }
  }

  lemma HalfProper(bbox: BBox, axis: Axis, side: Side)
    requires Proper(bbox)
    ensures Proper(HalfOf(bbox, axis, side)) && HalfOf(bbox, axis, Neither) == bbox
    ensures Contains(bbox, HalfOf(bbox, axis, side))
  {
    hide Avg;
    SplitCovers(bbox, axis);
  }

  /** Ranks in one box agree just when they do in another, and so do keys. */
  lemma SameRankSameAbs(d: Key<Size>, e: Key<Size>, half: BBox, d': Key<Size>, e': Key<Size>, bbox: BBox)
    requires IsDelta(d) && IsDelta(e) && IsDelta(d') && IsDelta(e')
    requires Abs(d, half) == Abs(d', bbox) && Abs(e, half) == Abs(e', bbox)
    ensures d.rank == e.rank <==> d'.rank == e'.rank
    ensures d == e <==> d' == e'
  {
    SameCorner(d, e, half);
    SameCorner(d', e', bbox);
  }

  // What the new nodes hold ----------------------------------------------------------------------

  /** Pushing a run keeps its pairs as they show. */
  lemma {:induction false} PushedPairs<V>(ps: Stream<V>, bbox: BBox, c: bool)
    requires RanksTell(ps)
    ensures PairsIn(Pushed(ps), bbox, c) == Lift(ps, bbox, c)
  {
    if ps == [] {
      var none: Held<V> := [];
      assert Flattened(none) == [];
    } else {
      hide Abs, Shown, Lift, PairsIn, Added;
      var n := |ps| - 1;
      var f := Pushed(ps[..n]);
      PushedPairs(ps[..n], bbox, c);
      forall i | 0 <= i < |f| && f[i].key.rank == ps[n].0.rank ensures f[i].key == ps[n].0 {
        var j := PushedKeys(ps[..n], i);
      }
      AddedPairs(f, ps[n].0, ps[n].1, bbox, c);
      LiftSnoc(ps[..n], ps[n], bbox, c);
      assert ps == ps[..n] + [ps[n]];
    }
  }

  lemma DrainedInside<V>(view: View<V>, n: nat)
    requires n in view && Proper(view[n].bbox) && HeldOk(view, n)
    ensures var ps := DrainedPairs(view[n].f);
            && Inside(ps, view[n].bbox) && RanksTell(ps)
            && forall c :: Lift(ps, view[n].bbox, c) == PairsIn(view[n].f, view[n].bbox, c)
  {
    hide Lift, DrainedPairs, Flattened, Contains, Abs, Proper, Home;
    var f, bbox := view[n].f, view[n].bbox;
    var ps := DrainedPairs(f);
    forall i | 0 <= i < |ps| ensures IsDelta(ps[i].0) && Contains(bbox, Abs(ps[i].0, bbox)) {
      var j := DrainedFrom(f, i);
      assert KeyOk(view, n, f[j].key);
    }
    forall i, k | 0 <= i < |ps| && 0 <= k < |ps| && ps[i].0.rank == ps[k].0.rank ensures ps[i].0 == ps[k].0 {
      var j := DrainedFrom(f, i);
      var l := DrainedFrom(f, k);
    }
    DrainedSame(f);
    forall c ensures Lift(ps, bbox, c) == PairsIn(f, bbox, c) {
      LiftPermuted(ps, Flattened(f), bbox, c);
    }
  }

  /** Splitting a node: both halves appear, and each pair goes to the half that has its box, or stays. */
  ghost function SplitView<V>(view: View<V>, n: nat): View<V>
    requires n in view
  {
    view[n := NodeView(view[n].bbox, true, HeldAfter(view, n, Neither))]
        [2 * n := NodeView(HalfOf(view[n].bbox, AxisAt(n), Left), false, HeldAfter(view, n, Left))]
        [2 * n + 1 := NodeView(HalfOf(view[n].bbox, AxisAt(n), Right), false, HeldAfter(view, n, Right))]
  }

  ghost function HeldAfter<V>(view: View<V>, n: nat, side: Side): Held<V>
    requires n in view
  {
    Pushed(Sent(DrainedPairs(view[n].f), view[n].bbox, AxisAt(n), side))
  }

  lemma NoChildrenYet<V>(view: View<V>, root: BBox, n: nat)
    requires Shape(view, root) && n in view && !view[n].split
    ensures n >= 1 && 2 * n !in view && 2 * n + 1 !in view && Extends(view, SplitView(view, n))
  {
    hide HeldAfter, Proper, HalfOf, AxisAt;
    assert NodeShape(view, n);
    assert 2 * n in view ==> NodeShape(view, 2 * n);
    assert 2 * n + 1 in view ==> NodeShape(view, 2 * n + 1);
  }

  lemma SplitShape<V>(view: View<V>, root: BBox, n: nat)
    requires Shape(view, root) && n in view && !view[n].split
    ensures Shape(SplitView(view, n), root)
  {
    hide HeldAfter, Proper, HalfOf;
    NoChildrenYet(view, root, n);
    var view' := SplitView(view, n);
    assert NodeShape(view, n);
    HalfProper(view[n].bbox, AxisAt(n), Left);
    HalfProper(view[n].bbox, AxisAt(n), Right);
    forall m | m in view' ensures NodeShape(view', m) {
      if m in view { assert NodeShape(view, m); }
    }
  }

  /** What a side's node holds after a split is in its box, and belongs there. */
  lemma SplitHeld<V>(view: View<V>, root: BBox, n: nat, side: Side, m: nat)
    requires TreeOk(view, root) && n in view && !view[n].split
    requires m == match side case Left => 2 * n case Right => 2 * n + 1 case Neither => n
    ensures m in SplitView(view, n) && HeldOk(SplitView(view, n), m)
  {
    hide Contains, Abs, HalfOf, Proper, SideOf, Sent, DrainedPairs, Rekeyed, Sorted, Pushed;
    NoChildrenYet(view, root, n);
    assert NodeShape(view, n) && HeldOk(view, n);
    var view' := SplitView(view, n);
    var bbox, axis, ps := view[n].bbox, AxisAt(n), DrainedPairs(view[n].f);
    HalfProper(bbox, axis, side);
    DrainedInside(view, n);
    SentInside(ps, bbox, axis, side);
    PushedSorted(Sent(ps, bbox, axis, side));
    var f := HeldAfter(view, n, side);
    assert view'[m].f == f && view'[m].bbox == HalfOf(bbox, axis, side);
    forall i | 0 <= i < |f| ensures KeyOk(view', m, f[i].key) {
      var j := PushedKeys(Sent(ps, bbox, axis, side), i);
      var k := SentFrom(ps, bbox, axis, side, j);
      RekeyedShows(ps[k].0, bbox, axis, side);
      var l := DrainedFrom(view[n].f, k);
      assert KeyOk(view, n, view[n].f[l].key);
      RouteKept(view, view', Abs(ps[k].0, bbox), n);
    }
  }

  lemma SplitOk<V>(view: View<V>, root: BBox, n: nat)
    requires TreeOk(view, root) && n in view && !view[n].split
    ensures TreeOk(SplitView(view, n), root)
  {
    hide Shape, HeldOk, HeldAfter;
    var view' := SplitView(view, n);
    SplitShape(view, root, n);
    NoChildrenYet(view, root, n);
    SplitHeld(view, root, n, Left, 2 * n);
    SplitHeld(view, root, n, Right, 2 * n + 1);
    SplitHeld(view, root, n, Neither, n);
    forall m | m in view' ensures HeldOk(view', m) {
      if m != n && m != 2 * n && m != 2 * n + 1 { HeldKept(view, view', m); }
    }
  }

  /** A split shares a node's pairs out, each to one of the three nodes. */
  lemma SplitShares<V>(view: View<V>, root: BBox, n: nat, c: bool)
    requires TreeOk(view, root) && n in view && !view[n].split
    ensures n > 0
    ensures var view' := SplitView(view, n);
            NodePairs(view, c)[n] == NodePairs(view', c)[2 * n] + NodePairs(view', c)[2 * n + 1]
                + NodePairs(view', c)[n]
  {
    hide Shape, HeldOk, HeldAfter, HalfOf, PairsIn, Lift, Sent, SentPairs, DrainedPairs, Proper, KeyOk, Abs, Contains;
    TreeNodeOk(view, root, n);
    NoChildrenYet(view, root, n);
    var bbox, axis, ps := view[n].bbox, AxisAt(n), DrainedPairs(view[n].f);
    DrainedInside(view, n);
    SentShares(ps, bbox, axis, c);
    SidePairs(view, root, n, Left, c);
    SidePairs(view, root, n, Right, c);
    SidePairs(view, root, n, Neither, c);
  }

  /** A split moves pairs and does nothing else to them. */
  lemma SplitPairs<V>(view: View<V>, root: BBox, n: nat, c: bool)
    requires TreeOk(view, root) && n in view && !view[n].split
    ensures AllPairs(SplitView(view, n), c) == AllPairs(view, c)
  {
    hide Shape, HeldOk, HeldAfter, HalfOf, PairsIn, Union;
    NoChildrenYet(view, root, n);
    SplitShares(view, root, n, c);
    SplitUnion(NodePairs(view, c), NodePairs(SplitView(view, n), c), n);
  }

  lemma TreeNodeOk<V>(view: View<V>, root: BBox, n: nat)
    requires TreeOk(view, root) && n in view
    ensures NodeShape(view, n) && HeldOk(view, n)
  {
  }

  lemma SidePairs<V>(view: View<V>, root: BBox, n: nat, side: Side, c: bool)
    requires TreeOk(view, root) && n in view && !view[n].split
    ensures var half := HalfOf(view[n].bbox, AxisAt(n), side);
            && (side == Neither ==> half == view[n].bbox)
            && PairsIn(HeldAfter(view, n, side), half, c)
               == SentPairs(DrainedPairs(view[n].f), view[n].bbox, AxisAt(n), side, c)
  {
    hide Shape, HalfOf, PairsIn, Lift, Sent, DrainedPairs, Proper, KeyOk, Abs, Contains;
    TreeNodeOk(view, root, n);
    var bbox, axis, ps := view[n].bbox, AxisAt(n), DrainedPairs(view[n].f);
    HalfProper(bbox, axis, side);
    DrainedInside(view, n);
    SentInside(ps, bbox, axis, side);
    PushedPairs(Sent(ps, bbox, axis, side), HalfOf(bbox, axis, side), c);
  }
}
