/**
 The descent of an insert: from the root to where a box belongs, splitting full leaves on the way. It ends
 unless the box is small (no longer than 1 either way) and more stored boxes than a node may hold are small too
 and end at the same corner; then no split can part them, and it never ends.
 */
module DenseDescent {
  import opened NonEmptyVec
  import opened Multimap
  import opened BTreeVecApi
  import opened BBoxes
  import opened NodeIds
  import opened Sums
  import opened TreeNodes
  import opened DenseViews
  import opened DenseSteps

  /** A tree and the node a descent has come to. */
  datatype Spot<V> = Spot(view: View<V>, at: nat)

  /** Whether a descent ends here: the box fits neither half, or the leaf is not full. */
  ghost predicate Stops<V>(s: Spot<V>, k: BBox, saturation: nat)
    requires s.at in s.view
  {
    if s.view[s.at].split then ChildFor(s.view, s.at, k) == 0 else LenOf(s.view[s.at].f) <= saturation
  }

  /** One step: down into a half, or splitting a full leaf. */
  ghost function StepDown<V>(s: Spot<V>, k: BBox): Spot<V>
    requires s.at in s.view
  {
    if s.view[s.at].split then Spot(s.view, ChildFor(s.view, s.at, k))
    else Spot(SplitView(s.view, s.at), s.at)
  }

  /** A spot an insert of `k` may come to. */
  ghost predicate OnTheWay<V>(s: Spot<V>, root: BBox, k: BBox) {
    s.at in s.view && TreeOk(s.view, root) && Route(s.view, k, s.at) && Contains(s.view[s.at].bbox, k) && Proper(k)
  }

  predicate Small(b: BBox) {
    Width(b) <= 1 && Height(b) <= 1
  }

  predicate SameEnd(a: BBox, b: BBox) {
    a.xEnd == b.xEnd && a.yEnd == b.yEnd
  }

  /** More than `saturation` of the pairs are small boxes that end where `k` does. */
  ghost predicate Crowded<V(!new)>(pairs: multiset<(BBox, V)>, k: BBox, saturation: nat) {
    exists crowd: multiset<(BBox, V)> ::
      crowd <= pairs && |crowd| > saturation && forall p :: p in crowd ==> Small(p.0) && SameEnd(p.0, k)
  }

  /** The inserts that never end. */
  ghost predicate NeverEnds<V(!new)>(view: View<V>, k: BBox, saturation: nat) {
    Small(k) && Crowded(AllPairs(view, false), k, saturation)
  }

  // One step -------------------------------------------------------------------------------------

  lemma StepDownOk<V>(s: Spot<V>, root: BBox, k: BBox, saturation: nat)
    requires OnTheWay(s, root, k) && !Stops(s, k, saturation)
    ensures OnTheWay(StepDown(s, k), root, k)
    ensures Extends(s.view, StepDown(s, k).view)
    ensures AllPairs(StepDown(s, k).view, true) == AllPairs(s.view, true)
    ensures AllPairs(StepDown(s, k).view, false) == AllPairs(s.view, false)
  {
    hide Shape, HeldOk, SideOf, Avg;
    if s.view[s.at].split {
      ChildBox(s, root, k);
    } else {
      SplitOk(s.view, root, s.at);
      SplitPairs(s.view, root, s.at, true);
      SplitPairs(s.view, root, s.at, false);
      NoChildrenYet(s.view, root, s.at);
      RouteKept(s.view, SplitView(s.view, s.at), k, s.at);
    }
  }

  /** The half a box goes to is there, and contains it. */
  lemma ChildBox<V>(s: Spot<V>, root: BBox, k: BBox)
    requires OnTheWay(s, root, k) && s.view[s.at].split && ChildFor(s.view, s.at, k) != 0
    ensures var child := ChildFor(s.view, s.at, k);
            && child in s.view && child / 2 == s.at && Route(s.view, k, child)
            && Contains(s.view[child].bbox, k)
            && s.view[child].bbox == HalfOf(s.view[s.at].bbox, AxisAt(s.at), SideOf(s.view[s.at].bbox, AxisAt(s.at), k))
            && AxisAt(child) == NextAxis(AxisAt(s.at))
  {
    hide Avg, HeldOk;
    var child := ChildFor(s.view, s.at, k);
    assert NodeShape(s.view, s.at);
    assert NodeShape(s.view, child);
  }

  // Small boxes ----------------------------------------------------------------------------------

  /** A small box always fits a half, and which one depends on its end corner alone. */
  lemma SmallSide(parent: BBox, axis: Axis, a: BBox, b: BBox)
    requires Proper(parent) && Proper(a) && Proper(b) && Contains(parent, a) && Contains(parent, b)
    requires Small(a) && Small(b) && SameEnd(a, b)
    ensures SideOf(parent, axis, a) == SideOf(parent, axis, b) != Neither
  {
    hide Avg;
    SplitAt(parent, axis);
  }

  lemma {:induction false} SameEndRoute<V>(view: View<V>, root: BBox, a: BBox, b: BBox, n: nat)
    requires Shape(view, root) && Route(view, a, n) && Contains(view[n].bbox, a)
    requires Proper(a) && Proper(b) && Contains(root, b) && Small(a) && Small(b) && SameEnd(a, b)
    ensures Route(view, b, n) && Contains(view[n].bbox, b)
  {
    hide Avg, SideOf, HalfOf, AxisAt;
    assert NodeShape(view, n);
    if n > 1 {
      var up := n / 2;
      assert NodeShape(view, up);
      HalfInside(view[up].bbox, AxisAt(up), SideBelow(n), a);
      SameEndRoute(view, root, a, b, up);
      SmallSide(view[up].bbox, AxisAt(up), a, b);
      SideContains(view[up].bbox, AxisAt(up), b);
    }
  }

  lemma HalfInside(parent: BBox, axis: Axis, side: Side, a: BBox)
    requires Proper(parent) && Contains(HalfOf(parent, axis, side), a)
    ensures Contains(parent, a)
  {
    hide Avg;
    SplitCovers(parent, axis);
  }

  lemma SideContains(parent: BBox, axis: Axis, b: BBox)
    requires Contains(parent, b)
    ensures Contains(HalfOf(parent, axis, SideOf(parent, axis, b)), b)
  {
    hide Avg;
  }

  // Descents that never end ----------------------------------------------------------------------

  lemma NoneElsewhere<V>(view: View<V>, root: BBox, k: BBox, home: nat, p: (BBox, V), n: nat)
    requires TreeOk(view, root) && Home(view, k, home) && Contains(root, k) && Proper(k) && Small(k)
    requires Small(p.0) && SameEnd(p.0, k) && n in view && n != home
    ensures p !in PairsIn(view[n].f, view[n].bbox, false)
  {
    hide Avg, SideOf, Lift, Flattened, Route, TreeOk, Home, PairsIn;
    TreeNodeOk(view, root, n);
    if p in PairsIn(view[n].f, view[n].bbox, false) {
      PairAtHome(view, n, p);
      SmallHome(view, root, p.0, k, n);
      HomeUnique(view, k, n, home);
    }
  }

  /** Every stored small box that ends where `k` does is in the leaf that `k` belongs to. */
  lemma CrowdTogether<V>(s: Spot<V>, root: BBox, k: BBox, p: (BBox, V))
    requires OnTheWay(s, root, k) && !s.view[s.at].split && Small(k)
    requires Small(p.0) && SameEnd(p.0, k)
    ensures AllPairs(s.view, false)[p] == PairsIn(s.view[s.at].f, s.view[s.at].bbox, false)[p]
  {
    hide NodeShape, HeldOk, PairsIn, Route, Union;
    var view := s.view;
    RootContains(view, root, s.at, k);
    forall n | n in view && n != s.at ensures p !in NodePairs(view, false)[n] {
      NoneElsewhere(view, root, k, s.at, p, n);
    }
    UnionOnly(NodePairs(view, false), s.at, p);
  }

  /** Small boxes that end alike have the same home. */
  lemma SmallHome<V>(view: View<V>, root: BBox, a: BBox, b: BBox, n: nat)
    requires TreeOk(view, root) && Home(view, a, n) && Contains(view[n].bbox, a)
    requires Proper(a) && Proper(b) && Contains(root, b) && Small(a) && Small(b) && SameEnd(a, b)
    ensures Home(view, b, n)
  {
    hide Avg;
    TreeNodeOk(view, root, n);
    SameEndRoute(view, root, a, b, n);
    SmallSide(view[n].bbox, AxisAt(n), a, b);
  }

  lemma {:induction false} RootContains<V>(view: View<V>, root: BBox, n: nat, a: BBox)
    requires Shape(view, root) && n in view && Contains(view[n].bbox, a)
    ensures Contains(root, a)
  {
    hide Avg, HalfOf, AxisAt;
    assert NodeShape(view, n);
    if n > 1 {
      assert NodeShape(view, n / 2);
      HalfInside(view[n / 2].bbox, AxisAt(n / 2), SideBelow(n), a);
      RootContains(view, root, n / 2, a);
    }
  }

  /** One step of a descent that never ends does not end it, and leads to another. */
  lemma GoesOnForever<V(!new)>(s: Spot<V>, root: BBox, k: BBox, saturation: nat)
    requires OnTheWay(s, root, k) && NeverEnds(s.view, k, saturation)
    ensures !Stops(s, k, saturation) && OnTheWay(StepDown(s, k), root, k)
    ensures NeverEnds(StepDown(s, k).view, k, saturation)
  {
    hide Avg, Flattened, SideOf;
    var view, t := s.view, s.at;
    TreeNodeOk(view, root, t);
    RootContains(view, root, t, k);
    if view[t].split {
      SmallSide(view[t].bbox, AxisAt(t), k, k);
    } else {
      var crowd :| crowd <= AllPairs(view, false) && |crowd| > saturation
                   && forall p :: p in crowd ==> Small(p.0) && SameEnd(p.0, k);
      forall p | p in crowd ensures crowd[p] <= PairsIn(view[t].f, view[t].bbox, false)[p] {
        CrowdTogether(s, root, k, p);
      }
      SubSize(crowd, PairsIn(view[t].f, view[t].bbox, false));
      LiftSize(Flattened(view[t].f), view[t].bbox, false);
    }
    StepDownOk(s, root, k, saturation);
  }

  /** Whether a descent takes `n` steps without ending. */
  ghost predicate RunsFor<V>(s: Spot<V>, k: BBox, saturation: nat, n: nat)
    decreases n
  {
    n == 0 || (s.at in s.view && !Stops(s, k, saturation) && RunsFor(StepDown(s, k), k, saturation, n - 1))
  }

  lemma {:induction false} RunsForever<V(!new)>(s: Spot<V>, root: BBox, k: BBox, saturation: nat, n: nat)
    requires OnTheWay(s, root, k) && NeverEnds(s.view, k, saturation)
    ensures RunsFor(s, k, saturation, n)
    decreases n
  {
    hide Stops, StepDown, NeverEnds, TreeOk, Route;
    if n > 0 {
      GoesOnForever(s, root, k, saturation);
      RunsForever(StepDown(s, k), root, k, saturation, n - 1);
    }
  }

  // Descents that end ----------------------------------------------------------------------------

  function Extent(b: BBox, axis: Axis): int {
    if axis == Lat then Width(b) else Height(b)
  }

  function EndOn(b: BBox, axis: Axis): int {
    if axis == Lat then b.xEnd else b.yEnd
  }

  function TotalExtent(b: BBox): int {
    Width(b) + Height(b)
  }

  /** A split on this axis may neither shrink the box nor part any pair from `k`. */
  ghost predicate Aligned<V>(pairs: multiset<(BBox, V)>, bbox: BBox, axis: Axis, k: BBox) {
    Extent(bbox, axis) <= 1 && forall p :: p in pairs ==> EndOn(p.0, axis) == EndOn(k, axis)
  }

  ghost function PairsAt<V>(s: Spot<V>): multiset<(BBox, V)>
    requires s.at in s.view
  {
    PairsIn(s.view[s.at].f, s.view[s.at].bbox, false)
  }

  ghost predicate AlignedAt<V>(s: Spot<V>, axis: Axis, k: BBox)
    requires s.at in s.view
  {
    Aligned(PairsAt(s), s.view[s.at].bbox, axis, k)
  }

  /** A half that is as large as the whole is the whole, and had nothing to shrink. */
  lemma HalfNoLarger(bbox: BBox, axis: Axis, side: Side)
    requires Proper(bbox)
    ensures var half := HalfOf(bbox, axis, side);
            && 0 <= TotalExtent(half) <= TotalExtent(bbox)
            && (TotalExtent(half) == TotalExtent(bbox) && side != Neither ==> half == bbox && Extent(bbox, axis) <= 1)
  {
    hide Avg;
    SplitAt(bbox, axis);
  }

  /** When the half is the whole, boxes that end elsewhere than `k` go to the other half. */
  lemma PartedBySplit(bbox: BBox, axis: Axis, k: BBox, b: BBox)
    requires Proper(bbox) && Contains(bbox, k) && Contains(bbox, b) && Proper(k) && Proper(b)
    requires SideOf(bbox, axis, k) != Neither
        && TotalExtent(HalfOf(bbox, axis, SideOf(bbox, axis, k))) == TotalExtent(bbox)
    requires EndOn(b, axis) != EndOn(k, axis)
    ensures SideOf(bbox, axis, b) != SideOf(bbox, axis, k)
  {
    hide Avg;
    SplitAt(bbox, axis);
  }

  /** In a full leaf where no axis has anything to do, the descent never ends. */
  lemma AlignedCrowds<V(!new)>(s: Spot<V>, root: BBox, k: BBox, saturation: nat)
    requires OnTheWay(s, root, k) && LenOf(s.view[s.at].f) > saturation
    requires AlignedAt(s, Lat, k) && AlignedAt(s, Long, k)
    ensures NeverEnds(s.view, k, saturation)
  {
    hide Flattened, Lift, Route, NodeShape, HeldOk;
    TreeNodeOk(s.view, root, s.at);
    var crowd := PairsAt(s);
    LiftSize(Flattened(s.view[s.at].f), s.view[s.at].bbox, false);
    UnionRemove(NodePairs(s.view, false), s.at);
    BoxOk(s.view, root, s.at);
    forall p | p in crowd ensures Small(p.0) && SameEnd(p.0, k) {
      PairAtHome(s.view, s.at, p);
    }
    assert Crowded(AllPairs(s.view, false), k, saturation);
  }

  lemma BoxOk<V>(view: View<V>, root: BBox, n: nat)
    requires TreeOk(view, root) && n in view
    ensures Proper(view[n].bbox) && n > 0
  {
    assert NodeShape(view, n);
  }

  /** The leaf that a split sends `k` to. */
  ghost function ChildSpot<V>(s: Spot<V>, k: BBox): Spot<V>
    requires s.at in s.view
  {
    var view' := SplitView(s.view, s.at);
    Spot(view', ChildFor(view', s.at, k))
  }

  /**
   The leaf that `k` goes to after a split has a smaller box, or fewer pairs, or splits next on an axis that will
   do.
   */
  ghost predicate Progress<V>(s: Spot<V>, s': Spot<V>, k: BBox)
    requires s.at in s.view && s'.at in s'.view
  {
    var b, b' := s.view[s.at].bbox, s'.view[s'.at].bbox;
    || 0 <= TotalExtent(b') < TotalExtent(b)
    || (TotalExtent(b') == TotalExtent(b) && LenOf(s'.view[s'.at].f) < LenOf(s.view[s.at].f))
    || (TotalExtent(b') == TotalExtent(b) && LenOf(s'.view[s'.at].f) == LenOf(s.view[s.at].f)
        && AlignedAt(s, AxisAt(s.at), k) && !AlignedAt(s', AxisAt(s'.at), k))
  }

  /** What is at the half that `k` goes to was at the node before, and had to go the same way. */
  lemma ChildPairs<V>(s: Spot<V>, root: BBox, k: BBox)
    requires OnTheWay(s, root, k) && !s.view[s.at].split && ChildFor(s.view, s.at, k) != 0
    ensures var s' := ChildSpot(s, k);
            && s'.at in s'.view && !s'.view[s'.at].split && OnTheWay(s', root, k) && s'.at / 2 == s.at
            && s'.at == ChildFor(s.view, s.at, k)
            && s'.view[s'.at].bbox == HalfOf(s.view[s.at].bbox, AxisAt(s.at),
                SideOf(s.view[s.at].bbox, AxisAt(s.at), k))
            && AxisAt(s'.at) == NextAxis(AxisAt(s.at))
            && PairsAt(s') <= PairsAt(s)
            && (forall p :: p in PairsAt(s') ==> ChildFor(s.view, s.at, p.0) == s'.at)
  {
    hide PairsIn, Lift, Shape, HeldOk, HeldAfter, SideOf, Contains, Avg;
    var s' := ChildSpot(s, k);
    SplitOk(s.view, root, s.at);
    SplitShares(s.view, root, s.at, false);
    NoChildrenYet(s.view, root, s.at);
    RouteKept(s.view, s'.view, k, s.at);
    ChildBox(Spot(s'.view, s.at), root, k);
    TreeNodeOk(s'.view, root, s'.at);
    BoxOk(s'.view, root, s'.at);
    forall p | p in PairsAt(s') ensures ChildFor(s.view, s.at, p.0) == s'.at {
      PairAtHome(s'.view, s'.at, p);
    }
  }

  lemma SameChildSameSide<V>(view: View<V>, n: nat, a: BBox, b: BBox)
    requires n in view && n > 0 && ChildFor(view, n, a) == ChildFor(view, n, b) != 0
    ensures SideOf(view[n].bbox, AxisAt(n), a) == SideOf(view[n].bbox, AxisAt(n), b) != Neither
  {
    hide SideOf;
  }

  /** If a split neither shrinks the box nor parts a pair, it was on an axis where there was nothing to do. */
  lemma IdleSplit<V>(s: Spot<V>, root: BBox, k: BBox)
    requires OnTheWay(s, root, k) && !s.view[s.at].split && ChildFor(s.view, s.at, k) != 0
    requires var s' := ChildSpot(s, k);
             && s'.at in s'.view && PairsAt(s') == PairsAt(s)
             && TotalExtent(s'.view[s'.at].bbox) == TotalExtent(s.view[s.at].bbox)
    ensures ChildSpot(s, k).view[ChildSpot(s, k).at].bbox == s.view[s.at].bbox
    ensures AlignedAt(s, AxisAt(s.at), k)
  {
    hide PairsAt, Shape, HeldOk, SideOf, Contains, Avg, SplitView, HalfOf, ChildFor, Route;
    ChildPairs(s, root, k);
    BoxOk(s.view, root, s.at);
    TreeNodeOk(s.view, root, s.at);
    var bbox, axis := s.view[s.at].bbox, AxisAt(s.at);
    SameChildSameSide(s.view, s.at, k, k);
    HalfNoLarger(bbox, axis, SideOf(bbox, axis, k));
    forall p | p in PairsAt(s) ensures EndOn(p.0, axis) == EndOn(k, axis) {
      PairOfSpot(s, root, p);
      SameChildSameSide(s.view, s.at, p.0, k);
      if EndOn(p.0, axis) != EndOn(k, axis) {
        PartedBySplit(bbox, axis, k, p.0);
      }
    }
  }

  lemma PairOfSpot<V>(s: Spot<V>, root: BBox, p: (BBox, V))
    requires TreeOk(s.view, root) && s.at in s.view && p in PairsAt(s)
    ensures Proper(p.0) && Contains(s.view[s.at].bbox, p.0)
  {
    BoxOk(s.view, root, s.at);
    TreeNodeOk(s.view, root, s.at);
    PairAtHome(s.view, s.at, p);
  }

  lemma SplitProgress<V(!new)>(s: Spot<V>, root: BBox, k: BBox, saturation: nat)
    requires OnTheWay(s, root, k) && !s.view[s.at].split && ChildFor(s.view, s.at, k) != 0
    requires !NeverEnds(s.view, k, saturation)
    requires ChildSpot(s, k).at in ChildSpot(s, k).view
    requires LenOf(ChildSpot(s, k).view[ChildSpot(s, k).at].f) > saturation
    ensures Progress(s, ChildSpot(s, k), k)
  {
    hide Shape, HeldOk, SideOf, Contains, Avg, SplitView, HalfOf, ChildFor, Route, Aligned, LenOf, Lift;
    var s' := ChildSpot(s, k);
    ChildPairs(s, root, k);
    BoxOk(s.view, root, s.at);
    HalfNoLarger(s.view[s.at].bbox, AxisAt(s.at), SideOf(s.view[s.at].bbox, AxisAt(s.at), k));
    SizeOfSpot(s);
    SizeOfSpot(s');
    SubSize(PairsAt(s'), PairsAt(s));
    if TotalExtent(s'.view[s'.at].bbox) == TotalExtent(s.view[s.at].bbox) && PairsAt(s') == PairsAt(s) {
      IdleSplit(s, root, k);
      SplitPairs(s.view, root, s.at, false);
      if AlignedAt(s', AxisAt(s'.at), k) {
        AlignedCrowds(s', root, k, saturation);
      }
    }
  }

  lemma SizeOfSpot<V>(s: Spot<V>)
    requires s.at in s.view
    ensures |PairsAt(s)| == LenOf(s.view[s.at].f)
  {
    LiftSize(Flattened(s.view[s.at].f), s.view[s.at].bbox, false);
  }

  /** A descent that stands at a leaf ends, if it is not one of those that never do. */
  lemma {:induction false} LeafEnds<V(!new)>(s: Spot<V>, root: BBox, k: BBox, saturation: nat) returns (n: nat)
    requires OnTheWay(s, root, k) && !s.view[s.at].split && !NeverEnds(s.view, k, saturation)
    ensures !RunsFor(s, k, saturation, n)
    decreases TotalExtent(s.view[s.at].bbox), LenOf(s.view[s.at].f), if AlignedAt(s, AxisAt(s.at), k) then 1 else 0
  {
    hide TreeOk, Route, Crowded, Small, SplitView, Contains, AlignedAt, LenOf, TotalExtent, PairsAt, AllPairs;
    if LenOf(s.view[s.at].f) <= saturation {
      return 1;
    }
    var s1 := Spot(SplitView(s.view, s.at), s.at);
    assert StepDown(s, k) == s1;
    SplitSpot(s, root);
    if ChildFor(s.view, s.at, k) == 0 {
      return 2;
    }
    var s2 := ChildSpot(s, k);
    assert StepDown(s1, k) == s2;
    ChildPairs(s, root, k);
    if LenOf(s2.view[s2.at].f) <= saturation {
      return 3;
    }
    SplitProgress(s, root, k, saturation);
    var m := LeafEnds(s2, root, k, saturation);
    n := m + 2;
  }

  lemma SplitSpot<V>(s: Spot<V>, root: BBox)
    requires TreeOk(s.view, root) && s.at in s.view && !s.view[s.at].split
    ensures var view' := SplitView(s.view, s.at);
            && s.at in view' && view'[s.at].split && view'[s.at].bbox == s.view[s.at].bbox
            && AllPairs(view', false) == AllPairs(s.view, false)
  {
    hide TreeOk, AllPairs, HeldAfter;
    BoxOk(s.view, root, s.at);
    SplitPairs(s.view, root, s.at, false);
  }

  ghost function NodesAfter<V>(view: View<V>, n: nat): set<nat> {
    set m | m in view && m > n
  }

  /** A descent ends wherever it stands, if it is not one of those that never do. */
  lemma {:induction false} DescentEnds<V(!new)>(s: Spot<V>, root: BBox, k: BBox, saturation: nat) returns (n: nat)
    requires OnTheWay(s, root, k) && !NeverEnds(s.view, k, saturation)
    ensures !RunsFor(s, k, saturation, n)
    decreases NodesAfter(s.view, s.at)
  {
    hide TreeOk, Route, Crowded, Small, SplitView, Contains, AllPairs, LenOf;
    if !s.view[s.at].split {
      n := LeafEnds(s, root, k, saturation);
    } else if ChildFor(s.view, s.at, k) == 0 {
      n := 1;
    } else {
      ChildBox(s, root, k);
      StepDownOk(s, root, k, saturation);
      var s' := StepDown(s, k);
      BoxOk(s.view, root, s.at);
      assert s'.at in NodesAfter(s.view, s.at) && s'.at !in NodesAfter(s.view, s'.at);
      var m := DescentEnds(s', root, k, saturation);
      n := m + 1;
    }
  }

  /**
   An insert ends if and only if its box is not small, or no more small boxes than a node may hold are stored that
   end at the same corner.
   */
  lemma EndsIff<V(!new)>(view: View<V>, root: BBox, k: BBox, saturation: nat)
    requires TreeOk(view, root) && Proper(k) && Contains(root, k)
    ensures (exists n :: !RunsFor(Spot(view, 1), k, saturation, n)) <==> !NeverEnds(view, k, saturation)
  {
    hide Crowded, Small, Contains;
    assert OnTheWay(Spot(view, 1), root, k);
    if NeverEnds(view, k, saturation) {
      forall n ensures RunsFor(Spot(view, 1), k, saturation, n) {
        RunsForever(Spot(view, 1), root, k, saturation, n);
      }
    } else {
      var n := DescentEnds(Spot(view, 1), root, k, saturation);
    }
  }

  /** A tree of one leaf that holds one box some number of times. */
  ghost function Copies<V>(root: BBox, k: BBox, v: V, count: nat): View<V> {
    map[1 := NodeView(root, false, CopiesHeld(root, k, v, count))]
  }

  ghost function CopiesHeld<V>(root: BBox, k: BBox, v: V, count: nat): Held<V> {
    if count == 0 then [] else [Entry(InteriorDelta(k, root), NonEmpty(v, seq(count - 1, _ => v)))]
  }

  lemma CopiesPairs<V>(root: BBox, k: BBox, v: V, count: nat)
    ensures Flattened(CopiesHeld(root, k, v, count)) == Pairs(InteriorDelta(k, root), seq(count, _ => v))
  {
    var f := CopiesHeld(root, k, v, count);
    if count > 0 {
      assert f[1..] == [] && Flattened(f[1..]) == [];
      assert f[0].items.Items() == seq(count, _ => v);
    }
  }

  /**
   A fresh tree becomes such a leaf by inserts of the box: up to the saturation each ends at the root and adds one.
   */
  lemma CopyInserted<V>(root: BBox, k: BBox, v: V, count: nat, saturation: nat)
    requires count <= saturation
    ensures Stops(Spot(Copies(root, k, v, count), 1), k, saturation)
    ensures AddAt(Copies(root, k, v, count), 1, InteriorDelta(k, root), v) == Copies(root, k, v, count + 1)
  {
    var f, key := CopiesHeld(root, k, v, count), InteriorDelta(k, root);
    CopiesPairs(root, k, v, count);
    var one: seq<V> := seq(0, _ => v);
    if count == 0 {
      assert one == [];
      assert Added(f, key, v) == [Entry(key, NonEmpty(v, one))];
    } else {
      assert f[1..] == [] && f[0].items.rest + [v] == seq(count, _ => v);
      assert Added(f, key, v) == CopiesHeld(root, k, v, count + 1);
    }
  }
}
