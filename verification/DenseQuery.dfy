/** Looking things up in a dense tree: which nodes a search has to see, and what it finds there. */
module DenseQueries {
  import opened Wrappers
  import opened NonEmptyVec
  import opened Multimap
  import opened BBoxes
  import opened NodeIds
  import opened Sums
  import opened TreeNodes
  import opened DenseViews
  import opened DenseSteps
  import opened DenseDescent
  import opened DenseLogs

  // One key --------------------------------------------------------------------------------------

  /** A value found at a box's home was inserted at a box with the same corner. */
  lemma FoundWasInserted<V>(view: View<V>, root: BBox, log: Log<V>, n: nat, k: BBox, items: NonEmpty<V>)
    returns (i: nat)
    requires TreeOk(view, root) && Logged(view, log) && n in view && Proper(k) && Contains(view[n].bbox, k)
    requires Lookup(view[n].f, InteriorDelta(k, view[n].bbox).rank) == Some(items)
    ensures i < |log| && log[i].0.x == k.x && log[i].0.y == k.y && log[i].1 == items.front
  {
    hide Lift, Flattened, AllPairs, PairsIn, Shape, Home, LogPairs;
    var f, bbox, key := view[n].f, view[n].bbox, InteriorDelta(k, view[n].bbox);
    TreeNodeOk(view, root, n);
    BoxOk(view, root, n);
    AbsoluteDelta(k, bbox);
    LookupEntry(f, key.rank);
    var j :| 0 <= j < |f| && f[j].key.rank == key.rank && f[j].items == items;
    assert KeyOk(view, n, f[j].key);
    SameCorner(f[j].key, key, bbox);
    var p := KeyShows(f, bbox, j, true);
    NodePairInAll(view, n, true, p);
    i := LogFrom(log, true, p);
  }

  /** In a lawful log, an inserted box is found at its home. */
  lemma InsertedIsFound<V>(view: View<V>, root: BBox, log: Log<V>, n: nat, k: BBox)
    requires TreeOk(view, root) && Logged(view, log) && Lawful(log) && InLog(log, k)
    requires n in view && Proper(k) && Contains(view[n].bbox, k) && Home(view, k, n)
    ensures Lookup(view[n].f, InteriorDelta(k, view[n].bbox).rank).Some?
  {
    hide Lift, Flattened, AllPairs, PairsIn, Shape, Home, LogPairs, Union;
    var i :| 0 <= i < |log| && log[i].0 == k;
    LogHas(log, false, i);
    var p := (k, log[i].1);
    PairSomewhere(view, p);
    var m := PairsNode(view, p);
    TreeNodeOk(view, root, m);
    BoxOk(view, root, m);
    PairAtHome(view, m, p);
    HomeUnique(view, k, m, n);
    var f, bbox := view[n].f, view[n].bbox;
    var j := PairsKey(f, bbox, p);
    assert KeyOk(view, n, f[j].key);
    AbsoluteDelta(k, bbox);
    SameCorner(f[j].key, InteriorDelta(k, bbox), bbox);
    LookupEntry(f, InteriorDelta(k, bbox).rank);
  }

  lemma PairSomewhere<V>(view: View<V>, p: (BBox, V))
    requires p in AllPairs(view, false)
    ensures p in Union(NodePairs(view, false))
  {
  }

  lemma PairsNode<V>(view: View<V>, p: (BBox, V)) returns (m: nat)
    requires p in AllPairs(view, false)
    ensures m in view && p in PairsIn(view[m].f, view[m].bbox, false)
  {
    hide PairsIn;
    m := UnionMember(NodePairs(view, false), p);
  }

  lemma PairsKey<V>(f: Held<V>, bbox: BBox, p: (BBox, V)) returns (j: nat)
    requires Sorted(f) && p in PairsIn(f, bbox, false)
    ensures j < |f| && p.0 == Abs(f[j].key, bbox)
  {
    hide Lift, Flattened, Abs;
    var i := LiftFrom(Flattened(f), bbox, false, p);
    FlattenedNondecreasing(f);
    assert Flattened(f)[i] in Flattened(f);
    var e :| e in f && e.key == Flattened(f)[i].0;
    j :| 0 <= j < |f| && f[j] == e;
  }

  // Areas ----------------------------------------------------------------------------------------

  /** Whether an entry is wanted: touching the query, or inside it. */
  predicate Matches(q: BBox, b: BBox, touching: bool) {
    if touching then Overlaps(q, b) else Contains(q, b)
  }

  /** The nodes a search sees: the root, and the halves that touch the query, all the way down. */
  ghost predicate Touches<V>(view: View<V>, q: BBox, n: nat) {
    && n in view && n > 0
    && (n > 1 ==> n / 2 in view && Overlaps(view[n].bbox, q) && Touches(view, q, n / 2))
  }

  /** A node with a wanted entry is seen. */
  lemma {:induction false} WantedIsTouched<V>(view: View<V>, root: BBox, q: BBox, touching: bool, n: nat, b: BBox)
    requires Shape(view, root) && n in view && Proper(b) && Contains(view[n].bbox, b) && Matches(q, b, touching)
    ensures Touches(view, q, n)
  {
    hide Avg, HalfOf, AxisAt;
    assert NodeShape(view, n);
    if n > 1 {
      assert NodeShape(view, n / 2);
      HalfInside(view[n / 2].bbox, AxisAt(n / 2), SideBelow(n), b);
      WantedIsTouched(view, root, q, touching, n / 2, b);
    }
  }

  lemma {:induction false} TouchesAbove<V>(view: View<V>, q: BBox, m: nat, n: nat)
    requires Touches(view, q, m) && Under(m, n) && n > 0
    ensures Touches(view, q, n)
  {
    if m != n {
      UnderLarger(m / 2, n);
      TouchesAbove(view, q, m / 2, n);
    }
  }

  lemma {:induction false} DeeperBelow(m: nat, n: nat)
    requires Under(m, n) && n > 0
    ensures Depth(m) >= Depth(n)
  {
    if m != n {
      UnderLarger(m / 2, n);
      DeeperBelow(m / 2, n);
    }
  }

  ghost function NodePairsOver<V>(view: View<V>, s: set<nat>): map<nat, multiset<(BBox, V)>> {
    map n | n in view && n in s :: PairsIn(view[n].f, view[n].bbox, false)
  }

  /** The sum over some of the nodes. */
  ghost function PairsOver<V>(view: View<V>, s: set<nat>): multiset<(BBox, V)> {
    Union(NodePairsOver(view, s))
  }

  lemma PairsOverPut<V>(view: View<V>, s: set<nat>, n: nat)
    requires n in view && n !in s
    ensures PairsOver(view, s + {n}) == PairsOver(view, s) + PairsIn(view[n].f, view[n].bbox, false)
  {
    hide PairsIn, Union;
    var m := NodePairsOver(view, s + {n});
    UnionRemove(m, n);
    assert m - {n} == NodePairsOver(view, s);
  }

  /** What a search that has seen all it must see has found of a wanted pair: all there is, down to a depth. */
  lemma SeenIsAll<V>(view: View<V>, root: BBox, q: BBox, touching: bool, maxDepth: nat, seen: set<nat>, p: (BBox, V))
    requires TreeOk(view, root) && Matches(q, p.0, touching)
    requires forall n :: n in seen <==> Touches(view, q, n) && Depth(n) <= maxDepth
    ensures PairsOver(view, seen)[p] == PairsOver(view, DownTo(view, maxDepth))[p]
  {
    hide PairsIn, Union, Touches, NodeShape, HeldOk;
    var all, some := NodePairsOver(view, DownTo(view, maxDepth)), NodePairsOver(view, seen);
    forall n | n in all && n !in some ensures p !in all[n] {
      TreeNodeOk(view, root, n);
      BoxOk(view, root, n);
      if p in PairsIn(view[n].f, view[n].bbox, false) {
        PairAtHome(view, n, p);
        WantedIsTouched(view, root, q, touching, n, p.0);
      }
    }
    forall n | n in some ensures n in all { TouchedInView(view, q, n); }
    UnionDrop(all, some, p);
  }

  lemma TouchedInView<V>(view: View<V>, q: BBox, n: nat)
    requires Touches(view, q, n)
    ensures n in view
  {
  }

  ghost function DownTo<V>(view: View<V>, maxDepth: nat): set<nat> {
    set n | n in view && Depth(n) <= maxDepth
  }

  lemma DownToAll<V>(view: View<V>, maxDepth: nat)
    requires forall n :: n in view ==> Depth(n) <= maxDepth
    ensures PairsOver(view, DownTo(view, maxDepth)) == AllPairs(view, false)
  {
    hide PairsIn, Union;
    assert NodePairsOver(view, DownTo(view, maxDepth)) == NodePairs(view, false);
  }

  // The search of the nodes ----------------------------------------------------------------------

  /** A node waiting in the queue, with what the search carries along. */
  type Waiting = (nat, BBox, Axis, nat)

  ghost predicate WaitingOk<V>(view: View<V>, q: BBox, w: Waiting) {
    Touches(view, q, w.0) && w.1 == view[w.0].bbox && w.2 == AxisAt(w.0) && w.3 == Depth(w.0)
  }

  /** Nothing waits twice or has been seen, and what waits or was seen came from a node that was seen. */
  ghost predicate QueueOk<V>(view: View<V>, q: BBox, queue: seq<Waiting>, seen: set<nat>) {
    && (forall i :: 0 <= i < |queue| ==> WaitingOk(view, q, queue[i]) && queue[i].0 !in seen)
    && (forall i, j :: 0 <= i < j < |queue| ==> queue[i].0 != queue[j].0)
    && (forall i :: 0 <= i < |queue| && queue[i].0 > 1 ==> queue[i].0 / 2 in seen)
    && (forall n :: n in seen && n > 1 ==> n / 2 in seen)
    && seen <= view.Keys
  }

  /** Every node that must be seen has been, or lies under one that waits. */
  ghost predicate Covered<V>(view: View<V>, q: BBox, maxDepth: nat, queue: seq<Waiting>, seen: set<nat>) {
    && (forall n :: n in seen ==> Touches(view, q, n) && Depth(n) <= maxDepth)
    && (forall n :: Touches(view, q, n) && Depth(n) <= maxDepth ==>
          n in seen || exists i :: 0 <= i < |queue| && Under(n, queue[i].0))
  }

  function Halves<V>(view: View<V>, q: BBox, w: Waiting): seq<Waiting>
    requires w.0 in view
  {
    if view[w.0].split then
      var (l, r) := SplitOnAxis(w.1, w.2);
      (if Overlaps(l, q) then [(2 * w.0, l, NextAxis(w.2), w.3 + 1)] else [])
      + (if Overlaps(r, q) then [(2 * w.0 + 1, r, NextAxis(w.2), w.3 + 1)] else [])
    else []
  }

  /** What is pushed: exactly the halves that must be seen. */
  lemma HalvesTouch<V>(view: View<V>, root: BBox, q: BBox, w: Waiting)
    requires Shape(view, root) && WaitingOk(view, q, w)
    ensures forall i :: 0 <= i < |Halves(view, q, w)| ==>
                          var h := Halves(view, q, w)[i]; WaitingOk(view, q, h) && h.0 / 2 == w.0 && h.0 > w.0
    ensures forall i, j :: 0 <= i < j < |Halves(view, q, w)| ==> Halves(view, q, w)[i].0 != Halves(view, q, w)[j].0
    ensures forall c :: (c == 2 * w.0 || c == 2 * w.0 + 1) && Touches(view, q, c) ==>
                          exists i :: 0 <= i < |Halves(view, q, w)| && Halves(view, q, w)[i].0 == c
  {
    hide Avg, SplitOnAxis, Overlaps;
    var n := w.0;
    assert NodeShape(view, n);
    var (l, r) := SplitOnAxis(w.1, w.2);
    assert 2 * n in view ==> NodeShape(view, 2 * n);
    assert 2 * n + 1 in view ==> NodeShape(view, 2 * n + 1);
    var hs := Halves(view, q, w);
    if view[n].split && Overlaps(l, q) { assert hs[0].0 == 2 * n; }
    if view[n].split && Overlaps(r, q) { assert hs[|hs| - 1].0 == 2 * n + 1; }
  }

  /** Taking a node from the queue's front and pushing its halves. */
  lemma SeeNode<V>(view: View<V>, root: BBox, q: BBox, queue: seq<Waiting>, seen: set<nat>)
    requires Shape(view, root) && queue != [] && QueueOk(view, q, queue, seen)
    ensures queue[0].0 in view && queue[0].0 !in seen
    ensures QueueOk(view, q, queue[1..] + Halves(view, q, queue[0]), seen + {queue[0].0})
  {
    hide Touches, Halves, Depth, Shape;
    assert WaitingOk(view, q, queue[0]);
    TouchedInView(view, q, queue[0].0);
    HalvesTouch(view, root, q, queue[0]);
  }

  lemma SeeCovers<V>(view: View<V>, root: BBox, q: BBox, maxDepth: nat, queue: seq<Waiting>, seen: set<nat>)
    requires Shape(view, root) && queue != [] && queue[0].3 <= maxDepth
    requires queue[0].0 in view && WaitingOk(view, q, queue[0])
    requires Covered(view, q, maxDepth, queue, seen)
    ensures Covered(view, q, maxDepth, queue[1..] + Halves(view, q, queue[0]), seen + {queue[0].0})
  {
    hide Touches, Halves, Depth, Shape;
    var w := queue[0];
    HalvesTouch(view, root, q, w);
    var rest, hs := queue[1..], Halves(view, q, w);
    var queue', seen' := rest + hs, seen + {w.0};
    forall n | Touches(view, q, n) && Depth(n) <= maxDepth && n !in seen'
      ensures exists i :: 0 <= i < |queue'| && Under(n, queue'[i].0)
    {
      var i :| 0 <= i < |queue| && Under(n, queue[i].0);
      if i > 0 {
        assert queue'[i - 1] == queue[i];
      } else {
        UnderPositive(view, q, w.0);
        UnderSteps(n, w.0);
        var c := if Under(n, 2 * w.0) then 2 * w.0 else 2 * w.0 + 1;
        TouchesAbove(view, q, n, c);
        var j :| 0 <= j < |hs| && hs[j].0 == c;
        assert queue'[|rest| + j] == hs[j];
      }
    }
  }

  lemma UnderPositive<V>(view: View<V>, q: BBox, n: nat)
    requires Touches(view, q, n)
    ensures n > 0
  {
  }

  /** Dropping a node that lies too deep. */
  lemma SkipNode<V>(view: View<V>, q: BBox, maxDepth: nat, queue: seq<Waiting>, seen: set<nat>)
    requires queue != [] && queue[0].3 > maxDepth
    requires QueueOk(view, q, queue, seen) && Covered(view, q, maxDepth, queue, seen)
    ensures QueueOk(view, q, queue[1..], seen) && Covered(view, q, maxDepth, queue[1..], seen)
  {
    hide Touches, Depth;
    var queue' := queue[1..];
    assert WaitingOk(view, q, queue[0]);
    UnderPositive(view, q, queue[0].0);
    forall n | Touches(view, q, n) && Depth(n) <= maxDepth && n !in seen
      ensures exists i :: 0 <= i < |queue'| && Under(n, queue'[i].0)
    {
      var i :| 0 <= i < |queue| && Under(n, queue[i].0);
      if i == 0 { DeeperBelow(n, queue[0].0); }
      assert queue'[i - 1] == queue[i];
    }
  }

  // The entries of a node ------------------------------------------------------------------------

  function Labelled<V>(b: BBox, vs: seq<V>): (r: seq<(BBox, V)>)
    ensures |r| == |vs| && forall i :: 0 <= i < |vs| ==> r[i] == (b, vs[i])
  {
    seq(|vs|, i requires 0 <= i < |vs| => (b, vs[i]))
  }

  /** The wanted pairs of some entries, in order. */
  ghost function Wanted<V>(f: Held<V>, bbox: BBox, q: BBox, touching: bool): seq<(BBox, V)> {
    if f == [] then []
    else
      var n := |f| - 1;
      Wanted(f[..n], bbox, q, touching)
      + if Matches(q, Abs(f[n].key, bbox), touching) then Labelled(Abs(f[n].key, bbox), f[n].items.Items()) else []
  }

  lemma {:induction false} LiftLabelled<V>(key: Key<Size>, vs: seq<V>, bbox: BBox)
    ensures Lift(Pairs(key, vs), bbox, false) == multiset(Labelled(Abs(key, bbox), vs))
  {
    if vs == [] {
      LiftNothing<V>(key, bbox, false);
    } else {
      var n := |vs| - 1;
      LiftLabelled(key, vs[..n], bbox);
      LiftPushed(key, vs[..n], vs[n], bbox, false);
      assert vs == vs[..n] + [vs[n]];
      assert Labelled(Abs(key, bbox), vs) == Labelled(Abs(key, bbox), vs[..n]) + [(Abs(key, bbox), vs[n])];
    }
  }

  lemma PairsInLast<V>(f: Held<V>, bbox: BBox)
    requires f != []
    ensures var n := |f| - 1;
            PairsIn(f, bbox, false) == PairsIn(f[..n], bbox, false)
                + multiset(Labelled(Abs(f[n].key, bbox), f[n].items.Items()))
  {
    hide Lift, Abs;
    var n := |f| - 1;
    FlattenedLast(f);
    LiftConcat(Flattened(f[..n]), Pairs(f[n].key, f[n].items.Items()), bbox, false);
    LiftLabelled(f[n].key, f[n].items.Items(), bbox);
  }

  /** The wanted pairs are the matching ones, each as often as the node has it. */
  lemma {:induction false} WantedCounts<V>(f: Held<V>, bbox: BBox, q: BBox, touching: bool, p: (BBox, V))
    ensures multiset(Wanted(f, bbox, q, touching))[p]
            == if Matches(q, p.0, touching) then PairsIn(f, bbox, false)[p] else 0
  {
    hide Matches, Abs, PairsIn;
    if f == [] {
      NoPairs<V>(bbox);
    } else {
      var n := |f| - 1;
      WantedCounts(f[..n], bbox, q, touching, p);
      PairsInLast(f, bbox);
      var here := Labelled(Abs(f[n].key, bbox), f[n].items.Items());
      if p in multiset(here) {
        assert p in here;
      }
    }
  }

  lemma NoPairs<V>(bbox: BBox)
    ensures PairsIn<V>([], bbox, false) == multiset{}
  {
  }
}
