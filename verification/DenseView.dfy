/**
 What a dense tree stands for: nodes by id, each with its box, whether it has been split, and the multimap of the
 keys it holds. The root is node 1, and the halves of node `n` are nodes `2n` and `2n + 1`.
 */
module DenseViews {
  import opened NonEmptyVec
  import opened Multimap
  import opened BTreeVecApi
  import opened BBoxes
  import opened NodeIds
  import opened Sums
  import opened TreeNodes

  type Held<V> = seq<Entry<Size, V>>

  type View<V> = map<nat, NodeView<BBox, Size, V>>

  // Where a box belongs --------------------------------------------------------------------------

  function AxisAt(n: nat): Axis {
    if n <= 1 then FIRST_AXIS else NextAxis(AxisAt(n / 2))
  }

  function SideBelow(n: nat): Side {
    if n % 2 == 0 then Left else Right
  }

  /** The half of node `n` that a box goes to, or 0. */
  function ChildFor<V>(view: View<V>, n: nat, b: BBox): nat
    requires n in view
  {
    match SideOf(view[n].bbox, AxisAt(n), b)
    case Left => 2 * n
    case Right => 2 * n + 1
    case Neither => 0
  }

  /** Node `n` is on the way of a box from the root down. */
  ghost predicate Route<V>(view: View<V>, b: BBox, n: nat) {
    && n in view && n > 0
    && (n > 1 ==>
          n / 2 in view && view[n / 2].split && ChildFor(view, n / 2, b) == n && Route(view, b, n / 2))
  }

  /** The end of that way: the box fits neither half, or there are none. */
  ghost predicate Home<V>(view: View<V>, b: BBox, n: nat) {
    Route(view, b, n) && (view[n].split ==> ChildFor(view, n, b) == 0)
  }

  /** Every node on a box's way lies above its home. */
  lemma {:induction false} RouteAboveHome<V>(view: View<V>, b: BBox, n: nat, home: nat)
    requires Route(view, b, n) && Home(view, b, home)
    ensures Under(home, n)
  {
    if n == 1 {
      UnderRoot(home);
    } else {
      var up := n / 2;
      RouteAboveHome(view, b, up, home);
      if home != up {
        UnderSteps(home, up);
        var child := if Under(home, 2 * up) then 2 * up else 2 * up + 1;
        RouteThrough(view, b, home, child);
        assert child / 2 == up;
      }
    }
  }

  /** The way to a node passes through every node above it. */
  lemma {:induction false} RouteThrough<V>(view: View<V>, b: BBox, m: nat, n: nat)
    requires Route(view, b, m) && Under(m, n) && n > 0
    ensures Route(view, b, n)
  {
    if m != n {
      UnderLarger(m / 2, n);
      RouteThrough(view, b, m / 2, n);
    }
  }

  /** A box has one home. */
  lemma HomeUnique<V>(view: View<V>, b: BBox, m: nat, n: nat)
    requires Home(view, b, m) && Home(view, b, n)
    ensures m == n
  {
    RouteAboveHome(view, b, m, n);
    RouteAboveHome(view, b, n, m);
    UnderBoth(m, n);
  }

  // The shape of the tree ------------------------------------------------------------------------

  /** A node's box is its half of its parent's, on the axis the parent splits; a split node has both halves. */
  ghost predicate NodeShape<V>(view: View<V>, n: nat)
    requires n in view
  {
    && n >= 1 && Proper(view[n].bbox)
    && (n > 1 ==>
          && n / 2 in view && view[n / 2].split
          && view[n].bbox == HalfOf(view[n / 2].bbox, AxisAt(n / 2), SideBelow(n)))
    && (view[n].split ==> 2 * n in view && 2 * n + 1 in view)
  }

  ghost predicate Shape<V>(view: View<V>, root: BBox) {
    && 1 in view && view[1].bbox == root
    && forall n {:trigger NodeShape(view, n)} :: n in view ==> NodeShape(view, n)
  }

  // What the nodes hold --------------------------------------------------------------------------

  function Abs(key: Key<Size>, bbox: BBox): BBox {
    if IsDelta(key) then Absolute(key, bbox) else bbox
  }

  /** A key is in its node's box, and its node is where it belongs: at a split node, in neither half. */
  ghost predicate KeyOk<V>(view: View<V>, n: nat, key: Key<Size>)
    requires n in view
  {
    && IsDelta(key)
    && Contains(view[n].bbox, Abs(key, view[n].bbox))
    && Home(view, Abs(key, view[n].bbox), n)
  }

  ghost predicate HeldOk<V>(view: View<V>, n: nat)
    requires n in view
  {
    && Sorted(view[n].f)
    && forall i :: 0 <= i < |view[n].f| ==> KeyOk(view, n, view[n].f[i].key)
  }

  ghost predicate TreeOk<V>(view: View<V>, root: BBox) {
    Shape(view, root) && forall n {:trigger HeldOk(view, n)} :: n in view ==> HeldOk(view, n)
  }

  // The pairs in the tree ------------------------------------------------------------------------

  /** A box, or just its corner. */
  function Shown(b: BBox, cornerOnly: bool): BBox {
    if cornerOnly then BBox(b.x, b.y, b.x, b.y) else b
  }

  ghost function Lift<V>(ps: seq<(Key<Size>, V)>, bbox: BBox, c: bool): multiset<(BBox, V)> {
    if ps == [] then multiset{}
    else var n := |ps| - 1; Lift(ps[..n], bbox, c) + multiset{(Shown(Abs(ps[n].0, bbox), c), ps[n].1)}
  }

  /** The pairs a node holds, by box or by corner, counted. */
  ghost function PairsIn<V>(f: Held<V>, bbox: BBox, c: bool): multiset<(BBox, V)> {
    Lift(Flattened(f), bbox, c)
  }

  lemma LiftSnoc<V>(ps: seq<(Key<Size>, V)>, p: (Key<Size>, V), bbox: BBox, c: bool)
    ensures Lift(ps + [p], bbox, c) == Lift(ps, bbox, c) + multiset{(Shown(Abs(p.0, bbox), c), p.1)}
  {
    assert (ps + [p])[..|ps|] == ps;
  }

  lemma LiftNone<V>(bbox: BBox, c: bool)
    ensures Lift<V>([], bbox, c) == multiset{}
  {
  }

  lemma {:induction false} LiftConcat<V>(ps: seq<(Key<Size>, V)>, qs: seq<(Key<Size>, V)>, bbox: BBox, c: bool)
    ensures Lift(ps + qs, bbox, c) == Lift(ps, bbox, c) + Lift(qs, bbox, c)
  {
    hide Lift, Abs, Shown;
    if qs == [] {
      assert ps + qs == ps;
      LiftNone<V>(bbox, c);
    } else {
      var n := |qs| - 1;
      LiftConcat(ps, qs[..n], bbox, c);
      assert ps + qs == (ps + qs[..n]) + [qs[n]] && qs == qs[..n] + [qs[n]];
      LiftSnoc(ps + qs[..n], qs[n], bbox, c);
      LiftSnoc(qs[..n], qs[n], bbox, c);
    }
  }

  lemma LiftOne<V>(p: (Key<Size>, V), bbox: BBox, c: bool)
    ensures Lift([p], bbox, c) == multiset{(Shown(Abs(p.0, bbox), c), p.1)}
  {
    assert [p][..0] == [];
  }

  lemma LiftTake<V>(qs: seq<(Key<Size>, V)>, i: nat, bbox: BBox, c: bool)
    requires i < |qs|
    ensures Lift(qs, bbox, c) == Lift(qs[..i] + qs[i + 1..], bbox, c)
        + multiset{(Shown(Abs(qs[i].0, bbox), c), qs[i].1)}
    ensures multiset(qs[..i] + qs[i + 1..]) == multiset(qs) - multiset{qs[i]}
  {
    hide Lift;
    assert qs == (qs[..i] + [qs[i]]) + qs[i + 1..];
    LiftConcat(qs[..i] + [qs[i]], qs[i + 1..], bbox, c);
    LiftConcat(qs[..i], [qs[i]], bbox, c);
    LiftConcat(qs[..i], qs[i + 1..], bbox, c);
    LiftOne(qs[i], bbox, c);
  }

  /** The order of the pairs does not matter. */
  lemma {:induction false} LiftPermuted<V>(ps: seq<(Key<Size>, V)>, qs: seq<(Key<Size>, V)>, bbox: BBox, c: bool)
    requires multiset(ps) == multiset(qs)
    ensures Lift(ps, bbox, c) == Lift(qs, bbox, c)
    decreases |ps|
  {
    if ps == [] {
      assert |multiset(qs)| == 0;
    } else {
      hide Lift;
      var n := |ps| - 1;
      assert ps[n] in multiset(qs);
      var i :| 0 <= i < |qs| && qs[i] == ps[n];
      LiftTake(ps, n, bbox, c);
      LiftTake(qs, i, bbox, c);
      LiftPermuted(ps[..n] + ps[n + 1..], qs[..i] + qs[i + 1..], bbox, c);
    }
  }

  /** Keys that compare equal show the same. */
  ghost predicate ShowsAlike<V>(f: Held<V>, key: Key<Size>, bbox: BBox, c: bool) {
    forall i :: 0 <= i < |f| && f[i].key.rank == key.rank ==>
                  Shown(Abs(f[i].key, bbox), c) == Shown(Abs(key, bbox), c)
  }

  lemma PairsInFirst<V>(f: Held<V>, bbox: BBox, c: bool)
    requires f != []
    ensures PairsIn(f, bbox, c) == Lift(Pairs(f[0].key, f[0].items.Items()), bbox, c) + PairsIn(f[1..], bbox, c)
  {
    LiftConcat(Pairs(f[0].key, f[0].items.Items()), Flattened(f[1..]), bbox, c);
  }

  lemma LiftPushed<V>(key: Key<Size>, vs: seq<V>, v: V, bbox: BBox, c: bool)
    ensures Lift(Pairs(key, vs + [v]), bbox, c) == Lift(Pairs(key, vs), bbox, c)
        + multiset{(Shown(Abs(key, bbox), c), v)}
  {
    assert Pairs(key, vs + [v])[..|vs|] == Pairs(key, vs);
  }

  /** Adding a pair to a node adds that pair to what the node shows. */
  lemma {:induction false} AddedPairs<V>(f: Held<V>, key: Key<Size>, v: V, bbox: BBox, c: bool)
    requires ShowsAlike(f, key, bbox, c)
    ensures PairsIn(Added(f, key, v), bbox, c) == PairsIn(f, bbox, c) + multiset{(Shown(Abs(key, bbox), c), v)}
  {
    hide Lift, Flattened, PairsIn;
    var g := Added(f, key, v);
    PairsInFirst(g, bbox, c);
    if f == [] || key.rank < f[0].key.rank {
      assert g[1..] == f;
      assert g[0].items.Items() == [] + [v];
      LiftPushed(key, [], v, bbox, c);
      LiftNothing<V>(key, bbox, c);
    } else {
      PairsInFirst(f, bbox, c);
      if f[0].key.rank == key.rank {
        assert g[1..] == f[1..];
        assert g[0].items.Items() == f[0].items.Items() + [v];
        LiftPushed(f[0].key, f[0].items.Items(), v, bbox, c);
      } else {
        assert g[1..] == Added(f[1..], key, v);
        AddedPairs(f[1..], key, v, bbox, c);
      }
    }
  }

  lemma LiftNothing<V>(key: Key<Size>, bbox: BBox, c: bool)
    ensures Lift<V>(Pairs<Size, V>(key, []), bbox, c) == multiset{}
  {
    var none: seq<V> := [];
    assert Pairs(key, none) == [];
  }

  /** Corners compare as keys do. */
  lemma CornersAlike<V>(f: Held<V>, key: Key<Size>, bbox: BBox)
    requires IsDelta(key)
    ensures ShowsAlike(f, key, bbox, true)
  {
    forall i | 0 <= i < |f| && f[i].key.rank == key.rank
      ensures Shown(Abs(f[i].key, bbox), true) == Shown(Abs(key, bbox), true)
    {
      SameCorner(f[i].key, key, bbox);
    }
  }

  ghost function NodePairs<V>(view: View<V>, c: bool): map<nat, multiset<(BBox, V)>> {
    map n | n in view :: PairsIn(view[n].f, view[n].bbox, c)
  }

  /** Every pair in the tree, by box or by corner, counted. */
  ghost function AllPairs<V>(view: View<V>, c: bool): multiset<(BBox, V)> {
    Union(NodePairs(view, c))
  }

  lemma {:induction false} LiftFrom<V>(ps: seq<(Key<Size>, V)>, bbox: BBox, c: bool, p: (BBox, V)) returns (i: nat)
    requires p in Lift(ps, bbox, c)
    ensures i < |ps| && p == (Shown(Abs(ps[i].0, bbox), c), ps[i].1)
  {
    var n := |ps| - 1;
    if p == (Shown(Abs(ps[n].0, bbox), c), ps[n].1) {
      i := n;
    } else {
      i := LiftFrom(ps[..n], bbox, c, p);
    }
  }

  /** A box in a node is the box of one of its keys, so it is inside the node's box, and at home there. */
  lemma PairAtHome<V>(view: View<V>, n: nat, p: (BBox, V))
    requires n in view && Proper(view[n].bbox) && HeldOk(view, n) && p in PairsIn(view[n].f, view[n].bbox, false)
    ensures Proper(p.0) && Contains(view[n].bbox, p.0) && Home(view, p.0, n)
  {
    hide Lift, Flattened, Home;
    var f, bbox := view[n].f, view[n].bbox;
    var i := LiftFrom(Flattened(f), bbox, false, p);
    FlattenedNondecreasing(f);
    assert Flattened(f)[i] in Flattened(f);
    var e :| e in f && e.key == Flattened(f)[i].0;
    var j :| 0 <= j < |f| && f[j] == e;
    assert KeyOk(view, n, f[j].key);
  }

  lemma {:induction false} LiftSize<V>(ps: seq<(Key<Size>, V)>, bbox: BBox, c: bool)
    ensures |Lift(ps, bbox, c)| == |ps|
  {
    if ps != [] { LiftSize(ps[..|ps| - 1], bbox, c); }
  }
}
