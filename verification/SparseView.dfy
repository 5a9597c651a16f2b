/**
 What a sparse tree over one-dimensional keys stands for. A node that cannot be halved any more, its range being at
 most 1 long, is split all the same when it is full: a quarter of its pairs go left and the rest right, whatever
 their keys, and both new nodes keep the whole range.
 */
module SparseViews {
  import opened NonEmptyVec
  import opened Multimap
  import opened BTreeVecApi
  import opened BBoxes
  import opened Powers
  import opened NodeIds
  import opened Sums
  import opened TreeNodes

  /** A closed range of keys. */
  datatype Span = Span(lo: int, hi: int)

  type Pair<V> = (Key<()>, V)

  type Held<V> = seq<Entry<(), V>>

  type View<V> = map<nat, NodeView<Span, (), V>>

  function KeyOf(k: int): Key<()> {
    Key(k, ())
  }

  predicate InSpan(k: int, r: Span) {
    r.lo <= k && k <= r.hi
  }

  /** In order, and in a word of `bits` bits. */
  predicate ProperSpan(r: Span, bits: nat) {
    Word(r.lo, bits) && Word(r.hi, bits) && r.lo <= r.hi
  }

  function Middle(r: Span, bits: nat): int {
    Avg(r.lo, r.hi, bits)
  }

  function Halved(r: Span, bits: nat): (Span, Span) {
    (Span(r.lo, Middle(r, bits)), Span(Middle(r, bits), r.hi))
  }

  predicate AtLimit(r: Span, bits: nat) {
    Halved(r, bits).0 == r || Halved(r, bits).1 == r
  }

  /** The ranges of the two nodes a split makes. */
  function Sides(r: Span, bits: nat): (Span, Span) {
    if AtLimit(r, bits) then (r, r) else Halved(r, bits)
  }

  /** The limit is reached just when a range is at most 1 long; before that, both halves are shorter. */
  lemma LimitIff(r: Span, bits: nat)
    requires ProperSpan(r, bits)
    ensures AtLimit(r, bits) <==> r.hi - r.lo <= 1
    ensures r.lo <= Middle(r, bits) <= r.hi && Word(Middle(r, bits), bits)
    ensures !AtLimit(r, bits) ==> r.lo < Middle(r, bits) < r.hi
  {
    hide Avg, Word;
    AvgIsFloorMean(r.lo, r.hi, bits);
  }

  // Where a key belongs --------------------------------------------------------------------------

  /** The half a key goes to: the left one is asked first. */
  function HalfFor(r: Span, bits: nat, k: int): Side {
    if InSpan(k, Halved(r, bits).0) then Left else if InSpan(k, Halved(r, bits).1) then Right else Neither
  }

  function ChildId(n: nat, side: Side): nat {
    match side case Left => 2 * n case Right => 2 * n + 1 case Neither => 0
  }

  /** A node where a key may be: at every halved node above, the key's half was taken. */
  ghost predicate Path<V>(view: View<V>, bits: nat, k: int, n: nat) {
    && n in view && n > 0
    && (n > 1 ==>
          && n / 2 in view && view[n / 2].split && Path(view, bits, k, n / 2)
          && (AtLimit(view[n / 2].bbox, bits) || ChildId(n / 2, HalfFor(view[n / 2].bbox, bits, k)) == n))
  }

  ghost predicate NodeShape<V>(view: View<V>, bits: nat, n: nat)
    requires n in view
  {
    && n >= 1 && ProperSpan(view[n].bbox, bits)
    && (n > 1 ==>
          && n / 2 in view && view[n / 2].split
          && view[n].bbox == if n % 2 == 0 then Sides(view[n / 2].bbox, bits).0 else Sides(view[n / 2].bbox, bits).1)
    && (view[n].split ==> 2 * n in view && 2 * n + 1 in view)
  }

  ghost predicate Shape<V>(view: View<V>, bits: nat, root: Span) {
    && 1 in view && view[1].bbox == root
    && forall n {:trigger NodeShape(view, bits, n)} :: n in view ==> NodeShape(view, bits, n)
  }

  /**
   A key of the root's range lies in its node's range, its node is a leaf, and it may be there. Keys outside the root's
   range are never refused; nothing is promised of where they are.
   */
  ghost predicate KeyOk<V>(view: View<V>, bits: nat, root: Span, n: nat, k: int)
    requires n in view
  {
    InSpan(k, root) ==> InSpan(k, view[n].bbox) && !view[n].split && Path(view, bits, k, n)
  }

  ghost predicate HeldOk<V>(view: View<V>, bits: nat, root: Span, n: nat)
    requires n in view
  {
    && Sorted(view[n].f)
    && forall i :: 0 <= i < |view[n].f| ==> KeyOk(view, bits, root, n, view[n].f[i].key.rank)
  }

  ghost predicate TreeOk<V>(view: View<V>, bits: nat, root: Span) {
    && Shape(view, bits, root)
    && forall n {:trigger HeldOk(view, bits, root, n)} :: n in view ==> HeldOk(view, bits, root, n)
  }

  lemma NodeOf<V>(view: View<V>, bits: nat, root: Span, n: nat)
    requires TreeOk(view, bits, root) && n in view
    ensures n > 0 && NodeShape(view, bits, n) && HeldOk(view, bits, root, n) && ProperSpan(view[n].bbox, bits)
  {
    hide ProperSpan;
    assert NodeShape(view, bits, n);
  }

  // The pairs ------------------------------------------------------------------------------------

  ghost function NodePairs<V>(view: View<V>): map<nat, multiset<Pair<V>>> {
    map n | n in view :: multiset(Flattened(view[n].f))
  }

  ghost function AllPairs<V>(view: View<V>): multiset<Pair<V>> {
    Union(NodePairs(view))
  }

  lemma FlattenedFirst<V>(f: Held<V>)
    requires f != []
    ensures Flattened(f) == Pairs(f[0].key, f[0].items.Items()) + Flattened(f[1..])
  {
  }

  lemma SameKey(a: Key<()>, b: Key<()>)
    requires a.rank == b.rank
    ensures a == b
  {
    assert a.ext == () && b.ext == ();
  }

  /** Keys here are nothing but their rank, so adding a pair adds just that pair. */
  lemma {:induction false} AddedPairs<V>(f: Held<V>, key: Key<()>, v: V)
    ensures multiset(Flattened(Added(f, key, v))) == multiset(Flattened(f)) + multiset{(key, v)}
  {
    hide Flattened;
    var g := Added(f, key, v);
    FlattenedFirst(g);
    if f == [] || key.rank < f[0].key.rank {
      assert g[1..] == f && Pairs(key, [v]) == [(key, v)];
      assert g[0].items.Items() == [v];
    } else {
      FlattenedFirst(f);
      if f[0].key.rank == key.rank {
        SameKey(f[0].key, key);
        assert g[1..] == f[1..];
        assert Pairs(key, g[0].items.Items()) == Pairs(key, f[0].items.Items()) + [(key, v)];
      } else {
        assert g[1..] == Added(f[1..], key, v);
        AddedPairs(f[1..], key, v);
      }
    }
  }

  lemma {:induction false} PushedPairs<V>(ps: seq<Pair<V>>)
    ensures multiset(Flattened(Pushed(ps))) == multiset(ps)
  {
    if ps != [] {
      var n := |ps| - 1;
      PushedPairs(ps[..n]);
      AddedPairs(Pushed(ps[..n]), ps[n].0, ps[n].1);
      assert ps == ps[..n] + [ps[n]];
    }
  }

  // Growing --------------------------------------------------------------------------------------

  lemma {:induction false} PathKept<V>(view: View<V>, view': View<V>, bits: nat, k: int, n: nat)
    requires Path(view, bits, k, n) && Extends(view, view')
    ensures Path(view', bits, k, n)
  {
    if n > 1 { PathKept(view, view', bits, k, n / 2); }
  }

  lemma HeldKept<V>(view: View<V>, view': View<V>, bits: nat, root: Span, n: nat)
    requires Extends(view, view') && n in view && view'[n] == view[n] && HeldOk(view, bits, root, n)
    ensures HeldOk(view', bits, root, n)
  {
    hide Path;
    forall i | 0 <= i < |view[n].f| ensures KeyOk(view', bits, root, n, view[n].f[i].key.rank) {
      assert KeyOk(view, bits, root, n, view[n].f[i].key.rank);
      if InSpan(view[n].f[i].key.rank, root) { PathKept(view, view', bits, view[n].f[i].key.rank, n); }
    }
  }

  ghost function AddAt<V>(view: View<V>, n: nat, k: int, v: V): View<V>
    requires n in view
  {
    view[n := view[n].(f := Added(view[n].f, KeyOf(k), v))]
  }

  lemma AddAtShape<V>(view: View<V>, bits: nat, root: Span, n: nat, k: int, v: V)
    requires Shape(view, bits, root) && n in view
    ensures Shape(AddAt(view, n, k, v), bits, root)
  {
    hide ProperSpan, Sides, Added;
    forall m | m in view ensures NodeShape(AddAt(view, n, k, v), bits, m) {
      assert NodeShape(view, bits, m);
    }
  }

  lemma AddAtOk<V>(view: View<V>, bits: nat, root: Span, n: nat, k: int, v: V)
    requires TreeOk(view, bits, root) && n in view && KeyOk(view, bits, root, n, k)
    ensures TreeOk(AddAt(view, n, k, v), bits, root)
  {
    hide Shape, HeldOk, Added, KeyOk, NodeShape;
    var view' := AddAt(view, n, k, v);
    AddAtShape(view, bits, root, n, k, v);
    forall m | m in view' ensures HeldOk(view', bits, root, m) {
      if m != n { HeldKept(view, view', bits, root, m); } else { AddedHeldOk(view, bits, root, n, k, v); }
    }
  }

  /** The tree gains exactly the pair that is added. */
  lemma AddAtPairs<V>(view: View<V>, n: nat, k: int, v: V)
    requires n in view
    ensures AllPairs(AddAt(view, n, k, v)) == AllPairs(view) + multiset{(KeyOf(k), v)}
  {
    hide Flattened, Added, Union;
    AddedPairs(view[n].f, KeyOf(k), v);
    UnionChanged(NodePairs(view), NodePairs(AddAt(view, n, k, v)), n);
  }

  lemma AddedHeldOk<V>(view: View<V>, bits: nat, root: Span, n: nat, k: int, v: V)
    requires n in view && HeldOk(view, bits, root, n) && KeyOk(view, bits, root, n, k)
    ensures HeldOk(AddAt(view, n, k, v), bits, root, n)
  {
    hide Path, Sorted;
    var view' := AddAt(view, n, k, v);
    AddedSorted(view[n].f, KeyOf(k), v);
    forall i | 0 <= i < |view'[n].f| ensures KeyOk(view', bits, root, n, view'[n].f[i].key.rank) {
      var rank := view'[n].f[i].key.rank;
      AddedKeys(view[n].f, KeyOf(k), v, i);
      if view'[n].f[i].key != KeyOf(k) {
        var j :| 0 <= j < |view[n].f| && view[n].f[j].key == view'[n].f[i].key;
        assert KeyOk(view, bits, root, n, view[n].f[j].key.rank);
      }
      if InSpan(rank, root) { PathKept(view, view', bits, rank, n); }
    }
  }

  // Splitting ------------------------------------------------------------------------------------

  /** The pairs whose key goes to one side, in order. */
  ghost function Picked<V>(ps: seq<Pair<V>>, r: Span, bits: nat, side: Side): seq<Pair<V>> {
    if ps == [] then []
    else
      var n := |ps| - 1;
      Picked(ps[..n], r, bits, side) + if HalfFor(r, bits, ps[n].0.rank) == side then [ps[n]] else []
  }

  /** The pairs each of the three nodes has after a split, of those drained from the one that is split. */
  ghost function Share<V>(ps: seq<Pair<V>>, r: Span, bits: nat, side: Side): seq<Pair<V>> {
    if !AtLimit(r, bits) then Picked(ps, r, bits, side)
    else match side
      case Left => ps[..|ps| / 4]
      case Right => ps[|ps| / 4..]
      case Neither => []
  }

  ghost function HeldAfter<V>(view: View<V>, bits: nat, n: nat, side: Side): Held<V>
    requires n in view
  {
    Pushed(Share(DrainedPairs(view[n].f), view[n].bbox, bits, side))
  }

  ghost function SplitView<V>(view: View<V>, bits: nat, n: nat): View<V>
    requires n in view
  {
    view[n := NodeView(view[n].bbox, true, HeldAfter(view, bits, n, Neither))]
        [2 * n := NodeView(Sides(view[n].bbox, bits).0, false, HeldAfter(view, bits, n, Left))]
        [2 * n + 1 := NodeView(Sides(view[n].bbox, bits).1, false, HeldAfter(view, bits, n, Right))]
  }

  ghost function PickedSet<V>(ps: seq<Pair<V>>, r: Span, bits: nat, side: Side): multiset<Pair<V>> {
    multiset(Picked(ps, r, bits, side))
  }

  lemma PickedLast<V>(ps: seq<Pair<V>>, p: Pair<V>, r: Span, bits: nat, side: Side)
    ensures PickedSet(ps + [p], r, bits, side)
            == PickedSet(ps, r, bits, side) + OneIf(HalfFor(r, bits, p.0.rank) == side, p)
  {
    hide HalfFor;
    assert (ps + [p])[..|ps|] == ps;
  }

  lemma {:induction false} PickedShares<V>(ps: seq<Pair<V>>, r: Span, bits: nat)
    ensures PickedSet(ps, r, bits, Left) + PickedSet(ps, r, bits, Right) + PickedSet(ps, r, bits, Neither)
        == multiset(ps)
  {
    if ps == [] {
    } else {
      hide HalfFor, PickedSet, OneIf;
      var n := |ps| - 1;
      var before, p := ps[..n], ps[n];
      PickedShares(before, r, bits);
      assert ps == before + [p];
      PickedLast(before, p, r, bits, Left);
      PickedLast(before, p, r, bits, Right);
      PickedLast(before, p, r, bits, Neither);
      var side := HalfFor(r, bits, p.0.rank);
      AddToOne(PickedSet(before, r, bits, Left), PickedSet(before, r, bits, Right),
               PickedSet(before, r, bits, Neither), side == Left, side == Right, side == Neither, p);
    }
  }

  /** A split, even or by quarters, shares the pairs out and loses none. */
  lemma ShareAll<V>(ps: seq<Pair<V>>, r: Span, bits: nat)
    ensures multiset(Share(ps, r, bits, Left)) + multiset(Share(ps, r, bits, Right))
            + multiset(Share(ps, r, bits, Neither)) == multiset(ps)
  {
    hide AtLimit, Picked;
    PickedShares(ps, r, bits);
    assert ps[..|ps| / 4] + ps[|ps| / 4..] == ps;
  }

  lemma {:induction false} PickedFrom<V>(ps: seq<Pair<V>>, r: Span, bits: nat, side: Side, i: nat) returns (j: nat)
    requires i < |Picked(ps, r, bits, side)|
    ensures j < |ps| && Picked(ps, r, bits, side)[i] == ps[j] && HalfFor(r, bits, ps[j].0.rank) == side
  {
    hide HalfFor;
    var n := |ps| - 1;
    if i < |Picked(ps[..n], r, bits, side)| {
      j := PickedFrom(ps[..n], r, bits, side, i);
    } else {
      j := n;
    }
  }

  /** Where a shared pair comes from; at a halved node it went by its key. */
  lemma ShareFrom<V>(ps: seq<Pair<V>>, r: Span, bits: nat, side: Side, i: nat) returns (j: nat)
    requires i < |Share(ps, r, bits, side)|
    ensures j < |ps| && Share(ps, r, bits, side)[i] == ps[j]
    ensures !AtLimit(r, bits) ==> HalfFor(r, bits, ps[j].0.rank) == side
    ensures AtLimit(r, bits) ==> side != Neither
  {
    hide AtLimit, Picked, HalfFor;
    if !AtLimit(r, bits) {
      j := PickedFrom(ps, r, bits, side, i);
    } else {
      j := if side == Left then i else |ps| / 4 + i;
    }
  }

  lemma NoChildrenYet<V>(view: View<V>, bits: nat, root: Span, n: nat)
    requires Shape(view, bits, root) && n in view && !view[n].split
    ensures n >= 1 && 2 * n !in view && 2 * n + 1 !in view && Extends(view, SplitView(view, bits, n))
  {
    hide HeldAfter, ProperSpan, Sides;
    assert NodeShape(view, bits, n);
    assert 2 * n in view ==> NodeShape(view, bits, 2 * n);
    assert 2 * n + 1 in view ==> NodeShape(view, bits, 2 * n + 1);
  }

  lemma SidesProper(r: Span, bits: nat)
    requires ProperSpan(r, bits)
    ensures ProperSpan(Sides(r, bits).0, bits) && ProperSpan(Sides(r, bits).1, bits)
    ensures !AtLimit(r, bits) ==>
              forall k :: InSpan(k, r) ==>
                            && HalfFor(r, bits, k) != Neither
                            && (HalfFor(r, bits, k) == Left ==> InSpan(k, Sides(r, bits).0))
                            && (HalfFor(r, bits, k) == Right ==> InSpan(k, Sides(r, bits).1))
  {
    hide Avg, Word;
    LimitIff(r, bits);
  }

  lemma SplitShape<V>(view: View<V>, bits: nat, root: Span, n: nat)
    requires Shape(view, bits, root) && n in view && !view[n].split
    ensures Shape(SplitView(view, bits, n), bits, root)
  {
    hide HeldAfter, ProperSpan, Sides;
    NoChildrenYet(view, bits, root, n);
    var view' := SplitView(view, bits, n);
    assert NodeShape(view, bits, n);
    SidesProper(view[n].bbox, bits);
    forall m | m in view' ensures NodeShape(view', bits, m) {
      if m in view { assert NodeShape(view, bits, m); }
    }
  }

  /** What a node holds after a split belongs there. */
  lemma SplitHeld<V>(view: View<V>, bits: nat, root: Span, n: nat, side: Side, m: nat)
    requires TreeOk(view, bits, root) && n in view && !view[n].split
    requires m == if side == Neither then n else ChildId(n, side)
    ensures m in SplitView(view, bits, n) && HeldOk(SplitView(view, bits, n), bits, root, m)
  {
    hide ProperSpan, Share, DrainedPairs, Sorted, Pushed, AtLimit, HalfFor;
    NodeOf(view, bits, root, n);
    NoChildrenYet(view, bits, root, n);
    var view' := SplitView(view, bits, n);
    var r, ps := view[n].bbox, DrainedPairs(view[n].f);
    SidesProper(r, bits);
    PushedSorted(Share(ps, r, bits, side));
    var f := HeldAfter(view, bits, n, side);
    assert view'[m].f == f;
    forall i | 0 <= i < |f| ensures KeyOk(view', bits, root, m, f[i].key.rank) {
      var j := PushedKeys(Share(ps, r, bits, side), i);
      var l := ShareFrom(ps, r, bits, side, j);
      var h := DrainedFrom(view[n].f, l);
      var k := f[i].key.rank;
      assert KeyOk(view, bits, root, n, view[n].f[h].key.rank);
      if InSpan(k, root) {
        PathKept(view, view', bits, k, n);
      }
    }
  }

  /** A split keeps the tree sound and its pairs as they are. */
  lemma SplitOk<V>(view: View<V>, bits: nat, root: Span, n: nat)
    requires TreeOk(view, bits, root) && n in view && !view[n].split
    ensures TreeOk(SplitView(view, bits, n), bits, root)
    ensures AllPairs(SplitView(view, bits, n)) == AllPairs(view)
  {
    hide Shape, HeldOk, HeldAfter, Union, Flattened;
    var view' := SplitView(view, bits, n);
    NodeOf(view, bits, root, n);
    SplitShape(view, bits, root, n);
    NoChildrenYet(view, bits, root, n);
    SplitHeld(view, bits, root, n, Left, 2 * n);
    SplitHeld(view, bits, root, n, Right, 2 * n + 1);
    SplitHeld(view, bits, root, n, Neither, n);
    forall m | m in view' ensures HeldOk(view', bits, root, m) {
      if m != n && m != 2 * n && m != 2 * n + 1 { HeldKept(view, view', bits, root, m); }
    }
    SplitShares(view, bits, n);
    SplitUnion(NodePairs(view), NodePairs(view'), n);
  }

  lemma SplitShares<V>(view: View<V>, bits: nat, n: nat)
    requires n in view
    ensures multiset(Flattened(HeldAfter(view, bits, n, Left))) + multiset(Flattened(HeldAfter(view, bits, n, Right)))
            + multiset(Flattened(HeldAfter(view, bits, n, Neither))) == multiset(Flattened(view[n].f))
  {
    hide Flattened, Share, Pushed;
    var r, ps := view[n].bbox, DrainedPairs(view[n].f);
    DrainedSame(view[n].f);
    ShareAll(ps, r, bits);
    PushedPairs(Share(ps, r, bits, Left));
    PushedPairs(Share(ps, r, bits, Right));
    PushedPairs(Share(ps, r, bits, Neither));
  }
}
