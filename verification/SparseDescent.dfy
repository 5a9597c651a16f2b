/** The descents of a sparse tree: an insert's always ends, and a search finds a key whose way met no rounding limit. */
module SparseDescent {
  import opened Wrappers
  import opened NonEmptyVec
  import opened Multimap
  import opened BTreeVecApi
  import opened BBoxes
  import opened Powers
  import opened NodeIds
  import opened Sums
  import opened TreeNodes
  import opened SparseViews

  /** A tree and the node a descent has come to. */
  datatype Spot<V> = Spot(view: View<V>, at: nat)

  function ChildWith<V>(view: View<V>, n: nat, k: int): nat {
    if 2 * n in view && InSpan(k, view[2 * n].bbox) then 2 * n
    else if 2 * n + 1 in view && InSpan(k, view[2 * n + 1].bbox) then 2 * n + 1
    else 0
  }

  /** A leaf is split when it holds as many pairs as a node may, and has a page at all. */
  ghost predicate Stops<V>(s: Spot<V>, k: int, saturation: nat)
    requires s.at in s.view
  {
    if s.view[s.at].split then ChildWith(s.view, s.at, k) == 0
    else s.view[s.at].f == [] || LenOf(s.view[s.at].f) < saturation
  }

  ghost function StepDown<V>(s: Spot<V>, k: int, bits: nat): Spot<V>
    requires s.at in s.view
  {
    if s.view[s.at].split then Spot(s.view, ChildWith(s.view, s.at, k))
    else Spot(SplitView(s.view, bits, s.at), s.at)
  }

  /** A spot an insert of `k` may come to. */
  ghost predicate OnTheWay<V>(s: Spot<V>, bits: nat, root: Span, k: int) {
    && s.at in s.view && TreeOk(s.view, bits, root)
    && (InSpan(k, root) ==> InSpan(k, s.view[s.at].bbox) && Path(s.view, bits, k, s.at))
  }

  lemma ChildOk<V>(s: Spot<V>, bits: nat, root: Span, k: int)
    requires OnTheWay(s, bits, root, k) && s.view[s.at].split && ChildWith(s.view, s.at, k) != 0
    ensures var child := ChildWith(s.view, s.at, k);
            child in s.view && child / 2 == s.at && child > s.at && OnTheWay(Spot(s.view, child), bits, root, k)
  {
    hide Avg, HeldOk, ProperSpan;
    NodeOf(s.view, bits, root, s.at);
    NodeOf(s.view, bits, root, 2 * s.at);
    NodeOf(s.view, bits, root, 2 * s.at + 1);
  }

  lemma StepDownOk<V>(s: Spot<V>, bits: nat, root: Span, k: int, saturation: nat)
    requires OnTheWay(s, bits, root, k) && !Stops(s, k, saturation)
    ensures OnTheWay(StepDown(s, k, bits), bits, root, k)
    ensures AllPairs(StepDown(s, k, bits).view) == AllPairs(s.view)
  {
    hide Shape, HeldOk, AllPairs, InSpan;
    if s.view[s.at].split {
      ChildOk(s, bits, root, k);
    } else {
      SplitOk(s.view, bits, root, s.at);
      ShapeOf(s.view, bits, root);
      NoChildrenYet(s.view, bits, root, s.at);
      if InSpan(k, root) { PathKept(s.view, SplitView(s.view, bits, s.at), bits, k, s.at); }
    }
  }

  lemma ShapeOf<V>(view: View<V>, bits: nat, root: Span)
    requires TreeOk(view, bits, root)
    ensures Shape(view, bits, root)
  {
  }

  /** Whether a descent takes `n` steps without ending. */
  ghost predicate RunsFor<V>(s: Spot<V>, k: int, saturation: nat, bits: nat, n: nat)
    decreases n
  {
    n == 0 || (s.at in s.view && !Stops(s, k, saturation) && RunsFor(StepDown(s, k, bits), k, saturation, bits, n - 1))
  }

  /** A descent that stops nowhere before comes from `s` to `t` in `n` steps. */
  ghost predicate Reaches<V>(s: Spot<V>, k: int, saturation: nat, bits: nat, n: nat, t: Spot<V>)
    decreases n
  {
    if n == 0 then s == t
    else s.at in s.view && !Stops(s, k, saturation) && Reaches(StepDown(s, k, bits), k, saturation, bits, n - 1, t)
  }

  lemma {:induction false} ReachesStep<V>(s: Spot<V>, k: int, saturation: nat, bits: nat, n: nat, t: Spot<V>)
    requires Reaches(s, k, saturation, bits, n, t) && t.at in t.view && !Stops(t, k, saturation)
    ensures Reaches(s, k, saturation, bits, n + 1, StepDown(t, k, bits))
    decreases n
  {
    hide Stops, StepDown;
    if n > 0 {
      ReachesStep(StepDown(s, k, bits), k, saturation, bits, n - 1, t);
    } else {
      assert Reaches(StepDown(s, k, bits), k, saturation, bits, 0, StepDown(t, k, bits));
    }
  }

  /** The tree after an insert: the descent from the root is taken until it stops, and there the pair is added. */
  ghost predicate InsertedBy<V(!new)>(view: View<V>, k: int, v: V, saturation: nat, bits: nat, view': View<V>) {
    exists n, t ::
      && Reaches(Spot(view, 1), k, saturation, bits, n, t) && t.at in t.view && Stops(t, k, saturation)
      && view' == AddAt(t.view, t.at, k, v)
  }

  // Every descent ends ---------------------------------------------------------------------------

  /** A quarter of something is less than all of it. */
  lemma QuarterHeld<V>(view: View<V>, bits: nat, n: nat)
    requires n in view && AtLimit(view[n].bbox, bits) && view[n].f != []
    ensures LenOf(HeldAfter(view, bits, n, Left)) < LenOf(view[n].f)
  {
    hide Flattened, Pushed, AtLimit;
    var f := view[n].f;
    var ps := DrainedPairs(f);
    DrainedSame(f);
    EmptyHeld(f);
    assert |multiset(ps)| == |ps| && |multiset(Flattened(f))| == |Flattened(f)|;
    PushedPairs(ps[..|ps| / 4]);
    var g := Pushed(ps[..|ps| / 4]);
    assert |multiset(Flattened(g))| == |Flattened(g)| && |multiset(ps[..|ps| / 4])| == |ps| / 4;
  }

  /** The node that the descent goes to after a split has a shorter range, or the same range and fewer pairs. */
  lemma SplitProgress<V>(view: View<V>, bits: nat, root: Span, n: nat, k: int)
    requires TreeOk(view, bits, root) && n in view && !view[n].split && view[n].f != []
    requires ChildWith(SplitView(view, bits, n), n, k) != 0
    ensures var view' := SplitView(view, bits, n);
            var child := ChildWith(view', n, k);
            && child in view' && !view'[child].split
            && 0 <= view'[child].bbox.hi - view'[child].bbox.lo
            && (|| view'[child].bbox.hi - view'[child].bbox.lo < view[n].bbox.hi - view[n].bbox.lo
                || (view'[child].bbox == view[n].bbox && LenOf(view'[child].f) < LenOf(view[n].f)))
  {
    hide Avg, HeldOk, Word, LenOf, HeldAfter;
    NodeOf(view, bits, root, n);
    LimitIff(view[n].bbox, bits);
    if AtLimit(view[n].bbox, bits) { QuarterHeld(view, bits, n); }
  }

  /** A descent that stands at a leaf ends, whatever the leaf holds. */
  lemma {:induction false} LeafEnds<V>(s: Spot<V>, bits: nat, root: Span, k: int, saturation: nat) returns (n: nat)
    requires OnTheWay(s, bits, root, k) && !s.view[s.at].split
    ensures !RunsFor(s, k, saturation, bits, n)
    decreases s.view[s.at].bbox.hi - s.view[s.at].bbox.lo, LenOf(s.view[s.at].f)
  {
    hide TreeOk, OnTheWay, SplitView, InSpan, LenOf, ChildWith, AllPairs;
    AtNode(s, bits, root, k);
    if Stops(s, k, saturation) {
      return 1;
    }
    var s1 := Spot(SplitView(s.view, bits, s.at), s.at);
    assert StepDown(s, k, bits) == s1;
    StepDownOk(s, bits, root, k, saturation);
    SplitHere(s.view, bits, root, s.at);
    if ChildWith(s1.view, s1.at, k) == 0 {
      return 2;
    }
    var s2 := StepDown(s1, k, bits);
    StepDownOk(s1, bits, root, k, saturation);
    SplitProgress(s.view, bits, root, s.at, k);
    if Stops(s2, k, saturation) {
      return 3;
    }
    var m := LeafEnds(s2, bits, root, k, saturation);
    n := m + 2;
  }

  lemma AtNode<V>(s: Spot<V>, bits: nat, root: Span, k: int)
    requires OnTheWay(s, bits, root, k)
    ensures s.at in s.view && TreeOk(s.view, bits, root)
  {
  }

  lemma SplitHere<V>(view: View<V>, bits: nat, root: Span, n: nat)
    requires TreeOk(view, bits, root) && n in view
    ensures n in SplitView(view, bits, n) && SplitView(view, bits, n)[n].split
  {
    hide HeldAfter, Sides;
    NodeOf(view, bits, root, n);
  }

  ghost function NodesAfter<V>(view: View<V>, n: nat): set<nat> {
    set m | m in view && m > n
  }

  /**
   Every insert's descent ends, from wherever it stands, for every key, every saturation and however many equal keys
   the tree already holds.
   */
  lemma {:induction false} DescentEnds<V>(s: Spot<V>, bits: nat, root: Span, k: int, saturation: nat) returns (n: nat)
    requires OnTheWay(s, bits, root, k)
    ensures !RunsFor(s, k, saturation, bits, n)
    decreases NodesAfter(s.view, s.at)
  {
    hide TreeOk, Path, SplitView, InSpan, LenOf;
    if !s.view[s.at].split {
      n := LeafEnds(s, bits, root, k, saturation);
    } else if ChildWith(s.view, s.at, k) == 0 {
      n := 1;
    } else {
      ChildOk(s, bits, root, k);
      var s' := StepDown(s, k, bits);
      assert s'.at in NodesAfter(s.view, s.at) && s'.at !in NodesAfter(s.view, s'.at);
      var m := DescentEnds(s', bits, root, k, saturation);
      n := m + 1;
    }
  }

  // Searches -------------------------------------------------------------------------------------

  /** The half a search goes to: at or below the middle is left. It never looks at the nodes' own ranges. */
  function SearchSide(r: Span, bits: nat, k: int): Side {
    if k <= Middle(r, bits) then Left else Right
  }

  function SearchHalf(r: Span, bits: nat, k: int): Span {
    if SearchSide(r, bits, k) == Left then Halved(r, bits).0 else Halved(r, bits).1
  }

  /** The range a search reckons with when it stands at a node. */
  function SearchBox(root: Span, bits: nat, k: int, n: nat): Span {
    if n <= 1 then root else SearchHalf(SearchBox(root, bits, k, n / 2), bits, k)
  }

  /** The nodes a search for `k` passes. */
  ghost predicate Searched<V>(view: View<V>, root: Span, bits: nat, k: int, n: nat) {
    && n in view && n > 0
    && (n > 1 ==>
          && n / 2 in view && view[n / 2].split && Searched(view, root, bits, k, n / 2)
          && n == ChildId(n / 2, SearchSide(SearchBox(root, bits, k, n / 2), bits, k)))
  }

  /** No node above was split at the rounding limit. */
  ghost predicate NoLimitAbove<V>(view: View<V>, bits: nat, n: nat) {
    n > 1 ==> n / 2 in view && !AtLimit(view[n / 2].bbox, bits) && NoLimitAbove(view, bits, n / 2)
  }

  /** Short of the limit a search reckons with the nodes' own ranges, and takes the halves an insert would take. */
  lemma {:induction false} SearchFollows<V>(view: View<V>, bits: nat, root: Span, k: int, n: nat)
    requires Shape(view, bits, root) && InSpan(k, root) && Searched(view, root, bits, k, n)
        && NoLimitAbove(view, bits, n)
    ensures SearchBox(root, bits, k, n) == view[n].bbox && InSpan(k, view[n].bbox)
    ensures n > 1 ==> n == ChildId(n / 2, HalfFor(view[n / 2].bbox, bits, k))
  {
    hide Avg, ProperSpan;
    assert NodeShape(view, bits, n);
    if n > 1 {
      SearchFollows(view, bits, root, k, n / 2);
      assert NodeShape(view, bits, n / 2);
      LimitIff(view[n / 2].bbox, bits);
    }
  }

  /** Where a key may be lies under every node that the search for it passes short of the limit. */
  lemma {:induction false} PathUnderSearch<V>(view: View<V>, bits: nat, root: Span, k: int, m: nat, n: nat)
    requires Shape(view, bits, root) && InSpan(k, root) && Searched(view, root, bits, k, n)
        && NoLimitAbove(view, bits, n)
    requires Path(view, bits, k, m) && !view[m].split
    ensures Under(m, n)
  {
    hide Avg, ProperSpan, HalfFor, AtLimit;
    if n == 1 {
      UnderRoot(m);
    } else {
      var up := n / 2;
      PathUnderSearch(view, bits, root, k, m, up);
      SearchFollows(view, bits, root, k, n);
      assert m != up;
      UnderSteps(m, up);
      var child := if Under(m, 2 * up) then 2 * up else 2 * up + 1;
      PathThrough(view, bits, k, m, child);
      assert child / 2 == up;
    }
  }

  lemma {:induction false} PathThrough<V>(view: View<V>, bits: nat, k: int, m: nat, n: nat)
    requires Path(view, bits, k, m) && Under(m, n) && n > 0
    ensures Path(view, bits, k, n)
  {
    if m != n {
      UnderLarger(m / 2, n);
      PathThrough(view, bits, k, m / 2, n);
    }
  }

  /** A search that comes to a leaf without meeting the limit has come to the one leaf where the key may be. */
  lemma SearchFindsLeaf<V>(view: View<V>, bits: nat, root: Span, k: int, m: nat, leaf: nat)
    requires Shape(view, bits, root) && InSpan(k, root)
    requires Searched(view, root, bits, k, leaf) && NoLimitAbove(view, bits, leaf) && !view[leaf].split
    requires Path(view, bits, k, m) && !view[m].split
    ensures m == leaf
  {
    PathUnderSearch(view, bits, root, k, m, leaf);
    if m != leaf {
      UnderSteps(m, leaf);
      PathThrough(view, bits, k, m, if Under(m, 2 * leaf) then 2 * leaf else 2 * leaf + 1);
    }
  }

  /** No node that the search for `k` passes was split at the rounding limit. */
  ghost predicate WayOpen<V>(view: View<V>, root: Span, bits: nat, k: int) {
    forall n :: Searched(view, root, bits, k, n) && view[n].split ==> !AtLimit(view[n].bbox, bits)
  }

  lemma {:induction false} WayOpenAbove<V>(view: View<V>, root: Span, bits: nat, k: int, n: nat)
    requires WayOpen(view, root, bits, k) && Searched(view, root, bits, k, n)
    ensures NoLimitAbove(view, bits, n)
  {
    if n > 1 { WayOpenAbove(view, root, bits, k, n / 2); }
  }

  /** Where a pair is kept. */
  lemma PairKept<V>(view: View<V>, bits: nat, root: Span, p: Pair<V>) returns (m: nat)
    requires TreeOk(view, bits, root) && p in AllPairs(view)
    ensures m in view && KeyOk(view, bits, root, m, p.0.rank) && Lookup(view[m].f, p.0.rank).Some?
  {
    hide Flattened, Shape, Path, Lookup;
    m := UnionMember(NodePairs(view), p);
    NodeOf(view, bits, root, m);
    var f := view[m].f;
    FlattenedNondecreasing(f);
    assert p in Flattened(f);
    var e :| e in f && e.key == p.0;
    var i :| 0 <= i < |f| && f[i] == e;
    LookupEntry(f, p.0.rank);
  }

  /** An inserted key of the root's range is found at the end of its search, if its way is open. */
  lemma SearchFinds<V>(view: View<V>, bits: nat, root: Span, leaf: nat, p: Pair<V>)
    requires TreeOk(view, bits, root) && p in AllPairs(view) && InSpan(p.0.rank, root)
    requires Searched(view, root, bits, p.0.rank, leaf) && !view[leaf].split && WayOpen(view, root, bits, p.0.rank)
    ensures Lookup(view[leaf].f, p.0.rank).Some?
  {
    hide Searched, WayOpen, HeldOk, AllPairs, Lookup, Path, NodeShape;
    var m := PairKept(view, bits, root, p);
    WayOpenAbove(view, root, bits, p.0.rank, leaf);
    SearchedHere(view, root, bits, p.0.rank, leaf);
    SearchFindsLeaf(view, bits, root, p.0.rank, m, leaf);
  }

  lemma SearchedHere<V>(view: View<V>, root: Span, bits: nat, k: int, n: nat)
    requires Searched(view, root, bits, k, n)
    ensures n in view
  {
  }

  /** What a lookup at any node finds is a pair of the tree. */
  lemma FoundIsKept<V>(view: View<V>, n: nat, k: int, items: NonEmpty<V>)
    requires n in view && Lookup(view[n].f, k) == Some(items)
    ensures (KeyOf(k), items.front) in AllPairs(view)
  {
    hide Flattened, Lookup;
    var f := view[n].f;
    LookupEntry(f, k);
    var i :| 0 <= i < |f| && f[i].key.rank == k && f[i].items == items;
    FlattenedHas(f, i);
    SameKey(f[i].key, KeyOf(k));
    UnionRemove(NodePairs(view), n);
  }

  // Past the limit -------------------------------------------------------------------------------

  /** A leaf over the keys 0 and 1 that holds some values under 0. */
  ghost function Zeros<V>(vs: seq<V>): View<V> {
    map[1 := NodeView(Span(0, 1), false, if vs == [] then [] else [Entry(KeyOf(0), NonEmpty(vs[0], vs[1..]))])]
  }

  ghost function FourZeros<V>(a: V, b: V, c: V, d: V): View<V> {
    Zeros([a, b, c, d])
  }

  /** A fresh tree becomes such a leaf by inserts of 0: each ends at the root and adds its value there. */
  lemma ZerosInserted<V>(vs: seq<V>, v: V)
    requires |vs| < 4
    ensures Stops(Spot(Zeros(vs), 1), 0, 4) && AddAt(Zeros(vs), 1, 0, v) == Zeros(vs + [v])
  {
    var f := Zeros(vs)[1].f;
    if vs == [] {
      assert vs + [v] == [v] && [v][1..] == [];
      assert Added(f, KeyOf(0), v) == [Entry(KeyOf(0), NonEmpty(v, []))];
    } else {
      assert f[1..] == [] && Flattened(f[1..]) == [];
      assert vs[1..] + [v] == (vs + [v])[1..] && (vs + [v])[0] == vs[0];
      assert Added(f, KeyOf(0), v) == [Entry(KeyOf(0), NonEmpty(vs[0], vs[1..] + [v]))];
    }
  }

  lemma FourInserts<V>(a: V, b: V, c: V, d: V)
    ensures FourZeros(a, b, c, d) == AddAt(AddAt(AddAt(AddAt(Zeros([]), 1, 0, a), 1, 0, b), 1, 0, c), 1, 0, d)
  {
    hide AddAt, Zeros;
    assert [] + [a] == [a] && [a] + [b] == [a, b] && [a, b] + [c] == [a, b, c] && [a, b, c] + [d] == [a, b, c, d];
    ZerosInserted([], a);
    ZerosInserted([a], b);
    ZerosInserted([a, b], c);
    ZerosInserted([a, b, c], d);
  }

  /** The next insert where a node may hold four pairs, of the key 1: it splits the leaf, and goes left. */
  ghost function ThenOne<V>(a: V, b: V, c: V, d: V, e: V, bits: nat): View<V> {
    var halved := SplitView(FourZeros(a, b, c, d), bits, 1);
    AddAt(halved, 2, 1, e)
  }

  /**
   A key that was inserted may not be found: past the limit an insert goes left because the left node keeps the whole
   range, while a search goes right because the key is past the middle.
   */
  lemma LimitLosesKey<V>(a: V, b: V, c: V, d: V, e: V, bits: nat)
    requires bits >= 2
    ensures TreeOk(FourZeros(a, b, c, d), bits, Span(0, 1))
    ensures FourZeros(a, b, c, d) == AddAt(AddAt(AddAt(AddAt(Zeros([]), 1, 0, a), 1, 0, b), 1, 0, c), 1, 0, d)
    ensures !Stops(Spot(FourZeros(a, b, c, d), 1), 1, 4)
    ensures ChildWith(SplitView(FourZeros(a, b, c, d), bits, 1), 1, 1) == 2
    ensures Stops(Spot(SplitView(FourZeros(a, b, c, d), bits, 1), 2), 1, 4)
    ensures (KeyOf(1), e) in AllPairs(ThenOne(a, b, c, d, e, bits))
    ensures Searched(ThenOne(a, b, c, d, e, bits), Span(0, 1), bits, 1, 3) && !ThenOne(a, b, c, d, e, bits)[3].split
    ensures Lookup(ThenOne(a, b, c, d, e, bits)[3].f, 1) == None
  {
    hide Avg, Word, Flattened, Pushed, DrainedPairs, Union;
    var four, r := FourZeros(a, b, c, d), Span(0, 1);
    FourOk(a, b, c, d, bits);
    FourInserts(a, b, c, d);
    FourLong(a, b, c, d);
    hide TreeOk;
    var halved := SplitView(four, bits, 1);
    QuarterHeld(four, bits, 1);
    NoOnes(four[1].f, r, bits);
    AddAtPairs(halved, 2, 1, e);
    MiddleOfUnit(bits);
  }

  /** Where no key is 1, none is after a split. */
  lemma {:induction false} NoOnes<V>(f: Held<V>, r: Span, bits: nat)
    requires forall i :: 0 <= i < |f| ==> f[i].key.rank != 1
    ensures Lookup(Pushed(Share(DrainedPairs(f), r, bits, Right)), 1) == None
  {
    hide Share, DrainedPairs, Pushed;
    var ps := Share(DrainedPairs(f), r, bits, Right);
    forall i | 0 <= i < |Pushed(ps)| ensures Pushed(ps)[i].key.rank != 1 {
      var j := PushedKeys(ps, i);
      var l := ShareFrom(DrainedPairs(f), r, bits, Right, j);
      var m := DrainedFrom(f, l);
    }
    LookupAbsent(Pushed(ps), 1);
  }

  lemma UnitSpan(bits: nat)
    requires bits >= 2
    ensures ProperSpan(Span(0, 1), bits)
  {
    assert Pow2(bits - 1) == 2 * Pow2(bits - 2);
  }

  lemma MiddleOfUnit(bits: nat)
    requires bits >= 2
    ensures Middle(Span(0, 1), bits) == 0
  {
    hide Avg, Word;
    UnitSpan(bits);
    AvgIsFloorMean(0, 1, bits);
  }

  lemma FourOk<V>(a: V, b: V, c: V, d: V, bits: nat)
    requires bits >= 2
    ensures TreeOk(FourZeros(a, b, c, d), bits, Span(0, 1)) && AtLimit(Span(0, 1), bits)
  {
    hide Avg, Word;
    var four, r := FourZeros(a, b, c, d), Span(0, 1);
    UnitSpan(bits);
    LimitIff(r, bits);
    assert KeyOf(0).rank == 0;
    assert NodeShape(four, bits, 1) && HeldOk(four, bits, r, 1);
  }

  lemma FourLong<V>(a: V, b: V, c: V, d: V)
    ensures LenOf(FourZeros(a, b, c, d)[1].f) == 4
  {
    var none: Held<V> := [];
    assert Flattened(none) == [];
    assert FourZeros(a, b, c, d)[1].f[1..] == none;
    assert |FourZeros(a, b, c, d)[1].f[0].items.Items()| == 4;
  }
}
