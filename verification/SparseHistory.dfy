/**
 Which keys of a sparse tree can be found again: that depends on nothing but the keys inserted so far, in order. Each
 key has a cell, the range at the end of its halvings. A cell is split at the rounding limit by the first key that comes
 to it when it is full. From then on its right half is left alone, and every later key of the cell goes to the left.
 */
module SparseHistory {
  import opened Wrappers
  import opened Multimap
  import opened BTreeVecApi
  import opened BBoxes
  import opened Powers
  import opened NodeIds
  import opened TreeNodes
  import opened Ranking
  import opened SparseViews
  import opened SparseDescent

  /** A tree's root range, the width of its keys, and how many pairs fill a node. */
  datatype Rules = Rules(root: Span, bits: nat, saturation: nat) {

    /** A node is split once it holds this many; an empty one never is. */
    function Cap(): (cap: nat)
      ensures cap >= 1
    {
      if saturation == 0 then 1 else saturation
    }

    function RangeOf(n: nat): Span {
      if n <= 1 then root
      else if n % 2 == 0 then Sides(RangeOf(n / 2), bits).0 else Sides(RangeOf(n / 2), bits).1
    }

    /** Nothing above the node is at the rounding limit. */
    predicate Open(n: nat) {
      n > 0 && (n > 1 ==> Open(n / 2) && !AtLimit(RangeOf(n / 2), bits))
    }

    /** The node is open, and on the way of `k`. */
    predicate Goes(k: int, n: nat) {
      n > 0 && (n > 1 ==>
                  Goes(k, n / 2) && !AtLimit(RangeOf(n / 2), bits)
                  && ChildId(n / 2, HalfFor(RangeOf(n / 2), bits, k)) == n)
    }

    /** The keys that came to a node, in order. */
    ghost function Came(ks: seq<int>, n: nat): seq<int> {
      Filter(ks, k => Goes(k, n))
    }

    /** The node where the way of `k` ends: its range is at the limit, or its halves do not have the key. */
    function CellBelow(r: Span, n: nat, k: int): nat
      requires ProperSpan(r, bits)
      decreases r.hi - r.lo
    {
      LimitIff(r, bits);
      if AtLimit(r, bits) then n
      else match HalfFor(r, bits, k)
        case Left => CellBelow(Halved(r, bits).0, 2 * n, k)
        case Right => CellBelow(Halved(r, bits).1, 2 * n + 1, k)
        case Neither => n
    }
  }

  // The left half of a cell past the limit -------------------------------------------------------

  function FirstQuarter(s: seq<int>): seq<int> {
    s[..|s| / 4]
  }

  /**
   The leaf that later keys go to, if the cell held `b` when it was split: a full one first gives up all but a
   quarter.
   */
  function Bag(b: seq<int>, after: seq<int>, cap: nat): seq<int> {
    if after == [] then FirstQuarter(b)
    else
      var n := |after| - 1;
      var s := Bag(b, after[..n], cap);
      Insert(if |s| >= cap then FirstQuarter(s) else s, after[n])
  }

  lemma {:induction false} BagFits(b: seq<int>, after: seq<int>, cap: nat)
    requires Ascends(b) && |b| == cap >= 1
    ensures Ascends(Bag(b, after, cap)) && |Bag(b, after, cap)| <= cap
    ensures forall k :: k in Bag(b, after, cap) ==> k in b || k in after
  {
    if after != [] {
      var n := |after| - 1;
      BagFits(b, after[..n], cap);
      var s := Bag(b, after[..n], cap);
      var t := if |s| >= cap then FirstQuarter(s) else s;
      InsertAscends(t, after[n]);
      InsertKeeps(t, after[n]);
    }
  }

  /** If the quarter reaches up to `k` when the cell is split, it does so ever after, and `k` is never given up. */
  lemma {:induction false} BagKeeps(b: seq<int>, after: seq<int>, cap: nat, k: int)
    requires Ascends(b) && |b| == cap >= 1 && Less(b, k) < cap / 4
    requires forall i :: 0 <= i < |after| ==> k <= after[i]
    ensures Less(Bag(b, after, cap), k) == Less(b, k)
    ensures k in Bag(b, after, cap) <==> k in b || k in after
  {
    hide Less, Insert, Ascends;
    if after == [] {
      InFirst(b, cap / 4, k);
      LessOfFirst(b, cap / 4, k);
    } else {
      var n := |after| - 1;
      BagKeeps(b, after[..n], cap, k);
      BagFits(b, after[..n], cap);
      var s := Bag(b, after[..n], cap);
      var t := if |s| >= cap then FirstQuarter(s) else s;
      if |s| >= cap {
        InFirst(s, cap / 4, k);
        LessOfFirst(s, cap / 4, k);
      }
      InsertKeeps(t, after[n]);
      InsertLess(t, after[n], k);
      assert after == after[..n] + [after[n]];
    }
  }

  /** How many of the keys that came after the split are in the leaf, the last ones: when it is full it starts again. */
  function Batch(n: nat, cap: nat): (m: nat)
    requires cap >= 1
    ensures m <= n && m <= cap - cap / 4
  {
    if n == 0 then 0
    else if Batch(n - 1, cap) == cap - cap / 4 then 1
    else Batch(n - 1, cap) + 1
  }

  /** If smaller keys fill the quarter, `k` is in the leaf only while one that came since it was last full is. */
  lemma {:induction false} BagForgets(b: seq<int>, after: seq<int>, cap: nat, k: int)
    requires Ascends(b) && |b| == cap >= 1 && Less(b, k) >= cap / 4
    requires forall i :: 0 <= i < |after| ==> k <= after[i]
    ensures |Bag(b, after, cap)| == cap / 4 + Batch(|after|, cap) && Less(Bag(b, after, cap), k) == cap / 4
    ensures k in Bag(b, after, cap) <==> k in after[|after| - Batch(|after|, cap)..]
  {
    hide Less, Insert, Ascends;
    if after == [] {
      InFirst(b, cap / 4, k);
      LessOfFirst(b, cap / 4, k);
    } else {
      var n := |after| - 1;
      var before := after[..n];
      BagForgets(b, before, cap, k);
      BagFits(b, before, cap);
      BagStep(Bag(b, before, cap), cap, k, after[n]);
      BatchTail(before, after[n], cap, k);
      assert after == before + [after[n]];
    }
  }

  /** The last batch, when one key more has come. */
  lemma BatchTail(before: seq<int>, x: int, cap: nat, k: int)
    requires cap >= 1
    ensures var after, n := before + [x], |before|;
            k in after[n + 1 - Batch(n + 1, cap)..] <==>
              x == k || (Batch(n, cap) < cap - cap / 4 && k in before[n - Batch(n, cap)..])
  {
    var after, n := before + [x], |before|;
    var from := n - Batch(n, cap);
    assert after[n..] == [x];
    assert after[from..] == before[from..] + [x];
  }

  /** One key more in a leaf where smaller keys fill the quarter. */
  lemma BagStep(s: seq<int>, cap: nat, k: int, x: int)
    requires Ascends(s) && |s| <= cap && Less(s, k) == cap / 4 && k <= x
    ensures var t := Insert(if |s| >= cap then FirstQuarter(s) else s, x);
            && |t| == (if |s| >= cap then cap / 4 else |s|) + 1 && Less(t, k) == cap / 4
            && (k in t <==> x == k || (|s| < cap && k in s))
  {
    hide Less, Insert, Ascends;
    var t := if |s| >= cap then FirstQuarter(s) else s;
    if |s| >= cap {
      InFirst(s, cap / 4, k);
      LessOfFirst(s, cap / 4, k);
    }
    InsertKeeps(t, x);
    InsertLess(t, x, k);
  }

  // What the nodes hold --------------------------------------------------------------------------

  /** Node `m` is node `c`, or is come to from there by going left only. */
  ghost predicate LeftOf(m: nat, c: nat) {
    m == c || (m > c && m % 2 == 0 && LeftOf(m / 2, c))
  }

  /** The keys of a range among some keys. */
  ghost function Within(ks: seq<int>, r: Span): seq<int> {
    Filter(ks, k => InSpan(k, r))
  }

  /** A leaf holds the bag; while a key is coming that fills it, it may have been split already. */
  ghost predicate HoldsBag(s: seq<int>, bag: seq<int>, cap: nat, busy: bool) {
    s == bag || (busy && |bag| >= cap && s == FirstQuarter(bag))
  }

  /** What is below a cell that was split at the limit, when `came` are the keys that came to it. */
  ghost predicate CellTells<V>(view: View<V>, rules: Rules, c: nat, came: seq<int>, busy: bool) {
    var b := Sort(came[..Min(rules.Cap(), |came|)]);
    var after := Within(came[Min(rules.Cap(), |came|)..], rules.RangeOf(c));
    && 2 * c + 1 in view && !view[2 * c + 1].split && Ranks(view[2 * c + 1].f) == b[|b| / 4..]
    && forall m {:trigger LeftOf(m, c)} :: m in view && m != c && LeftOf(m, c) && !view[m].split ==>
         HoldsBag(Ranks(view[m].f), Bag(b, after, rules.Cap()), rules.Cap(), busy)
  }

  /** What the keys that came to an open node tell of it. A key may be coming, on its way down. */
  ghost predicate NodeTells<V>(view: View<V>, rules: Rules, ks: seq<int>, coming: Option<int>, n: nat)
    requires n in view
  {
    var came := rules.Came(ks, n);
    var here := coming.Some? && rules.Goes(coming.value, n);
    if !view[n].split then |came| <= rules.Cap() && Ranks(view[n].f) == Sort(came)
    else
      && |came| >= rules.Cap() && (here || |came| > rules.Cap())
      && (AtLimit(rules.RangeOf(n), rules.bits) ==>
            CellTells(view, rules, n, came, here && InSpan(coming.value, rules.RangeOf(n))))
  }

  ghost predicate Tells<V>(view: View<V>, rules: Rules, ks: seq<int>, coming: Option<int>) {
    forall n {:trigger NodeTells(view, rules, ks, coming, n)} ::
      n in view && rules.Open(n) ==> NodeTells(view, rules, ks, coming, n)
  }

  lemma TellsAt<V>(view: View<V>, rules: Rules, ks: seq<int>, coming: Option<int>, n: nat)
    requires Tells(view, rules, ks, coming) && n in view && rules.Open(n)
    ensures NodeTells(view, rules, ks, coming, n)
  {
  }

  /** Before it comes, a key may be coming. */
  lemma MayCome<V>(view: View<V>, rules: Rules, ks: seq<int>, k: int)
    requires Tells(view, rules, ks, None)
    ensures Tells(view, rules, ks, Some(k))
  {
    hide Sort, Bag, AtLimit, LeftOf;
    forall n | n in view && rules.Open(n) ensures NodeTells(view, rules, ks, Some(k), n) {
      TellsAt(view, rules, ks, None, n);
    }
  }

  // Ways down ------------------------------------------------------------------------------------

  /** The ranges of the nodes are what the rules say. */
  lemma {:induction false} RangeIs<V>(view: View<V>, rules: Rules, n: nat)
    requires Shape(view, rules.bits, rules.root) && n in view
    ensures view[n].bbox == rules.RangeOf(n)
  {
    hide Sides, ProperSpan;
    assert NodeShape(view, rules.bits, n);
    if n > 1 { RangeIs(view, rules, n / 2); }
  }

  lemma {:induction false} GoesOpen(rules: Rules, k: int, n: nat)
    requires rules.Goes(k, n)
    ensures rules.Open(n) && (n > 1 ==> InSpan(k, rules.RangeOf(n)))
  {
    hide Avg;
    if n > 1 { GoesOpen(rules, k, n / 2); }
  }

  /** Nodes on the way of one key lie below each other. */
  lemma {:induction false} WaysMeet(rules: Rules, k: int, m: nat, n: nat)
    requires rules.Goes(k, m) && rules.Goes(k, n) && m >= n
    ensures Under(m, n)
    decreases m
  {
    hide HalfFor, AtLimit;
    if m == n {
    } else if m / 2 >= n {
      WaysMeet(rules, k, m / 2, n);
    } else {
      WaysMeet(rules, k, n, m / 2);
    }
  }

  /** An open node is not below one at the limit. */
  lemma {:induction false} OpenAbove(rules: Rules, m: nat, n: nat)
    requires rules.Open(m) && Under(m, n) && m != n && n > 0
    ensures !AtLimit(rules.RangeOf(n), rules.bits)
  {
    hide AtLimit;
    if m / 2 != n { OpenAbove(rules, m / 2, n); }
  }

  lemma {:induction false} LeftUnder(m: nat, c: nat)
    requires LeftOf(m, c)
    ensures Under(m, c)
  {
    if m != c { LeftUnder(m / 2, c); }
  }

  /** Nodes above a node of the tree are split. */
  lemma {:induction false} AboveSplit<V>(view: View<V>, rules: Rules, m: nat, n: nat)
    requires Shape(view, rules.bits, rules.root) && m in view && Under(m, n) && m != n && n > 0
    ensures n in view && view[n].split
  {
    hide ProperSpan, Sides;
    assert NodeShape(view, rules.bits, m);
    if m / 2 != n { AboveSplit(view, rules, m / 2, n); }
  }

  /** Below a cell at the limit every node has the range of the cell. */
  lemma {:induction false} LeftRange(rules: Rules, m: nat, c: nat)
    requires LeftOf(m, c) && c > 0 && AtLimit(rules.RangeOf(c), rules.bits)
    ensures rules.RangeOf(m) == rules.RangeOf(c)
  {
    hide AtLimit;
    if m != c { LeftRange(rules, m / 2, c); }
  }

  /** The nodes to the left below a cell lie in a row. */
  lemma {:induction false} LeftMeet(m: nat, n: nat, c: nat)
    requires LeftOf(m, c) && LeftOf(n, c) && m >= n && c > 0
    ensures LeftOf(m, n)
    decreases m
  {
    if m != n {
      LeftAtLeast(n, c);
      LeftAtLeast(m / 2, c);
      if m / 2 >= n { LeftMeet(m / 2, n, c); } else { LeftMeet(n, m / 2, c); }
    }
  }

  lemma LeftAtLeast(m: nat, c: nat)
    requires LeftOf(m, c)
    ensures m >= c
  {
  }

  // One step of a descent ------------------------------------------------------------------------

  /** Where a key may be while it comes down: on its way, or to the left below its cell. */
  ghost predicate Coming(rules: Rules, k: int, m: nat) {
    || rules.Goes(k, m)
    || exists c :: BelowCell(rules, k, m, c)
  }

  ghost predicate BelowCell(rules: Rules, k: int, m: nat, c: nat) {
    && rules.Goes(k, c) && AtLimit(rules.RangeOf(c), rules.bits) && InSpan(k, rules.RangeOf(c))
    && LeftOf(m, c) && m != c
  }

  /** The halves of a split node, and their ranges. */
  lemma HalvesOf<V>(view: View<V>, rules: Rules, m: nat)
    requires TreeOk(view, rules.bits, rules.root) && m in view && view[m].split
    ensures m > 0 && 2 * m in view && 2 * m + 1 in view && view[m].bbox == rules.RangeOf(m)
    ensures (view[2 * m].bbox, view[2 * m + 1].bbox) == Sides(rules.RangeOf(m), rules.bits)
  {
    hide HeldOk, ProperSpan, Sides;
    NodeOf(view, rules.bits, rules.root, m);
    RangeIs(view, rules, m);
    RangeIs(view, rules, 2 * m);
    RangeIs(view, rules, 2 * m + 1);
  }

  /** A key that goes down goes where its way leads, or left below its cell. */
  lemma ComingDown<V>(view: View<V>, rules: Rules, k: int, m: nat)
    requires TreeOk(view, rules.bits, rules.root) && m in view && view[m].split
    requires Coming(rules, k, m) && ChildWith(view, m, k) != 0
    ensures Coming(rules, k, ChildWith(view, m, k))
  {
    hide TreeOk, Halved;
    HalvesOf(view, rules, m);
    var child := ChildWith(view, m, k);
    if rules.Goes(k, m) {
      if AtLimit(rules.RangeOf(m), rules.bits) {
        assert LeftOf(m, m) && child == 2 * m;
        assert BelowCell(rules, k, child, m);
      } else {
        assert rules.Goes(k, child);
      }
    } else {
      var c :| BelowCell(rules, k, m, c);
      LeftRange(rules, m, c);
      assert child == 2 * m && BelowCell(rules, k, child, c);
    }
  }

  /** The keys that came to a half of an open node are those of the node that go there. */
  lemma CameHalf(rules: Rules, ks: seq<int>, m: nat, side: Side)
    requires m > 0 && side != Neither && !AtLimit(rules.RangeOf(m), rules.bits)
    ensures rules.Came(ks, ChildId(m, side)) ==
            Filter(rules.Came(ks, m), k => HalfFor(rules.RangeOf(m), rules.bits, k) == side)
  {
    hide AtLimit, HalfFor;
    var child := ChildId(m, side);
    assert child / 2 == m && child > 1;
    FilterTwice(ks, k => rules.Goes(k, m), k => HalfFor(rules.RangeOf(m), rules.bits, k) == side,
        k => rules.Goes(k, child));
  }

  lemma {:induction false} PickedRanks<V>(ps: seq<Pair<V>>, r: Span, bits: nat, side: Side)
    ensures RanksOf(Picked(ps, r, bits, side)) == Filter(RanksOf(ps), k => HalfFor(r, bits, k) == side)
  {
    hide HalfFor, Filter;
    var p := k => HalfFor(r, bits, k) == side;
    if ps == [] {
      assert RanksOf(ps) == [];
      FilterAll([], p);
    } else {
      var n := |ps| - 1;
      PickedRanks(ps[..n], r, bits, side);
      FilterLast(RanksOf(ps[..n]), ps[n].0.rank, p);
      assert RanksOf(ps) == RanksOf(ps[..n]) + [ps[n].0.rank];
    }
  }

  /** What a half holds after an even split. */
  lemma HalfHolds<V>(view: View<V>, rules: Rules, ks: seq<int>, m: nat, side: Side)
    requires m in view && m > 0 && side != Neither && view[m].bbox == rules.RangeOf(m)
    requires !AtLimit(view[m].bbox, rules.bits) && Ranks(view[m].f) == Sort(rules.Came(ks, m))
    ensures Ranks(HeldAfter(view, rules.bits, m, side)) == Sort(rules.Came(ks, ChildId(m, side)))
    ensures |rules.Came(ks, ChildId(m, side))| <= |rules.Came(ks, m)|
  {
    hide HalfFor, Filter, Sort, Picked, DrainedPairs, Pushed, AtLimit;
    var ps, r := DrainedPairs(view[m].f), view[m].bbox;
    var p := k => HalfFor(r, rules.bits, k) == side;
    var came := rules.Came(ks, m);
    RanksPushed(Picked(ps, r, rules.bits, side));
    PickedRanks(ps, r, rules.bits, side);
    RanksDrained(view[m].f);
    SortFilter(Sort(came), p);
    SortAscends(came);
    SortSorted(Sort(came));
    SortFilter(came, p);
    CameHalf(rules, ks, m, side);
    FilterHas(came, p, 0);
  }

  /** What the two new nodes hold after a split by quarters. */
  lemma QuarterHolds<V>(view: View<V>, bits: nat, m: nat)
    requires m in view && AtLimit(view[m].bbox, bits) && Sorted(view[m].f)
    ensures var s := Ranks(view[m].f);
            && Ranks(HeldAfter(view, bits, m, Left)) == FirstQuarter(s)
            && Ranks(HeldAfter(view, bits, m, Right)) == s[|s| / 4..]
  {
    hide Sort, DrainedPairs, Pushed, AtLimit, Flattened;
    var ps, s := DrainedPairs(view[m].f), Ranks(view[m].f);
    RanksDrained(view[m].f);
    RanksAscend(view[m].f);
    RanksPushed(ps[..|ps| / 4]);
    RanksPushed(ps[|ps| / 4..]);
    assert RanksOf(ps[..|ps| / 4]) == FirstQuarter(s) && RanksOf(ps[|ps| / 4..]) == s[|s| / 4..];
    SortSorted(FirstQuarter(s));
    SortSorted(s[|s| / 4..]);
  }

  /** Of two nodes above one, the deeper lies below the other. */
  lemma {:induction false} AboveInRow(m: nat, c: nat, n: nat)
    requires Under(m, c) && Under(m, n) && c >= n && n > 0
    ensures Under(c, n)
  {
    if m != c {
      UnderLarger(m / 2, c);
      AboveInRow(m / 2, c, n);
    }
  }

  /** There is one open cell at the limit above a node. */
  lemma OneCell(rules: Rules, m: nat, c: nat, n: nat)
    requires rules.Open(c) && AtLimit(rules.RangeOf(c), rules.bits) && Under(m, c)
    requires rules.Open(n) && AtLimit(rules.RangeOf(n), rules.bits) && Under(m, n)
    ensures c == n
  {
    hide AtLimit;
    if c > n {
      AboveInRow(m, c, n);
      OpenAbove(rules, c, n);
    } else if n > c {
      AboveInRow(m, n, c);
      OpenAbove(rules, n, c);
    }
  }

  lemma OneLeftLeaf<V>(view: View<V>, rules: Rules, m: nat, n: nat, c: nat)
    requires Shape(view, rules.bits, rules.root) && c > 0
    requires m in view && n in view && LeftOf(m, c) && LeftOf(n, c) && !view[m].split && !view[n].split
    ensures m == n
  {
    hide Shape;
    if m > n {
      LeftMeet(m, n, c);
      LeftUnder(m, n);
      LeftUnder(n, c);
      UnderLarger(n, c);
      AboveSplit(view, rules, m, n);
    } else if n > m {
      LeftMeet(n, m, c);
      LeftUnder(n, m);
      LeftUnder(m, c);
      UnderLarger(m, c);
      AboveSplit(view, rules, n, m);
    }
  }

  /** A full leaf that a coming key has come to. */
  ghost predicate Full<V>(view: View<V>, rules: Rules, ks: seq<int>, k: int, m: nat) {
    && TreeOk(view, rules.bits, rules.root) && Tells(view, rules, ks, Some(k)) && Coming(rules, k, m)
    && m in view && !view[m].split && view[m].f != [] && LenOf(view[m].f) >= rules.saturation
  }

  lemma FullLeaf<V>(view: View<V>, rules: Rules, ks: seq<int>, k: int, m: nat)
    requires Full(view, rules, ks, k, m)
    ensures |Ranks(view[m].f)| >= rules.Cap() && Sorted(view[m].f) && Shape(view, rules.bits, rules.root)
    ensures m > 0 && 2 * m !in view && 2 * m + 1 !in view && view[m].bbox == rules.RangeOf(m)
  {
    hide Tells, Coming, Flattened;
    NodeOf(view, rules.bits, rules.root, m);
    NoChildrenYet(view, rules.bits, rules.root, m);
    RangeIs(view, rules, m);
    EmptyHeld(view[m].f);
  }

  /** The leaf itself, if it is open. */
  lemma SplitTellsHere<V>(view: View<V>, rules: Rules, ks: seq<int>, k: int, m: nat)
    requires Full(view, rules, ks, k, m) && rules.Open(m)
    ensures NodeTells(SplitView(view, rules.bits, m), rules, ks, Some(k), m)
  {
    hide AtLimit, Sort, HeldAfter, Filter, Insert, Flattened, Tells, TreeOk, Shape, Bag, Sides;
    var view', came := SplitView(view, rules.bits, m), rules.Came(ks, m);
    FullLeaf(view, rules, ks, k, m);
    TellsAt(view, rules, ks, Some(k), m);
    SortKeeps(came);
    OpenComing(rules, k, m);
    if AtLimit(rules.RangeOf(m), rules.bits) {
      QuarterHolds(view, rules.bits, m);
      assert came[..rules.Cap()] == came && came[rules.Cap()..] == [];
      NoneWithin(rules.RangeOf(m));
      forall n | n in view' && n != m && LeftOf(n, m) && !view'[n].split
        ensures HoldsBag(Ranks(view'[n].f), Bag(Sort(came), [], rules.Cap()), rules.Cap(), InSpan(k, rules.RangeOf(m)))
      {
        SplitLeftLeaf(view, rules, m, m, n);
        BagFirst(Sort(came), rules.Cap());
      }
    }
  }

  lemma BagFirst(b: seq<int>, cap: nat)
    ensures Bag(b, [], cap) == FirstQuarter(b)
  {
  }

  lemma NoneWithin(r: Span)
    ensures Within([], r) == []
  {
  }

  /** A coming key at an open node is on its way. */
  lemma OpenComing(rules: Rules, k: int, m: nat)
    requires rules.Open(m) && Coming(rules, k, m)
    ensures rules.Goes(k, m)
  {
    hide AtLimit;
    if !rules.Goes(k, m) {
      var c :| BelowCell(rules, k, m, c);
      LeftUnder(m, c);
      OpenAbove(rules, m, c);
    }
  }

  /** After a split of a leaf to the left below a cell, or of the cell, its left half is the leaf there. */
  lemma SplitLeftLeaf<V>(view: View<V>, rules: Rules, m: nat, c: nat, n: nat)
    requires Shape(view, rules.bits, rules.root) && m in view && !view[m].split && m > 0 && c > 0
    requires LeftOf(m, c) && LeftOf(n, c)
    requires n in SplitView(view, rules.bits, m) && !SplitView(view, rules.bits, m)[n].split
    ensures n == 2 * m
  {
    hide HeldAfter, Shape;
    NoChildrenYet(view, rules.bits, rules.root, m);
    SplitShape(view, rules.bits, rules.root, m);
    assert LeftOf(2 * m, c) && 2 * m != c by { LeftAtLeast(m, c); }
    OneLeftLeaf(SplitView(view, rules.bits, m), rules, 2 * m, n, c);
  }

  /** Its halves, if they are open. */
  lemma SplitTellsHalf<V>(view: View<V>, rules: Rules, ks: seq<int>, k: int, m: nat, side: Side)
    requires Full(view, rules, ks, k, m) && side != Neither && rules.Open(ChildId(m, side))
    ensures ChildId(m, side) in SplitView(view, rules.bits, m)
    ensures NodeTells(SplitView(view, rules.bits, m), rules, ks, Some(k), ChildId(m, side))
  {
    hide AtLimit, Sort, HeldAfter, Filter, Insert, Flattened, Tells, TreeOk, Shape, Bag, Sides, Coming;
    FullLeaf(view, rules, ks, k, m);
    assert ChildId(m, side) / 2 == m;
    TellsAt(view, rules, ks, Some(k), m);
    HalfHolds(view, rules, ks, m, side);
  }

  /** The leaf to the left below a cell gives up all but a quarter. */
  lemma SplitTellsBag<V>(view: View<V>, rules: Rules, ks: seq<int>, k: int, m: nat, c: nat)
    requires Full(view, rules, ks, k, m) && BelowCell(rules, k, m, c) && c in view && view[c].split
    ensures NodeTells(SplitView(view, rules.bits, m), rules, ks, Some(k), c)
  {
    hide AtLimit, Sort, HeldAfter, Filter, Insert, Flattened, Tells, TreeOk, Shape, Bag, Sides, Coming;
    var view', came, cap := SplitView(view, rules.bits, m), rules.Came(ks, c), rules.Cap();
    FullLeaf(view, rules, ks, k, m);
    GoesOpen(rules, k, c);
    TellsAt(view, rules, ks, Some(k), c);
    LeftAtLeast(m, c);
    LeftRange(rules, m, c);
    QuarterHolds(view, rules.bits, m);
    var b, after := Sort(came[..Min(cap, |came|)]), Within(came[Min(cap, |came|)..], rules.RangeOf(c));
    var bag := Bag(b, after, cap);
    assert LeftOf(m, c);
    assert HoldsBag(Ranks(view[m].f), bag, cap, true);
    BagSize(b, cap, came, after);
    forall n | n in view' && n != c && LeftOf(n, c) && !view'[n].split
      ensures HoldsBag(Ranks(view'[n].f), bag, cap, true)
    {
      SplitLeftLeaf(view, rules, m, c, n);
    }
    NotRightOf(m, c);
  }

  lemma NotRightOf(m: nat, c: nat)
    requires LeftOf(m, c) && m != c
    ensures m != 2 * c + 1
  {
  }

  lemma BagSize(b: seq<int>, cap: nat, came: seq<int>, after: seq<int>)
    requires cap >= 1 && |came| >= cap && b == Sort(came[..cap])
    ensures |b| == cap && Ascends(b) && |Bag(b, after, cap)| <= cap
  {
    hide Sort, Bag;
    SortKeeps(came[..cap]);
    SortAscends(came[..cap]);
    BagFits(b, after, cap);
  }

  /** Every other node is as it was. */
  lemma SplitTellsOther<V>(view: View<V>, rules: Rules, ks: seq<int>, k: int, m: nat, n: nat)
    requires Full(view, rules, ks, k, m) && n in view && n != m && rules.Open(n)
    ensures NodeTells(SplitView(view, rules.bits, m), rules, ks, Some(k), n)
  {
    hide AtLimit, Sort, HeldAfter, Filter, Insert, Flattened, Tells, TreeOk, Shape, Bag, Sides, HoldsBag;
    var view' := SplitView(view, rules.bits, m);
    FullLeaf(view, rules, ks, k, m);
    TellsAt(view, rules, ks, Some(k), n);
    assert view'[n] == view[n];
    if view[n].split && AtLimit(rules.RangeOf(n), rules.bits) {
      if LeftOf(m, n) {
        LeftUnder(m, n);
        NotOpenBelow(rules, m, n);
        var c :| BelowCell(rules, k, m, c);
        LeftUnder(m, c);
        GoesOpen(rules, k, c);
        OneCell(rules, m, c, n);
        SplitTellsBag(view, rules, ks, k, m, n);
      } else {
        RightNotComing(rules, k, m, n);
        forall x | x in view' && x != n && LeftOf(x, n) && !view'[x].split ensures x in view && view'[x] == view[x] {
          assert x / 2 == m && x != n ==> LeftOf(m, n);
        }
      }
    }
  }

  lemma NotOpenBelow(rules: Rules, m: nat, n: nat)
    requires Under(m, n) && m != n && n > 0 && AtLimit(rules.RangeOf(n), rules.bits)
    ensures forall k :: !rules.Goes(k, m)
  {
    hide AtLimit;
    forall k ensures !rules.Goes(k, m) {
      if rules.Goes(k, m) {
        GoesOpen(rules, k, m);
        OpenAbove(rules, m, n);
      }
    }
  }

  /** No coming key comes to the right half of a cell that was split at the limit. */
  lemma RightNotComing(rules: Rules, k: int, m: nat, n: nat)
    requires Coming(rules, k, m) && n > 0 && rules.Open(n) && AtLimit(rules.RangeOf(n), rules.bits)
    ensures m != 2 * n + 1
  {
    hide AtLimit;
    if m == 2 * n + 1 {
      assert Under(m, n) by { assert m / 2 == n; assert Under(n, n); }
      NotOpenBelow(rules, m, n);
    }
  }

  /** A split on the way of a coming key changes nothing of what can be told. */
  lemma SplitTells<V>(view: View<V>, rules: Rules, ks: seq<int>, k: int, m: nat)
    requires Full(view, rules, ks, k, m)
    ensures Tells(SplitView(view, rules.bits, m), rules, ks, Some(k))
  {
    hide NodeTells, HeldAfter, Sides, TreeOk, Coming, LenOf;
    var view' := SplitView(view, rules.bits, m);
    forall n | n in view' && rules.Open(n) ensures NodeTells(view', rules, ks, Some(k), n) {
      if n == m {
        SplitTellsHere(view, rules, ks, k, m);
      } else if n == 2 * m {
        SplitTellsHalf(view, rules, ks, k, m, Left);
      } else if n == 2 * m + 1 {
        SplitTellsHalf(view, rules, ks, k, m, Right);
      } else {
        SplitTellsOther(view, rules, ks, k, m, n);
      }
    }
  }

  // One key more ---------------------------------------------------------------------------------

  /** Where a coming key is added: a leaf with room, or the split root, if the key is outside the root's range. */
  ghost predicate Arrived<V>(view: View<V>, rules: Rules, ks: seq<int>, k: int, m: nat) {
    && TreeOk(view, rules.bits, rules.root) && Tells(view, rules, ks, Some(k)) && m in view
    && if view[m].split then m == 1 && !InSpan(k, rules.root)
       else Coming(rules, k, m) && (view[m].f == [] || LenOf(view[m].f) < rules.saturation)
  }

  lemma ArrivedAt<V>(view: View<V>, rules: Rules, ks: seq<int>, k: int, m: nat)
    requires Arrived(view, rules, ks, k, m)
    ensures m > 0 && Sorted(view[m].f) && Shape(view, rules.bits, rules.root)
    ensures !view[m].split ==> |Ranks(view[m].f)| < rules.Cap()
    ensures ProperSpan(rules.root, rules.bits)
  {
    hide Tells, Coming, Flattened, ProperSpan;
    NodeOf(view, rules.bits, rules.root, 1);
    NodeOf(view, rules.bits, rules.root, m);
    EmptyHeld(view[m].f);
  }

  lemma CameLast(rules: Rules, ks: seq<int>, k: int, n: nat)
    ensures rules.Came(ks + [k], n) == if rules.Goes(k, n) then rules.Came(ks, n) + [k] else rules.Came(ks, n)
  {
    FilterLast(ks, k, x => rules.Goes(x, n));
  }

  lemma WithinLast(ks: seq<int>, k: int, r: Span)
    ensures Within(ks + [k], r) == if InSpan(k, r) then Within(ks, r) + [k] else Within(ks, r)
  {
    FilterLast(ks, k, x => InSpan(x, r));
  }

  /** The way of a key leads to one leaf. */
  lemma OneLeaf<V>(view: View<V>, rules: Rules, k: int, m: nat, n: nat)
    requires Shape(view, rules.bits, rules.root) && m in view && n in view && !view[m].split && !view[n].split
    requires Coming(rules, k, m) && rules.Goes(k, n)
    ensures m == n
  {
    hide Shape, AtLimit;
    if rules.Goes(k, m) {
      if m > n {
        WaysMeet(rules, k, m, n);
        AboveSplit(view, rules, m, n);
      } else if n > m {
        WaysMeet(rules, k, n, m);
        AboveSplit(view, rules, n, m);
      }
    } else {
      var c :| BelowCell(rules, k, m, c);
      LeftUnder(m, c);
      GoesOpen(rules, k, n);
      if n > c {
        WaysMeet(rules, k, n, c);
        OpenAbove(rules, n, c);
      } else {
        WaysMeet(rules, k, c, n);
        UnderTrans(m, c, n);
        UnderLarger(m, c);
        AboveSplit(view, rules, m, n);
      }
    }
  }

  /** A leaf that is open. */
  lemma AddTellsLeaf<V>(view: View<V>, rules: Rules, ks: seq<int>, k: int, m: nat, v: V, n: nat)
    requires Arrived(view, rules, ks, k, m) && n in view && rules.Open(n) && !view[n].split
    ensures NodeTells(AddAt(view, m, k, v), rules, ks + [k], None, n)
  {
    hide AtLimit, Filter, Insert, Flattened, Tells, TreeOk, Shape, Bag, Sides, Added, LenOf;
    ArrivedAt(view, rules, ks, k, m);
    TellsAt(view, rules, ks, Some(k), n);
    CameLast(rules, ks, k, n);
    if n == m {
      OpenComing(rules, k, m);
      RanksAdded(view[m].f, KeyOf(k), v);
      SortKeeps(rules.Came(ks, n));
      SortLast(rules.Came(ks, n), k);
    } else if rules.Goes(k, n) {
      if view[m].split { OutsideStays(rules, k, n); } else { OneLeaf(view, rules, k, m, n); }
    }
  }

  /** A key outside the root's range goes nowhere from the root. */
  lemma {:induction false} OutsideStays(rules: Rules, k: int, n: nat)
    requires rules.Goes(k, n) && !InSpan(k, rules.root) && ProperSpan(rules.root, rules.bits)
    ensures n == 1
  {
    hide Avg, Word;
    if n > 1 {
      OutsideStays(rules, k, n / 2);
      LimitIff(rules.root, rules.bits);
    }
  }

  /** The leaf to the left below a cell, when one of the cell's keys has arrived there. */
  lemma BagGrows(s: seq<int>, b: seq<int>, after: seq<int>, cap: nat, k: int)
    requires HoldsBag(s, Bag(b, after, cap), cap, true) && |s| < cap
    ensures HoldsBag(Insert(s, k), Bag(b, after + [k], cap), cap, false)
  {
    assert (after + [k])[..|after|] == after;
  }

  /** A cell that was split at the limit, when one of its keys has arrived. */
  lemma AddTellsBag<V>(view: View<V>, rules: Rules, ks: seq<int>, k: int, m: nat, v: V, c: nat)
    requires Arrived(view, rules, ks, k, m) && !view[m].split && BelowCell(rules, k, m, c) && c in view && view[c].split
    ensures NodeTells(AddAt(view, m, k, v), rules, ks + [k], None, c)
  {
    hide AtLimit, Sort, Filter, Insert, Flattened, Tells, TreeOk, Shape, Bag, Sides, Added, LenOf, Coming;
    var view', came, cap, r := AddAt(view, m, k, v), rules.Came(ks, c), rules.Cap(), rules.RangeOf(c);
    ArrivedAt(view, rules, ks, k, m);
    GoesOpen(rules, k, c);
    TellsAt(view, rules, ks, Some(k), c);
    CameLast(rules, ks, k, c);
    NotRightOf(m, c);
    RanksAdded(view[m].f, KeyOf(k), v);
    assert (came + [k])[..cap] == came[..cap] && (came + [k])[cap..] == came[cap..] + [k];
    WithinLast(came[cap..], k, r);
    var b, after := Sort(came[..cap]), Within(came[cap..], r);
    assert LeftOf(m, c);
    assert HoldsBag(Ranks(view[m].f), Bag(b, after, cap), cap, true);
    forall n | n in view' && n != c && LeftOf(n, c) && !view'[n].split
      ensures HoldsBag(Ranks(view'[n].f), Bag(b, after + [k], cap), cap, false)
    {
      OneLeftLeaf(view, rules, m, n, c);
      BagGrows(Ranks(view[m].f), b, after, cap, k);
    }
  }

  /** Every other split node. */
  lemma AddTellsOther<V>(view: View<V>, rules: Rules, ks: seq<int>, k: int, m: nat, v: V, n: nat)
    requires Arrived(view, rules, ks, k, m) && n in view && rules.Open(n) && view[n].split
    requires !BelowCell(rules, k, m, n)
    ensures NodeTells(AddAt(view, m, k, v), rules, ks + [k], None, n)
  {
    hide AtLimit, Sort, Filter, Insert, Flattened, Tells, TreeOk, Shape, Bag, Sides, Added, LenOf, HoldsBag;
    var view', came, cap, r := AddAt(view, m, k, v), rules.Came(ks, n), rules.Cap(), rules.RangeOf(n);
    ArrivedAt(view, rules, ks, k, m);
    TellsAt(view, rules, ks, Some(k), n);
    CameLast(rules, ks, k, n);
    assert rules.Goes(k, n) ==> (came + [k])[..cap] == came[..cap] && (came + [k])[cap..] == came[cap..] + [k];
    WithinLast(came[cap..], k, r);
    if AtLimit(r, rules.bits) {
      NotArrivedAt(view, rules, ks, k, m, n);
    }
  }

  /** Where a key arrives, if it is not to the left below a cell, says nothing about the cell. */
  lemma NotArrivedAt<V>(view: View<V>, rules: Rules, ks: seq<int>, k: int, m: nat, n: nat)
    requires Arrived(view, rules, ks, k, m) && n in view && rules.Open(n) && view[n].split
    requires AtLimit(rules.RangeOf(n), rules.bits) && !BelowCell(rules, k, m, n)
    ensures !(rules.Goes(k, n) && InSpan(k, rules.RangeOf(n)))
    ensures m != 2 * n + 1 && (m == n || !LeftOf(m, n))
  {
    hide AtLimit, Filter, Flattened, Tells, TreeOk, Shape, Sides, LenOf;
    ArrivedAt(view, rules, ks, k, m);
    if view[m].split {
      if rules.Goes(k, n) { OutsideStays(rules, k, n); }
      if LeftOf(m, n) { LeftAtLeast(m, n); }
    } else {
      RightNotComing(rules, k, m, n);
      if LeftOf(m, n) {
        LeftUnder(m, n);
        NotOpenBelow(rules, m, n);
        var c :| BelowCell(rules, k, m, c);
        LeftUnder(m, c);
        GoesOpen(rules, k, c);
        OneCell(rules, m, c, n);
      }
      if rules.Goes(k, n) { ArrivedBelow(view, rules, k, m, n); }
    }
  }

  /** A leaf that a key of a split cell has come to lies to the left below the cell. */
  lemma ArrivedBelow<V>(view: View<V>, rules: Rules, k: int, m: nat, n: nat)
    requires Shape(view, rules.bits, rules.root) && m in view && !view[m].split && n in view && view[n].split
    requires Coming(rules, k, m) && rules.Goes(k, n) && AtLimit(rules.RangeOf(n), rules.bits)
    ensures BelowCell(rules, k, m, n)
  {
    hide Shape, AtLimit;
    if rules.Goes(k, m) {
      GoesOpen(rules, k, m);
      GoesOpen(rules, k, n);
      if m > n {
        WaysMeet(rules, k, m, n);
        OpenAbove(rules, m, n);
      } else {
        WaysMeet(rules, k, n, m);
        AboveSplit(view, rules, n, m);
      }
    } else {
      var c: nat :| BelowCell(rules, k, m, c);
      GoesOpen(rules, k, c);
      GoesOpen(rules, k, n);
      if c > n {
        WaysMeet(rules, k, c, n);
        OpenAbove(rules, c, n);
      } else if n > c {
        WaysMeet(rules, k, n, c);
        OpenAbove(rules, n, c);
      }
    }
  }

  /** Once a key has arrived, the keys so far tell everything again. */
  lemma AddTells<V>(view: View<V>, rules: Rules, ks: seq<int>, k: int, m: nat, v: V)
    requires Arrived(view, rules, ks, k, m)
    ensures Tells(AddAt(view, m, k, v), rules, ks + [k], None)
  {
    hide NodeTells, Sides, TreeOk, Coming, LenOf, BelowCell;
    var view' := AddAt(view, m, k, v);
    forall n | n in view' && rules.Open(n) ensures NodeTells(view', rules, ks + [k], None, n) {
      if !view[n].split {
        AddTellsLeaf(view, rules, ks, k, m, v, n);
      } else if BelowCell(rules, k, m, n) {
        BelowIsLeaf(view, rules, ks, k, m, n);
        AddTellsBag(view, rules, ks, k, m, v, n);
      } else {
        AddTellsOther(view, rules, ks, k, m, v, n);
      }
    }
  }

  lemma BelowIsLeaf<V>(view: View<V>, rules: Rules, ks: seq<int>, k: int, m: nat, c: nat)
    requires Arrived(view, rules, ks, k, m) && BelowCell(rules, k, m, c)
    ensures !view[m].split
  {
    LeftAtLeast(m, c);
  }

  // Searching ------------------------------------------------------------------------------------

  /** Whether `k` is found in a cell that was full with `before` when it was split, and to which `after` came since. */
  predicate FoundPastLimit(before: seq<int>, after: seq<int>, r: Span, bits: nat, k: int) {
    var cap := |before|;
    if k > Middle(r, bits) then k in before && Less(before, k + 1) > cap / 4
    else if Less(before, k) < cap / 4 then k in before || k in after
    else cap > 0 && k in after[|after| - Batch(|after|, cap)..]
  }

  /** Whether `k` is found once `ks` have been inserted, in this order. */
  ghost predicate Findable(rules: Rules, ks: seq<int>, k: int)
    requires ProperSpan(rules.root, rules.bits)
  {
    var c := rules.CellBelow(rules.root, 1, k);
    var came, cap, r := rules.Came(ks, c), rules.Cap(), rules.RangeOf(c);
    if |came| <= cap then k in came
    else AtLimit(r, rules.bits) && FoundPastLimit(came[..cap], Within(came[cap..], r), r, rules.bits, k)
  }

  /** A node's cell is the cell of every node on the way to it. */
  lemma {:induction false} CellGoes(rules: Rules, k: int, n: nat)
    requires ProperSpan(rules.root, rules.bits) && rules.Goes(k, n)
    ensures ProperSpan(rules.RangeOf(n), rules.bits)
    ensures rules.CellBelow(rules.root, 1, k) == rules.CellBelow(rules.RangeOf(n), n, k)
  {
    hide Avg, Word;
    if n > 1 {
      CellGoes(rules, k, n / 2);
      LimitIff(rules.RangeOf(n / 2), rules.bits);
    }
  }

  /** The way of a key goes through every node on it down to its cell. */
  lemma {:induction false} GoesToCell(rules: Rules, k: int, n: nat)
    requires ProperSpan(rules.RangeOf(n), rules.bits) && rules.Goes(k, n)
    ensures var c := rules.CellBelow(rules.RangeOf(n), n, k); rules.Goes(k, c) && Under(c, n)
    decreases rules.RangeOf(n).hi - rules.RangeOf(n).lo
  {
    hide Avg, Word;
    var r := rules.RangeOf(n);
    LimitIff(r, rules.bits);
    if !AtLimit(r, rules.bits) && HalfFor(r, rules.bits, k) != Neither {
      var child := ChildId(n, HalfFor(r, rules.bits, k));
      assert child / 2 == n && child > 1;
      GoesToCell(rules, k, child);
      UnderTrans(rules.CellBelow(rules.RangeOf(child), child, k), child, n);
    }
  }

  /** Fewer keys come to a node than to those above it. */
  lemma CameLess(rules: Rules, ks: seq<int>, c: nat, n: nat)
    requires Under(c, n) && n > 0
    ensures |rules.Came(ks, c)| <= |rules.Came(ks, n)|
  {
    forall k ensures rules.Goes(k, c) ==> rules.Goes(k, n) {
      if rules.Goes(k, c) { GoesAbove(rules, k, c, n); }
    }
    FilterMore(ks, k => rules.Goes(k, c), k => rules.Goes(k, n));
  }

  lemma {:induction false} GoesAbove(rules: Rules, k: int, c: nat, n: nat)
    requires rules.Goes(k, c) && Under(c, n) && n > 0
    ensures rules.Goes(k, n)
  {
    hide HalfFor, AtLimit;
    if c != n {
      UnderLarger(c / 2, n);
      GoesAbove(rules, k, c / 2, n);
    }
  }

  lemma InCame(rules: Rules, ks: seq<int>, n: nat, k: int)
    ensures k in rules.Came(ks, n) <==> k in ks && rules.Goes(k, n)
  {
    FilterHas(ks, x => rules.Goes(x, n), k);
  }

  /** Where a search is, it is open, or at the right half of a cell, or to the left below one. */
  lemma {:induction false} SearchIsAt<V>(view: View<V>, rules: Rules, k: int, n: nat) returns (c: nat)
    requires Shape(view, rules.bits, rules.root) && Searched(view, rules.root, rules.bits, k, n)
    requires forall c :: c in view && rules.Open(c) && view[c].split && AtLimit(rules.RangeOf(c), rules.bits) ==>
                           2 * c + 1 in view && !view[2 * c + 1].split
    ensures c in view && rules.Open(c) && Searched(view, rules.root, rules.bits, k, c)
    ensures c == n ==> SearchBox(rules.root, rules.bits, k, n) == rules.RangeOf(n)
    ensures c != n ==>
              && view[c].split && AtLimit(rules.RangeOf(c), rules.bits)
              && if k > Middle(rules.RangeOf(c), rules.bits) then n == 2 * c + 1 else LeftOf(n, c)
    ensures c != n && k <= Middle(rules.RangeOf(c), rules.bits) ==>
              SearchBox(rules.root, rules.bits, k, n) == Span(rules.RangeOf(c).lo, rules.RangeOf(c).lo)
  {
    hide Avg, Word;
    c := n;
    if n > 1 {
      var up := n / 2;
      c := SearchIsAt(view, rules, k, up);
      RangeProper(view, rules, c);
      if c == up && !AtLimit(rules.RangeOf(up), rules.bits) {
        c := n;
      } else {
        LimitMiddle(rules.RangeOf(c), rules.bits);
      }
    }
  }

  lemma RangeProper<V>(view: View<V>, rules: Rules, n: nat)
    requires Shape(view, rules.bits, rules.root) && n in view
    ensures ProperSpan(rules.RangeOf(n), rules.bits)
  {
    RangeIs(view, rules, n);
    assert NodeShape(view, rules.bits, n);
  }

  /** At the limit the middle is the lower end, and so is the middle of what is left of it. */
  lemma LimitMiddle(r: Span, bits: nat)
    requires ProperSpan(r, bits) && AtLimit(r, bits)
    ensures Middle(r, bits) == r.lo && Middle(Span(r.lo, r.lo), bits) == r.lo
  {
    hide Avg, Word;
    LimitIff(r, bits);
    AvgIsFloorMean(r.lo, r.hi, bits);
    AvgIsFloorMean(r.lo, r.lo, bits);
  }

  /** A key of the root's range goes where its search goes, as far as the limit. */
  lemma {:induction false} SearchGoes<V>(view: View<V>, rules: Rules, k: int, n: nat)
    requires Shape(view, rules.bits, rules.root) && Searched(view, rules.root, rules.bits, k, n) && rules.Open(n)
    ensures SearchBox(rules.root, rules.bits, k, n) == rules.RangeOf(n)
    ensures InSpan(k, rules.root) ==> rules.Goes(k, n) && InSpan(k, rules.RangeOf(n))
  {
    hide Avg, Word;
    if n > 1 {
      SearchGoes(view, rules, k, n / 2);
      RangeProper(view, rules, n / 2);
      LimitIff(rules.RangeOf(n / 2), rules.bits);
    }
  }

  /** The key's cell, when a node on its way is at the limit or has not been split. */
  lemma CellAt<V>(view: View<V>, rules: Rules, k: int, n: nat)
    requires Shape(view, rules.bits, rules.root) && n in view && rules.Goes(k, n)
    ensures ProperSpan(rules.root, rules.bits)
    ensures var c := rules.CellBelow(rules.root, 1, k);
            && rules.Goes(k, c) && Under(c, n)
            && (AtLimit(rules.RangeOf(n), rules.bits) ==> c == n)
  {
    hide AtLimit, NodeShape, HalfFor, Halved;
    RangeProper(view, rules, n);
    RangeProper(view, rules, 1);
    CellGoes(rules, k, n);
    GoesToCell(rules, k, n);
  }

  /** A search that ends at an open leaf of the key's way finds it just if it came. */
  lemma FoundOpen<V>(view: View<V>, rules: Rules, ks: seq<int>, k: int, leaf: nat)
    requires TreeOk(view, rules.bits, rules.root) && Tells(view, rules, ks, None)
    requires leaf in view && !view[leaf].split && rules.Goes(k, leaf)
    ensures ProperSpan(rules.root, rules.bits)
    ensures k in Ranks(view[leaf].f) <==> Findable(rules, ks, k)
  {
    hide AtLimit, Filter, Sort, Flattened, Tells, HeldOk, NodeShape;
    GoesOpen(rules, k, leaf);
    TellsAt(view, rules, ks, None, leaf);
    CellAt(view, rules, k, leaf);
    var c := rules.CellBelow(rules.root, 1, k);
    NodeOf(view, rules.bits, rules.root, leaf);
    CameLess(rules, ks, c, leaf);
    SortKeeps(rules.Came(ks, leaf));
    InCame(rules, ks, leaf, k);
    InCame(rules, ks, c, k);
  }

  /** A key outside the root's range is not found once the root has been split, if it could be halved. */
  lemma OutsideLost<V>(view: View<V>, rules: Rules, ks: seq<int>, k: int)
    requires TreeOk(view, rules.bits, rules.root) && Tells(view, rules, ks, None)
    requires view[1].split && !InSpan(k, rules.root) && !AtLimit(rules.root, rules.bits)
    ensures ProperSpan(rules.root, rules.bits) && !Findable(rules, ks, k)
  {
    hide Avg, Word, Filter, HeldOk, Sort, Flattened, Tells;
    NodeOf(view, rules.bits, rules.root, 1);
    TellsAt(view, rules, ks, None, 1);
    LimitIff(rules.root, rules.bits);
    assert rules.CellBelow(rules.root, 1, k) == 1;
  }

  /** What a search finds past the limit, of a key that goes to the cell. */
  lemma FoundBelow<V>(view: View<V>, rules: Rules, ks: seq<int>, k: int, c: nat, leaf: nat)
    requires TreeOk(view, rules.bits, rules.root) && Tells(view, rules, ks, None)
    requires c in view && view[c].split && AtLimit(rules.RangeOf(c), rules.bits) && rules.Goes(k, c)
    requires leaf in view && !view[leaf].split && leaf != c
    requires if k > Middle(rules.RangeOf(c), rules.bits) then leaf == 2 * c + 1 else LeftOf(leaf, c)
    ensures ProperSpan(rules.root, rules.bits)
    ensures k in Ranks(view[leaf].f) <==> Findable(rules, ks, k)
  {
    hide AtLimit, Filter, Sort, Flattened, Tells, HeldOk, NodeShape, Bag, Middle, Less, Batch, Ascends;
    GoesOpen(rules, k, c);
    TellsAt(view, rules, ks, None, c);
    NodeOf(view, rules.bits, rules.root, c);
    CellAt(view, rules, k, c);
    RangeProper(view, rules, c);
    var came, cap, r := rules.Came(ks, c), rules.Cap(), rules.RangeOf(c);
    var before, after := came[..cap], Within(came[cap..], r);
    var b := Sort(before);
    BagSize(b, cap, came, after);
    SortKeeps(before);
    LimitMiddle(r, rules.bits);
    if k > Middle(r, rules.bits) {
      InFirst(b, cap / 4, k);
      SortLess(before, k + 1);
    } else {
      forall i | 0 <= i < |after| ensures k <= after[i] {
        FilterHas(came[cap..], x => InSpan(x, r), after[i]);
      }
      SortLess(before, k);
      assert HoldsBag(Ranks(view[leaf].f), Bag(b, after, cap), cap, false);
      if Less(before, k) < cap / 4 { BagKeeps(b, after, cap, k); } else { BagForgets(b, after, cap, k); }
    }
  }

  /** Nothing below a cell is a key that does not go there. */
  lemma OnlyCameBelow<V>(view: View<V>, rules: Rules, ks: seq<int>, k: int, c: nat, leaf: nat)
    requires TreeOk(view, rules.bits, rules.root) && Tells(view, rules, ks, None)
    requires c in view && view[c].split && AtLimit(rules.RangeOf(c), rules.bits) && rules.Open(c) && !rules.Goes(k, c)
    requires leaf in view && !view[leaf].split && leaf != c && (leaf == 2 * c + 1 || LeftOf(leaf, c))
    ensures k !in Ranks(view[leaf].f)
  {
    hide AtLimit, Filter, Sort, Flattened, Tells, HeldOk, NodeShape, Bag, Middle, Less, Batch, Ascends;
    TellsAt(view, rules, ks, None, c);
    NodeOf(view, rules.bits, rules.root, c);
    var came, cap, r := rules.Came(ks, c), rules.Cap(), rules.RangeOf(c);
    var before, after := came[..cap], Within(came[cap..], r);
    var b := Sort(before);
    BagSize(b, cap, came, after);
    SortKeeps(before);
    BagFits(b, after, cap);
    InCame(rules, ks, c, k);
    FilterHas(came[cap..], x => InSpan(x, r), k);
    if LeftOf(leaf, c) {
      assert HoldsBag(Ranks(view[leaf].f), Bag(b, after, cap), cap, false);
    }
  }

  /**
   A search finds a key just if the keys inserted so far say so. It does not matter which values they had, or where in
   the tree the search is led.
   */
  lemma SearchTells<V>(view: View<V>, rules: Rules, ks: seq<int>, k: int, leaf: nat)
    requires TreeOk(view, rules.bits, rules.root) && Tells(view, rules, ks, None)
    requires Searched(view, rules.root, rules.bits, k, leaf) && leaf in view && !view[leaf].split
    ensures ProperSpan(rules.root, rules.bits)
    ensures k in Ranks(view[leaf].f) <==> Findable(rules, ks, k)
  {
    hide AtLimit, Flattened, Tells, HeldOk, NodeShape, Bag, Middle, Findable, Halved, SearchHalf;
    RightsAreLeaves(view, rules, ks);
    var c := SearchIsAt(view, rules, k, leaf);
    SearchGoes(view, rules, k, c);
    NodeOf(view, rules.bits, rules.root, 1);
    if rules.Goes(k, c) {
      if c == leaf { FoundOpen(view, rules, ks, k, leaf); } else { FoundBelow(view, rules, ks, k, c, leaf); }
    } else {
      UnderRoot(c);
      AboveSplit(view, rules, c, 1);
      OpenAbove(rules, c, 1);
      OutsideLost(view, rules, ks, k);
      if c == leaf { NotCame(view, rules, ks, k, leaf); } else { OnlyCameBelow(view, rules, ks, k, c, leaf); }
    }
  }

  lemma NotCame<V>(view: View<V>, rules: Rules, ks: seq<int>, k: int, leaf: nat)
    requires Tells(view, rules, ks, None) && leaf in view && !view[leaf].split && rules.Open(leaf)
        && !rules.Goes(k, leaf)
    ensures k !in Ranks(view[leaf].f)
  {
    hide Sort, Tells, Filter, Flattened;
    TellsAt(view, rules, ks, None, leaf);
    SortKeeps(rules.Came(ks, leaf));
    InCame(rules, ks, leaf, k);
  }

  lemma RightsAreLeaves<V>(view: View<V>, rules: Rules, ks: seq<int>)
    requires Tells(view, rules, ks, None)
    ensures forall c :: c in view && rules.Open(c) && view[c].split && AtLimit(rules.RangeOf(c), rules.bits) ==>
                          2 * c + 1 in view && !view[2 * c + 1].split
  {
    hide Sort, Tells, Filter, Flattened, AtLimit, Bag;
    forall c | c in view && rules.Open(c) && view[c].split && AtLimit(rules.RangeOf(c), rules.bits)
      ensures 2 * c + 1 in view && !view[2 * c + 1].split
    {
      TellsAt(view, rules, ks, None, c);
    }
  }

  // What this comes to ---------------------------------------------------------------------------

  lemma {:induction false} ClosestNode<V>(view: View<V>, rules: Rules, c: nat) returns (n: nat)
    requires Shape(view, rules.bits, rules.root) && rules.Open(c)
    ensures n in view && n > 0 && rules.Open(n) && Under(c, n) && (n == c || !view[n].split)
  {
    hide ProperSpan, Sides, AtLimit;
    n := c;
    if c !in view {
      assert c > 1;
      n := ClosestNode(view, rules, c / 2);
      assert n == c / 2 ==> NodeShape(view, rules.bits, n);
      UnderLarger(c / 2, n);
    }
  }

  /** Short of the limit the keys inserted so far say which nodes have been split: those to which more came than fit. */
  lemma SplitIff<V>(view: View<V>, rules: Rules, ks: seq<int>, c: nat)
    requires TreeOk(view, rules.bits, rules.root) && Tells(view, rules, ks, None) && rules.Open(c)
    ensures c in view && view[c].split <==> |rules.Came(ks, c)| > rules.Cap()
  {
    hide AtLimit, Filter, Sort, Flattened, Tells, HeldOk, NodeShape, Bag;
    var n := ClosestNode(view, rules, c);
    TellsAt(view, rules, ks, None, n);
    CameLess(rules, ks, c, n);
    if c in view && c != n { AboveSplit(view, rules, c, n); }
  }

  lemma {:induction false} LessEnds(ks: seq<int>, k: int)
    ensures (forall x :: x in ks ==> x < k) ==> Less(ks, k) == |ks|
    ensures (forall x :: x in ks ==> k <= x) ==> Less(ks, k) == 0
  {
    if ks != [] {
      assert ks[0] in ks && forall x :: x in ks[1..] ==> x in ks;
      LessEnds(ks[1..], k);
    }
  }

  /**
   The keys that came to the cell of a key lie in its range, if the root can be halved or all keys lie in its range.
   */
  lemma CellRange(rules: Rules, ks: seq<int>, k: int)
    requires ProperSpan(rules.root, rules.bits) && InSpan(k, rules.root)
    requires AtLimit(rules.root, rules.bits) ==> forall x :: x in ks ==> InSpan(x, rules.root)
    ensures var c := rules.CellBelow(rules.root, 1, k); var r := rules.RangeOf(c);
            && rules.Goes(k, c) && AtLimit(r, rules.bits) && ProperSpan(r, rules.bits) && InSpan(k, r)
            && forall x :: x in rules.Came(ks, c) ==> InSpan(x, r)
  {
    hide AtLimit, Filter, ProperSpan, InSpan, Halved;
    var c := rules.CellBelow(rules.root, 1, k);
    GoesToCell(rules, k, 1);
    CellGoes(rules, k, c);
    CellEnds(rules, rules.root, 1, k);
    GoesOpen(rules, k, c);
    forall x | x in rules.Came(ks, c) ensures InSpan(x, rules.RangeOf(c)) {
      InCame(rules, ks, c, x);
      GoesOpen(rules, x, c);
    }
  }

  /** A key of a range has its cell at the limit. */
  lemma {:induction false} CellEnds(rules: Rules, r: Span, n: nat, k: int)
    requires ProperSpan(r, rules.bits) && InSpan(k, r) && r == rules.RangeOf(n) && n > 0
    ensures AtLimit(rules.RangeOf(rules.CellBelow(r, n, k)), rules.bits)
    decreases r.hi - r.lo
  {
    hide Avg, Word;
    LimitIff(r, rules.bits);
    if !AtLimit(r, rules.bits) {
      var child := ChildId(n, HalfFor(r, rules.bits, k));
      assert child / 2 == n && child > 1;
      CellEnds(rules, rules.RangeOf(child), child, k);
    }
  }

  /** What is found past the limit of the keys of a cell that lie in its range. */
  lemma FoundInRange(came: seq<int>, cap: nat, r: Span, bits: nat, k: int)
    requires ProperSpan(r, bits) && AtLimit(r, bits) && 1 <= cap < |came| && k in came
    requires forall x :: x in came ==> InSpan(x, r)
    ensures FoundPastLimit(came[..cap], Within(came[cap..], r), r, bits, k) <==>
              if k > Middle(r, bits) then k in came[..cap]
              else cap >= 4 || k in came[|came| - Batch(|came| - cap, cap)..]
  {
    hide AtLimit, Filter, Less, Batch, Middle, ProperSpan;
    var before, after := came[..cap], came[cap..];
    LimitIff(r, bits);
    LimitMiddle(r, bits);
    assert came == before + after && k in came;
    FilterAll(after, x => InSpan(x, r));
    assert InSpan(k, r);
    assert forall x :: x in before ==> InSpan(x, r);
    if k > Middle(r, bits) {
      LessEnds(before, k + 1);
    } else {
      LessEnds(before, k);
      assert after[|after| - Batch(|after|, cap)..] == came[|came| - Batch(|came| - cap, cap)..];
    }
  }

  /**
   When an inserted key is found: if its cell has not been split; or it is past the middle, and was there before; or it
   is not past the middle, and a node holds at least four pairs; or, where a node holds fewer, it came since the leaf to
   the left was last full. This is for roots that can be halved, or if all keys lie in the root's range.
   */
  lemma InsertedFindable(rules: Rules, ks: seq<int>, k: int)
    requires ProperSpan(rules.root, rules.bits) && InSpan(k, rules.root) && k in ks
    requires AtLimit(rules.root, rules.bits) ==> forall x :: x in ks ==> InSpan(x, rules.root)
    ensures var c := rules.CellBelow(rules.root, 1, k);
            var came, cap, r := rules.Came(ks, c), rules.Cap(), rules.RangeOf(c);
            Findable(rules, ks, k) <==>
              || |came| <= cap
              || if k > Middle(r, rules.bits) then k in came[..cap]
                 else rules.saturation >= 4 || k in came[|came| - Batch(|came| - cap, cap)..]
  {
    hide AtLimit, Filter, Batch, Middle, HalfFor, FoundPastLimit;
    var c := rules.CellBelow(rules.root, 1, k);
    var came, cap, r := rules.Came(ks, c), rules.Cap(), rules.RangeOf(c);
    CellRange(rules, ks, k);
    InCame(rules, ks, c, k);
    if |came| > cap { FoundInRange(came, cap, r, rules.bits, k); }
  }

  // A tree's beginning and its descents ----------------------------------------------------------

  lemma EmptyTells<V>(view: View<V>, rules: Rules)
    requires view == map[1 := NodeView(rules.root, false, [])]
    ensures Tells(view, rules, [], None)
  {
    NothingFlattened<(), V>();
  }

  lemma StartsComing(rules: Rules, k: int)
    ensures Coming(rules, k, 1)
  {
  }

  /** Only a key outside the root's range stays at a split node, and only at the root. */
  lemma StuckAtRoot<V>(view: View<V>, rules: Rules, k: int, m: nat)
    requires TreeOk(view, rules.bits, rules.root) && m in view && view[m].split
    requires Coming(rules, k, m) && ChildWith(view, m, k) == 0
    ensures m == 1 && !InSpan(k, rules.root)
  {
    hide HeldOk, Avg, Word, Shape;
    NodeOf(view, rules.bits, rules.root, m);
    HalvesOf(view, rules, m);
    LimitIff(view[m].bbox, rules.bits);
    if rules.Goes(k, m) {
      GoesOpen(rules, k, m);
    } else {
      var c: nat :| BelowCell(rules, k, m, c);
      LeftRange(rules, m, c);
    }
  }
}
