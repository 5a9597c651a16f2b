/** What has been inserted into a dense tree, and how the tree accounts for it. */
module DenseLogs {
  import opened NonEmptyVec
  import opened Multimap
  import opened BBoxes
  import opened NodeIds
  import opened Sums
  import opened TreeNodes
  import opened DenseViews
  import opened DenseSteps
  import opened DenseDescent

  type Log<V> = seq<(BBox, V)>

  ghost function LogPairs<V>(log: Log<V>, c: bool): multiset<(BBox, V)> {
    if log == [] then multiset{}
    else var n := |log| - 1; LogPairs(log[..n], c) + multiset{(Shown(log[n].0, c), log[n].1)}
  }

  lemma LogPushed<V>(log: Log<V>, k: BBox, v: V, c: bool)
    ensures LogPairs(log + [(k, v)], c) == LogPairs(log, c) + multiset{(Shown(k, c), v)}
  {
    assert (log + [(k, v)])[..|log|] == log;
  }

  lemma {:induction false} LogIsMultiset<V>(log: Log<V>)
    ensures LogPairs(log, false) == multiset(log)
  {
    if log != [] {
      var n := |log| - 1;
      LogIsMultiset(log[..n]);
      assert log == log[..n] + [log[n]];
    }
  }

  /** Boxes with the same corner are the same box, as all points are. */
  ghost predicate Lawful<V>(log: Log<V>) {
    forall i, j :: 0 <= i < |log| && 0 <= j < |log| && log[i].0.x == log[j].0.x && log[i].0.y == log[j].0.y ==>
                     log[i].0 == log[j].0
  }

  /** The same, for the logged boxes and one more. */
  ghost predicate LawfulWith<V>(log: Log<V>, k: BBox) {
    Lawful(log) && forall i :: 0 <= i < |log| && log[i].0.x == k.x && log[i].0.y == k.y ==> log[i].0 == k
  }

  ghost predicate InLog<V>(log: Log<V>, b: BBox) {
    exists i :: 0 <= i < |log| && log[i].0 == b
  }

  /**
   The tree has the pairs that were inserted, by corner; every box in it was inserted; and if equal corners mean
   equal boxes, it has the pairs that were inserted, by box.
   */
  ghost predicate Logged<V>(view: View<V>, log: Log<V>) {
    && AllPairs(view, true) == LogPairs(log, true)
    && (forall p :: p in AllPairs(view, false) ==> InLog(log, p.0))
    && (Lawful(log) ==> AllPairs(view, false) == LogPairs(log, false))
  }

  lemma {:induction false} LiftHas<V>(ps: seq<(Key<Size>, V)>, bbox: BBox, c: bool, i: nat)
    requires i < |ps|
    ensures (Shown(Abs(ps[i].0, bbox), c), ps[i].1) in Lift(ps, bbox, c)
  {
    hide Abs, Shown;
    var n := |ps| - 1;
    if i < n { LiftHas(ps[..n], bbox, c, i); }
  }

  /** Every key of a node shows, with its first value. */
  lemma {:induction false} KeyShows<V>(f: Held<V>, bbox: BBox, i: nat, c: bool) returns (p: (BBox, V))
    requires i < |f|
    ensures p in PairsIn(f, bbox, c) && p == (Shown(Abs(f[i].key, bbox), c), f[i].items.front)
  {
    hide Abs, Lift, Shown;
    PairsInFirst(f, bbox, c);
    if i == 0 {
      var items := f[0].items.Items();
      LiftHas(Pairs(f[0].key, items), bbox, c, 0);
      p := (Shown(Abs(f[0].key, bbox), c), items[0]);
    } else {
      p := KeyShows(f[1..], bbox, i - 1, c);
    }
  }

  lemma NodePairInAll<V>(view: View<V>, n: nat, c: bool, p: (BBox, V))
    requires n in view && p in PairsIn(view[n].f, view[n].bbox, c)
    ensures p in AllPairs(view, c)
  {
    hide PairsIn;
    UnionRemove(NodePairs(view, c), n);
  }

  /** After an addition, a box in the tree is the new one, or was there before. */
  lemma AddedBoxes<V>(view: View<V>, n: nat, key: Key<Size>, v: V, p: (BBox, V))
    requires n in view && Sorted(view[n].f) && p in AllPairs(AddAt(view, n, key, v), false)
    ensures p.0 == Abs(key, view[n].bbox) || exists q :: q in AllPairs(view, false) && q.0 == p.0
  {
    hide Lift, Flattened, Abs, Sorted;
    var f, bbox := view[n].f, view[n].bbox;
    var m := UnionMember(NodePairs(AddAt(view, n, key, v), false), p);
    if m != n {
      NodePairInAll(view, m, false, p);
    } else {
      AddedSorted(f, key, v);
      var g := Added(f, key, v);
      var i := LiftFrom(Flattened(g), bbox, false, p);
      FlattenedNondecreasing(g);
      assert Flattened(g)[i] in Flattened(g);
      var e :| e in g && e.key == Flattened(g)[i].0;
      var j :| 0 <= j < |g| && g[j] == e;
      AddedKeys(f, key, v, j);
      if g[j].key != key {
        var l :| 0 <= l < |f| && f[l].key == g[j].key;
        var q := KeyShows(f, bbox, l, false);
        NodePairInAll(view, n, false, q);
      }
    }
  }

  /** In a lawful log, a key meets only keys that show alike. */
  lemma LawfulAlike<V>(view: View<V>, root: BBox, log: Log<V>, n: nat, k: BBox, v: V)
    requires TreeOk(view, root) && Logged(view, log) && n in view
    requires Proper(k) && Contains(view[n].bbox, k) && Lawful(log + [(k, v)])
    ensures ShowsAlike(view[n].f, InteriorDelta(k, view[n].bbox), view[n].bbox, false)
  {
    hide Lift, Flattened, AllPairs, PairsIn, Shape, KeyOk;
    var f, bbox, key := view[n].f, view[n].bbox, InteriorDelta(k, view[n].bbox);
    TreeNodeOk(view, root, n);
    AbsoluteDelta(k, bbox);
    forall i | 0 <= i < |f| && f[i].key.rank == key.rank ensures Abs(f[i].key, bbox) == Abs(key, bbox) {
      SameCorner(f[i].key, key, bbox);
      var p := KeyShows(f, bbox, i, false);
      NodePairInAll(view, n, false, p);
      var j :| 0 <= j < |log| && log[j].0 == p.0;
      var all := log + [(k, v)];
      assert all[j] == log[j] && all[|log|].0 == k;
    }
  }

  /** Adding an inserted pair where it belongs keeps the account. */
  lemma AddLogged<V>(view: View<V>, root: BBox, log: Log<V>, n: nat, k: BBox, v: V)
    requires TreeOk(view, root) && Logged(view, log) && n in view
    requires Proper(k) && Contains(view[n].bbox, k)
    ensures Logged(AddAt(view, n, InteriorDelta(k, view[n].bbox), v), log + [(k, v)])
  {
    hide PairsIn, Union, Lift, NodePairs, Shape, HeldOk, LogPairs, AllPairs, AddAt, InLog, Lawful;
    var bbox, key := view[n].bbox, InteriorDelta(k, view[n].bbox);
    var view', log' := AddAt(view, n, key, v), log + [(k, v)];
    TreeNodeOk(view, root, n);
    AbsoluteDelta(k, bbox);
    CornersAlike(view[n].f, key, bbox);
    AddAtPairs(view, n, key, v, true);
    LogPushed(log, k, v, true);
    LogGrows(log, k, v);
    forall p | p in AllPairs(view', false) ensures InLog(log', p.0) {
      AddedSortedHere(view, n);
      AddedBoxes(view, n, key, v, p);
    }
    if Lawful(log') {
      LawfulAlike(view, root, log, n, k, v);
      AddAtPairs(view, n, key, v, false);
      LogPushed(log, k, v, false);
    }
  }

  lemma AddedSortedHere<V>(view: View<V>, n: nat)
    requires n in view && HeldOk(view, n)
    ensures Sorted(view[n].f)
  {
  }

  lemma LogGrows<V>(log: Log<V>, k: BBox, v: V)
    ensures InLog(log + [(k, v)], k)
    ensures forall b :: InLog(log, b) ==> InLog(log + [(k, v)], b)
    ensures Lawful(log + [(k, v)]) ==> Lawful(log)
  {
    var all := log + [(k, v)];
    assert all[|log|].0 == k;
    forall b | InLog(log, b) ensures InLog(all, b) {
      var i :| 0 <= i < |log| && log[i].0 == b;
      assert all[i].0 == b;
    }
    if Lawful(all) {
      forall i | 0 <= i < |log| ensures all[i] == log[i] {}
    }
  }

  lemma {:induction false} LogFrom<V>(log: Log<V>, c: bool, p: (BBox, V)) returns (i: nat)
    requires p in LogPairs(log, c)
    ensures i < |log| && p == (Shown(log[i].0, c), log[i].1)
  {
    var n := |log| - 1;
    if p == (Shown(log[n].0, c), log[n].1) {
      i := n;
    } else {
      i := LogFrom(log[..n], c, p);
    }
  }

  lemma {:induction false} LogHas<V>(log: Log<V>, c: bool, i: nat)
    requires i < |log|
    ensures (Shown(log[i].0, c), log[i].1) in LogPairs(log, c)
  {
    hide Shown;
    var n := |log| - 1;
    if i < n { LogHas(log[..n], c, i); }
  }

  // Inserts that never end -----------------------------------------------------------------------

  /** Where equal corners mean equal boxes, the log tells which inserts never end. */
  lemma NeverEndsLogged<V(!new)>(view: View<V>, log: Log<V>, k: BBox, saturation: nat)
    requires Logged(view, log) && Lawful(log)
    ensures NeverEnds(view, k, saturation) <==> Small(k) && Crowded(multiset(log), k, saturation)
  {
    LogIsMultiset(log);
  }

  /** A tree that holds one box some number of times is made by inserting it that often. */
  lemma {:induction false} CopiesLogged<V>(root: BBox, k: BBox, v: V, count: nat)
    requires Proper(root) && Proper(k) && Contains(root, k)
    ensures TreeOk(Copies(root, k, v, count), root)
    ensures Logged(Copies(root, k, v, count), seq(count, _ => (k, v)))
  {
    hide Logged, Copies, AddAt, Contains, InteriorDelta, TreeOk, KeyOk, Proper;
    if count == 0 {
      NoCopies(root, k, v);
    } else {
      var before := Copies(root, k, v, count - 1);
      CopiesLogged(root, k, v, count - 1);
      CopyInserted(root, k, v, count - 1, count - 1);
      CopiesAt(root, k, v, count - 1);
      AddLogged(before, root, seq(count - 1, _ => (k, v)), 1, k, v);
      assert seq(count - 1, _ => (k, v)) + [(k, v)] == seq(count, _ => (k, v));
      AddAtOk(before, root, 1, InteriorDelta(k, root), v);
    }
  }

  lemma CopiesAt<V>(root: BBox, k: BBox, v: V, count: nat)
    requires Proper(root) && Proper(k) && Contains(root, k)
    ensures var view := Copies(root, k, v, count);
            1 in view && view[1].bbox == root && KeyOk(view, 1, InteriorDelta(k, root))
  {
    AbsoluteDelta(k, root);
  }

  lemma NoCopies<V>(root: BBox, k: BBox, v: V)
    requires Proper(root)
    ensures TreeOk(Copies(root, k, v, 0), root)
    ensures Logged(Copies(root, k, v, 0), seq(0, _ => (k, v)))
  {
    var view := Copies(root, k, v, 0);
    assert NodeShape(view, 1) && HeldOk(view, 1);
    UnionEmpty(NodePairs(view, true));
    UnionEmpty(NodePairs(view, false));
    assert seq(0, _ => (k, v)) == [];
  }

  /** With one small box once more than a node may hold, inserting the box again never ends. */
  lemma CopiesNeverEnd<V(!new)>(root: BBox, k: BBox, v: V, saturation: nat, n: nat)
    requires Proper(root) && Proper(k) && Contains(root, k) && Small(k)
    ensures TreeOk(Copies(root, k, v, saturation + 1), root)
    ensures Logged(Copies(root, k, v, saturation + 1), seq(saturation + 1, _ => (k, v)))
    ensures RunsFor(Spot(Copies(root, k, v, saturation + 1), 1), k, saturation, n)
  {
    hide Logged, Small, Contains, TreeOk, Proper, Copies;
    var view, log := Copies(root, k, v, saturation + 1), seq(saturation + 1, _ => (k, v));
    CopiesLogged(root, k, v, saturation + 1);
    NeverEndsLogged(view, log, k, saturation);
    assert |multiset(log)| == |log|;
    assert Crowded(multiset(log), k, saturation);
    StartsHere(view, root, k);
    RunsForever(Spot(view, 1), root, k, saturation, n);
  }

  lemma StartsHere<V>(view: View<V>, root: BBox, k: BBox)
    requires TreeOk(view, root) && Proper(k) && Contains(root, k)
    ensures OnTheWay(Spot(view, 1), root, k)
  {
  }
}
