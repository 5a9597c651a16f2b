/**
 The nodes of a tree and the pages they keep their children on. Storage is taken as a map from page ids to what the
 pages hold. The same node can be seen as what it stands for: its box, whether it has been split, and a multimap.
 */
module TreeNodes {
  import opened Wrappers
  import opened NonEmptyVec
  import opened Multimap
  import opened Vec = BTreeVec
  import opened BTreeVecApi

  /** What a node stands for. */
  datatype NodeView<B, E, V> = NodeView(bbox: B, split: bool, f: seq<Entry<E, V>>)

  /** A node as it is kept. */
  datatype TreeNode<B> = TreeNode(bbox: B, pageId: Option<nat>, childrenCount: nat, split: bool)

  ghost function LenOf<E, V>(f: seq<Entry<E, V>>): nat {
    |Flattened(f)|
  }

  /** What a page holds: the node's children, and how many pairs they are. */
  datatype Inner<E, V> = Inner(children: Node<E, V>, len: nat)

  // Children -------------------------------------------------------------------------------------

  ghost predicate InnerHolds<E, V>(inner: Inner<E, V>, f: seq<Entry<E, V>>) {
    WellFormed(inner.children) && Flat(inner.children) == f && inner.len == LenOf(f)
  }

  function NoChildren<E, V>(): (inner: Inner<E, V>)
    ensures InnerHolds(inner, [])
  {
    Inner(Node([], []), 0)
  }

  method PushChild<E, V>(inner: Inner<E, V>, key: Key<E>, v: V, ghost f: seq<Entry<E, V>>) returns (r: Inner<E, V>)
    requires InnerHolds(inner, f)
    ensures InnerHolds(r, Added(f, key, v))
  {
    var children := PushInto(inner.children, key, v);
    r := Inner(children, inner.len + 1);
    AddedLength(f, key, v);
  }

  // Nodes and pages ------------------------------------------------------------------------------

  type Pages<E, V> = map<nat, Inner<E, V>>

  /** A node's page holds what the node does, and `childrenCount` is the number of pairs there. */
  ghost predicate Mirrors<B, E, V>(node: TreeNode<B>, pages: Pages<E, V>, nv: NodeView<B, E, V>) {
    && nv.bbox == node.bbox && nv.split == node.split
    && match node.pageId {
         case None => nv.f == []
         case Some(p) => p in pages && InnerHolds(pages[p], nv.f) && node.childrenCount == LenOf(nv.f)
       }
  }

  ghost predicate AllMirror<B, E, V>(nodes: map<nat, TreeNode<B>>, pages: Pages<E, V>, lowest: nat,
      view: map<nat, NodeView<B, E, V>>)
  {
    && nodes.Keys == view.Keys
    && (forall n {:trigger nodes[n]} :: n in nodes ==> Mirrors(nodes[n], pages, view[n]))
    && (forall m, n :: m in nodes && n in nodes && m != n && nodes[m].pageId.Some? ==>
          nodes[m].pageId != nodes[n].pageId)
    && (forall p :: p in pages ==> p < lowest)
  }

  /** Writing a node's own page changes what that node holds, and no other. */
  lemma PageWritten<B, E, V>(nodes: map<nat, TreeNode<B>>, pages: Pages<E, V>, lowest: nat,
      view: map<nat, NodeView<B, E, V>>, n: nat,
                       inner: Inner<E, V>, node: TreeNode<B>, nv: NodeView<B, E, V>)
    requires AllMirror(nodes, pages, lowest, view) && n in nodes && nodes[n].pageId.Some?
    requires node.pageId == nodes[n].pageId || node.pageId == None
    requires Mirrors(node, pages[nodes[n].pageId.value := inner], nv)
    ensures nodes[n].pageId.value in pages
    ensures AllMirror(nodes[n := node], pages[nodes[n].pageId.value := inner], lowest, view[n := nv])
  {
    hide InnerHolds, LenOf;
    assert Mirrors(nodes[n], pages, view[n]);
    forall m | m in nodes && m != n ensures Mirrors(nodes[m], pages[nodes[n].pageId.value := inner], view[m]) {
      assert Mirrors(nodes[m], pages, view[m]);
    }
  }

  /** A page of its own, new in storage, for a node that had none. */
  lemma PageAdded<B, E, V>(nodes: map<nat, TreeNode<B>>, pages: Pages<E, V>, lowest: nat,
      view: map<nat, NodeView<B, E, V>>, n: nat,
                     inner: Inner<E, V>, node: TreeNode<B>, nv: NodeView<B, E, V>)
    requires AllMirror(nodes, pages, lowest, view) && (n in nodes ==> nodes[n].pageId == None)
    requires node.pageId == Some(lowest) && Mirrors(node, pages[lowest := inner], nv)
    ensures AllMirror(nodes[n := node], pages[lowest := inner], lowest + 1, view[n := nv])
  {
    hide InnerHolds, LenOf;
    forall m | m in nodes && m != n
      ensures Mirrors(nodes[m], pages[lowest := inner], view[m]) && nodes[m].pageId != Some(lowest)
    {
      assert Mirrors(nodes[m], pages, view[m]);
    }
  }

  /** A node without a page, new or as it was. */
  lemma NodeAdded<B, E, V>(nodes: map<nat, TreeNode<B>>, pages: Pages<E, V>, lowest: nat,
      view: map<nat, NodeView<B, E, V>>, n: nat,
                     node: TreeNode<B>, nv: NodeView<B, E, V>)
    requires AllMirror(nodes, pages, lowest, view) && (n in nodes ==> nodes[n].pageId == None)
    requires node.pageId == None && Mirrors(node, pages, nv)
    ensures AllMirror(nodes[n := node], pages, lowest, view[n := nv])
  {
    hide InnerHolds, LenOf;
    forall m | m in nodes && m != n ensures Mirrors(nodes[m], pages, view[m]) {
      assert Mirrors(nodes[m], pages, view[m]);
    }
  }

  /** A tree that has grown: no node has moved, and none that was split is whole again. */
  ghost predicate Extends<B, E, V>(view: map<nat, NodeView<B, E, V>>, view': map<nat, NodeView<B, E, V>>) {
    forall n :: n in view ==> n in view' && view'[n].bbox == view[n].bbox && (view[n].split ==> view'[n].split)
  }

  ghost predicate SameNodes<B, E, V>(nodes: map<nat, TreeNode<B>>, view: map<nat, NodeView<B, E, V>>) {
    && nodes.Keys == view.Keys
    && forall n :: n in nodes ==> nodes[n].bbox == view[n].bbox && nodes[n].split == view[n].split
  }

  lemma EmptyHeld<E, V>(f: seq<Entry<E, V>>)
    ensures LenOf(f) == 0 <==> f == []
  {
    if f != [] { assert |Pairs(f[0].key, f[0].items.Items())| > 0; }
  }

  lemma HoldsLen<E, V>(inner: Inner<E, V>, f: seq<Entry<E, V>>)
    requires InnerHolds(inner, f)
    ensures inner.len == LenOf(f)
  {
  }

  lemma SameKeys<B, E, V>(nodes: map<nat, TreeNode<B>>, pages: Pages<E, V>, lowest: nat,
      view: map<nat, NodeView<B, E, V>>)
    requires AllMirror(nodes, pages, lowest, view)
    ensures nodes.Keys == view.Keys
  {
  }

  lemma MirrorOf<B, E, V>(nodes: map<nat, TreeNode<B>>, pages: Pages<E, V>, lowest: nat,
      view: map<nat, NodeView<B, E, V>>, n: nat)
    requires AllMirror(nodes, pages, lowest, view) && n in nodes
    ensures n in view && Mirrors(nodes[n], pages, view[n])
  {
  }

  lemma HoldsNode<E, V>(inner: Inner<E, V>, f: seq<Entry<E, V>>)
    requires InnerHolds(inner, f)
    ensures WellFormed(inner.children) && Flat(inner.children) == f
  {
  }

  lemma MirrorsSameNodes<B, E, V>(nodes: map<nat, TreeNode<B>>, pages: Pages<E, V>, lowest: nat,
      view: map<nat, NodeView<B, E, V>>)
    requires AllMirror(nodes, pages, lowest, view)
    ensures SameNodes(nodes, view)
  {
    forall n | n in nodes ensures nodes[n].bbox == view[n].bbox && nodes[n].split == view[n].split {
      assert Mirrors(nodes[n], pages, view[n]);
    }
  }
}
