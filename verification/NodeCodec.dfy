/**
 How the structure of a dense tree is written: each node as its page, its count and whether it is split, then its
 halves. No box but the root's is written, for the reader works the others out as the tree did.
 */
module NodeCodecs {
  import opened Wrappers
  import opened Bytes
  import opened Powers
  import opened BBoxes
  import opened NodeIds
  import opened TreeNodes
  import opened DenseViews
  import opened Varints

  type Nodes = map<nat, TreeNode<BBox>>

  const U8 := 8
  const USIZE := 64
  const I32 := 32
  const ID_BYTES := 8

  // The tree's own invariant, as far as it matters here ------------------------------------------

  /** A node's parent is split, and a split node's halves are the halves of its box. */
  ghost predicate NodeFits(nodes: Nodes, n: nat)
    requires n in nodes
  {
    && n >= 1
    && (n > 1 ==> n / 2 in nodes && nodes[n / 2].split)
    && (nodes[n].split ==>
          && 2 * n in nodes && 2 * n + 1 in nodes
          && nodes[2 * n].bbox == SplitOnAxis(nodes[n].bbox, AxisAt(n)).0
          && nodes[2 * n + 1].bbox == SplitOnAxis(nodes[n].bbox, AxisAt(n)).1)
    && (nodes[n].pageId.Some? ==> 0 < nodes[n].pageId.value < Pow256(ID_BYTES))
    && nodes[n].childrenCount < Pow2(USIZE)
  }

  ghost predicate Fits(nodes: Nodes) {
    forall n {:trigger NodeFits(nodes, n)} :: n in nodes ==> NodeFits(nodes, n)
  }

  /** Every tree that `StoredTree` keeps has the shape that this needs. */
  lemma TreeFits<V>(nodes: Nodes, pages: Pages<Size, V>, lowest: nat, view: View<V>, root: BBox)
    requires AllMirror(nodes, pages, lowest, view) && TreeOk(view, root)
    requires forall n :: n in nodes ==>
                           && nodes[n].childrenCount < Pow2(USIZE)
                           && (nodes[n].pageId.Some? ==> 0 < nodes[n].pageId.value < Pow256(ID_BYTES))
    ensures Fits(nodes) && 1 in nodes && nodes[1].bbox == root
  {
    hide Avg, HeldOk, InnerHolds, LenOf, Proper, Pow2, Pow256, SplitOnAxis;
    forall n | n in nodes ensures NodeFits(nodes, n) {
      MirrorOf(nodes, pages, lowest, view, n);
      assert NodeShape(view, n);
      if n > 1 { MirrorOf(nodes, pages, lowest, view, n / 2); }
      if nodes[n].split {
        MirrorOf(nodes, pages, lowest, view, 2 * n);
        MirrorOf(nodes, pages, lowest, view, 2 * n + 1);
        assert NodeShape(view, 2 * n) && NodeShape(view, 2 * n + 1);
      }
    }
    MirrorOf(nodes, pages, lowest, view, 1);
  }

  lemma FitsAt(nodes: Nodes, n: nat)
    requires Fits(nodes) && n in nodes
    ensures NodeFits(nodes, n)
  {
  }

  // Nodes ----------------------------------------------------------------------------------------

  function IdOf(pageId: Option<nat>): nat {
    if pageId.Some? then pageId.value else 0
  }

  /** A node without a page is written as having no children. */
  function CountOf(node: TreeNode<BBox>): nat {
    if node.pageId.Some? then node.childrenCount else 0
  }

  function Header(node: TreeNode<BBox>): seq<Byte> {
    BigEndian(IdOf(node.pageId), ID_BYTES) + (Varint(CountOf(node)) + Varint(if node.split then 1 else 0))
  }

  ghost function Later(nodes: Nodes, n: nat): set<nat> {
    set m | m in nodes && m > n
  }

  lemma HalvesLater(nodes: Nodes, n: nat)
    requires Fits(nodes) && n in nodes && nodes[n].split
    ensures 2 * n in nodes && 2 * n + 1 in nodes
    ensures Later(nodes, 2 * n) < Later(nodes, n) && Later(nodes, 2 * n + 1) < Later(nodes, n)
  {
    hide SplitOnAxis, Pow2, Pow256;
    assert NodeFits(nodes, n);
    assert 2 * n in Later(nodes, n) && 2 * n !in Later(nodes, 2 * n);
    assert 2 * n + 1 in Later(nodes, n) && 2 * n + 1 !in Later(nodes, 2 * n + 1);
  }

  function EncodeNode(nodes: Nodes, n: nat): seq<Byte>
    requires n in nodes && Fits(nodes)
    decreases Later(nodes, n)
  {
    if nodes[n].split then
      HalvesLater(nodes, n);
      Header(nodes[n]) + (EncodeNode(nodes, 2 * n) + EncodeNode(nodes, 2 * n + 1))
    else Header(nodes[n])
  }

  datatype NodeHeader = NodeHeader(pageId: Option<nat>, count: nat, split: bool)

  function DecodeHeader(bs: seq<Byte>): (r: Option<(NodeHeader, seq<Byte>)>)
    ensures r.Some? ==> |r.value.1| < |bs|
  {
    if |bs| < ID_BYTES then None
    else
      var id := FromBigEndian(bs[..ID_BYTES]);
      match Decoded(bs[ID_BYTES..], USIZE)
      case None => None
      case Some((count, rest)) =>
        match Decoded(rest, U8)
        case None => None
        case Some((flag, rest')) => Some((NodeHeader(if id == 0 then None else Some(id), count, flag != 0), rest'))
  }

  function Joined(n: nat, node: TreeNode<BBox>, left: Nodes, right: Nodes): Nodes {
    map[n := node] + left + right
  }

  function DecodeNode(bs: seq<Byte>, n: nat, bbox: BBox, axis: Axis): (r: Option<(Nodes, seq<Byte>)>)
    ensures r.Some? ==> |r.value.1| < |bs|
    decreases |bs|
  {
    match DecodeHeader(bs)
    case None => None
    case Some((h, rest)) =>
      var node := TreeNode(bbox, h.pageId, h.count, h.split);
      if !h.split then Some((map[n := node], rest))
      else
        var halves := SplitOnAxis(bbox, axis);
        match DecodeNode(rest, 2 * n, halves.0, NextAxis(axis))
        case None => None
        case Some((left, rest')) =>
          match DecodeNode(rest', 2 * n + 1, halves.1, NextAxis(axis))
          case None => None
          case Some((right, rest'')) => Some((Joined(n, node, left, right), rest''))
  }

  /** What is kept of a node, and of everything below a node. */
  function Kept(node: TreeNode<BBox>): TreeNode<BBox> {
    node.(childrenCount := CountOf(node))
  }

  ghost function Subtree(nodes: Nodes, n: nat): Nodes {
    map m | m in nodes && Under(m, n) :: Kept(nodes[m])
  }

  lemma {:induction false} BigEndianStarts(v: nat, rest: seq<Byte>)
    requires v < Pow256(ID_BYTES)
    ensures var bs := BigEndian(v, ID_BYTES) + rest;
            |bs| >= ID_BYTES && FromBigEndian(bs[..ID_BYTES]) == v && bs[ID_BYTES..] == rest
  {
    hide BigEndian, FromBigEndian, Pow256;
    BigEndianRoundTrip(v, ID_BYTES);
    assert (BigEndian(v, ID_BYTES) + rest)[..ID_BYTES] == BigEndian(v, ID_BYTES);
  }

  lemma FlagFits(b: bool)
    ensures (if b then 1 else 0) < Pow2(U8)
  {
    Pow2Monotone(1, U8);
  }

  lemma HeaderRoundTrip(node: TreeNode<BBox>, rest: seq<Byte>)
    requires (node.pageId.Some? ==> 0 < node.pageId.value < Pow256(ID_BYTES)) && node.childrenCount < Pow2(USIZE)
    ensures DecodeHeader(Header(node) + rest) == Some((NodeHeader(node.pageId, CountOf(node), node.split), rest))
  {
    hide Pow2, Decoded, Varint, BigEndian, FromBigEndian, Pow256;
    var flag := if node.split then 1 else 0;
    var counted := Varint(CountOf(node)) + (Varint(flag) + rest);
    assert Header(node) + rest == BigEndian(IdOf(node.pageId), ID_BYTES) + counted;
    BigEndianStarts(IdOf(node.pageId), counted);
    RoundTrip(CountOf(node), Varint(flag) + rest, USIZE);
    FlagFits(node.split);
    RoundTrip(flag, rest, U8);
  }

  /** Below a split node are the node itself and what is below its halves; a leaf is alone. */
  lemma SubtreeParts(nodes: Nodes, n: nat)
    requires Fits(nodes) && n in nodes
    ensures nodes[n].split ==>
              && n !in Subtree(nodes, 2 * n) && n !in Subtree(nodes, 2 * n + 1)
              && Subtree(nodes, n) == map[n := Kept(nodes[n])] + Subtree(nodes, 2 * n) + Subtree(nodes, 2 * n + 1)
    ensures !nodes[n].split ==> Subtree(nodes, n) == map[n := Kept(nodes[n])]
  {
    hide Kept, Pow2, Pow256, SplitOnAxis;
    assert NodeFits(nodes, n);
    forall m | m in nodes && Under(m, n) && m != n
      ensures nodes[n].split && (Under(m, 2 * n) || Under(m, 2 * n + 1))
    {
      UnderSteps(m, n);
      var c := if Under(m, 2 * n) then 2 * n else 2 * n + 1;
      AboveIn(nodes, m, c);
      assert NodeFits(nodes, c);
    }
    forall m | Under(m, 2 * n) || Under(m, 2 * n + 1) ensures Under(m, n) && m != n {
      var c := if Under(m, 2 * n) then 2 * n else 2 * n + 1;
      UnderLarger(m, c);
      UnderTrans(m, c, n);
    }
    var parts := map[n := Kept(nodes[n])] + Subtree(nodes, 2 * n) + Subtree(nodes, 2 * n + 1);
    if nodes[n].split {
      assert Subtree(nodes, n).Keys == parts.Keys;
    }
  }

  lemma {:induction false} AboveIn(nodes: Nodes, m: nat, n: nat)
    requires Fits(nodes) && m in nodes && Under(m, n) && n > 0
    ensures n in nodes
  {
    if m != n {
      UnderLarger(m / 2, n);
      assert NodeFits(nodes, m);
      AboveIn(nodes, m / 2, n);
    }
  }

  lemma EncodedParts(nodes: Nodes, n: nat, rest: seq<Byte>)
    requires n in nodes && Fits(nodes) && nodes[n].split
    ensures 2 * n in nodes && 2 * n + 1 in nodes
    ensures EncodeNode(nodes, n) + rest
            == Header(nodes[n]) + (EncodeNode(nodes, 2 * n) + (EncodeNode(nodes, 2 * n + 1) + rest))
  {
    hide Header, Later, Fits;
    HalvesLater(nodes, n);
  }

  /** Every tree of nodes is read back as it was, boxes and all, and exactly the bytes written are read. */
  lemma {:induction false} NodeRoundTrip(nodes: Nodes, n: nat, rest: seq<Byte>)
    requires Fits(nodes) && n in nodes
    ensures DecodeNode(EncodeNode(nodes, n) + rest, n, nodes[n].bbox, AxisAt(n)) == Some((Subtree(nodes, n), rest))
    decreases Later(nodes, n)
  {
    hide Header, DecodeHeader, SplitOnAxis, Subtree, Pow2, Pow256, Later, Fits, Under;
    assert NodeFits(nodes, n) by { FitsAt(nodes, n); }
    SubtreeParts(nodes, n);
    if nodes[n].split {
      HalvesLater(nodes, n);
      var left, right := EncodeNode(nodes, 2 * n), EncodeNode(nodes, 2 * n + 1);
      HeaderRoundTrip(nodes[n], left + (right + rest));
      EncodedParts(nodes, n, rest);
      NodeRoundTrip(nodes, 2 * n, right + rest);
      NodeRoundTrip(nodes, 2 * n + 1, rest);
    } else {
      HeaderRoundTrip(nodes[n], rest);
    }
  }

  // The root's box -------------------------------------------------------------------------------

  function Corner(x: int, y: int): seq<Byte>
    requires Word(x, I32) && Word(y, I32)
  {
    Varint(Zigzag(x, I32)) + Varint(Zigzag(y, I32))
  }

  predicate BoxSigned(b: BBox) {
    Word(b.x, I32) && Word(b.y, I32) && Word(b.xEnd, I32) && Word(b.yEnd, I32)
  }

  /** A point is written as one corner, any other box as two. */
  function EncodeBox(b: BBox): seq<Byte>
    requires BoxSigned(b)
  {
    if b.x == b.xEnd && b.y == b.yEnd then [0] + Corner(b.x, b.y)
    else [1] + (Corner(b.x, b.y) + Corner(b.xEnd, b.yEnd))
  }

  function DecodeCorner(bs: seq<Byte>): Option<((int, int), seq<Byte>)> {
    match Decoded(bs, I32)
    case None => None
    case Some((x, rest)) =>
      match Decoded(rest, I32)
      case None => None
      case Some((y, rest')) => Some(((Unzigzag(x, I32), Unzigzag(y, I32)), rest'))
  }

  function DecodeBox(bs: seq<Byte>): Option<(BBox, seq<Byte>)> {
    if bs == [] then None
    else match DecodeCorner(bs[1..])
      case None => None
      case Some(((x, y), rest)) =>
        if bs[0] != 1 then Some((BBox(x, y, x, y), rest))
        else match DecodeCorner(rest)
          case None => None
          case Some(((xEnd, yEnd), rest')) => Some((BBox(x, y, xEnd, yEnd), rest'))
  }

  lemma CornerRoundTrip(x: int, y: int, rest: seq<Byte>)
    requires Word(x, I32) && Word(y, I32)
    ensures DecodeCorner(Corner(x, y) + rest) == Some(((x, y), rest))
  {
    hide Word, Decoded, Varint, Zigzag, Unzigzag;
    assert Corner(x, y) + rest == Varint(Zigzag(x, I32)) + (Varint(Zigzag(y, I32)) + rest);
    SignedRoundTrip(x, Varint(Zigzag(y, I32)) + rest, I32);
    SignedRoundTrip(y, rest, I32);
  }

  lemma BoxRoundTrip(b: BBox, rest: seq<Byte>)
    requires BoxSigned(b)
    ensures DecodeBox(EncodeBox(b) + rest) == Some((b, rest))
  {
    hide Corner, DecodeCorner, Word;
    var bs := EncodeBox(b) + rest;
    if b.x == b.xEnd && b.y == b.yEnd {
      assert bs[1..] == Corner(b.x, b.y) + rest;
      CornerRoundTrip(b.x, b.y, rest);
    } else {
      assert bs[1..] == Corner(b.x, b.y) + (Corner(b.xEnd, b.yEnd) + rest);
      CornerRoundTrip(b.x, b.y, Corner(b.xEnd, b.yEnd) + rest);
      CornerRoundTrip(b.xEnd, b.yEnd, rest);
    }
  }

  function DecodeRoot(bs: seq<Byte>): Option<(Nodes, seq<Byte>)> {
    match DecodeBox(bs)
    case None => None
    case Some((root, rest)) => DecodeNode(rest, 1, root, FIRST_AXIS)
  }

  /** The whole structure, box and nodes, comes back. */
  lemma RootRoundTrip(nodes: Nodes, rest: seq<Byte>)
    requires Fits(nodes) && 1 in nodes && BoxSigned(nodes[1].bbox)
    ensures DecodeRoot(EncodeBox(nodes[1].bbox) + EncodeNode(nodes, 1) + rest)
            == Some((map n | n in nodes :: Kept(nodes[n]), rest))
  {
    hide EncodeNode, DecodeNode, EncodeBox, DecodeBox, BoxSigned;
    var body := EncodeNode(nodes, 1) + rest;
    assert EncodeBox(nodes[1].bbox) + EncodeNode(nodes, 1) + rest == EncodeBox(nodes[1].bbox) + body;
    BoxRoundTrip(nodes[1].bbox, body);
    NodeRoundTrip(nodes, 1, rest);
    forall n | n in nodes ensures Under(n, 1) {
      assert NodeFits(nodes, n);
      UnderRoot(n);
    }
    assert Subtree(nodes, 1) == map n | n in nodes :: Kept(nodes[n]);
  }
}
