/**
 A node's page: what a dense tree has at a node, as the codec by which the page is stored. A decoder that has enough
 bytes is not swayed by more, and so it has too few exactly when it has only the start of an encoding.
 */
module NodePages {
  import opened Wrappers
  import opened Bytes
  import opened Powers
  import opened Multimap
  import opened BBoxes
  import opened TreeNodes
  import opened Varints
  import opened InnerCodecs
  import opened DenseViews
  import opened PageGraph
  import opened Layout
  import opened Pages
  import opened PagedStorages

  /** More bytes change nothing of what was decoded, and are left over. */
  ghost predicate Steady<X>(before: Option<(X, seq<Byte>)>, after: Option<(X, seq<Byte>)>, more: seq<Byte>) {
    before.Some? ==> after == Some((before.value.0, before.value.1 + more))
  }

  ghost predicate SteadyValues<V(!new)>(codec: ValueCodec<V>) {
    forall bs, bbox, more :: Steady(codec.decode(bs, bbox), codec.decode(bs + more, bbox), more)
  }

  lemma {:induction false} SteadyFrom(bs: seq<Byte>, value: nat, width: nat, more: seq<Byte>)
    ensures Steady(DecodedFrom(bs, value, width), DecodedFrom(bs + more, value, width), more)
    decreases |bs|
  {
    if bs != [] {
      assert (bs + more)[0] == bs[0] && (bs + more)[1..] == bs[1..] + more;
      if bs[0] >= FLAG_MORE { SteadyFrom(bs[1..], Wrap((value + bs[0] % 128) * 128, width), width, more); }
    }
  }

  lemma SteadyVarint(bs: seq<Byte>, width: nat, more: seq<Byte>)
    ensures Steady(Decoded(bs, width), Decoded(bs + more, width), more)
  {
    SteadyFrom(bs, 0, width, more);
  }

  lemma SteadySize(bs: seq<Byte>, more: seq<Byte>)
    ensures Steady(DecodeSize(bs), DecodeSize(bs + more), more)
  {
    hide Decoded;
    SteadyVarint(bs, U32, more);
    if Decoded(bs, U32).Some? { SteadyVarint(Decoded(bs, U32).value.1, U32, more); }
  }

  lemma SteadyOffset(bs: seq<Byte>, more: seq<Byte>)
    ensures Steady(DecodeOffset(bs), DecodeOffset(bs + more), more)
  {
    hide Decoded, DecodeSize;
    SteadyVarint(bs, U64, more);
    if Decoded(bs, U64).Some? {
      var (header, rest) := Decoded(bs, U64).value;
      SteadyVarint(rest, U64, more);
      var code := DecodeCode(header, header % 2 == 1, rest);
      if code.Some? { SteadySize(code.value.1, more); }
    }
  }

  lemma {:induction false} SteadyPairs<V(!new)>(bs: seq<Byte>, n: nat, last: Key<Size>, bbox: BBox,
      codec: ValueCodec<V>, more: seq<Byte>)
    requires SteadyValues(codec) && IsDelta(last)
    ensures Steady(DecodePairs(bs, n, last, bbox, codec), DecodePairs(bs + more, n, last, bbox, codec), more)
    decreases n
  {
    hide DecodeOffset, CheckedKey;
    if n > 0 {
      SteadyOffset(bs, more);
      if DecodeOffset(bs).Some? {
        var (offset, rest) := DecodeOffset(bs).value;
        OffsetsArePositive(bs);
        var key := FromDeltaOffset(offset, last);
        var b := CheckedKey(key, bbox);
        if b.Some? && codec.decode(rest, b.value).Some? {
          assert Steady(codec.decode(rest, b.value), codec.decode(rest + more, b.value), more);
          SteadyPairs(codec.decode(rest, b.value).value.1, n - 1, key, bbox, codec, more);
        }
      }
    }
  }

  lemma SteadyInner<V(!new)>(bs: seq<Byte>, childLen: nat, bbox: BBox, codec: ValueCodec<V>, more: seq<Byte>)
    requires SteadyValues(codec)
    ensures Steady(DecodeInner(bs, childLen, bbox, codec), DecodeInner(bs + more, childLen, bbox, codec), more)
  {
    hide Decoded, DecodePairs;
    SteadyVarint(bs, U64, more);
    if Decoded(bs, U64).Some? { SteadyPairs(Decoded(bs, U64).value.1, childLen, LEAST, bbox, codec, more); }
  }

  /** How every node's page is written. */
  ghost function Encoder<V>(codec: ValueCodec<V>): Held<V> -> seq<Byte> {
    f => if Ascending(Flattened(f), LEAST) then EncodeInner(Flattened(f), codec) else []
  }

  /** How a node's page is read: with the node's own count and box. */
  ghost function Decoder<V>(count: nat, bbox: BBox, codec: ValueCodec<V>): seq<Byte> -> Option<Held<V>> {
    bs => match DecodeInner(bs, count, bbox, codec)
      case None => None
      case Some((ps, _)) => Some(Pushed(ps))
  }

  ghost function PageCodec<V>(count: nat, bbox: BBox, codec: ValueCodec<V>): Codec<Held<V>> {
    Codec(Encoder(codec), Decoder(count, bbox, codec))
  }

  /** Every key that a tree has at a node can be written there. */
  lemma NodeKeysFit<V>(view: View<V>, root: BBox, n: nat)
    requires TreeOk(view, root) && n in view
    ensures Sorted(view[n].f) && forall i :: 0 <= i < |view[n].f| ==> KeyFits(view[n].f[i].key, view[n].bbox)
  {
    hide Pow2, Route;
    assert NodeShape(view, n) && HeldOk(view, n);
    var f, bbox := view[n].f, view[n].bbox;
    forall i | 0 <= i < |f| ensures KeyFits(f[i].key, bbox) {
      var key := f[i].key;
      assert KeyOk(view, n, key);
      var b := Absolute(key, bbox);
      AbsoluteDelta(b, bbox);
      SameCorner(InteriorDelta(b, bbox), key, bbox);
      StoredKeyFits(b, bbox);
    }
  }

  /**
   A node's page always has something written on it, its length if nothing else. So a flush does not free its first
   page where that is only allowed, as it is for a node that a split has emptied.
   */
  lemma NodePageStays<V(!new)>(page: Page<Held<V>>, view: View<V>, root: BBox, n: nat, codec: ValueCodec<V>,
                               comp: seq<nat>, chains: Chains, d: Disk, chains': Chains, d': Disk)
    requires TreeOk(view, root) && n in view && page.item == view[n].f && !page.mustFree
    requires comp != [] && comp[0] in chains
    requires page.FlushOutcome(Encoder(codec)(page.item), comp, chains, d, chains', d')
    ensures Encoder(codec)(page.item) != [] && comp[0] in chains'
  {
    hide TreeOk, EncodePairs, KeyFits, Stored;
    NodeKeysFit(view, root, n);
    FlattenedFits(view[n].f, view[n].bbox);
  }

  /** What a dense tree has at a node is what its page decodes to, read with the node's count and box, and no sooner. */
  lemma NodePageDecodes<V(!new)>(view: View<V>, root: BBox, n: nat, codec: ValueCodec<V>)
    requires TreeOk(view, root) && n in view && LenOf(view[n].f) < Pow2(U64)
    requires LawfulValues(codec) && SteadyValues(codec)
    ensures PageCodec(LenOf(view[n].f), view[n].bbox, codec).Decodes(view[n].f)
  {
    hide DecodeInner, EncodeInner, Flattened, Pushed, KeyFits, TreeOk, Pow2, SteadyValues, LawfulValues;
    var f, bbox := view[n].f, view[n].bbox;
    var count := LenOf(f);
    NodeKeysFit(view, root, n);
    InnerRoundTrip(f, bbox, codec, []);
    var bs := EncodeInner(Flattened(f), codec);
    assert bs + [] == bs;
    forall junk ensures DecodeInner(bs + junk, count, bbox, codec) == Some((Flattened(f), junk)) {
      InnerRoundTrip(f, bbox, codec, junk);
    }
    forall i | 0 <= i < |bs| ensures DecodeInner(bs[..i], count, bbox, codec) == None {
      SteadyInner(bs[..i], count, bbox, codec, bs[i..]);
      assert bs[..i] + bs[i..] == bs;
    }
  }

  // A tree's pages in storage --------------------------------------------------------------------

  /** A storage has for every node's page what the tree has at the node. */
  ghost predicate KeptIn<V>(values: map<nat, Held<V>>, nodes: map<nat, TreeNode<BBox>>, view: View<V>) {
    && nodes.Keys == view.Keys
    && (forall n :: n in nodes && nodes[n].pageId.Some? ==>
          nodes[n].pageId.value in values && values[nodes[n].pageId.value] == view[n].f)
    && (forall m, n :: m in nodes && n in nodes && m != n && nodes[m].pageId.Some? ==>
          nodes[m].pageId != nodes[n].pageId)
  }

  /** Gets a node's page, which has what the tree has there, whether it is still cached or has to be read again. */
  method FetchNode<V(!new)>(storage: PagedStorage<Held<V>>, nodes: map<nat, TreeNode<BBox>>, n: nat,
                            decode: seq<Byte> -> Option<Held<V>>, ghost view: View<V>, ghost root: BBox,
                            ghost codec: ValueCodec<V>)
    returns (page: Page<Held<V>>)
    requires storage.Valid() && storage.encode == Encoder(codec) && LawfulValues(codec) && SteadyValues(codec)
    requires KeptIn(storage.values, nodes, view) && TreeOk(view, root) && n in nodes && nodes[n].pageId.Some?
    requires LenOf(view[n].f) < Pow2(U64) && decode == Decoder(LenOf(view[n].f), view[n].bbox, codec)
    modifies storage`cache, storage.cache.Values`handles
    ensures storage.Valid() && storage.values == old(storage.values)
    ensures nodes[n].pageId.value in storage.cache && storage.cache[nodes[n].pageId.value] == page
    ensures page.item == view[n].f && storage.OthersHeldAsBefore(nodes[n].pageId.value)
    ensures var id := nodes[n].pageId.value;
            if id in old(storage.cache)
            then page == old(storage.cache)[id] && page.handles == old(storage.cache[id].handles) + 1
            else fresh(page) && page.handles == 1
  {
    hide TreeOk, Pow2, Encoder, Decoder, LawfulValues, SteadyValues, EntriesOk, Sound;
    NodePageDecodes(view, root, n, codec);
    var r := storage.Get(nodes[n].pageId.value, decode);
    page := r.value;
  }

  /** Writes a node's new contents through a handle to its page; no other node's page changes. */
  method StoreNode<V(!new)>(storage: PagedStorage<Held<V>>, nodes: map<nat, TreeNode<BBox>>, n: nat,
                            page: Page<Held<V>>, f: Held<V>, ghost view: View<V>)
    requires storage.Valid() && KeptIn(storage.values, nodes, view) && n in nodes && nodes[n].pageId.Some?
    requires nodes[n].pageId.value in storage.cache && storage.cache[nodes[n].pageId.value] == page && page.handles > 0
    modifies storage`values, page`item, page`dirty, page`mayFree
    ensures storage.Valid() && KeptIn(storage.values, nodes, view[n := view[n].(f := f)])
    ensures storage.values == old(storage.values)[nodes[n].pageId.value := f]
  {
    hide Sound;
    var id := nodes[n].pageId.value;
    NotFreed(storage, id);
    storage.Update(id, page, f);
  }

  lemma NotFreed<T(!new)>(storage: PagedStorage<T>, id: nat)
    requires storage.Valid() && id in storage.cache && id in storage.values
    ensures !storage.cache[id].mustFree
  {
    hide Sound;
    assert CachedOk(storage.encode, storage.pageuse.disk, storage.chains, storage.values, id, storage.cache[id]);
  }

  /** Gives a node that has no page one, with its first contents. */
  method StoreNewNode<V(!new)>(storage: PagedStorage<Held<V>>, nodes: map<nat, TreeNode<BBox>>, n: nat,
                               node: TreeNode<BBox>, f: Held<V>, ghost view: View<V>)
    returns (nodes': map<nat, TreeNode<BBox>>)
    requires storage.Valid() && |storage.pageuse.disk.pages| + 1 < ID_LIMIT
    requires KeptIn(storage.values, nodes, view) && (n in nodes ==> nodes[n].pageId == None)
    modifies storage, storage.pageuse
    ensures storage.Valid() && n in nodes' && nodes'[n].pageId.Some? && nodes'[n].pageId.value !in old(storage.values)
    ensures nodes' == nodes[n := node.(pageId := nodes'[n].pageId)]
    ensures storage.values == old(storage.values)[nodes'[n].pageId.value := f]
    ensures KeptIn(storage.values, nodes', view[n := NodeView(node.bbox, node.split, f)])
  {
    hide Sound, EntriesOk;
    var id := storage.NewPage(f);
    nodes' := nodes[n := node.(pageId := Some(id))];
  }
}
