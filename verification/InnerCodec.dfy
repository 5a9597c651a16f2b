/**
 How a dense node's children are written: their number, then each key as its offset from the key before, with its
 value. Sorted keys make the offsets non-negative, and the reader adds them up again.
 */
module InnerCodecs {
  import opened Wrappers
  import opened Bytes
  import opened Powers
  import opened NonEmptyVec
  import opened Multimap
  import opened Vec = BTreeVec
  import opened BTreeVecApi
  import opened Morton
  import opened BBoxes
  import opened TreeNodes
  import opened Varints

  const U64 := 64
  const U32 := 32

  // One offset -----------------------------------------------------------------------------------

  predicate IsPoint(size: Size) {
    size.width == 0 && size.height == 0
  }

  /** Whether the code leaves room for two bits more in its word: at least two leading zeros. */
  predicate FullyPacked(rank: nat) {
    U64 - BitLength(rank) >= 2
  }

  function Flag(b: bool, bit: nat): nat {
    if b then bit else 0
  }

  function EncodeOffset(d: Key<Size>): seq<Byte>
    requires IsDelta(d)
  {
    var point := IsPoint(d.ext);
    (if FullyPacked(d.rank) then Varint(d.rank * 4 + Flag(point, 2) + 1)
     else Varint(Flag(point, 2)) + Varint(d.rank))
    + if point then [] else Varint(d.ext.width) + Varint(d.ext.height)
  }

  function DecodeSize(bs: seq<Byte>): Option<(Size, seq<Byte>)> {
    match Decoded(bs, U32)
    case None => None
    case Some((width, rest)) =>
      match Decoded(rest, U32)
      case None => None
      case Some((height, rest')) => Some((Size(width, height), rest'))
  }

  function DecodeCode(header: nat, packed: bool, rest: seq<Byte>): Option<(nat, seq<Byte>)> {
    if packed then Some((header / 4, rest)) else Decoded(rest, U64)
  }

  function DecodeOffset(bs: seq<Byte>): Option<(Key<Size>, seq<Byte>)> {
    match Decoded(bs, U64)
    case None => None
    case Some((header, rest)) =>
      var packed, point := header % 2 == 1, header / 2 % 2 == 1;
      match DecodeCode(header, packed, rest)
      case None => None
      case Some((xy, rest')) =>
        if point then Some((Key(xy, Size(0, 0)), rest'))
        else match DecodeSize(rest')
          case None => None
          case Some((size, rest'')) => Some((Key(xy, size), rest''))
  }

  /** An offset as the words of the format hold it. */
  predicate OffsetFits(d: Key<Size>) {
    0 <= d.rank < Pow2(U64) && d.ext.width < Pow2(U32) && d.ext.height < Pow2(U32)
  }

  lemma SizeRoundTrip(size: Size, rest: seq<Byte>)
    requires size.width < Pow2(U32) && size.height < Pow2(U32)
    ensures DecodeSize(Varint(size.width) + Varint(size.height) + rest) == Some((size, rest))
  {
    hide Pow2, Decoded, Varint;
    assert Varint(size.width) + Varint(size.height) + rest == Varint(size.width) + (Varint(size.height) + rest);
    RoundTrip(size.width, Varint(size.height) + rest, U32);
    RoundTrip(size.height, rest, U32);
  }

  lemma PackedFits(rank: nat, point: bool)
    requires FullyPacked(rank)
    ensures rank * 4 + Flag(point, 2) + 1 < Pow2(U64)
  {
    hide Pow2;
    BitLengthBounds(rank);
    Pow2Monotone(BitLength(rank), 62);
    TwoMore();
  }

  lemma TwoMore()
    ensures Pow2(U64) == 4 * Pow2(62)
  {
  }

  lemma HeaderBits(xy: nat, point: bool)
    ensures var h := xy * 4 + Flag(point, 2) + 1;
            h % 2 == 1 && (h / 2 % 2 == 1 <==> point) && h / 4 == xy
    ensures Flag(point, 2) % 2 == 0 && (Flag(point, 2) / 2 % 2 == 1 <==> point)
  {
    var bit := if point then 1 else 0;
    assert Flag(point, 2) == 2 * bit;
    OneLevel(1, bit, xy);
    OneLevel(0, bit, 0);
  }

  lemma SmallHeader(point: bool)
    ensures Flag(point, 2) < Pow2(U64)
  {
    Pow2Monotone(2, U64);
  }

  /** Decoding an encoded offset, packed or not, whatever follows it, gives it back and leaves what follows. */
  lemma OffsetRoundTrip(d: Key<Size>, rest: seq<Byte>)
    requires OffsetFits(d)
    ensures DecodeOffset(EncodeOffset(d) + rest) == Some((d, rest))
  {
    hide Pow2, Decoded, Varint, DecodeSize, BitLength, Flag;
    var point := IsPoint(d.ext);
    var sizes := if point then [] else Varint(d.ext.width) + Varint(d.ext.height);
    var tail := sizes + rest;
    HeaderBits(d.rank, point);
    if FullyPacked(d.rank) {
      var h := d.rank * 4 + Flag(point, 2) + 1;
      PackedFits(d.rank, point);
      RoundTrip(h, tail, U64);
      assert EncodeOffset(d) + rest == Varint(h) + tail;
    } else {
      SmallHeader(point);
      RoundTrip(Flag(point, 2), Varint(d.rank) + tail, U64);
      RoundTrip(d.rank, tail, U64);
      assert EncodeOffset(d) + rest == Varint(Flag(point, 2)) + (Varint(d.rank) + tail);
    }
    if point {
      assert tail == rest && d.ext == Size(0, 0);
    } else {
      SizeRoundTrip(d.ext, rest);
    }
  }

  // A run of children ----------------------------------------------------------------------------

  type Stream<V> = seq<(Key<Size>, V)>

  /** How values are written, and read when the box of their key is known. */
  datatype ValueCodec<!V> = ValueCodec(encode: V -> seq<Byte>, decode: (seq<Byte>, BBox) -> Option<(V, seq<Byte>)>)

  ghost predicate LawfulValues<V(!new)>(codec: ValueCodec<V>) {
    forall v, bbox, rest :: codec.decode(codec.encode(v) + rest, bbox) == Some((v, rest))
  }

  const LEAST := Key(0, Size(0, 0))

  /** Keys in order, from a given one on. */
  ghost predicate Ascending<V>(ps: Stream<V>, last: Key<Size>) {
    ps != [] ==> last.rank <= ps[0].0.rank && Ascending(ps[1..], ps[0].0)
  }

  ghost function EncodePairs<V>(ps: Stream<V>, last: Key<Size>, codec: ValueCodec<V>): seq<Byte>
    requires Ascending(ps, last)
  {
    if ps == [] then []
    else EncodeOffset(DeltaOffset(ps[0].0, last)) + codec.encode(ps[0].1) + EncodePairs(ps[1..], ps[0].0, codec)
  }

  /** Reads `n` children; a failed addition on the way is a panic, here a failure like any other. */
  function DecodePairs<V>(bs: seq<Byte>, n: nat, last: Key<Size>, bbox: BBox, codec: ValueCodec<V>)
      : Option<(Stream<V>, seq<Byte>)>
    requires IsDelta(last)
    decreases n
  {
    if n == 0 then Some(([], bs))
    else match DecodeOffset(bs)
      case None => None
      case Some((offset, rest)) =>
        var key := FromDeltaOffset(offset, last);
        match CheckedKey(key, bbox)
        case None => None
        case Some(b) =>
          match codec.decode(rest, b)
          case None => None
          case Some((v, rest')) =>
            match DecodePairs(rest', n - 1, key, bbox, codec)
            case None => None
            case Some((ps, rest'')) => Some(([(key, v)] + ps, rest''))
  }

  /** The box of a key, if neither the key's word nor the box's words overflow. */
  function CheckedKey(key: Key<Size>, bbox: BBox): Option<BBox>
    requires IsDelta(key)
  {
    if key.rank < Pow2(U64) then CheckedAbsolute(key, bbox) else None
  }

  /** A key that can be written and read back in a node with this box. */
  predicate KeyFits(key: Key<Size>, bbox: BBox) {
    OffsetFits(key) && CheckedAbsolute(key, bbox).Some?
  }

  lemma {:induction false} PairsRoundTrip<V(!new)>(ps: Stream<V>, last: Key<Size>, bbox: BBox, codec: ValueCodec<V>,
      rest: seq<Byte>)
    requires LawfulValues(codec) && Ascending(ps, last) && IsDelta(last)
    requires forall i :: 0 <= i < |ps| ==> KeyFits(ps[i].0, bbox)
    ensures DecodePairs(EncodePairs(ps, last, codec) + rest, |ps|, last, bbox, codec) == Some((ps, rest))
    decreases |ps|
  {
    hide Pow2, EncodeOffset, DecodeOffset, CheckedAbsolute;
    if ps == [] {
      assert EncodePairs(ps, last, codec) + rest == rest;
    } else {
      var (key, v) := ps[0];
      assert KeyFits(ps[0].0, bbox);
      var offset := DeltaOffset(key, last);
      var after := EncodePairs(ps[1..], key, codec) + rest;
      PairsRoundTrip(ps[1..], key, bbox, codec, rest);
      OffsetRoundTrip(offset, codec.encode(v) + after);
      assert EncodePairs(ps, last, codec) + rest == EncodeOffset(offset) + (codec.encode(v) + after);
      assert FromDeltaOffset(offset, last) == key;
      assert ps == [(key, v)] + ps[1..];
    }
  }

  // A whole node's children ----------------------------------------------------------------------

  ghost function EncodeInner<V>(ps: Stream<V>, codec: ValueCodec<V>): seq<Byte>
    requires Ascending(ps, LEAST)
  {
    Varint(|ps|) + EncodePairs(ps, LEAST, codec)
  }

  function DecodeInner<V>(bs: seq<Byte>, childLen: nat, bbox: BBox, codec: ValueCodec<V>)
      : Option<(Stream<V>, seq<Byte>)>
  {
    match Decoded(bs, U64)
    case None => None
    case Some((_, rest)) => DecodePairs(rest, childLen, LEAST, bbox, codec)
  }

  lemma {:induction false} NondecreasingAscends<V>(ps: Stream<V>, last: Key<Size>)
    requires RanksNondecreasing(ps) && (ps != [] ==> last.rank <= ps[0].0.rank)
    ensures Ascending(ps, last)
    decreases |ps|
  {
    if ps != [] { NondecreasingAscends(ps[1..], ps[0].0); }
  }

  /** A run of pushes of one key's values, after keys that come before it. */
  lemma {:induction false} PushedAtEnd<V>(ps: Stream<V>, f: seq<Entry<Size, V>>, key: Key<Size>, vs: seq<V>)
    requires Pushed(ps) == f && Below(f, key.rank) && vs != []
    ensures Pushed(ps + Pairs(key, vs)) == f + [Entry(key, NonEmpty(vs[0], vs[1..]))]
    decreases |vs|
  {
    hide Added, Pushed;
    var n := |vs| - 1;
    assert ps + Pairs(key, vs) == (ps + Pairs(key, vs[..n])) + [(key, vs[n])];
    PushedNext(ps + Pairs(key, vs[..n]), (key, vs[n]));
    if n == 0 {
      assert ps + Pairs(key, vs[..0]) == ps && vs[1..] == [];
      AddedLast(f, key, vs[0]);
    } else {
      PushedAtEnd(ps, f, key, vs[..n]);
      AddedToLast(f, key, NonEmpty(vs[0], vs[..n][1..]), vs[n]);
      assert vs[..n][1..] + [vs[n]] == vs[1..];
    }
  }

  lemma AddedLast<V>(f: seq<Entry<Size, V>>, key: Key<Size>, v: V)
    requires Below(f, key.rank)
    ensures Added(f, key, v) == f + [Entry(key, NonEmpty(v, []))]
  {
    AddedAfter(f, [], key, v);
    assert f + [] == f;
  }

  lemma AddedToLast<V>(f: seq<Entry<Size, V>>, key: Key<Size>, items: NonEmpty<V>, v: V)
    requires Below(f, key.rank)
    ensures Added(f + [Entry(key, items)], key, v) == f + [Entry(key, items.Push(v))]
  {
    AddedAfter(f, [Entry(key, items)], key, v);
    assert [Entry(key, items)][1..] == [];
  }

  /** Pushing a sorted multimap's pairs one by one builds the multimap again. */
  lemma {:induction false} PushedFlattened<V>(f: seq<Entry<Size, V>>)
    requires Sorted(f)
    ensures Pushed(Flattened(f)) == f
  {
    if f != [] {
      var n := |f| - 1;
      PushedFlattened(f[..n]);
      FlattenedLast(f);
      PushedAtEnd(Flattened(f[..n]), f[..n], f[n].key, f[n].items.Items());
      assert f[n].items == NonEmpty(f[n].items.Items()[0], f[n].items.Items()[1..]);
      assert f == f[..n] + [f[n]];
    }
  }

  /**
   A node's children, written and read back with their number and the node's box, are the same multimap, and exactly
   the bytes written are read, whatever follows them.
   */
  lemma InnerRoundTrip<V(!new)>(f: seq<Entry<Size, V>>, bbox: BBox, codec: ValueCodec<V>, rest: seq<Byte>)
    requires LawfulValues(codec) && Sorted(f) && |Flattened(f)| < Pow2(U64)
    requires forall i :: 0 <= i < |f| ==> KeyFits(f[i].key, bbox)
    ensures Ascending(Flattened(f), LEAST)
    ensures DecodeInner(EncodeInner(Flattened(f), codec) + rest, |Flattened(f)|, bbox, codec)
        == Some((Flattened(f), rest))
    ensures Pushed(Flattened(f)) == f
  {
    hide Pow2, Decoded, Varint, KeyFits, Pushed;
    var ps := Flattened(f);
    FlattenedFits(f, bbox);
    PushedFlattened(f);
    var body := EncodePairs(ps, LEAST, codec) + rest;
    assert EncodeInner(ps, codec) + rest == Varint(|ps|) + body;
    RoundTrip(|ps|, body, U64);
    PairsRoundTrip(ps, LEAST, bbox, codec, rest);
  }

  lemma FlattenedFits<V>(f: seq<Entry<Size, V>>, bbox: BBox)
    requires Sorted(f) && forall i :: 0 <= i < |f| ==> KeyFits(f[i].key, bbox)
    ensures Ascending(Flattened(f), LEAST)
    ensures forall i :: 0 <= i < |Flattened(f)| ==> KeyFits(Flattened(f)[i].0, bbox)
  {
    hide KeyFits;
    var ps := Flattened(f);
    FlattenedNondecreasing(f);
    forall i | 0 <= i < |ps| ensures KeyFits(ps[i].0, bbox) {
      assert ps[i] in ps;
      var e :| e in f && e.key == ps[i].0;
      var j :| 0 <= j < |f| && f[j] == e;
    }
    if ps != [] { FitsIsDelta(ps[0].0, bbox); }
    NondecreasingAscends(ps, LEAST);
  }

  lemma FitsIsDelta(key: Key<Size>, bbox: BBox)
    requires KeyFits(key, bbox)
    ensures IsDelta(key)
  {
    hide Pow2;
  }

  // Keys in a node's box -------------------------------------------------------------------------

  lemma {:induction false} InterleavedBound(x: nat, y: nat, n: nat)
    requires x < Pow2(n) && y < Pow2(n)
    ensures Interleaved(x, y) < Pow2(2 * n)
    decreases n
  {
    if n > 0 {
      InterleavedBound(x / 2, y / 2, n - 1);
      assert Pow2(2 * n) == 4 * Pow2(2 * (n - 1));
    }
  }

  /** Every key that a dense tree stores in a node can be written there. */
  lemma StoredKeyFits(b: BBox, bbox: BBox)
    requires Proper(b) && Proper(bbox) && Contains(bbox, b)
    ensures KeyFits(InteriorDelta(b, bbox), bbox)
  {
    hide Pow2;
    Word32();
    AbsoluteDelta(b, bbox);
    InterleavedBound(b.x - bbox.x, b.y - bbox.y, U32);
  }

  lemma Word32()
    ensures Pow2(U32) == 0x1_0000_0000
  {
    assert Pow2(8) == 256;
    assert Pow2(16) == 65536;
    assert Pow2(24) == 0x100_0000;
  }

  // The loops ------------------------------------------------------------------------------------

  lemma {:induction false} EncodedConcat<V>(a: Stream<V>, b: Stream<V>, last: Key<Size>, codec: ValueCodec<V>)
    requires Ascending(a + b, last)
    ensures Ascending(a, last) && Ascending(b, LastKey(a, last))
    ensures EncodePairs(a + b, last, codec) == EncodePairs(a, last, codec) + EncodePairs(b, LastKey(a, last), codec)
    decreases |a|
  {
    hide EncodeOffset;
    if a == [] {
      assert a + b == b;
    } else {
      assert (a + b)[0] == a[0] && (a + b)[1..] == a[1..] + b;
      EncodedConcat(a[1..], b, a[0].0, codec);
    }
  }

  function LastKey<V>(ps: Stream<V>, last: Key<Size>): Key<Size> {
    if ps == [] then last else ps[|ps| - 1].0
  }

  /** One child more. */
  lemma EncodedNext<V>(ps: Stream<V>, done: Stream<V>, p: (Key<Size>, V), rest: Stream<V>, codec: ValueCodec<V>)
    requires ps == done + [p] + rest && Ascending(ps, LEAST)
    ensures Ascending(done, LEAST) && Ascending(done + [p], LEAST)
    ensures LastKey(done, LEAST).rank <= p.0.rank && LastKey(done + [p], LEAST) == p.0
    ensures EncodePairs(done + [p], LEAST, codec) ==
            EncodePairs(done, LEAST, codec) + EncodeOffset(DeltaOffset(p.0, LastKey(done, LEAST))) + codec.encode(p.1)
  {
    hide EncodeOffset;
    EncodedConcat(done + [p], rest, LEAST, codec);
    EncodedConcat(done, [p], LEAST, codec);
    var none: Stream<V> := [];
    assert [p][1..] == none;
    assert EncodePairs([p], LastKey(done, LEAST), codec)
        == EncodeOffset(DeltaOffset(p.0, LastKey(done, LEAST))) + codec.encode(p.1);
  }

  /** `minimally_serialize` of a node's children. */
  method SerializeInner<V>(inner: Inner<Size, V>, codec: ValueCodec<V>, ghost f: seq<Entry<Size, V>>)
    returns (bytes: seq<Byte>)
    requires InnerHolds(inner, f) && (f != [] ==> f[0].key.rank >= 0)
    ensures Ascending(Flattened(f), LEAST) && bytes == EncodeInner(Flattened(f), codec)
  {
    hide Varint, Flattened, EncodePairs, EncodeOffset, Ascending, FlatSlots, StackEntries, Framed, WellFormed, Pairs;
    ghost var ps := Flattened(f);
    SortedHeld(inner, f);
    FlattenedAscends(f);
    bytes := Varint(inner.len);
    NothingEncoded(codec);
    if inner.len == 0 {
      EmptyHeld(f);
      return;
    }
    ghost var head := bytes;
    ghost var done: Stream<V> := [];
    var lastKey := LEAST;
    var stack := [(inner.children.keys, inner.children.values)];
    WholeStack(inner.children);
    NoneFlattened<V>();
    var leaf, rest := NextLeaf(stack);
    while leaf.Some?
      invariant Framed(stack) && Framed(rest) && done + Flattened(StackEntries(stack)) == ps
      invariant leaf.None? <==> StackEntries(stack) == []
      invariant leaf.Some? ==>
                  && StackEntries(stack) == [Entry(leaf.value.0, leaf.value.1)] + StackEntries(rest)
                  && StackSize(rest) < StackSize(stack)
      invariant Ascending(done, LEAST) && lastKey == LastKey(done, LEAST)
      invariant bytes == head + EncodePairs(done, LEAST, codec)
      decreases StackSize(stack)
    {
      var (key, items) := leaf.value;
      ghost var after := Flattened(StackEntries(rest));
      FirstLeaf(Entry(key, items), StackEntries(rest));
      var some;
      some, lastKey := SerializeItems(key, items.Items(), lastKey, codec, ps, done, after);
      bytes := bytes + some;
      done := done + Pairs(key, items.Items());
      stack := rest;
      leaf, rest := NextLeaf(stack);
    }
    assert done + [] == done;
  }

  /** The children under one key. */
  method SerializeItems<V>(key: Key<Size>, items: seq<V>, last: Key<Size>, codec: ValueCodec<V>,
                           ghost ps: Stream<V>, ghost before: Stream<V>, ghost after: Stream<V>)
    returns (bytes: seq<Byte>, lastKey: Key<Size>)
    requires ps == before + Pairs(key, items) + after && Ascending(ps, LEAST)
    requires last == LastKey(before, LEAST)
    ensures Ascending(before, LEAST) && Ascending(before + Pairs(key, items), LEAST)
    ensures EncodePairs(before + Pairs(key, items), LEAST, codec) == EncodePairs(before, LEAST, codec) + bytes
    ensures lastKey == LastKey(before + Pairs(key, items), LEAST)
  {
    hide EncodePairs, EncodeOffset, Ascending;
    bytes, lastKey := [], last;
    EncodedConcat(before, Pairs(key, items) + after, LEAST, codec) by {
      assert ps == before + (Pairs(key, items) + after);
    }
    ghost var none: seq<V> := [];
    assert before + Pairs(key, none) == before && items[..0] == none;
    for i := 0 to |items|
      invariant Ascending(before + Pairs(key, items[..i]), LEAST)
      invariant lastKey == LastKey(before + Pairs(key, items[..i]), LEAST)
      invariant EncodePairs(before + Pairs(key, items[..i]), LEAST, codec) == EncodePairs(before, LEAST, codec) + bytes
    {
      ghost var done := before + Pairs(key, items[..i]);
      assert Pairs(key, items) == Pairs(key, items[..i]) + [(key, items[i])] + Pairs(key, items[i + 1..]);
      assert ps == done + [(key, items[i])] + (Pairs(key, items[i + 1..]) + after);
      EncodedNext(ps, done, (key, items[i]), Pairs(key, items[i + 1..]) + after, codec);
      assert before + Pairs(key, items[..i + 1]) == done + [(key, items[i])];
      bytes := bytes + EncodeOffset(DeltaOffset(key, lastKey)) + codec.encode(items[i]);
      lastKey := key;
    }
    assert items[..|items|] == items;
  }

  lemma SortedHeld<V>(inner: Inner<Size, V>, f: seq<Entry<Size, V>>)
    requires InnerHolds(inner, f)
    ensures Sorted(f)
  {
    FlatSorted(inner.children);
  }

  lemma FlattenedAscends<V>(f: seq<Entry<Size, V>>)
    requires Sorted(f) && (f != [] ==> f[0].key.rank >= 0)
    ensures Ascending(Flattened(f), LEAST)
  {
    FlattenedNondecreasing(f);
    NondecreasingAscends(Flattened(f), LEAST);
  }

  lemma NothingEncoded<V>(codec: ValueCodec<V>)
    ensures Ascending<V>([], LEAST) && EncodePairs([], LEAST, codec) == []
  {
  }

  lemma NoneFlattened<V>()
    ensures Flattened<Size, V>([]) == []
  {
  }

  lemma FirstLeaf<V>(e: Entry<Size, V>, f: seq<Entry<Size, V>>)
    ensures Flattened([e] + f) == Pairs(e.key, e.items.Items()) + Flattened(f)
  {
    assert ([e] + f)[1..] == f;
  }

  /** What is decoded from a state with some children read. */
  ghost function DecodedAfter<V>(done: Stream<V>, bs: seq<Byte>, n: nat, last: Key<Size>, bbox: BBox,
      codec: ValueCodec<V>)
    : Option<(Stream<V>, seq<Byte>)>
    requires IsDelta(last)
  {
    match DecodePairs(bs, n, last, bbox, codec)
    case None => None
    case Some((ps, rest)) => Some((done + ps, rest))
  }

  /** Reads one child; nothing, if the bytes or an addition fail. */
  method DeserializeChild<V>(bs: seq<Byte>, last: Key<Size>, bbox: BBox, codec: ValueCodec<V>, ghost n: nat,
      ghost done: Stream<V>)
    returns (r: Option<(Key<Size>, V, seq<Byte>)>)
    requires IsDelta(last) && n > 0
    ensures r.None? ==> DecodedAfter(done, bs, n, last, bbox, codec) == None
    ensures r.Some? ==>
              && IsDelta(r.value.0) && last.rank <= r.value.0.rank
              && DecodedAfter(done, bs, n, last, bbox, codec)
                 == DecodedAfter(done + [(r.value.0, r.value.1)], r.value.2, n - 1, r.value.0, bbox, codec)
  {
    hide CheckedKey, DecodeOffset;
    OffsetsArePositive(bs);
    var offset := DecodeOffset(bs);
    if offset == None {
      return None;
    }
    var key := FromDeltaOffset(offset.value.0, last);
    var b := CheckedKey(key, bbox);
    if b == None {
      return None;
    }
    var item := codec.decode(offset.value.1, b.value);
    if item.None? {
      return None;
    }
    r := Some((key, item.value.0, item.value.1));
    match DecodePairs(item.value.1, n - 1, key, bbox, codec)
    case None =>
    case Some((ps, rest)) =>
      assert done + ([(key, item.value.0)] + ps) == (done + [(key, item.value.0)]) + ps;
  }

  lemma OffsetsArePositive(bs: seq<Byte>)
    ensures DecodeOffset(bs).Some? ==> IsDelta(DecodeOffset(bs).value.0)
  {
    hide Decoded, DecodeSize;
  }

  /** `deserialize_minimal`: reads the number, then as many children as the node's own count says, and gathers them. */
  method DeserializeInner<V>(bs: seq<Byte>, childLen: nat, bbox: BBox, codec: ValueCodec<V>)
    returns (r: Option<(Inner<Size, V>, seq<Byte>)>)
    ensures match DecodeInner(bs, childLen, bbox, codec)
            case None => r == None
            case Some((ps, rest)) => r.Some? && InnerHolds(r.value.0, Pushed(ps)) && r.value.1 == rest
  {
    hide DecodePairs, Decoded, Pushed, Values, WellFormed, Flat;
    var check := FromVarint(bs, U64);
    if check == None {
      return None;
    }
    var rest, last := check.value.1, LEAST;
    var stream: seq<Result<(Key<Size>, V), ()>> := [];
    ghost var done: Stream<V> := [];
    StreamStarts<V>();
    assert DecodedAfter(done, rest, childLen, last, bbox, codec) == DecodeInner(bs, childLen, bbox, codec) by {
      StartsEmpty(rest, childLen, last, bbox, codec);
    }
    for i := 0 to childLen
      invariant IsDelta(last) && last == LastKey(done, LEAST)
      invariant DecodedAfter(done, rest, childLen - i, last, bbox, codec) == DecodeInner(bs, childLen, bbox, codec)
      invariant Values(stream) == done && FirstError(stream) == None
      invariant RanksNondecreasing(done) && (done != [] ==> done[|done| - 1].0.rank == last.rank)
    {
      var child := DeserializeChild(rest, last, bbox, codec, childLen - i, done);
      if child.None? {
        return None;
      }
      StreamGrows(stream, (child.value.0, child.value.1));
      stream := stream + [Ok((child.value.0, child.value.1))];
      done := done + [(child.value.0, child.value.1)];
      last, rest := child.value.0, child.value.2;
    }
    EndsEmpty(done, rest, last, bbox, codec);
    var children := Deduplicate(stream);
    PushedLength(done);
    r := Some((Inner(children.value.1, children.value.0), rest));
  }

  lemma StreamStarts<V>()
    ensures Values<(Key<Size>, V), ()>([]) == [] && FirstError<(Key<Size>, V), ()>([]) == None
  {
  }

  lemma {:induction false} StreamGrows<V>(stream: seq<Result<(Key<Size>, V), ()>>, p: (Key<Size>, V))
    requires FirstError(stream) == None
    ensures Values(stream + [Ok(p)]) == Values(stream) + [p] && FirstError(stream + [Ok(p)]) == None
  {
    if stream == [] {
      assert stream + [Ok(p)] == [Ok(p)] && [Ok(p)][1..] == stream;
    } else {
      StreamGrows(stream[1..], p);
      assert (stream + [Ok(p)])[1..] == stream[1..] + [Ok(p)];
    }
  }

  lemma StartsEmpty<V>(bs: seq<Byte>, n: nat, last: Key<Size>, bbox: BBox, codec: ValueCodec<V>)
    requires IsDelta(last)
    ensures DecodedAfter([], bs, n, last, bbox, codec) == DecodePairs(bs, n, last, bbox, codec)
  {
    match DecodePairs(bs, n, last, bbox, codec)
    case None =>
    case Some((ps, rest)) => assert [] + ps == ps;
  }

  lemma EndsEmpty<V>(done: Stream<V>, bs: seq<Byte>, last: Key<Size>, bbox: BBox, codec: ValueCodec<V>)
    requires IsDelta(last)
    ensures DecodedAfter(done, bs, 0, last, bbox, codec) == Some((done, bs))
  {
    assert done + [] == done;
  }

  lemma {:induction false} PushedLength<V>(ps: Stream<V>)
    ensures |Flattened(Pushed(ps))| == |ps|
  {
    if ps == [] {
      NoneFlattened<V>();
    } else {
      var n := |ps| - 1;
      PushedLength(ps[..n]);
      AddedLength(Pushed(ps[..n]), ps[n].0, ps[n].1);
    }
  }
}
