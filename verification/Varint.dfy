/**
 Variable-length integers: seven bits to a byte, most significant first, the top bit of a byte saying that another
 follows. Signed numbers are rotated left by one bit, so that the sign comes last.
 */
module Varints {
  import opened Wrappers
  import opened Bytes
  import opened Powers

  const FLAG_MORE := 128

  /** The `n` lowest seven-bit groups of `u`, most significant first, each with the flag. */
  function Flagged(u: nat, n: nat): (bs: seq<Byte>)
    ensures |bs| == n
    decreases n, u
  {
    if n == 0 then [] else Flagged(u / 128, n - 1) + [FLAG_MORE + u % 128]
  }

  /** The encoding: `BitLength(v) / 7` flagged groups, then the lowest one without the flag. */
  function Varint(v: nat): (bs: seq<Byte>)
    ensures |bs| == BitLength(v) / 7 + 1
  {
    Flagged(v / 128, BitLength(v) / 7) + [v % 128]
  }

  lemma FlaggedNext(u: nat, n: nat)
    ensures Flagged(u / 128, n) + [FLAG_MORE + u % 128] == Flagged(u, n + 1)
  {
  }

  lemma NoneFlagged(u: nat)
    ensures Flagged(u, 0) == []
  {
  }

  /** `write_varint`, for a number of any width. */
  method WriteVarint(value: nat) returns (bytes: seq<Byte>)
    ensures bytes == Varint(value)
  {
    hide Shr, Pow2, BitLength, Flagged;
    var shift := BitLength(value);
    shift := (shift / 7) * 7;
    ghost var k := shift / 7;
    bytes := [];
    TopGroup(value);
    NoneFlagged(Shr(value, shift + 7));
    ShrNone(value);
    while true
      invariant shift == 7 * (shift / 7) && shift / 7 <= k == BitLength(value) / 7
      invariant bytes == Flagged(Shr(value, shift + 7), k - shift / 7)
      decreases shift
    {
      var byte := Shr(value, shift) % 128;
      ShrSeven(value, shift);
      if shift == 0 {
        bytes := bytes + [byte];
        return;
      }
      FlaggedNext(Shr(value, shift), k - shift / 7);
      shift := shift - 7;
      bytes := bytes + [FLAG_MORE + byte];
    }
  }

  /** The groups above the highest one written are empty, and the lowest one is the only one below the others. */
  lemma TopGroup(v: nat)
    ensures var k := BitLength(v) / 7; Shr(v, 7 * k + 7) == 0 && v / 128 < Pow2(7 * k)
  {
    var k := BitLength(v) / 7;
    BitLengthBounds(v);
    Pow2Monotone(BitLength(v), 7 * k + 7);
    ShrBelow(v, 7 * k + 7, 0);
    ShrBelow(v, 7, 7 * k);
    ShrSeven(v, 0);
  }

  /** What is decoded, in a word of `width` bits, from a state with some groups read; and what is left. */
  function DecodedFrom(bs: seq<Byte>, value: nat, width: nat): (r: Option<(nat, seq<Byte>)>)
    ensures r.Some? ==> |r.value.1| < |bs|
  {
    if bs == [] then None
    else
      var v: nat := value + bs[0] % 128;
      if bs[0] < FLAG_MORE then Some((v, bs[1..])) else DecodedFrom(bs[1..], Wrap(v * 128, width), width)
  }

  function Decoded(bs: seq<Byte>, width: nat): (r: Option<(nat, seq<Byte>)>)
    ensures r.Some? ==> |r.value.1| < |bs|
  {
    DecodedFrom(bs, 0, width)
  }

  /** `from_varint`: the groups are shifted up within the word; it fails only if the bytes run out. */
  method FromVarint(bs: seq<Byte>, width: nat) returns (r: Option<(nat, seq<Byte>)>)
    ensures r == Decoded(bs, width)
  {
    var rest, value: nat := bs, 0;
    while rest != []
      invariant DecodedFrom(rest, value, width) == Decoded(bs, width)
      decreases |rest|
    {
      var byte := rest[0];
      rest := rest[1..];
      value := value + byte % 128;
      if byte < FLAG_MORE {
        return Some((value, rest));
      }
      value := Wrap(value * 128, width);
    }
    r := None;
  }

  lemma {:induction false} DecodesFlagged(u: nat, n: nat, tail: seq<Byte>, width: nat)
    requires u < Pow2(7 * n) && u * 128 < Pow2(width)
    ensures DecodedFrom(Flagged(u, n) + tail, 0, width) == DecodedFrom(tail, u * 128, width)
    decreases n
  {
    if n == 0 {
      assert Flagged(u, 0) + tail == tail;
    } else {
      var byte := FLAG_MORE + u % 128;
      ShrBelow(u, 7, 7 * (n - 1));
      ShrSeven(u, 0);
      hide Shr, Pow2, Wrap;
      DecodesFlagged(u / 128, n - 1, [byte] + tail, width);
      assert Flagged(u, n) + tail == Flagged(u / 128, n - 1) + ([byte] + tail);
      assert ([byte] + tail)[1..] == tail;
      WrapSmall(u * 128, width);
    }
  }

  /** Decoding an encoded number, whatever follows it, gives the number and leaves exactly what follows. */
  lemma RoundTrip(v: nat, rest: seq<Byte>, width: nat)
    requires v < Pow2(width)
    ensures Decoded(Varint(v) + rest, width) == Some((v, rest))
  {
    hide Shr, Pow2, Wrap, BitLength, Flagged, DecodedFrom, Varint;
    var k := BitLength(v) / 7;
    TopGroup(v);
    BelowWord(v, width);
    DecodesFlagged(v / 128, k, [v % 128] + rest, width);
    VarintParts(v, rest);
    LastGroup(v % 128, rest, v / 128 * 128, width);
    assert v / 128 * 128 + v % 128 == v;
  }

  lemma BelowWord(v: nat, width: nat)
    requires v < Pow2(width)
    ensures v / 128 * 128 < Pow2(width)
  {
  }

  lemma VarintParts(v: nat, rest: seq<Byte>)
    ensures Varint(v) + rest == Flagged(v / 128, BitLength(v) / 7) + ([v % 128] + rest)
  {
  }

  lemma LastGroup(b: Byte, rest: seq<Byte>, value: nat, width: nat)
    requires b < FLAG_MORE
    ensures DecodedFrom([b] + rest, value, width) == Some((value + b, rest))
  {
    assert ([b] + rest)[1..] == rest;
  }

  // Signed numbers -------------------------------------------------------------------------------

  /** The top bit moves to the bottom. */
  function RotateLeft(u: nat, width: nat): nat
    requires width > 0
  {
    if u >= Pow2(width - 1) then (u - Pow2(width - 1)) * 2 + 1 else u * 2
  }

  /** The bottom bit moves to the top. */
  function RotateRight(z: nat, width: nat): nat
    requires width > 0
  {
    z / 2 + if z % 2 == 1 then Pow2(width - 1) else 0
  }

  /** A signed number cast to an unsigned one of the same width. */
  function AsUnsigned(x: int, width: nat): nat
    requires Word(x, width)
  {
    if x < 0 then x + Pow2(width) else x
  }

  function AsSigned(u: nat, width: nat): int
    requires width > 0
  {
    if u < Pow2(width - 1) then u else u - Pow2(width)
  }

  function Zigzag(x: int, width: nat): nat
    requires Word(x, width)
  {
    RotateLeft(AsUnsigned(x, width), width)
  }

  function Unzigzag(z: nat, width: nat): int
    requires width > 0
  {
    AsSigned(RotateRight(z, width), width)
  }

  lemma RotatesBack(u: nat, width: nat)
    requires width > 0 && u < Pow2(width)
    ensures RotateLeft(u, width) < Pow2(width) && RotateRight(RotateLeft(u, width), width) == u
  {
    var half := Pow2(width - 1);
    assert Pow2(width) == 2 * half;
    hide Pow2;
  }

  lemma CastsBack(x: int, width: nat)
    requires Word(x, width)
    ensures AsUnsigned(x, width) < Pow2(width) && AsSigned(AsUnsigned(x, width), width) == x
  {
    assert Pow2(width) == 2 * Pow2(width - 1);
    hide Pow2;
  }

  lemma ZigzagRoundTrip(x: int, width: nat)
    requires Word(x, width)
    ensures Zigzag(x, width) < Pow2(width)
    ensures Unzigzag(Zigzag(x, width), width) == x
  {
    hide Pow2, RotateLeft, RotateRight, AsSigned;
    CastsBack(x, width);
    RotatesBack(AsUnsigned(x, width), width);
  }

  /** The same for signed numbers. */
  lemma SignedRoundTrip(x: int, rest: seq<Byte>, width: nat)
    requires Word(x, width)
    ensures var d := Decoded(Varint(Zigzag(x, width)) + rest, width);
            d.Some? && Unzigzag(d.value.0, width) == x && d.value.1 == rest
  {
    ZigzagRoundTrip(x, width);
    RoundTrip(Zigzag(x, width), rest, width);
  }
}
