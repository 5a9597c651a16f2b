/** Bytes, fixed-width integers, and a file that grows when it is written past its end. */
module Bytes {
  import opened Powers

  type Byte = b: int | 0 <= b < 256

  type File = seq<Byte>

  function Pow256(n: nat): (p: nat)
    ensures p > 0
  {
    if n == 0 then 1 else 256 * Pow256(n - 1)
  }

  /** The `n` low bytes of `v`, most significant first. */
  function BigEndian(v: nat, n: nat): (bs: seq<Byte>)
    ensures |bs| == n
  {
    if n == 0 then [] else BigEndian(v / 256, n - 1) + [v % 256]
  }

  function FromBigEndian(bs: seq<Byte>): nat {
    if bs == [] then 0 else FromBigEndian(bs[..|bs| - 1]) * 256 + bs[|bs| - 1]
  }

  lemma {:induction false} BigEndianRoundTrip(v: nat, n: nat)
    requires v < Pow256(n)
    ensures FromBigEndian(BigEndian(v, n)) == v
  {
    if n > 0 {
      BigEndianRoundTrip(v / 256, n - 1);
      assert BigEndian(v, n)[..n - 1] == BigEndian(v / 256, n - 1);
    }
  }

  function LittleEndian(v: nat, n: nat): (bs: seq<Byte>)
    ensures |bs| == n
  {
    if n == 0 then [] else [v % 256] + LittleEndian(v / 256, n - 1)
  }

  function FromLittleEndian(bs: seq<Byte>): nat {
    if bs == [] then 0 else bs[0] + 256 * FromLittleEndian(bs[1..])
  }

  lemma {:induction false} LittleEndianRoundTrip(v: nat, n: nat)
    requires v < Pow256(n)
    ensures FromLittleEndian(LittleEndian(v, n)) == v
  {
    if n > 0 {
      LittleEndianRoundTrip(v / 256, n - 1);
    }
  }

  function Zeros(n: nat): (bs: seq<Byte>)
    ensures |bs| == n && forall i :: 0 <= i < n ==> bs[i] == 0
  {
    seq(n, _ => 0)
  }

  // Files ----------------------------------------------------------------------------------------

  /** A byte of the file, or 0 past its end, which is what growing the file would put there. */
  function At(f: File, i: nat): Byte {
    if i < |f| then f[i] else 0
  }

  function SetLen(f: File, n: nat): (g: File)
    ensures |g| == n
  {
    if n <= |f| then f[..n] else f + Zeros(n - |f|)
  }

  /** Seeking to `off` and writing all of `bs`. */
  function WriteAt(f: File, off: nat, bs: seq<Byte>): (g: File) {
    if bs == [] then f
    else
      var grown := if |f| < off + |bs| then SetLen(f, off + |bs|) else f;
      grown[..off] + bs + grown[off + |bs|..]
  }

  /** What a read of at most `n` bytes at `off` returns: it stops at the end of the file. */
  function ReadAt(f: File, off: nat, n: nat): (bs: seq<Byte>)
    ensures |bs| == if off < |f| then Min(n, |f| - off) else 0
  {
    if off < |f| then f[off..Min(off + n, |f|)] else []
  }

  /** `g` is `f` with `bs` written at `off`, byte by byte. */
  ghost predicate Wrote(f: File, off: nat, bs: seq<Byte>, g: File) {
    && |g| == (if bs == [] then |f| else Max(|f|, off + |bs|))
    && forall i: nat :: At(g, i) == if off <= i < off + |bs| then bs[i - off] else At(f, i)
  }

  lemma WriteAtWrote(f: File, off: nat, bs: seq<Byte>)
    ensures Wrote(f, off, bs, WriteAt(f, off, bs))
  {
  }

  /** The `n` bytes at `off` read as a big-endian number, as growing the file would show them. */
  function NumberAt(f: File, off: nat, n: nat): nat
    decreases n, f
  {
    if n == 0 then 0 else NumberAt(f, off, n - 1) * 256 + At(f, off + n - 1)
  }

  /** The same, least significant byte first. */
  function LittleNumberAt(f: File, off: nat, n: nat): nat
    decreases n, f
  {
    if n == 0 then 0 else At(f, off) + 256 * LittleNumberAt(f, off + 1, n - 1)
  }

  lemma SetLenAt(f: File, n: nat)
    ensures forall i: nat :: At(SetLen(f, n), i) == if i < n then At(f, i) else 0
  {
  }

  lemma ReadAtAt(f: File, off: nat, n: nat)
    ensures forall i :: 0 <= i < |ReadAt(f, off, n)| ==> ReadAt(f, off, n)[i] == At(f, off + i)
  {
  }

  lemma {:induction false} SameNumber(f: File, g: File, off: nat, n: nat)
    requires forall i :: off <= i < off + n ==> At(f, i) == At(g, i)
    ensures NumberAt(f, off, n) == NumberAt(g, off, n)
  {
    if n > 0 {
      SameNumber(f, g, off, n - 1);
    }
  }

  lemma {:induction false} SameLittleNumber(f: File, g: File, off: nat, n: nat)
    requires forall i :: off <= i < off + n ==> At(f, i) == At(g, i)
    ensures LittleNumberAt(f, off, n) == LittleNumberAt(g, off, n)
    decreases n
  {
    if n > 0 {
      SameLittleNumber(f, g, off + 1, n - 1);
    }
  }

  lemma {:induction false} NumberOf(f: File, off: nat, bs: seq<Byte>)
    requires forall i :: 0 <= i < |bs| ==> At(f, off + i) == bs[i]
    ensures NumberAt(f, off, |bs|) == FromBigEndian(bs)
  {
    if bs != [] {
      NumberOf(f, off, bs[..|bs| - 1]);
    }
  }

  lemma {:induction false} LittleNumberOf(f: File, off: nat, bs: seq<Byte>)
    requires forall i :: off <= i < off + |bs| ==> At(f, i) == bs[i - off]
    ensures LittleNumberAt(f, off, |bs|) == FromLittleEndian(bs)
    decreases bs
  {
    if bs != [] {
      LittleNumberOf(f, off + 1, bs[1..]);
    }
  }

  /** Reading back a number that was written. */
  lemma NumberWritten(f: File, off: nat, v: nat, n: nat, g: File)
    requires v < Pow256(n) && Wrote(f, off, BigEndian(v, n), g)
    ensures NumberAt(g, off, n) == v
  {
    NumberOf(g, off, BigEndian(v, n));
    BigEndianRoundTrip(v, n);
  }

  lemma LittleNumberWritten(f: File, off: nat, v: nat, n: nat, g: File)
    requires v < Pow256(n) && Wrote(f, off, LittleEndian(v, n), g)
    ensures LittleNumberAt(g, off, n) == v
  {
    LittleNumberOf(g, off, LittleEndian(v, n));
    LittleEndianRoundTrip(v, n);
  }

  lemma {:induction false} ZeroNumber(f: File, off: nat, n: nat)
    requires forall i :: off <= i < off + n ==> At(f, i) == 0
    ensures NumberAt(f, off, n) == 0
  {
    if n > 0 {
      ZeroNumber(f, off, n - 1);
    }
  }

  /** Reading a number with `read_exact`, when the file has the bytes. */
  lemma NumberRead(f: File, off: nat, n: nat)
    requires off + n <= |f|
    ensures FromBigEndian(ReadAt(f, off, n)) == NumberAt(f, off, n)
    ensures FromLittleEndian(ReadAt(f, off, n)) == LittleNumberAt(f, off, n)
  {
    ReadAtAt(f, off, n);
    NumberOf(f, off, ReadAt(f, off, n));
    LittleNumberOf(f, off, ReadAt(f, off, n));
  }
}
