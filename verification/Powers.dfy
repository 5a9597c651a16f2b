/** Numbers as machines keep them: powers of two, words, and shifts as repeated halving. */
module Powers {

  function Pow2(n: nat): (p: nat)
    ensures p > 0
  {
    if n == 0 then 1 else 2 * Pow2(n - 1)
  }

  /** A two's-complement word of `w` bits. An unsigned word of `w` bits is a signed one of `w + 1`. */
  predicate Word(a: int, w: nat) {
    w > 0 && 0 <= a + Pow2(w - 1) < Pow2(w)
  }

  function Max(a: int, b: int): int {
    if a < b then b else a
  }

  function Min(a: int, b: int): int {
    if a < b then a else b
  }

  /** `v >> n`. */
  function Shr(v: nat, n: nat): nat
    decreases n, v
  {
    if n == 0 then v else Shr(v / 2, n - 1)
  }

  /** The lowest `width` bits of a number: what is left of it in a word. */
  function Wrap(v: nat, width: nat): nat
    decreases width, v
  {
    if width == 0 then 0 else v % 2 + 2 * Wrap(v / 2, width - 1)
  }

  lemma {:induction false} WrapSmall(v: nat, width: nat)
    requires v < Pow2(width)
    ensures Wrap(v, width) == v
    decreases width
  {
    if width > 0 { WrapSmall(v / 2, width - 1); }
  }

  /** The bits a number needs: none for 0. */
  function BitLength(v: nat): nat {
    if v == 0 then 0 else 1 + BitLength(v / 2)
  }

  lemma {:induction false} BitLengthBounds(v: nat)
    ensures v < Pow2(BitLength(v))
    ensures v > 0 ==> Pow2(BitLength(v) - 1) <= v
  {
    if v > 0 { BitLengthBounds(v / 2); }
  }

  lemma {:induction false} BitLengthAtMost(v: nat, n: nat)
    requires v < Pow2(n)
    ensures BitLength(v) <= n
  {
    if v > 0 { BitLengthAtMost(v / 2, n - 1); }
  }

  lemma {:induction false} Pow2Monotone(m: nat, n: nat)
    requires m <= n
    ensures Pow2(m) <= Pow2(n)
  {
    if m < n { Pow2Monotone(m, n - 1); }
  }

  lemma {:induction false} ShrOnce(v: nat, n: nat)
    ensures Shr(v, n + 1) == Shr(v, n) / 2
    decreases n
  {
    if n > 0 { ShrOnce(v / 2, n - 1); }
  }

  lemma ShrNone(v: nat)
    ensures Shr(v, 0) == v
  {
  }

  lemma ShrSeven(v: nat, n: nat)
    ensures Shr(v, n + 7) == Shr(v, n) / 128
  {
    ShrOnce(v, n);
    ShrOnce(v, n + 1);
    ShrOnce(v, n + 2);
    ShrOnce(v, n + 3);
    ShrOnce(v, n + 4);
    ShrOnce(v, n + 5);
    ShrOnce(v, n + 6);
  }

  lemma {:induction false} ShrBelow(v: nat, m: nat, n: nat)
    requires v < Pow2(m + n)
    ensures Shr(v, m) < Pow2(n)
    decreases m
  {
    if m > 0 { ShrBelow(v / 2, m - 1, n); }
  }
}
