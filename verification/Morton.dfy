/** Morton codes: the bits of two words taken in turn, by table lookup, and back. */
module Morton {

  // Tables, as the loops of `table_gen` fill them -------------------------------------------------

  /** The eight bits of a byte, with a 0 between neighbours. */
  function Spread(v: bv8): bv16 {
    var w := v as bv16;
    (w & 1) | ((w & 2) << 1) | ((w & 4) << 2) | ((w & 8) << 3)
    | ((w & 16) << 4) | ((w & 32) << 5) | ((w & 64) << 6) | ((w & 128) << 7)
  }

  /** The even bits of a byte, side by side, and the odd ones. */
  function Evens(v: bv8): bv8 {
    (v & 1) | ((v & 4) >> 1) | ((v & 16) >> 2) | ((v & 64) >> 3)
  }

  function Odds(v: bv8): bv8 {
    ((v & 2) >> 1) | ((v & 8) >> 2) | ((v & 32) >> 3) | ((v & 128) >> 4)
  }

  /** The lowest `i` bits of a byte. */
  function Low(value: bv8, i: bv8): bv8
    requires i <= 8
  {
    value & ((1 << i) - 1)
  }

  lemma LowEnds(value: bv8)
    ensures Spread(Low(value, 0)) == 0 && Evens(Low(value, 0)) == 0 && Odds(Low(value, 0)) == 0
    ensures Low(value, 8) == value
  {
  }

  lemma SpreadStep(value: bv8, i: bv8)
    requires i < 8
    ensures Spread(Low(value, i + 1)) == Spread(Low(value, i)) | (((value & (1 << i)) as bv16) << i)
  {
  }

  lemma EvensStep(value: bv8, i: bv8)
    requires i < 8 && i & 1 == 0
    ensures i + 2 <= 8 && (i + 2) & 1 == 0
    ensures Evens(Low(value, i + 2)) == Evens(Low(value, i)) | ((value & (1 << i)) >> (i >> 1))
  {
  }

  lemma OddsStep(value: bv8, i: bv8)
    requires i < 8 && i & 1 == 0
    ensures i + 2 <= 8
    ensures Odds(Low(value, i + 2)) == Odds(Low(value, i)) | ((value & (1 << (i + 1))) >> (1 + (i >> 1)))
  {
  }

  method MortonValue(value: bv8) returns (answer: bv16)
    ensures answer == Spread(value)
  {
    hide Spread, Low;
    LowEnds(value);
    answer := 0;
    var i: bv8 := 0;
    while i < 8
      invariant i <= 8
      invariant answer == Spread(Low(value, i))
    {
      SpreadStep(value, i);
      answer := answer | (((value & (1 << i)) as bv16) << i);
      i := i + 1;
    }
  }

  method UnmortonValue(value: bv8) returns (a: bv8, b: bv8)
    ensures a == Evens(value) && b == Odds(value)
  {
    hide Evens, Odds, Low;
    LowEnds(value);
    a, b := 0, 0;
    var i: bv8 := 0;
    while i < 8
      invariant i <= 8 && i & 1 == 0
      invariant a == Evens(Low(value, i)) && b == Odds(Low(value, i))
    {
      EvensStep(value, i);
      OddsStep(value, i);
      a := a | ((value & (1 << i)) >> (i >> 1));
      b := b | ((value & (1 << (i + 1))) >> (1 + (i >> 1)));
      i := i + 2;
    }
  }

  ghost predicate IsMortonTable(arr: array<bv16>, shift: bv16)
    requires shift <= 1
    reads arr
  {
    arr.Length == 256 && forall v: bv8 :: arr[v as int] == Spread(v) << shift
  }

  method MortonTable(shift: bv16) returns (arr: array<bv16>)
    requires shift <= 1
    ensures fresh(arr) && IsMortonTable(arr, shift)
  {
    arr := new bv16[256];
    var i := 0;
    while i < 256
      invariant i <= 256
      invariant forall v: bv8 :: v as int < i ==> arr[v as int] == Spread(v) << shift
    {
      var value := MortonValue(i as bv8);
      arr[i] := value << shift;
      i := i + 1;
    }
  }

  ghost predicate IsUnmortonTable(arr: array<(bv32, bv32)>)
    reads arr
  {
    arr.Length == 256 && forall v: bv8 :: arr[v as int] == (Evens(v) as bv32, Odds(v) as bv32)
  }

  method UnmortonTable() returns (arr: array<(bv32, bv32)>)
    ensures fresh(arr) && IsUnmortonTable(arr)
  {
    arr := new (bv32, bv32)[256];
    var i := 0;
    while i < 256
      invariant i <= 256
      invariant forall v: bv8 :: v as int < i ==> arr[v as int] == (Evens(v) as bv32, Odds(v) as bv32)
    {
      var a, b := UnmortonValue(i as bv8);
      arr[i] := (a as bv32, b as bv32);
      i := i + 1;
    }
  }

  // The codes ------------------------------------------------------------------------------------

  /** What `morton` computes: each byte spread out, those of `y` one place up, 16 bits of code for each byte. */
  function Morton(x: bv32, y: bv32): bv64 {
    Spread((x & 0xff) as bv8) as bv64 | (Spread((y & 0xff) as bv8) << 1) as bv64
    | ((Spread(((x & 0xff00) >> 8) as bv8) as bv64 | (Spread(((y & 0xff00) >> 8) as bv8) << 1) as bv64) << 16)
    | ((Spread(((x & 0xff0000) >> 16) as bv8) as bv64 | (Spread(((y & 0xff0000) >> 16) as bv8) << 1) as bv64) << 32)
    | ((Spread(((x & 0xff000000) >> 24) as bv8) as bv64 | (Spread(((y & 0xff000000) >> 24) as bv8) << 1) as bv64) << 48)
  }

  method LookUpMorton(mx: array<bv16>, my: array<bv16>, x: bv32, y: bv32) returns (m: bv64)
    requires IsMortonTable(mx, 0) && IsMortonTable(my, 1)
    ensures m == Morton(x, y)
  {
    m := mx[(x & 0xff) as bv8 as int] as bv64
         | my[(y & 0xff) as bv8 as int] as bv64
         | ((mx[((x & 0xff00) >> 8) as bv8 as int] as bv64 | my[((y & 0xff00) >> 8) as bv8 as int] as bv64) << 16)
         | ((mx[((x & 0xff0000) >> 16) as bv8 as int] as bv64 | my[((y & 0xff0000) >> 16) as bv8 as int] as bv64) << 32)
         | ((mx[((x & 0xff000000) >> 24) as bv8 as int] as bv64
             | my[((y & 0xff000000) >> 24) as bv8 as int] as bv64) << 48);
  }

  function Gather(f: bv8 -> bv8, m: bv64): bv32 {
    f((m & 0xff) as bv8) as bv32
    | (f(((m & 0xff00) >> 8) as bv8) as bv32 << 4)
    | (f(((m & 0xff0000) >> 16) as bv8) as bv32 << 8)
    | (f(((m & 0xff000000) >> 24) as bv8) as bv32 << 12)
    | (f(((m & 0xff00000000) >> 32) as bv8) as bv32 << 16)
    | (f(((m & 0xff0000000000) >> 40) as bv8) as bv32 << 20)
    | (f(((m & 0xff000000000000) >> 48) as bv8) as bv32 << 24)
    | (f(((m & 0xff00000000000000) >> 56) as bv8) as bv32 << 28)
  }

  function Unmorton(m: bv64): (bv32, bv32) {
    (Gather(Evens, m), Gather(Odds, m))
  }

  method LookUpUnmorton(table: array<(bv32, bv32)>, m: bv64) returns (x: bv32, y: bv32)
    requires IsUnmortonTable(table)
    ensures (x, y) == Unmorton(m)
  {
    var (x0a, y0a) := table[(m & 0xff) as bv8 as int];
    var (x0b, y0b) := table[((m & 0xff00) >> 8) as bv8 as int];
    var (x1a, y1a) := table[((m & 0xff0000) >> 16) as bv8 as int];
    var (x1b, y1b) := table[((m & 0xff000000) >> 24) as bv8 as int];
    var (x2a, y2a) := table[((m & 0xff00000000) >> 32) as bv8 as int];
    var (x2b, y2b) := table[((m & 0xff0000000000) >> 40) as bv8 as int];
    var (x3a, y3a) := table[((m & 0xff000000000000) >> 48) as bv8 as int];
    var (x3b, y3b) := table[((m & 0xff00000000000000) >> 56) as bv8 as int];
    x := x0a | (x0b << 4) | (x1a << 8) | (x1b << 12) | (x2a << 16) | (x2b << 20) | (x3a << 24) | (x3b << 28);
    y := y0a | (y0b << 4) | (y1a << 8) | (y1b << 12) | (y2a << 16) | (y2b << 20) | (y3a << 24) | (y3b << 28);
  }

  lemma UnmortonMorton(x: bv32, y: bv32)
    ensures Unmorton(Morton(x, y)) == (x, y)
  {
  }

  lemma MortonUnmorton(m: bv64)
    ensures Morton(Unmorton(m).0, Unmorton(m).1) == m
  {
  }

  // The code as a number -------------------------------------------------------------------------

  /** The number a word stands for, from its lowest `n` bits. */
  function Value32(x: bv32, n: nat): nat {
    if n == 0 then 0 else (if x & 1 == 1 then 1 else 0) + 2 * Value32(x >> 1, n - 1)
  }

  function Value64(m: bv64, n: nat): nat {
    if n == 0 then 0 else (if m & 1 == 1 then 1 else 0) + 2 * Value64(m >> 1, n - 1)
  }

  /** Two numbers' bits taken in turn, the first number's lowest bit first. */
  function Interleaved(x: nat, y: nat): nat {
    if x == 0 && y == 0 then 0 else x % 2 + 2 * (y % 2) + 4 * Interleaved(x / 2, y / 2)
  }

  function Bit(b: bool): nat {
    if b then 1 else 0
  }

  lemma InterleavedStep(a: bool, x: nat, b: bool, y: nat)
    ensures Interleaved(Bit(a) + 2 * x, Bit(b) + 2 * y) == Bit(a) + 2 * Bit(b) + 4 * Interleaved(x, y)
  {
    var x', y' := Bit(a) + 2 * x, Bit(b) + 2 * y;
    assert x' / 2 == x && x' % 2 == Bit(a) && y' / 2 == y && y' % 2 == Bit(b);
  }

  lemma LowestOfFirst(x: bv32, y: bv32)
    ensures Morton(x, y) & 1 == (x & 1) as bv64
  {
  }

  lemma LowestOfSecond(x: bv32, y: bv32)
    ensures (Morton(x, y) >> 1) & 1 == (y & 1) as bv64
  {
  }

  lemma UpperBits(x: bv32, y: bv32)
    ensures (Morton(x, y) >> 1) >> 1 == Morton(x >> 1, y >> 1)
  {
  }

  lemma SameLowest(m: bv64, x: bv32)
    requires m & 1 == (x & 1) as bv64
    ensures m & 1 == 1 <==> x & 1 == 1
  {
  }

  /** The lowest bits of a code are the words' lowest bits, and the rest is the code of the rest. */
  lemma LowBits(x: bv32, y: bv32)
    ensures var m := Morton(x, y);
            && ((m & 1 == 1) <==> (x & 1 == 1))
            && (((m >> 1) & 1 == 1) <==> (y & 1 == 1))
            && (m >> 1) >> 1 == Morton(x >> 1, y >> 1)
  {
    hide Morton;
    LowestOfFirst(x, y);
    LowestOfSecond(x, y);
    SameLowest(Morton(x, y), x);
    SameLowest(Morton(x, y) >> 1, y);
    UpperBits(x, y);
  }

  /** The table form is bit-by-bit interleaving. */
  lemma {:induction false} MortonInterleaves(x: bv32, y: bv32, n: nat)
    ensures Value64(Morton(x, y), 2 * n) == Interleaved(Value32(x, n), Value32(y, n))
  {
    hide *;
    var m := Morton(x, y);
    if n == 0 {
      ZeroBits(m, x, y);
    } else {
      LowBits(x, y);
      MortonInterleaves(x >> 1, y >> 1, n - 1);
      InterleavedStep(x & 1 == 1, Value32(x >> 1, n - 1), y & 1 == 1, Value32(y >> 1, n - 1));
      ValueSteps(m, x, y, n);
    }
  }

  lemma ZeroBits(m: bv64, x: bv32, y: bv32)
    ensures Value64(m, 0) == 0 && Interleaved(Value32(x, 0), Value32(y, 0)) == 0
  {
  }

  lemma ValueSteps(m: bv64, x: bv32, y: bv32, n: nat)
    requires n > 0
    ensures Value64(m, 2 * n)
            == Bit(m & 1 == 1) + 2 * Bit((m >> 1) & 1 == 1) + 4 * Value64((m >> 1) >> 1, 2 * (n - 1))
    ensures Value32(x, n) == Bit(x & 1 == 1) + 2 * Value32(x >> 1, n - 1)
    ensures Value32(y, n) == Bit(y & 1 == 1) + 2 * Value32(y >> 1, n - 1)
  {
    assert Value64(m >> 1, 2 * n - 1) == Bit((m >> 1) & 1 == 1) + 2 * Value64((m >> 1) >> 1, 2 * n - 2);
  }

  function FirstOf(m: nat): nat {
    if m == 0 then 0 else m % 2 + 2 * FirstOf(m / 4)
  }

  function SecondOf(m: nat): nat {
    if m == 0 then 0 else m / 2 % 2 + 2 * SecondOf(m / 4)
  }

  lemma OneLevel(a: nat, b: nat, m: nat)
    requires a <= 1 && b <= 1
    ensures var k := a + 2 * b + 4 * m; k / 4 == m && k % 2 == a && k / 2 % 2 == b
  {
    var k := a + 2 * b + 4 * m;
    assert k / 2 == b + 2 * m;
  }

  lemma {:induction false} InterleavedApart(x: nat, y: nat)
    ensures FirstOf(Interleaved(x, y)) == x && SecondOf(Interleaved(x, y)) == y
  {
    if x > 0 || y > 0 {
      InterleavedApart(x / 2, y / 2);
      OneLevel(x % 2, y % 2, Interleaved(x / 2, y / 2));
      InterleavedPositive(x, y);
    }
  }

  lemma {:induction false} InterleavedTogether(m: nat)
    ensures Interleaved(FirstOf(m), SecondOf(m)) == m
  {
    if m == 0 {
      assert Interleaved(0, 0) == 0;
    } else {
      InterleavedTogether(m / 4);
      ApartStep(m);
      hide Interleaved, FirstOf, SecondOf;
      Digits(m);
      InterleavedStep(m % 2 == 1, FirstOf(m / 4), m / 2 % 2 == 1, SecondOf(m / 4));
    }
  }

  lemma ApartStep(m: nat)
    ensures FirstOf(m) == Bit(m % 2 == 1) + 2 * FirstOf(m / 4)
    ensures SecondOf(m) == Bit(m / 2 % 2 == 1) + 2 * SecondOf(m / 4)
  {
  }

  lemma Digits(m: nat)
    ensures m == m % 2 + 2 * (m / 2 % 2) + 4 * (m / 4)
  {
    assert m / 4 == m / 2 / 2;
  }

  lemma {:induction false} InterleavedPositive(x: nat, y: nat)
    requires x > 0 || y > 0
    ensures Interleaved(x, y) > 0
  {
    if x % 2 == 0 && y % 2 == 0 { InterleavedPositive(x / 2, y / 2); }
  }

  /** The code grows with each coordinate. */
  lemma {:induction false} InterleavedMonotone(x: nat, y: nat, z: nat, w: nat)
    requires x <= z && y <= w
    ensures Interleaved(x, y) <= Interleaved(z, w)
    ensures x < z || y < w ==> Interleaved(x, y) < Interleaved(z, w)
    decreases z + w
  {
    if z > 0 || w > 0 {
      InterleavedMonotone(x / 2, y / 2, z / 2, w / 2);
    }
  }

  /** On words: the code, as a number, grows with each word, as a number. */
  lemma MortonMonotone(x: bv32, y: bv32, z: bv32, w: bv32)
    requires Value32(x, 32) <= Value32(z, 32) && Value32(y, 32) <= Value32(w, 32)
    ensures Value64(Morton(x, y), 64) <= Value64(Morton(z, w), 64)
    ensures Value32(x, 32) < Value32(z, 32) || Value32(y, 32) < Value32(w, 32) ==>
              Value64(Morton(x, y), 64) < Value64(Morton(z, w), 64)
  {
    hide Morton, Interleaved, Value32, Value64;
    MortonInterleaves(x, y, 32);
    MortonInterleaves(z, w, 32);
    InterleavedMonotone(Value32(x, 32), Value32(y, 32), Value32(z, 32), Value32(w, 32));
  }
}
