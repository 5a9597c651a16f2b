/**
 Strings of lower-case letters and a few marks, at five bits a character: three characters to two bytes, the lowest
 bit of the second saying whether the triple is the last. What is left over goes into a last byte and the nibble of
 the header that a string shares with other things.
 */
module FiveBits {
  import opened Wrappers

  /** Characters are bytes of ASCII. */
  type Char = bv8

  const LETTER_A: Char := 97
  const LETTER_Z: Char := 122
  const COLON: Char := 58
  const UNDERSCORE: Char := 95
  const DASH: Char := 45
  const SLASH: Char := 47
  const DOT: Char := 46
  const SPACE: Char := 32

  predicate InCharset(c: Char) {
    LETTER_A <= c <= LETTER_Z || c == COLON || c == UNDERSCORE || c == DASH || c == SLASH || c == DOT || c == SPACE
  }

  predicate AllInCharset(s: seq<Char>) {
    forall i :: 0 <= i < |s| ==> InCharset(s[i])
  }

  function CharToIndex(c: Char): bv8 {
    if c == COLON then 26
    else if c == UNDERSCORE then 27
    else if c == DASH then 28
    else if c == SLASH then 29
    else if c == DOT then 30
    else if c == SPACE then 31
    else c - LETTER_A
  }

  function CharFromIndex(b: bv8): Option<Char> {
    if b <= 25 then Some(LETTER_A + b)
    else if b == 26 then Some(COLON)
    else if b == 27 then Some(UNDERSCORE)
    else if b == 28 then Some(DASH)
    else if b == 29 then Some(SLASH)
    else if b == 30 then Some(DOT)
    else if b == 31 then Some(SPACE)
    else None
  }

  lemma CharRoundTrip(c: Char)
    requires InCharset(c)
    ensures CharToIndex(c) <= 31 && CharFromIndex(CharToIndex(c)) == Some(c)
    ensures CharFromIndex(c) == None
  {
  }

  const REM_ONLY_0: bv8 := 0x1
  const REM_0: bv8 := 0x0
  const REM_ONLY_1: bv8 := 0x5
  const REM_1: bv8 := 0x4
  const REM_ONLY_2: bv8 := 0xc
  const REM_2: bv8 := 0x8

  // Triples --------------------------------------------------------------------------------------

  /** Three five-bit numbers and a bit, from the top down. */
  function SectionOf(a: bv8, b: bv8, c: bv8, last: bool): bv16 {
    (((a & 0x1f) as bv16) << 11) | (((b & 0x1f) as bv16) << 6) | (((c & 0x1f) as bv16) << 1) | (if last then 1 else 0)
  }

  function Section(a: Char, b: Char, c: Char, last: bool): bv16 {
    SectionOf(CharToIndex(a), CharToIndex(b), CharToIndex(c), last)
  }

  /** The two bytes of a triple, most significant first. */
  function SectionBytes(section: bv16): seq<bv8> {
    [(section >> 8) as bv8, (section & 0xff) as bv8]
  }

  /** One field more of a section. */
  function Put(section: bv16, index: bv8, shift: bv16): bv16
    requires shift <= 16
  {
    section | (((index & 0x1f) as bv16) << shift)
  }

  /** One triple: the characters' bits are gathered from the top down. */
  method GatherSection(chunk: seq<Char>, last: bool) returns (section: bv16)
    requires |chunk| == 3
    ensures section == Section(chunk[0], chunk[1], chunk[2], last)
  {
    hide CharToIndex, SectionOf, Put;
    section := 0;
    var shift: bv16 := 11;
    SectionSteps(CharToIndex(chunk[0]), CharToIndex(chunk[1]), CharToIndex(chunk[2]));
    for i := 0 to 3
      invariant i < 3 ==> shift == if i == 0 then 11 else if i == 1 then 6 else 1
      invariant section == if i == 0 then 0
                           else if i == 1 then SectionOf(CharToIndex(chunk[0]), 0, 0, false)
                           else if i == 2 then SectionOf(CharToIndex(chunk[0]), CharToIndex(chunk[1]), 0, false)
                           else SectionOf(CharToIndex(chunk[0]), CharToIndex(chunk[1]), CharToIndex(chunk[2]), false)
    {
      section := Put(section, CharToIndex(chunk[i]), shift);
      shift := shift - 5;
    }
    if last {
      section := section | 1;
    }
  }

  lemma SectionSteps(a: bv8, b: bv8, c: bv8)
    ensures Put(0, a, 11) == SectionOf(a, 0, 0, false)
    ensures Put(SectionOf(a, 0, 0, false), b, 6) == SectionOf(a, b, 0, false)
    ensures Put(SectionOf(a, b, 0, false), c, 1) == SectionOf(a, b, c, false)
    ensures SectionOf(a, b, c, false) | 1 == SectionOf(a, b, c, true)
  {
    hide SectionOf, Put;
    StepOne(a);
    StepTwo(a, b);
    StepThree(a, b, c);
    StepFour(a, b, c);
  }

  lemma StepOne(a: bv8)
    ensures Put(0, a, 11) == SectionOf(a, 0, 0, false)
  {
  }

  lemma StepTwo(a: bv8, b: bv8)
    ensures Put(SectionOf(a, 0, 0, false), b, 6) == SectionOf(a, b, 0, false)
  {
  }

  lemma StepThree(a: bv8, b: bv8, c: bv8)
    ensures Put(SectionOf(a, b, 0, false), c, 1) == SectionOf(a, b, c, false)
  {
  }

  lemma StepFour(a: bv8, b: bv8, c: bv8)
    ensures SectionOf(a, b, c, false) | 1 == SectionOf(a, b, c, true)
  {
  }

  /** The triples of a string, the last one marked. */
  function Triples(s: seq<Char>): (bytes: seq<bv8>) {
    if |s| < 3 then []
    else SectionBytes(Section(s[0], s[1], s[2], |s| < 6)) + Triples(s[3..])
  }

  /** What is left when the triples have been taken. */
  function Remainder(s: seq<Char>): (r: seq<Char>)
    ensures |r| < 3
  {
    if |s| < 3 then s else Remainder(s[3..])
  }

  function RemainderBytes(r: seq<Char>): seq<bv8>
    requires |r| < 3
  {
    if r == [] then []
    else if |r| == 1 then [r[0]]
    else [(CharToIndex(r[0]) << 5) | CharToIndex(r[1])]
  }

  function HeaderNibble(r: seq<Char>, onlyRemainder: bool): bv8
    requires |r| < 3
  {
    if r == [] then (if onlyRemainder then REM_ONLY_0 else REM_0)
    else if |r| == 1 then (if onlyRemainder then REM_ONLY_1 else REM_1)
    else (if onlyRemainder then REM_ONLY_2 else REM_2) | (CharToIndex(r[0]) >> 3)
  }

  /** `to_charset`. */
  method ToCharset(s: seq<Char>) returns (headerNibble: bv8, bytes: seq<bv8>)
    ensures headerNibble == HeaderNibble(Remainder(s), |s| < 3)
    ensures bytes == Triples(s) + RemainderBytes(Remainder(s))
  {
    hide Section, SectionBytes, CharToIndex;
    var len := |s|;
    RemainderIsEnd(s);
    var remainder := s[len - len % 3..];
    headerNibble := HeaderNibble(remainder, len < 3);
    bytes := [];
    var rest := s;
    while |rest| >= 3
      invariant bytes + Triples(rest) == Triples(s)
      decreases |rest|
    {
      var section := GatherSection(rest[..3], |rest| < 6);
      assert Triples(rest) == SectionBytes(section) + Triples(rest[3..]);
      bytes := bytes + SectionBytes(section);
      rest := rest[3..];
    }
    assert bytes + [] == bytes;
    bytes := bytes + RemainderBytes(remainder);
  }

  lemma {:induction false} RemainderIsEnd(s: seq<Char>)
    ensures Remainder(s) == s[|s| - |s| % 3..]
  {
    if |s| >= 3 {
      RemainderIsEnd(s[3..]);
      assert s[3..][|s| - 3 - |s| % 3..] == s[|s| - |s| % 3..];
    }
  }

  // Reading back ---------------------------------------------------------------------------------

  function Chars(a: Option<Char>, b: Option<Char>): Option<seq<Char>> {
    if a.Some? && b.Some? then Some([a.value, b.value]) else None
  }

  /** The last two characters, from the header's two low bits and a byte. */
  function TwoFrom(headerNibble: bv8, a: bv8): Option<seq<Char>> {
    Chars(CharFromIndex(((headerNibble & 3) << 3) | (a >> 5)), CharFromIndex(a & 0x1f))
  }

  /** The three five-bit numbers in two bytes, and the last bit. */
  function Fields(b1: bv8, b2: bv8): (bv8, bv8, bv8, bool) {
    var section := ((b1 as bv16) << 8) | (b2 as bv16);
    ((section >> 11) as bv8, ((section >> 6) & 0x1f) as bv8, ((section >> 1) & 0x1f) as bv8, section & 1 == 1)
  }

  /** The three characters of a triple, and whether it is the last. */
  function ThreeFrom(b1: bv8, b2: bv8): Option<(seq<Char>, bool)> {
    var (ia, ib, ic, last) := Fields(b1, b2);
    var a, b, c := CharFromIndex(ia), CharFromIndex(ib), CharFromIndex(ic);
    if a.Some? && b.Some? && c.Some? then Some(([a.value, b.value, c.value], last)) else None
  }

  /** Triples up to the one that is marked as the last; and what follows them. */
  function ReadTriples(bytes: seq<bv8>): Option<(seq<Char>, seq<bv8>)> {
    if |bytes| < 2 then None
    else match ThreeFrom(bytes[0], bytes[1])
      case None => None
      case Some((s, last)) =>
        if last then Some((s, bytes[2..]))
        else match ReadTriples(bytes[2..])
          case None => None
          case Some((t, rest)) => Some((s + t, rest))
  }

  /** `latin_lowercase_fivebit_to_string`; nothing stands for an error, and for the assertion on the header. */
  function ReadString(headerNibble: bv8, bytes: seq<bv8>): Option<(seq<Char>, seq<bv8>)> {
    if headerNibble == REM_ONLY_0 then Some(([], bytes))
    else if headerNibble == REM_ONLY_1 then
      if bytes == [] then None
      else match CharFromIndex(bytes[0]) case None => None case Some(c) => Some(([c], bytes[1..]))
    else if headerNibble & REM_ONLY_2 == REM_ONLY_2 then
      if bytes == [] then None
      else match TwoFrom(headerNibble, bytes[0]) case None => None case Some(s) => Some((s, bytes[1..]))
    else match ReadTriples(bytes)
      case None => None
      case Some((s, rest)) =>
        if headerNibble == REM_0 then Some((s, rest))
        else if rest == [] then None
        else if headerNibble == REM_1 then Some((s + [rest[0]], rest[1..]))
        else if headerNibble >> 2 != REM_2 >> 2 then None
        else match TwoFrom(headerNibble, rest[0]) case None => None case Some(t) => Some((s + t, rest[1..]))
  }

  /** The loop over the triples. */
  method ReadAllTriples(bytes: seq<bv8>) returns (r: Option<(seq<Char>, seq<bv8>)>)
    ensures r == ReadTriples(bytes)
  {
    hide ThreeFrom;
    var str, rest := [], bytes;
    match ReadTriples(bytes) {
      case None =>
      case Some((t, _)) => assert [] + t == t;
    }
    while |rest| >= 2
      invariant ReadTriples(bytes) == match ReadTriples(rest)
                                      case None => None
                                      case Some((t, left)) => Some((str + t, left))
      decreases |rest|
    {
      var three := ThreeFrom(rest[0], rest[1]);
      if three == None {
        return None;
      }
      ghost var before := str;
      str := str + three.value.0;
      if three.value.1 {
        return Some((str, rest[2..]));
      }
      match ReadTriples(rest[2..]) {
        case None =>
        case Some((t, _)) => assert before + (three.value.0 + t) == str + t;
      }
      rest := rest[2..];
    }
    r := None;
  }

  // Round trips ----------------------------------------------------------------------------------

  lemma TripleRoundTrip(a: Char, b: Char, c: Char, last: bool)
    requires InCharset(a) && InCharset(b) && InCharset(c)
    ensures var bs := SectionBytes(Section(a, b, c, last)); ThreeFrom(bs[0], bs[1]) == Some(([a, b, c], last))
  {
    hide CharToIndex, CharFromIndex, Fields, SectionOf, SectionBytes;
    CharRoundTrip(a);
    CharRoundTrip(b);
    CharRoundTrip(c);
    FieldsOfSection(CharToIndex(a), CharToIndex(b), CharToIndex(c), last);
  }

  /** The five-bit fields of a section come back from its two bytes. */
  lemma FieldsOfSection(a: bv8, b: bv8, c: bv8, last: bool)
    requires a <= 31 && b <= 31 && c <= 31
    ensures var bs := SectionBytes(SectionOf(a, b, c, last)); |bs| == 2 && Fields(bs[0], bs[1]) == (a, b, c, last)
  {
  }

  lemma TwoRoundTrip(a: Char, b: Char, base: bv8)
    requires InCharset(a) && InCharset(b) && (base == REM_2 || base == REM_ONLY_2)
    ensures TwoFrom(base | (CharToIndex(a) >> 3), (CharToIndex(a) << 5) | CharToIndex(b)) == Some([a, b])
    ensures (base | (CharToIndex(a) >> 3)) >> 2 == base >> 2
  {
    hide CharToIndex, CharFromIndex;
    CharRoundTrip(a);
    CharRoundTrip(b);
    TwoBits(CharToIndex(a), CharToIndex(b), base);
  }

  lemma TwoBits(a: bv8, b: bv8, base: bv8)
    requires a <= 31 && b <= 31 && base & 3 == 0
    ensures (((base | (a >> 3)) & 3) << 3) | (((a << 5) | b) >> 5) == a
    ensures ((a << 5) | b) & 0x1f == b
    ensures (base | (a >> 3)) >> 2 == base >> 2
  {
  }

  lemma {:induction false} TriplesRoundTrip(s: seq<Char>, rest: seq<bv8>)
    requires AllInCharset(s) && |s| >= 3
    ensures ReadTriples(Triples(s) + rest) == Some((s[..|s| - |s| % 3], rest))
  {
    hide Section, SectionBytes, ThreeFrom, InCharset;
    var here := SectionBytes(Section(s[0], s[1], s[2], |s| < 6));
    TwoBytes(Section(s[0], s[1], s[2], |s| < 6));
    TripleRoundTrip(s[0], s[1], s[2], |s| < 6);
    var bytes := Triples(s) + rest;
    assert bytes == here + (Triples(s[3..]) + rest);
    assert bytes[2..] == Triples(s[3..]) + rest && bytes[0] == here[0] && bytes[1] == here[1];
    if |s| >= 6 {
      TriplesRoundTrip(s[3..], rest);
      assert s[..|s| - |s| % 3] == [s[0], s[1], s[2]] + s[3..][..|s| - 3 - |s| % 3];
    } else {
      assert Triples(s[3..]) + rest == rest;
      assert s[..3] == [s[0], s[1], s[2]];
    }
  }

  lemma TwoBytes(section: bv16)
    ensures |SectionBytes(section)| == 2
  {
  }

  function Packed(s: seq<Char>): (bv8, seq<bv8>) {
    (HeaderNibble(Remainder(s), |s| < 3), Triples(s) + RemainderBytes(Remainder(s)))
  }

  /** A header with two characters' bits in it is taken for what it is. */
  lemma TwoHeader(c: Char)
    requires InCharset(c)
    ensures var h := REM_ONLY_2 | (CharToIndex(c) >> 3);
            h & REM_ONLY_2 == REM_ONLY_2 && h != REM_ONLY_0 && h != REM_ONLY_1
    ensures var h := REM_2 | (CharToIndex(c) >> 3);
            && h & REM_ONLY_2 != REM_ONLY_2 && h >> 2 == REM_2 >> 2
            && h != REM_ONLY_0 && h != REM_ONLY_1 && h != REM_0 && h != REM_1
  {
  }

  lemma ReadOnlyTwo(a: Char, b: Char, rest: seq<bv8>)
    requires InCharset(a) && InCharset(b)
    ensures ReadString(REM_ONLY_2 | (CharToIndex(a) >> 3), [(CharToIndex(a) << 5) | CharToIndex(b)] + rest)
            == Some(([a, b], rest))
  {
    hide InCharset, CharToIndex, CharFromIndex, TwoFrom;
    TwoRoundTrip(a, b, REM_ONLY_2);
    TwoHeader(a);
    var byte := (CharToIndex(a) << 5) | CharToIndex(b);
    assert ([byte] + rest)[0] == byte && ([byte] + rest)[1..] == rest;
  }

  lemma ReadOnlyOne(c: Char, rest: seq<bv8>)
    requires InCharset(c)
    ensures ReadString(REM_ONLY_1, [c] + rest) == None
  {
    hide InCharset, CharToIndex, CharFromIndex;
    CharRoundTrip(c);
  }

  /** After the triples: nothing, one character as it is, or two characters packed. */
  lemma ReadAfterTriples(bytes: seq<bv8>, t: seq<Char>, left: seq<bv8>)
    requires ReadTriples(bytes) == Some((t, left))
    ensures ReadString(REM_0, bytes) == Some((t, left))
    ensures left != [] ==> ReadString(REM_1, bytes) == Some((t + [left[0]], left[1..]))
  {
    hide ReadTriples;
  }

  lemma ReadTwoAfterTriples(bytes: seq<bv8>, t: seq<Char>, a: Char, b: Char, rest: seq<bv8>)
    requires InCharset(a) && InCharset(b)
    requires ReadTriples(bytes) == Some((t, [(CharToIndex(a) << 5) | CharToIndex(b)] + rest))
    ensures ReadString(REM_2 | (CharToIndex(a) >> 3), bytes) == Some((t + [a, b], rest))
  {
    hide InCharset, CharToIndex, CharFromIndex, TwoFrom, ReadTriples;
    TwoRoundTrip(a, b, REM_2);
    TwoHeader(a);
    var byte := (CharToIndex(a) << 5) | CharToIndex(b);
    assert ([byte] + rest)[0] == byte && ([byte] + rest)[1..] == rest;
  }

  lemma ShortRoundTrip(s: seq<Char>, rest: seq<bv8>)
    requires AllInCharset(s) && |s| < 3
    ensures ReadString(Packed(s).0, Packed(s).1 + rest) == if |s| == 1 then None else Some((s, rest))
  {
    hide InCharset, CharToIndex, ReadString;
    assert Packed(s).1 == RemainderBytes(s);
    if |s| == 0 {
      assert Packed(s).1 + rest == rest;
      ReadNone(rest);
    } else if |s| == 1 {
      ReadOnlyOne(s[0], rest);
    } else {
      ReadOnlyTwo(s[0], s[1], rest);
      assert s == [s[0], s[1]];
    }
  }

  lemma ReadNone(rest: seq<bv8>)
    ensures ReadString(REM_ONLY_0, rest) == Some(([], rest))
  {
  }

  lemma LongRoundTrip(s: seq<Char>, rest: seq<bv8>)
    requires AllInCharset(s) && |s| >= 3
    ensures ReadString(Packed(s).0, Packed(s).1 + rest) == Some((s, rest))
  {
    hide InCharset, CharToIndex, Triples, ReadTriples, ReadString;
    RemainderIsEnd(s);
    var r, t := Remainder(s), s[..|s| - |s| % 3];
    var left, bytes := RemainderBytes(r) + rest, Packed(s).1 + rest;
    assert bytes == Triples(s) + left;
    TriplesRoundTrip(s, left);
    ReadAfterTriples(bytes, t, left);
    assert s == t + r;
    if |r| == 0 {
      assert left == rest && s == t;
    } else if |r| == 1 {
      assert left[1..] == rest && r == [left[0]];
    } else {
      ReadTwoAfterTriples(bytes, t, r[0], r[1], rest);
      assert r == [r[0], r[1]];
    }
  }

  /**
   A string of the charset comes back, whatever bytes follow it and with exactly its own bytes read, if and only if it
   is not one character long: that one is written as it is and read as an index, which it never is.
   */
  lemma RoundTripIff(s: seq<Char>, rest: seq<bv8>)
    requires AllInCharset(s)
    ensures ReadString(Packed(s).0, Packed(s).1 + rest) == Some((s, rest)) <==> |s| != 1
    ensures |s| == 1 ==> ReadString(Packed(s).0, Packed(s).1 + rest) == None
  {
    if |s| < 3 { ShortRoundTrip(s, rest); } else { LongRoundTrip(s, rest); }
  }
}
