/**
 Boxes over 32-bit coordinates: splitting, containment, and the offsets under which a box is stored in a node.
 Machine numbers are integers kept in range; `avg` is the bit trick of the source on two's-complement words.
 */
module BBoxes {
  import opened Wrappers
  import opened Multimap
  import opened Morton
  import opened Powers

  // The average ----------------------------------------------------------------------------------

  /** Bitwise and, on the bits of two's complement: the lowest bit, then the rest. */
  function And(a: int, b: int, w: nat): int
    decreases w
  {
    if w <= 1 then (if a < 0 && b < 0 then -1 else 0)
    else 2 * And(a / 2, b / 2, w - 1) + (if a % 2 == 1 && b % 2 == 1 then 1 else 0)
  }

  function Xor(a: int, b: int, w: nat): int
    decreases w
  {
    if w <= 1 then (if (a < 0) != (b < 0) then -1 else 0)
    else 2 * Xor(a / 2, b / 2, w - 1) + (if a % 2 != b % 2 then 1 else 0)
  }

  /** `(a & b) + ((a ^ b) >> 1)`, the shift keeping the sign. */
  function Avg(a: int, b: int, w: nat): int {
    And(a, b, w) + Xor(a, b, w) / 2
  }

  lemma {:induction false} AndXor(a: int, b: int, w: nat)
    requires Word(a, w) && Word(b, w)
    ensures 2 * And(a, b, w) + Xor(a, b, w) == a + b
    ensures Word(And(a, b, w), w) && Word(Xor(a, b, w), w)
    decreases w
  {
    if w > 1 {
      AndXor(a / 2, b / 2, w - 1);
    } else {
      assert Pow2(0) == 1;
    }
  }

  /** The bit trick is the mean rounded down, for every width, and none of its steps overflows. */
  lemma AvgIsFloorMean(a: int, b: int, w: nat)
    requires Word(a, w) && Word(b, w)
    ensures Avg(a, b, w) == (a + b) / 2 && Word(Avg(a, b, w), w)
    ensures Word(And(a, b, w), w) && Word(Xor(a, b, w) / 2, w)
  {
    AndXor(a, b, w);
  }

  // Boxes ----------------------------------------------------------------------------------------

  datatype BBox = BBox(x: int, y: int, xEnd: int, yEnd: int)

  const WORD := 32
  const MIN32 := -0x8000_0000
  const MAX32 := 0x7fff_ffff

  predicate Is32(a: int) {
    MIN32 <= a <= MAX32
  }

  lemma Is32Word(a: int)
    ensures Is32(a) <==> Word(a, WORD)
  {
    assert Pow2(31) == 0x8000_0000 by {
      assert Pow2(8) == 256;
      assert Pow2(16) == 65536;
      assert Pow2(24) == 0x100_0000;
    }
  }

  /** Corners in range and in order. */
  predicate Proper(b: BBox) {
    Is32(b.x) && Is32(b.y) && Is32(b.xEnd) && Is32(b.yEnd) && b.x <= b.xEnd && b.y <= b.yEnd
  }

  function Width(b: BBox): int {
    b.xEnd - b.x
  }

  function Height(b: BBox): int {
    b.yEnd - b.y
  }

  predicate Contains(parent: BBox, b: BBox) {
    parent.y <= b.y && parent.x <= b.x && parent.xEnd >= b.xEnd && parent.yEnd >= b.yEnd
  }

  predicate Overlaps(a: BBox, b: BBox) {
    !(Min(a.xEnd, b.xEnd) < Max(a.x, b.x) || Min(a.yEnd, b.yEnd) < Max(a.y, b.y))
  }

  predicate HasPoint(b: BBox, x: int, y: int) {
    b.x <= x <= b.xEnd && b.y <= y <= b.yEnd
  }

  /** Two boxes overlap just when they share a point, if only on an edge. */
  lemma OverlapsIsSharing(a: BBox, b: BBox)
    ensures Overlaps(a, b) <==> exists x, y :: HasPoint(a, x, y) && HasPoint(b, x, y)
  {
    if Overlaps(a, b) {
      assert HasPoint(a, Max(a.x, b.x), Max(a.y, b.y)) && HasPoint(b, Max(a.x, b.x), Max(a.y, b.y));
    }
  }

  /** A box contains another just when it has all of its points. */
  lemma ContainsIsCovering(a: BBox, b: BBox)
    requires b.x <= b.xEnd && b.y <= b.yEnd
    ensures Contains(a, b) <==> forall x, y :: HasPoint(b, x, y) ==> HasPoint(a, x, y)
  {
    assert HasPoint(b, b.x, b.y) && HasPoint(b, b.xEnd, b.yEnd);
  }

  // Splitting ------------------------------------------------------------------------------------

  datatype Axis = Long | Lat

  function NextAxis(axis: Axis): Axis {
    match axis case Long => Lat case Lat => Long
  }

  const FIRST_AXIS := Lat

  function SplitOnAxis(b: BBox, axis: Axis): (BBox, BBox) {
    match axis
    case Long => var at := Avg(b.y, b.yEnd, WORD); (b.(yEnd := at), b.(y := at))
    case Lat => var at := Avg(b.x, b.xEnd, WORD); (b.(xEnd := at), b.(x := at))
  }

  datatype Side = Left | Right | Neither

  /** Which half a box goes to, by containment: the left half is asked first. */
  function SideOf(parent: BBox, axis: Axis, b: BBox): Side {
    if Contains(SplitOnAxis(parent, axis).0, b) then Left
    else if Contains(SplitOnAxis(parent, axis).1, b) then Right
    else Neither
  }

  /** The rule the boxes have of their own, which looks at one axis only. */
  function SplitEnclosedInSide(parent: BBox, axis: Axis, b: BBox): (Side, BBox) {
    match axis
    case Long =>
      var at := Avg(parent.y, parent.yEnd, WORD);
      if b.yEnd <= at then (Left, parent.(yEnd := at))
      else if b.y >= at then (Right, parent.(y := at))
      else (Neither, parent)
    case Lat =>
      var at := Avg(parent.x, parent.xEnd, WORD);
      if b.xEnd <= at then (Left, parent.(xEnd := at))
      else if b.x >= at then (Right, parent.(x := at))
      else (Neither, parent)
  }

  function HalfOf(parent: BBox, axis: Axis, side: Side): BBox {
    match side
    case Left => SplitOnAxis(parent, axis).0
    case Right => SplitOnAxis(parent, axis).1
    case Neither => parent
  }

  /** For a box inside the parent, the two rules say the same. */
  lemma SideRulesAgree(parent: BBox, axis: Axis, b: BBox)
    requires Proper(parent) && Contains(parent, b)
    ensures SplitEnclosedInSide(parent, axis, b)
        == (SideOf(parent, axis, b), HalfOf(parent, axis, SideOf(parent, axis, b)))
  {
    hide Avg;
  }

  lemma Mean32(a: int, b: int)
    requires Is32(a) && Is32(b)
    ensures Avg(a, b, WORD) == (a + b) / 2
  {
    hide Avg, Word;
    Is32Word(a);
    Is32Word(b);
    AvgIsFloorMean(a, b, WORD);
  }

  /** Where a box is split: at the middle, rounded down. */
  lemma SplitAt(b: BBox, axis: Axis)
    requires Proper(b)
    ensures axis == Lat ==> SplitOnAxis(b, axis) == (b.(xEnd := (b.x + b.xEnd) / 2), b.(x := (b.x + b.xEnd) / 2))
    ensures axis == Long ==> SplitOnAxis(b, axis) == (b.(yEnd := (b.y + b.yEnd) / 2), b.(y := (b.y + b.yEnd) / 2))
  {
    hide Avg;
    Mean32(b.x, b.xEnd);
    Mean32(b.y, b.yEnd);
  }

  /** Both halves are boxes inside the parent, and between them they have all of its points. */
  lemma SplitCovers(b: BBox, axis: Axis)
    requires Proper(b)
    ensures var (l, r) := SplitOnAxis(b, axis);
            && Proper(l) && Proper(r) && Contains(b, l) && Contains(b, r)
            && forall x, y :: HasPoint(b, x, y) <==> HasPoint(l, x, y) || HasPoint(r, x, y)
  {
    hide Avg;
    SplitAt(b, axis);
  }

  /** A half is shorter along the axis it was split on, whenever the parent was longer than 1; nothing else changes. */
  lemma SplitShrinks(b: BBox, axis: Axis)
    requires Proper(b)
    ensures var (l, r) := SplitOnAxis(b, axis);
            if axis == Lat then
              && Height(l) == Height(r) == Height(b) && Width(l) + Width(r) == Width(b)
              && Width(l) <= Width(r) <= Width(l) + 1
            else
              && Width(l) == Width(r) == Width(b) && Height(l) + Height(r) == Height(b)
              && Height(l) <= Height(r) <= Height(l) + 1
  {
    hide Avg;
    SplitAt(b, axis);
  }

  // Offsets from a node's box --------------------------------------------------------------------

  datatype Size = Size(width: nat, height: nat)

  function AbsDiff(a: int, b: int): nat {
    if a < b then b - a else a - b
  }

  /** A box as stored in a node: the code of its corner's offset from the node's corner, and its size. */
  function InteriorDelta(b: BBox, parent: BBox): Key<Size> {
    Key(Interleaved(AbsDiff(b.x, parent.x), AbsDiff(b.y, parent.y)),
        Size(AbsDiff(b.x, b.xEnd), AbsDiff(b.y, b.yEnd)))
  }

  predicate IsDelta(delta: Key<Size>) {
    delta.rank >= 0
  }

  /** The box back from its offset, in checked additions. */
  function CheckedAbsolute(delta: Key<Size>, parent: BBox): Option<BBox>
    requires IsDelta(delta)
  {
    var b := Absolute(delta, parent);
    if Is32(b.x) && Is32(b.y) && Is32(b.xEnd) && Is32(b.yEnd) then Some(b) else None
  }

  function Absolute(delta: Key<Size>, parent: BBox): BBox
    requires IsDelta(delta)
  {
    var x, y := parent.x + FirstOf(delta.rank), parent.y + SecondOf(delta.rank);
    BBox(x, y, x + delta.ext.width, y + delta.ext.height)
  }

  /** For a box inside its parent, over the whole range of coordinates, no addition fails and the box comes back. */
  lemma AbsoluteDelta(b: BBox, parent: BBox)
    requires Proper(b) && Proper(parent) && Contains(parent, b)
    ensures IsDelta(InteriorDelta(b, parent))
    ensures CheckedAbsolute(InteriorDelta(b, parent), parent) == Some(b)
  {
    InterleavedApart(b.x - parent.x, b.y - parent.y);
  }

  /** Two offsets in one box compare equal just when their boxes have the same corner. */
  lemma SameCorner(d: Key<Size>, e: Key<Size>, parent: BBox)
    requires IsDelta(d) && IsDelta(e)
    ensures d.rank == e.rank <==>
              Absolute(d, parent).x == Absolute(e, parent).x && Absolute(d, parent).y == Absolute(e, parent).y
    ensures d == e <==> Absolute(d, parent) == Absolute(e, parent)
  {
    InterleavedTogether(d.rank);
    InterleavedTogether(e.rank);
  }

  // Offsets from the offset before ---------------------------------------------------------------

  /** `delta_friendly_offset`: sound for offsets in order, where the subtraction cannot go below zero. */
  function DeltaOffset(finl: Key<Size>, initial: Key<Size>): Key<Size> {
    Key(finl.rank - initial.rank, finl.ext)
  }

  function FromDeltaOffset(from: Key<Size>, initial: Key<Size>): Key<Size> {
    Key(from.rank + initial.rank, from.ext)
  }
}
