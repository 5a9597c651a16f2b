/** `NonEmptyUnorderVec` and its two iterators: one walks front to back, the consuming one pops the tail. */
module NonEmptyVec {
  import opened Wrappers

  /** A first item kept apart from the rest, so that the vector is never empty. */
  datatype NonEmpty<V> = NonEmpty(front: V, rest: seq<V>) {

    function Push(value: V): NonEmpty<V> {
      NonEmpty(front, rest + [value])
    }

    /** The items in the order `iter` yields them. */
    function Items(): seq<V> {
      [front] + rest
    }

    /** The items in the order the consuming iterator yields them. */
    function Drained(): seq<V> {
      Reversed(rest) + [front]
    }
  }

  function Reversed<V>(s: seq<V>): (r: seq<V>)
    ensures |r| == |s|
  {
    if s == [] then [] else [s[|s| - 1]] + Reversed(s[..|s| - 1])
  }

  /** Reversing loses and gains nothing. */
  lemma {:induction false} ReversedMultiset<V>(s: seq<V>)
    ensures multiset(Reversed(s)) == multiset(s)
  {
    if s != [] {
      ReversedMultiset(s[..|s| - 1]);
      assert s == s[..|s| - 1] + [s[|s| - 1]];
    }
  }

  lemma DrainedMultiset<V>(ne: NonEmpty<V>)
    ensures multiset(ne.Drained()) == multiset(ne.Items())
  {
    ReversedMultiset(ne.rest);
  }

  /** `Iter`: the front once, then the rest in order. */
  class Iter<V> {
    var front: Option<V>
    var rest: seq<V>

    constructor (ne: NonEmpty<V>)
      ensures Remaining() == ne.Items()
    {
      front, rest := Some(ne.front), ne.rest;
    }

    ghost function Remaining(): seq<V>
      reads this
    {
      (if front.Some? then [front.value] else []) + rest
    }

    method Next() returns (r: Option<V>)
      modifies this
      ensures r.None? <==> old(Remaining()) == []
      ensures r.Some? ==> old(Remaining()) == [r.value] + Remaining()
      ensures r.None? ==> Remaining() == []
    {
      if front.Some? {
        r, front := front, None;
      } else if rest == [] {
        r := None;
      } else {
        r, rest := Some(rest[0]), rest[1..];
      }
    }
  }

  /** `IntoIter`: pops the rest from its end, then gives the front. */
  class IntoIter<V> {
    var front: Option<V>
    var rest: seq<V>

    constructor (ne: NonEmpty<V>)
      ensures Remaining() == ne.Drained()
    {
      front, rest := Some(ne.front), ne.rest;
    }

    ghost function Remaining(): seq<V>
      reads this
    {
      Reversed(rest) + if front.Some? then [front.value] else []
    }

    method Next() returns (r: Option<V>)
      modifies this
      ensures r.None? <==> old(Remaining()) == []
      ensures r.Some? ==> old(Remaining()) == [r.value] + Remaining()
      ensures r.None? ==> Remaining() == []
    {
      if rest != [] {
        r, rest := Some(rest[|rest| - 1]), rest[..|rest| - 1];
      } else {
        r, front := front, None;
      }
    }
  }
}
