/**
 The page file. Page `id` covers the bytes from `Offset(id)`: an eight-byte link to the next page of its
 chain, an eight-byte link to the previous one, then data. Page 0 is never handed out, so a link of 0 means
 none, and the first data bytes of page 0 hold the allocation counter.
 */
module Layout {
  import opened Bytes

  const PAGE_HEADER_SIZE := 16
  const LINK_SIZE := 8
  const THOUSAND := 1024

  /** Every id and the counter fit in eight bytes. */
  const ID_LIMIT := Pow256(LINK_SIZE)

  // One page, wherever it lies -------------------------------------------------------------------

  function Link(f: File, at: nat): nat {
    NumberAt(f, at, LINK_SIZE)
  }

  ghost predicate SameBytes(f: File, g: File, lo: nat, hi: nat) {
    forall i :: lo <= i < hi ==> At(f, i) == At(g, i)
  }

  /** A longer file with the same bytes shows the same data, and more of it only if it was cut short before. */
  lemma SameData(f: File, g: File, at: nat, n: nat)
    requires SameBytes(f, g, at, at + n) && (|f| <= |g| || at + n <= |g|)
    ensures ReadAt(f, at, n) <= ReadAt(g, at, n)
    ensures at + n <= |f| ==> ReadAt(f, at, n) == ReadAt(g, at, n)
  {
    ReadAtAt(f, at, n);
    ReadAtAt(g, at, n);
    var a, b := ReadAt(f, at, n), ReadAt(g, at, n);
    forall i | 0 <= i < |a| ensures a[i] == b[i] {
      assert a[i] == At(f, at + i) == At(g, at + i) == b[i];
    }
  }

  /** Data with `bs` written over it from `n` on. */
  function Overwritten(data: seq<Byte>, n: nat, bs: seq<Byte>): seq<Byte>
    requires n <= |data|
  {
    data[..n] + bs + if n + |bs| <= |data| then data[n + |bs|..] else []
  }

  /** Writing into the data of a page at `n` leaves the rest of it as it was. */
  lemma WrittenData(f: File, at: nat, size: nat, n: nat, bs: seq<Byte>, g: File)
    requires n <= |ReadAt(f, at, size)| && n + |bs| <= size
    requires Wrote(f, at + n, bs, g)
    ensures ReadAt(g, at, size) == Overwritten(ReadAt(f, at, size), n, bs)
  {
    ReadAtAt(f, at, size);
    ReadAtAt(g, at, size);
    var a, b := Overwritten(ReadAt(f, at, size), n, bs), ReadAt(g, at, size);
    assert |a| == |b|;
    forall i | 0 <= i < |a| ensures a[i] == b[i] {
      assert b[i] == At(g, at + i);
      if n <= i < n + |bs| {
        assert At(g, at + i) == bs[i - n];
      } else {
        assert ReadAt(f, at, size)[i] == At(f, at + i) == At(g, at + i);
      }
    }
  }

  // Pages by id ----------------------------------------------------------------------------------

  /**
   What the file says about one page: its links, its data as far as the file reaches, and whether its header is
   there.
   */
  datatype PageImage = PageImage(next: nat, prev: nat, data: seq<Byte>, hasHeader: bool)

  /** The page is as it was, except that a file grown past it may show more zeros of it. */
  ghost predicate Grown(size: nat, p: PageImage, q: PageImage) {
    && p.next == q.next && p.prev == q.prev
    && p.data <= q.data && (|p.data| == size ==> p.data == q.data)
    && (p.hasHeader ==> q.hasHeader)
  }

  datatype Geometry_ = Geometry(pageBytes: nat) {

    function DataSize(): int {
      pageBytes - PAGE_HEADER_SIZE
    }

    /** `id * pageBytes`, added up. */
    function Offset(id: nat): nat {
      if id == 0 then 0 else Offset(id - 1) + pageBytes
    }

    lemma {:induction false} OffsetIsProduct(id: nat)
      ensures Offset(id) == id * pageBytes
    {
      if id > 0 {
        OffsetIsProduct(id - 1);
      }
    }

    function Next(f: File, id: nat): nat {
      Link(f, Offset(id))
    }

    function Prev(f: File, id: nat): nat {
      Link(f, Offset(id) + LINK_SIZE)
    }

    /** The data bytes of a page, as far as the file reaches. */
    function Data(f: File, id: nat): seq<Byte>
      requires pageBytes >= THOUSAND
    {
      ReadAt(f, Offset(id) + PAGE_HEADER_SIZE, DataSize())
    }

    function Persisted(f: File): nat {
      if |f| == 0 then 1 else LittleNumberAt(f, PAGE_HEADER_SIZE, LINK_SIZE)
    }

    ghost function Image(f: File, id: nat): PageImage
      requires pageBytes >= THOUSAND
    {
      PageImage(Next(f, id), Prev(f, id), Data(f, id), HeaderInFile(f, id))
    }

    predicate HeaderInFile(f: File, id: nat) {
      Offset(id) + PAGE_HEADER_SIZE <= |f|
    }

    predicate WholeInFile(f: File, id: nat) {
      Offset(id) + pageBytes <= |f|
    }

    ghost predicate SamePage(f: File, g: File, id: nat) {
      SameBytes(f, g, Offset(id), Offset(id) + pageBytes)
    }

    /** No byte is lost, and no page outside `ids` differs. */
    ghost predicate Only(f: File, g: File, ids: set<nat>) {
      |f| <= |g| && forall id: nat :: id >= 1 && id !in ids ==> SamePage(f, g, id)
    }

    lemma {:induction false} PagesApart(a: nat, b: nat)
      requires a < b
      ensures Offset(a) + pageBytes <= Offset(b)
    {
      if a + 1 < b {
        PagesApart(a, b - 1);
      }
    }

    lemma SamePageViews(f: File, g: File, id: nat)
      requires SamePage(f, g, id) && pageBytes >= THOUSAND
      requires |f| <= |g| || WholeInFile(g, id)
      ensures Next(f, id) == Next(g, id) && Prev(f, id) == Prev(g, id)
      ensures Data(f, id) <= Data(g, id)
      ensures WholeInFile(f, id) ==> WholeInFile(g, id) && Data(f, id) == Data(g, id)
      ensures HeaderInFile(f, id) ==> HeaderInFile(g, id)
      ensures Grown(DataSize(), Image(f, id), Image(g, id))
      ensures |f| == |g| ==> Image(f, id) == Image(g, id)
    {
      var o := Offset(id);
      SameNumber(f, g, o, LINK_SIZE);
      SameNumber(f, g, o + LINK_SIZE, LINK_SIZE);
      SameData(f, g, o + PAGE_HEADER_SIZE, DataSize());
    }

    lemma OnlyTrans(f: File, g: File, h: File, s: set<nat>, t: set<nat>)
      requires Only(f, g, s) && Only(g, h, t)
      ensures Only(f, h, s + t)
    {
      forall id: nat | id >= 1 && id !in s + t ensures SamePage(f, h, id) {
        assert SamePage(f, g, id) && SamePage(g, h, id);
      }
    }

    /** Writing inside one page leaves the others, and the counter, alone. */
    lemma WriteInPage(f: File, id: nat, off: nat, bs: seq<Byte>, g: File)
      requires pageBytes >= THOUSAND && id >= 1 && |f| > 0
      requires Offset(id) <= off && off + |bs| <= Offset(id) + pageBytes
      requires Wrote(f, off, bs, g)
      ensures Only(f, g, {id}) && Persisted(g) == Persisted(f)
    {
      PagesApart(0, id);
      SameLittleNumber(f, g, PAGE_HEADER_SIZE, LINK_SIZE);
      forall other: nat | other >= 1 && other != id ensures SamePage(f, g, other) {
        if other < id { PagesApart(other, id); } else { PagesApart(id, other); }
      }
    }

    /** Writing inside page 0 touches no page that is ever handed out. */
    lemma WriteInPageZero(f: File, off: nat, bs: seq<Byte>, g: File)
      requires off + |bs| <= pageBytes && Wrote(f, off, bs, g)
      ensures Only(f, g, {})
    {
      forall id: nat | id >= 1 ensures SamePage(f, g, id) {
        PagesApart(0, id);
      }
    }

    lemma CounterWritten(f: File, n: nat, g: File)
      requires pageBytes >= THOUSAND && n < ID_LIMIT
      requires Wrote(f, PAGE_HEADER_SIZE, LittleEndian(n, LINK_SIZE), g)
      ensures Only(f, g, {}) && |g| > 0 && Persisted(g) == n
    {
      WriteInPageZero(f, PAGE_HEADER_SIZE, LittleEndian(n, LINK_SIZE), g);
      LittleNumberWritten(f, PAGE_HEADER_SIZE, n, LINK_SIZE, g);
    }

    /** Growing the file changes no page and not the counter. */
    lemma GrownFile(f: File, n: nat)
      requires 0 < |f| <= n
      ensures Only(f, SetLen(f, n), {}) && Persisted(SetLen(f, n)) == Persisted(f)
    {
      SetLenAt(f, n);
      SameLittleNumber(f, SetLen(f, n), PAGE_HEADER_SIZE, LINK_SIZE);
    }

    /** Writing a page's link forward. */
    lemma WriteNext(f: File, id: nat, link: nat, g: File)
      requires pageBytes >= THOUSAND && id >= 1 && |f| > 0 && link < ID_LIMIT
      requires Wrote(f, Offset(id), BigEndian(link, LINK_SIZE), g)
      ensures Only(f, g, {id}) && Persisted(g) == Persisted(f)
      ensures Next(g, id) == link && Prev(g, id) == Prev(f, id) && Data(f, id) <= Data(g, id)
      ensures WholeInFile(f, id) ==> WholeInFile(g, id) && Data(g, id) == Data(f, id)
      ensures HeaderInFile(f, id) ==> |g| == |f|
    {
      var o := Offset(id);
      WriteInPage(f, id, o, BigEndian(link, LINK_SIZE), g);
      NumberWritten(f, o, link, LINK_SIZE, g);
      SameNumber(f, g, o + LINK_SIZE, LINK_SIZE);
      SameData(f, g, o + PAGE_HEADER_SIZE, DataSize());
    }

    /** Writing a page's link back. */
    lemma WritePrev(f: File, id: nat, link: nat, g: File)
      requires pageBytes >= THOUSAND && id >= 1 && |f| > 0 && link < ID_LIMIT
      requires Wrote(f, Offset(id) + LINK_SIZE, BigEndian(link, LINK_SIZE), g)
      ensures Only(f, g, {id}) && Persisted(g) == Persisted(f) && HeaderInFile(g, id)
      ensures Prev(g, id) == link && Next(g, id) == Next(f, id) && Data(f, id) <= Data(g, id)
    {
      var o := Offset(id);
      WriteInPage(f, id, o + LINK_SIZE, BigEndian(link, LINK_SIZE), g);
      NumberWritten(f, o + LINK_SIZE, link, LINK_SIZE, g);
      SameNumber(f, g, o, LINK_SIZE);
      SameData(f, g, o + PAGE_HEADER_SIZE, DataSize());
    }

    lemma ClearHeader(f: File, id: nat, g: File)
      requires pageBytes >= THOUSAND && id >= 1 && |f| > 0
      requires Wrote(f, Offset(id), Zeros(PAGE_HEADER_SIZE), g)
      ensures Only(f, g, {id}) && Persisted(g) == Persisted(f)
      ensures HeaderInFile(g, id) && Next(g, id) == 0 && Prev(g, id) == 0 && Data(f, id) <= Data(g, id)
      ensures HeaderInFile(f, id) ==> |g| == |f|
    {
      var o := Offset(id);
      WriteInPage(f, id, o, Zeros(PAGE_HEADER_SIZE), g);
      ZeroNumber(g, o, LINK_SIZE);
      ZeroNumber(g, o + LINK_SIZE, LINK_SIZE);
      SameData(f, g, o + PAGE_HEADER_SIZE, DataSize());
    }

    lemma WriteData(f: File, id: nat, n: nat, bs: seq<Byte>, g: File)
      requires pageBytes >= THOUSAND && id >= 1 && |f| > 0
      requires n <= |Data(f, id)| && n + |bs| <= DataSize()
      requires Wrote(f, Offset(id) + PAGE_HEADER_SIZE + n, bs, g)
      ensures Only(f, g, {id}) && Persisted(g) == Persisted(f)
      ensures Next(g, id) == Next(f, id) && Prev(g, id) == Prev(f, id)
      ensures Data(g, id) == Overwritten(Data(f, id), n, bs)
      ensures HeaderInFile(f, id) || bs != [] ==> HeaderInFile(g, id)
      ensures bs != [] && n + |bs| == DataSize() ==> WholeInFile(g, id)
    {
      hide Only, SamePage, NumberAt;
      WriteInPage(f, id, Offset(id) + PAGE_HEADER_SIZE + n, bs, g);
      DataKeepsLinks(f, id, n, bs, g);
      WrittenData(f, Offset(id) + PAGE_HEADER_SIZE, DataSize(), n, bs, g);
    }

    lemma DataKeepsLinks(f: File, id: nat, n: nat, bs: seq<Byte>, g: File)
      requires Wrote(f, Offset(id) + PAGE_HEADER_SIZE + n, bs, g)
      ensures Next(g, id) == Next(f, id) && Prev(g, id) == Prev(f, id)
    {
      hide NumberAt;
      SameNumber(f, g, Offset(id), LINK_SIZE);
      SameNumber(f, g, Offset(id) + LINK_SIZE, LINK_SIZE);
    }

    /** Linking page `b` behind page `a`, in two writes. */
    lemma LinkPages(f: File, a: nat, b: nat, h: File, g: File)
      requires pageBytes >= THOUSAND && 1 <= a < ID_LIMIT && 1 <= b < ID_LIMIT && a != b && |f| > 0
      requires Wrote(f, Offset(a), BigEndian(b, LINK_SIZE), h)
      requires Wrote(h, Offset(b) + LINK_SIZE, BigEndian(a, LINK_SIZE), g)
      ensures Only(f, g, {a, b}) && Persisted(g) == Persisted(f)
      ensures Next(g, a) == b && Prev(g, a) == Prev(f, a) && Data(f, a) <= Data(g, a)
      ensures WholeInFile(f, a) ==> WholeInFile(g, a) && Data(g, a) == Data(f, a)
      ensures Next(g, b) == Next(f, b) && Prev(g, b) == a && HeaderInFile(g, b) && Data(f, b) <= Data(g, b)
    {
      WriteNext(f, a, b, h);
      WritePrev(h, b, a, g);
      assert SamePage(f, h, b) && SamePage(h, g, a);
      SamePageViews(f, h, b);
      SamePageViews(h, g, a);
      OnlyTrans(f, h, g, {a}, {b});
      assert {a} + {b} == {a, b};
    }

    /** Cutting page `prev`'s link forward and clearing the header of the page behind it. */
    lemma UnlinkPages(f: File, prev: nat, free: nat, h: File, g: File)
      requires pageBytes >= THOUSAND && prev >= 1 && free >= 1 && prev != free && |f| > 0
      requires Wrote(f, Offset(prev), BigEndian(0, LINK_SIZE), h)
      requires Wrote(h, Offset(free), Zeros(PAGE_HEADER_SIZE), g)
      ensures Only(f, g, {free, prev}) && Persisted(g) == Persisted(f)
      ensures Next(g, free) == 0 && Prev(g, free) == 0 && Data(f, free) <= Data(g, free)
      ensures Next(g, prev) == 0 && Prev(g, prev) == Prev(f, prev) && Data(f, prev) <= Data(g, prev)
      ensures HeaderInFile(f, prev) && HeaderInFile(f, free) ==> |g| == |f|
    {
      WriteNext(f, prev, 0, h);
      ClearHeader(h, free, g);
      assert SamePage(h, g, prev) && SamePage(f, h, free);
      SamePageViews(h, g, prev);
      SamePageViews(f, h, free);
      OnlyTrans(f, h, g, {prev}, {free});
      assert {prev} + {free} == {free, prev};
    }
  }

  /** A page is some thousands of bytes. */
  type Geometry = g: Geometry_ | g.pageBytes >= THOUSAND && g.pageBytes % THOUSAND == 0 witness Geometry(THOUSAND)
}
