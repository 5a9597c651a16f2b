/** `PageUse`: the allocator over the bytes of the page file. */
module PageUses {
  import opened Bytes
  import opened Layout
  import opened PageGraph

  /** The disk `d` is what an allocator over `file` shows. */
  ghost predicate Shows(geo: Geometry, lowest: nat, freed: multiset<nat>, file: File, d: Disk) {
    && d.size == geo.DataSize() && d.freed == freed && d.counter == geo.Persisted(file)
    && |d.pages| == lowest && (lowest > 1 ==> |file| > 0)
    && (|file| == 0 || PAGE_HEADER_SIZE + LINK_SIZE <= |file|)
    && forall id {:trigger geo.Image(file, id)} :: 1 <= id < lowest ==> d.pages[id] == geo.Image(file, id)
  }

  ghost function View(geo: Geometry, lowest: nat, freed: multiset<nat>, file: File): (d: Disk)
    ensures PAGE_HEADER_SIZE + LINK_SIZE <= |file| ==> Shows(geo, lowest, freed, file, d)
    ensures lowest <= 1 && |file| == 0 ==> Shows(geo, lowest, freed, file, d)
  {
    Disk(geo.DataSize(), freed, seq(lowest, id requires 0 <= id < lowest => geo.Image(file, id)), geo.Persisted(file))
  }

  /** A change of the file confined to some pages is a change of the disk confined to them. */
  lemma ShownOnly(geo: Geometry, lowest: nat, freed: multiset<nat>, f: File, d: Disk,
                  lowest': nat, freed': multiset<nat>, g: File, d': Disk, ids: set<nat>)
    requires Shows(geo, lowest, freed, f, d) && Shows(geo, lowest', freed', g, d')
    requires geo.Only(f, g, ids) && lowest <= lowest'
    ensures Only(d, d', ids)
    ensures lowest == lowest' && HeadersInFile(d) ==> HeadersInFile(d')
  {
    forall p | 1 <= p < lowest
      ensures p !in ids ==> Grown(d.size, d.pages[p], d'.pages[p])
      ensures d.pages[p].hasHeader ==> d'.pages[p].hasHeader
    {
      assert d.pages[p] == geo.Image(f, p) && d'.pages[p] == geo.Image(g, p);
      if p !in ids {
        assert geo.SamePage(f, g, p);
        geo.SamePageViews(f, g, p);
      }
    }
  }

  /** A change that takes nothing off the data of its two pages keeps all data that the file has whole. */
  lemma ShownData(geo: Geometry, lowest: nat, freed: multiset<nat>, f: File, d: Disk,
                  freed': multiset<nat>, g: File, d': Disk, a: nat, b: nat)
    requires Shows(geo, lowest, freed, f, d) && Shows(geo, lowest, freed', g, d') && geo.Only(f, g, {a, b})
    requires forall p :: p in {a, b} && 1 <= p < lowest ==> geo.Data(f, p) <= geo.Data(g, p)
    ensures DataKept(d, d') && (|f| == |g| ==> AllDataKept(d, d'))
  {
    forall p | 1 <= p < lowest
      ensures |d.pages[p].data| == d.size || |f| == |g| ==> d'.pages[p].data == d.pages[p].data
    {
      assert d.pages[p] == geo.Image(f, p) && d'.pages[p] == geo.Image(g, p);
      if p !in {a, b} {
        assert geo.SamePage(f, g, p);
        geo.SamePageViews(f, g, p);
      }
    }
  }

  /** Freed pages outside a change stay blank. */
  lemma FreedStay(d: Disk, d': Disk, ids: set<nat>)
    requires ValidDisk(d) && Only(d, d', ids) && d'.counter == |d'.pages| < ID_LIMIT
    requires forall p :: p in d'.freed ==> d'.freed[p] == d.freed[p] && p !in ids
    ensures ValidDisk(d')
  {
    forall p | p in d'.freed ensures FreedPage(d', p) {
      assert FreedPage(d, p);
    }
  }

  lemma {:induction false} BigEndianZero(n: nat)
    ensures BigEndian(0, n) == Zeros(n)
  {
    if n > 0 {
      BigEndianZero(n - 1);
      assert Zeros(n) == Zeros(n - 1) + [0];
    }
  }

  // What each step's writes amount to ------------------------------------------------------------

  lemma AllocatedNew(geo: Geometry, lowest: nat, f: File, d: Disk, counted: File, grown: File, g: File, d': Disk)
    requires Shows(geo, lowest, multiset{}, f, d) && ValidDisk(d) && lowest + 1 < ID_LIMIT
    requires Wrote(f, PAGE_HEADER_SIZE, LittleEndian(lowest + 1, LINK_SIZE), counted)
    requires grown == counted || (|counted| <= |grown| && grown == SetLen(counted, |grown|))
    requires geo.WholeInFile(grown, lowest)
    requires Wrote(grown, geo.Offset(lowest), Zeros(PAGE_HEADER_SIZE), g)
    requires Shows(geo, lowest + 1, multiset{}, g, d')
    ensures Allocated(d, d', lowest)
  {
    geo.CounterWritten(f, lowest + 1, counted);
    if grown != counted { geo.GrownFile(counted, |grown|); }
    geo.ClearHeader(grown, lowest, g);
    geo.OnlyTrans(f, counted, grown, {}, {});
    geo.OnlyTrans(f, grown, g, {} + {}, {lowest});
    assert {} + {} + {lowest} == {lowest};
    ShownOnly(geo, lowest, multiset{}, f, d, lowest + 1, multiset{}, g, d', {lowest});
    assert d'.pages[lowest] == geo.Image(g, lowest);
    forall p | 1 <= p < lowest ensures d.pages[p].hasHeader ==> d'.pages[p].hasHeader {
      assert d'.pages[p] == geo.Image(g, p) && d.pages[p] == geo.Image(f, p);
    }
  }

  lemma AllocatedFreed(geo: Geometry, lowest: nat, freed: multiset<nat>, f: File, d: Disk, id: nat)
    requires Shows(geo, lowest, freed, f, d) && ValidDisk(d)
    requires id in freed && forall p :: p in freed ==> id <= p
    ensures var d' := d.(freed := freed - multiset{id});
            Shows(geo, lowest, freed - multiset{id}, f, d') && Allocated(d, d', id)
  {
    var d' := d.(freed := freed - multiset{id});
    assert FreedPage(d, id);
    forall p | p in d'.freed ensures FreedPage(d', p) {
      assert FreedPage(d, p);
    }
  }

  /** Two pages linked by two writes: nothing else changes, and the first keeps its data if it is full. */
  ghost predicate Linked2(mid: Disk, d': Disk, oldPage: nat, newPage: nat) {
    && Only(mid, d', {oldPage, newPage}) && |d'.pages| == |mid.pages| && d'.freed == mid.freed
        && d'.counter == mid.counter && DataKept(mid, d')
    && 1 <= oldPage < |mid.pages| && 1 <= newPage < |mid.pages|
    && d'.pages[oldPage].next == newPage && d'.pages[oldPage].prev == mid.pages[oldPage].prev
    && (mid.pages[oldPage].hasHeader ==> d'.pages[oldPage].hasHeader)
    && d'.pages[newPage].next == mid.pages[newPage].next && d'.pages[newPage].prev == oldPage
    && d'.pages[newPage].hasHeader
    && (HeadersInFile(mid) ==> HeadersInFile(d'))
  }

  lemma LinkedData(geo: Geometry, lowest: nat, freed: multiset<nat>, f: File, d: Disk,
                   oldPage: nat, newPage: nat, h: File, g: File, d': Disk)
    requires Shows(geo, lowest, freed, f, d) && |f| > 0
    requires 1 <= oldPage < lowest < ID_LIMIT && 1 <= newPage < lowest && oldPage != newPage
    requires Wrote(f, geo.Offset(oldPage), BigEndian(newPage, LINK_SIZE), h)
    requires Wrote(h, geo.Offset(newPage) + LINK_SIZE, BigEndian(oldPage, LINK_SIZE), g)
    requires Shows(geo, lowest, freed, g, d')
    ensures DataKept(d, d')
  {
    hide Wrote;
    geo.LinkPages(f, oldPage, newPage, h, g);
    ShownData(geo, lowest, freed, f, d, freed, g, d', oldPage, newPage);
  }

  lemma LinkedByWrites(geo: Geometry, lowest: nat, freed: multiset<nat>, mid: Disk,
                       oldPage: nat, newPage: nat, f1: File, h: File, g: File, d': Disk)
    requires ValidDisk(mid) && 1 <= oldPage < lowest && 1 <= newPage < lowest && oldPage != newPage
    requires Shows(geo, lowest, freed, f1, mid) && |f1| > 0
    requires Wrote(f1, geo.Offset(oldPage), BigEndian(newPage, LINK_SIZE), h)
    requires Wrote(h, geo.Offset(newPage) + LINK_SIZE, BigEndian(oldPage, LINK_SIZE), g)
    requires Shows(geo, lowest, freed, g, d')
    ensures Linked2(mid, d', oldPage, newPage)
  {
    hide DataKept, Wrote, HeadersInFile, PageGraph.Only, NumberAt, ReadAt, BigEndian;
    geo.LinkPages(f1, oldPage, newPage, h, g);
    LinkedData(geo, lowest, freed, f1, mid, oldPage, newPage, h, g, d');
    ShownOnly(geo, lowest, freed, f1, mid, lowest, freed, g, d', {oldPage, newPage});
    assert mid.pages[oldPage] == geo.Image(f1, oldPage) && d'.pages[oldPage] == geo.Image(g, oldPage);
    assert mid.pages[newPage] == geo.Image(f1, newPage) && d'.pages[newPage] == geo.Image(g, newPage);
  }

  lemma LinkedBehind(d: Disk, mid: Disk, oldPage: nat, newPage: nat, d': Disk)
    requires ValidDisk(d) && 1 <= oldPage < |d.pages| && oldPage !in d.freed
    requires Allocated(d, mid, newPage) && Linked2(mid, d', oldPage, newPage)
    ensures ValidDisk(d') && AllocatedAfter(d, d', oldPage, newPage)
  {
    assert newPage != oldPage;
    FreedStay(mid, d', {oldPage, newPage});
  }

  lemma AllocatedIds(d: Disk, mid: Disk, oldPage: nat, newPage: nat)
    requires 1 <= oldPage < |d.pages| && oldPage !in d.freed && Allocated(d, mid, newPage)
    ensures 1 <= oldPage < |mid.pages| && 1 <= newPage < |mid.pages| && oldPage != newPage
    ensures ValidDisk(mid)
  {
  }

  /** Reading a page's link back, which succeeds if the file has the page's header. */
  lemma PrevRead(geo: Geometry, lowest: nat, freed: multiset<nat>, f: File, d: Disk, id: nat)
    requires Shows(geo, lowest, freed, f, d) && 1 <= id < lowest
    ensures var link := ReadAt(f, geo.Offset(id) + LINK_SIZE, LINK_SIZE);
            && (|link| >= LINK_SIZE <==> d.pages[id].hasHeader)
            && (|link| >= LINK_SIZE ==> FromBigEndian(link) == d.pages[id].prev)
  {
    assert d.pages[id] == geo.Image(f, id);
    if geo.HeaderInFile(f, id) { NumberRead(f, geo.Offset(id) + LINK_SIZE, LINK_SIZE); }
  }

  lemma FreedData(geo: Geometry, lowest: nat, freed: multiset<nat>, f: File, d: Disk,
                  free: nat, prev: nat, h: File, g: File, freed': multiset<nat>, d': Disk)
    requires Shows(geo, lowest, freed, f, d) && 1 <= free < lowest && prev < lowest && prev != free && |f| > 0
    requires if prev == 0 then h == f else Wrote(f, geo.Offset(prev), BigEndian(0, LINK_SIZE), h)
    requires Wrote(h, geo.Offset(free), Zeros(PAGE_HEADER_SIZE), g)
    requires Shows(geo, lowest, freed', g, d')
    ensures DataKept(d, d') && (HeadersInFile(d) ==> AllDataKept(d, d'))
  {
    hide Wrote;
    assert d.pages[free] == geo.Image(f, free);
    if prev == 0 {
      geo.ClearHeader(f, free, g);
      assert geo.Only(f, g, {free, prev});
    } else {
      assert d.pages[prev] == geo.Image(f, prev);
      geo.UnlinkPages(f, prev, free, h, g);
    }
    ShownData(geo, lowest, freed, f, d, freed', g, d', free, prev);
  }

  lemma FreedByWrites(geo: Geometry, lowest: nat, freed: multiset<nat>, f: File, d: Disk,
                      free: nat, prev: nat, h: File, g: File, d': Disk)
    requires Shows(geo, lowest, freed, f, d) && ValidDisk(d)
    requires 1 <= free < lowest && free !in freed && prev == d.pages[free].prev && prev != free && prev < lowest
    requires if prev == 0 then h == f else Wrote(f, geo.Offset(prev), BigEndian(0, LINK_SIZE), h)
    requires Wrote(h, geo.Offset(free), Zeros(PAGE_HEADER_SIZE), g)
    requires Shows(geo, lowest, freed + multiset{free}, g, d')
    ensures Freed(d, d', free) && ValidDisk(d')
  {
    if prev == 0 {
      geo.ClearHeader(f, free, g);
    } else {
      geo.UnlinkPages(f, prev, free, h, g);
      assert d.pages[prev] == geo.Image(f, prev) && d'.pages[prev] == geo.Image(g, prev);
    }
    assert geo.Only(f, g, {free, prev});
    FreedData(geo, lowest, freed, f, d, free, prev, h, g, freed + multiset{free}, d');
    hide Wrote, DataKept, AllDataKept;
    ShownOnly(geo, lowest, freed, f, d, lowest, freed + multiset{free}, g, d', {free, prev});
    assert d.pages[free] == geo.Image(f, free) && d'.pages[free] == geo.Image(g, free);
    forall p | p in d'.freed ensures FreedPage(d', p) {
      // the page before may itself have been freed just now: its header was blank, and stays blank
      if p != free { assert FreedPage(d, p); }
    }
  }

  lemma DataByWrite(geo: Geometry, lowest: nat, freed: multiset<nat>, f: File, d: Disk,
                    id: nat, n: nat, bs: seq<Byte>, g: File, d': Disk)
    requires Shows(geo, lowest, freed, f, d) && ValidDisk(d)
    requires 1 <= id < lowest && id !in freed
    requires n <= |d.pages[id].data| && n + |bs| <= geo.DataSize()
    requires Wrote(f, geo.Offset(id) + PAGE_HEADER_SIZE + n, bs, g)
    requires Shows(geo, lowest, freed, g, d')
    ensures DataWritten(d, d', id, n, bs)
  {
    assert d.pages[id] == geo.Image(f, id) && d'.pages[id] == geo.Image(g, id);
    geo.WriteData(f, id, n, bs, g);
    ShownOnly(geo, lowest, freed, f, d, lowest, freed, g, d', {id});
    FreedStay(d, d', {id});
  }

  lemma TruncatedBySetLen(geo: Geometry, lowest: nat, freed: multiset<nat>, f: File, d: Disk, kept: nat, d': Disk)
    requires Shows(geo, lowest, freed, f, d) && LastKept(lowest, freed, kept)
    requires Shows(geo, lowest, freed, SetLen(f, geo.Offset(kept)), d')
    ensures Truncated(d, d', kept)
    ensures d.counter == lowest ==> (d'.counter == d.counter <==> |f| > 0)
  {
    var g := SetLen(f, geo.Offset(kept));
    SetLenAt(f, geo.Offset(kept));
    geo.PagesApart(0, kept);
    if |f| > 0 {
      SameLittleNumber(f, g, PAGE_HEADER_SIZE, LINK_SIZE);
    } else {
      LittleZero(g, PAGE_HEADER_SIZE, LINK_SIZE);
    }
    forall p | 1 <= p < lowest
      ensures p < kept ==> Grown(d.size, d.pages[p], d'.pages[p]) && d'.pages[p].hasHeader
      ensures kept <= p ==>
                d'.pages[p].next == 0 && d'.pages[p].prev == 0 && !d'.pages[p].hasHeader && d'.pages[p].data == []
    {
      assert d.pages[p] == geo.Image(f, p) && d'.pages[p] == geo.Image(g, p);
      if p < kept {
        geo.PagesApart(p, kept);
        geo.SamePageViews(f, g, p);
      } else {
        if kept < p { geo.PagesApart(kept, p); }
        ZeroNumber(g, geo.Offset(p), LINK_SIZE);
        ZeroNumber(g, geo.Offset(p) + LINK_SIZE, LINK_SIZE);
      }
    }
  }

  lemma {:induction false} LittleZero(f: File, off: nat, n: nat)
    requires forall i :: off <= i < off + n ==> At(f, i) == 0
    ensures LittleNumberAt(f, off, n) == 0
    decreases n
  {
    if n > 0 {
      LittleZero(f, off + 1, n - 1);
    }
  }

  /**
   Truncating a blank file writes a counter of 0 where there was none, so that opening the file again would
   hand out the reserved page 0.
   */
  lemma TruncateBlankLosesCounter(geo: Geometry)
    ensures geo.Persisted([]) == 1
    ensures geo.Persisted(SetLen([], geo.Offset(1))) == 0
  {
    SetLenAt([], geo.Offset(1));
    geo.PagesApart(0, 1);
    LittleZero(SetLen([], geo.Offset(1)), PAGE_HEADER_SIZE, LINK_SIZE);
  }

  class PageUse {
    const geo: Geometry
    var lowestUnallocatedId: nat
    var freedPages: multiset<nat>
    var file: File
    ghost var disk: Disk

    ghost predicate Valid()
      reads this
      ensures Valid() ==> disk.size == geo.DataSize() && |disk.pages| == lowestUnallocatedId
    {
      Shows(geo, lowestUnallocatedId, freedPages, file, disk) && ValidDisk(disk)
    }

    lemma DataBounded(p: nat)
      requires Valid() && 1 <= p < |disk.pages|
      ensures |disk.pages[p].data| <= disk.size
    {
      assert disk.pages[p] == geo.Image(file, p);
    }

    /** If every header can be read, then only the last page can be cut short by the file's end. */
    lemma WholeBelow()
      requires Valid() && HeadersInFile(disk)
      ensures forall p :: 1 <= p && p + 1 < |disk.pages| ==> |disk.pages[p].data| == disk.size
    {
      forall p | 1 <= p && p + 1 < |disk.pages| ensures |disk.pages[p].data| == disk.size {
        assert disk.pages[p] == geo.Image(file, p) && disk.pages[p + 1] == geo.Image(file, p + 1);
        geo.PagesApart(p, p + 1);
      }
    }

    /** `PagedStorage::open`: the counter comes from the file, and what was freed before is forgotten. */
    constructor Open(geo: Geometry, file: File)
      requires |file| == 0 || PAGE_HEADER_SIZE + LINK_SIZE <= |file|
      ensures this.geo == geo && this.file == file
      ensures lowestUnallocatedId == |disk.pages| == disk.counter == geo.Persisted(file) && disk.freed == multiset{}
      ensures forall id :: 1 <= id < |disk.pages| ==> disk.pages[id] == geo.Image(file, id)
      ensures disk.size == geo.DataSize()
      ensures 1 <= geo.Persisted(file) < ID_LIMIT ==> Valid()
    {
      this.geo := geo;
      this.file := file;
      freedPages := multiset{};
      if |file| > 0 { NumberRead(file, PAGE_HEADER_SIZE, LINK_SIZE); }
      var lowest := if |file| == 0 then 1 else FromLittleEndian(ReadAt(file, PAGE_HEADER_SIZE, LINK_SIZE));
      lowestUnallocatedId := lowest;
      disk := View(geo, lowest, multiset{}, file);
    }

    /** Seeks and writes. */
    method Write(off: nat, bs: seq<Byte>)
      modifies this`file
      ensures Wrote(old(file), off, bs, file)
      ensures |old(file)| <= |file|
    {
      WriteAtWrote(file, off, bs);
      file := WriteAt(file, off, bs);
    }

    /** Pops the smallest freed page, or extends the file by one page and records the new counter. */
    method AllocNew() returns (id: nat)
      requires Valid() && |disk.pages| + 1 < ID_LIMIT
      modifies this
      ensures Valid() && Allocated(old(disk), disk, id)
      ensures PAGE_HEADER_SIZE + LINK_SIZE <= |file|
    {
      if freedPages != multiset{} {
        id := Smallest(freedPages);
        AllocatedFreed(geo, lowestUnallocatedId, freedPages, file, disk, id);
        assert FreedPage(disk, id);
        freedPages := freedPages - multiset{id};
        disk := disk.(freed := freedPages);
        return;
      }
      id := lowestUnallocatedId;
      lowestUnallocatedId := lowestUnallocatedId + 1;
      Write(PAGE_HEADER_SIZE, LittleEndian(id + 1, LINK_SIZE));
      ghost var counted := file;
      if |file| < geo.Offset(id) + geo.pageBytes {
        file := SetLen(file, geo.Offset(id) + geo.pageBytes);
      }
      ghost var grown := file;
      Write(geo.Offset(id), Zeros(PAGE_HEADER_SIZE));
      disk := View(geo, lowestUnallocatedId, freedPages, file);
      AllocatedNew(geo, id, old(file), old(disk), counted, grown, file, disk);
    }

    static method Smallest(s: multiset<nat>) returns (id: nat)
      requires s != multiset{}
      ensures id in s && forall p :: p in s ==> id <= p
    {
      id :| id in s;
      var rest := s - multiset{id};
      while rest != multiset{}
        invariant id in s && rest <= s
        invariant forall p :: p in s ==> id <= p || p in rest
        decreases |rest|
      {
        var p :| p in rest;
        if p < id { id := p; }
        rest := rest - multiset{p};
      }
    }

    /** Links two pages, in two writes. */
    method LinkPages(oldPage: nat, newPage: nat)
      requires Valid() && 1 <= oldPage < |disk.pages| && 1 <= newPage < |disk.pages| && oldPage != newPage
      modifies this`file, this`disk
      ensures Shows(geo, lowestUnallocatedId, freedPages, file, disk)
      ensures Linked2(old(disk), disk, oldPage, newPage)
    {
      hide ValidDisk, Wrote, Linked2;
      ghost var mid, f := disk, file;
      FileNotBlank();
      Write(geo.Offset(oldPage), BigEndian(newPage, LINK_SIZE));
      ghost var half := file;
      Write(geo.Offset(newPage) + LINK_SIZE, BigEndian(oldPage, LINK_SIZE));
      disk := View(geo, lowestUnallocatedId, freedPages, file);
      LinkedByWrites(geo, lowestUnallocatedId, freedPages, mid, oldPage, newPage, f, half, file, disk);
    }

    lemma FileNotBlank()
      requires Valid() && |disk.pages| > 1
      ensures PAGE_HEADER_SIZE + LINK_SIZE <= |file|
    {
    }

    /** Allocates a page and links it behind `oldPage`. */
    method AllocNewAfter(oldPage: nat) returns (newPage: nat)
      requires Valid() && |disk.pages| + 1 < ID_LIMIT
      requires 1 <= oldPage < |disk.pages| && oldPage !in disk.freed
      modifies this
      ensures Valid() && AllocatedAfter(old(disk), disk, oldPage, newPage)
    {
      hide ValidDisk, Allocated, AllocatedAfter, Shows, Linked2;
      newPage := AllocNew();
      ghost var mid := disk;
      AllocatedIds(old(disk), mid, oldPage, newPage);
      LinkPages(oldPage, newPage);
      LinkedBehind(old(disk), mid, oldPage, newPage, disk);
    }

    /**
     Reads the freed page's link to the previous page, cuts that page's link forward, and clears the header. Where the
     file does not have the header the read fails before anything is changed.
     */
    method FreePage(free: nat) returns (ok: bool)
      requires Valid() && 1 <= free < |disk.pages| && free !in disk.freed
      requires disk.pages[free].prev != free && disk.pages[free].prev < |disk.pages|
      modifies this
      ensures ok <==> old(disk).pages[free].hasHeader
      ensures Valid() && if ok then Freed(old(disk), disk, free) else disk == old(disk) && file == old(file)
    {
      hide ValidDisk, Freed, Wrote, ReadAt, FromBigEndian;
      PrevRead(geo, lowestUnallocatedId, freedPages, file, disk, free);
      var link := ReadAt(file, geo.Offset(free) + LINK_SIZE, LINK_SIZE);
      if |link| < LINK_SIZE {
        return false;
      }
      ok := true;
      var prev := FromBigEndian(link);
      freedPages := freedPages + multiset{free};
      if prev != 0 {
        BigEndianZero(LINK_SIZE);
        Write(geo.Offset(prev), Zeros(LINK_SIZE));
      }
      ghost var cut := file;
      Write(geo.Offset(free), Zeros(PAGE_HEADER_SIZE));
      disk := View(geo, lowestUnallocatedId, freedPages, file);
      FreedByWrites(geo, lowestUnallocatedId, old(freedPages), old(file), old(disk), free, prev, cut, file, disk);
    }

    /** Writing data into a page, as the page writer does. */
    method WriteData(id: nat, n: nat, bs: seq<Byte>)
      requires Valid() && 1 <= id < |disk.pages| && id !in disk.freed
      requires n <= |disk.pages[id].data| && n + |bs| <= disk.size
      modifies this
      ensures Valid() && DataWritten(old(disk), disk, id, n, bs)
    {
      Write(geo.Offset(id) + PAGE_HEADER_SIZE + n, bs);
      disk := View(geo, lowestUnallocatedId, freedPages, file);
      DataByWrite(geo, lowestUnallocatedId, freedPages, old(file), old(disk), id, n, bs, file, disk);
    }

    /** Cuts the run of freed pages at the end of the file. The heap and the counter are left as they are. */
    method TruncateUnused() returns (kept: nat)
      requires Valid()
      modifies this
      ensures Truncated(old(disk), disk, kept) && |file| == geo.Offset(kept)
      ensures disk.counter == old(disk).counter <==> old(|file| > 0)
      ensures disk.counter == old(disk).counter ==> Valid()
    {
      kept := MaxTruncatable(lowestUnallocatedId, freedPages);
      file := SetLen(file, geo.Offset(kept));
      disk := View(geo, lowestUnallocatedId, freedPages, file);
      TruncatedBySetLen(geo, lowestUnallocatedId, freedPages, old(file), old(disk), kept, disk);
    }

    /** Pops the largest freed pages for as long as they are the last pages. */
    static method MaxTruncatable(lowest: nat, freed: multiset<nat>) returns (maxTruncatable: nat)
      requires lowest >= 1
      requires forall p :: p in freed ==> freed[p] == 1 && 1 <= p < lowest
      ensures LastKept(lowest, freed, maxTruncatable)
    {
      maxTruncatable := lowest;
      var freedMax := freed;
      while freedMax != multiset{}
        invariant 1 <= maxTruncatable <= lowest
        invariant forall p :: maxTruncatable <= p < lowest ==> p in freed
        invariant forall p :: p in freedMax <==> p in freed && p < maxTruncatable
        invariant forall p :: freedMax[p] <= 1
        decreases |freedMax|
      {
        var next := Largest(freedMax);
        freedMax := freedMax - multiset{next};
        if next + 1 == maxTruncatable {
          maxTruncatable := next;
        } else {
          break;
        }
      }
    }

    static method Largest(s: multiset<nat>) returns (id: nat)
      requires s != multiset{}
      ensures id in s && forall p :: p in s ==> p <= id
    {
      id :| id in s;
      var rest := s - multiset{id};
      while rest != multiset{}
        invariant id in s && rest <= s
        invariant forall p :: p in s ==> p <= id || p in rest
        decreases |rest|
      {
        var p :| p in rest;
        if id < p { id := p; }
        rest := rest - multiset{p};
      }
    }
  }

  /** A run in which freeing a page fails: it was handed out, freed, cut off and handed out again. */
  method FreeAfterTruncation(geo: Geometry) returns (id: nat, ok: bool)
    ensures id == 2 && !ok
  {
    hide Only, Grown;
    var storage := new PageUse.Open(geo, []);
    assert ID_LIMIT > 4;
    var first := storage.AllocNew();
    var second := storage.AllocNew();
    ghost var two := storage.disk;
    var freed := storage.FreePage(second);
    ghost var d := storage.disk;
    assert d.freed == multiset{2} && |d.pages| == 3;
    var kept := storage.TruncateUnused();
    assert kept == 2;
    ghost var cut := storage.disk;
    id := storage.AllocNew();
    ComesBackIff(d, cut, kept, storage.disk, id);
    ok := storage.FreePage(id);
  }
}
