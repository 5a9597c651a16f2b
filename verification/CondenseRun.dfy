/**
 A run in which condensing a page changes its bytes. Two pages are handed out and written to. The second is freed, cut
 off and handed out again, and what is written to it then is where the file ends. So when it is moved to the first
 page, which has been freed in the meantime, the bytes that come after are what the first page held before.
 */
module CondenseRuns {
  import opened Wrappers
  import opened Bytes
  import opened Layout
  import opened PageGraph
  import opened PageUses
  import opened PageWriters
  import opened PageReaders
  import opened Pages
  import opened Condensing
  import opened PagedStorages

  /** Values of one byte. */
  function OneByte(): Byte -> seq<Byte> {
    b => [b]
  }

  /** Two pages, neither of them linked, of which the first is whole in the file and holds two bytes and more. */
  ghost predicate TwoPages(d: Disk, freed: multiset<nat>, x: Byte, y: Byte) {
    && |d.pages| == 3 && d.freed == freed && d.size > 2
    && d.pages[1].hasHeader && |d.pages[1].data| == d.size && d.pages[1].data[..2] == [x, y]
    && d.pages[1].next == d.pages[1].prev == d.pages[2].next == d.pages[2].prev == 0
  }

  method MakeTwoPages(storage: PageUse, x: Byte, y: Byte)
    requires storage.Valid() && |storage.disk.pages| == 1 && storage.disk.freed == multiset{} && storage.disk.size > 2
    modifies storage
    ensures storage.Valid() && TwoPages(storage.disk, multiset{}, x, y) && storage.disk.pages[2].hasHeader
    ensures storage.disk.size == old(storage.disk).size
  {
    hide Shows, ValidDisk;
    assert ID_LIMIT > 3;
    var first := storage.AllocNew();
    var second := storage.AllocNew();
    storage.WholeBelow();
    storage.WriteData(first, 0, [x, y]);
  }

  lemma SecondCut(d: Disk, e: Disk, f: Disk, kept: nat, x: Byte, y: Byte)
    requires TwoPages(d, multiset{}, x, y) && Freed(d, e, 2) && Truncated(e, f, kept)
    ensures kept == 2 && TwoPages(f, multiset{2}, x, y) && f.pages[2].data == []
  {
  }

  /** The second page ends with the file, after one byte. */
  ghost predicate CutShort(d: Disk, freed: multiset<nat>, x: Byte, y: Byte, z: Byte) {
    TwoPages(d, freed, x, y) && HeadersInFile(d) && d.pages[2].data == [z]
  }

  lemma SecondWritten(f: Disk, g: Disk, h: Disk, again: nat, x: Byte, y: Byte, z: Byte)
    requires TwoPages(f, multiset{2}, x, y) && f.pages[2].data == []
    requires Allocated(f, g, again) && DataWritten(g, h, again, 0, [z])
    ensures CutShort(h, multiset{}, x, y, z)
  {
  }

  /** Two pages of which the first is written, and the second is freed, cut off, taken again and written. */
  method MakeCutShort(storage: PageUse, x: Byte, y: Byte, z: Byte)
    requires storage.Valid() && |storage.disk.pages| == 1 && storage.disk.freed == multiset{} && storage.disk.size > 2
    modifies storage
    ensures storage.Valid() && CutShort(storage.disk, multiset{}, x, y, z)
    ensures storage.disk.size == old(storage.disk).size
  {
    hide Shows, CutShort;
    assert ID_LIMIT > 4;
    MakeTwoPages(storage, x, y);
    ghost var d := storage.disk;
    var ok := storage.FreePage(2);
    ghost var e := storage.disk;
    storage.FileNotBlank();
    var kept := storage.TruncateUnused();
    ghost var f := storage.disk;
    SecondCut(d, e, f, kept, x, y);
    var again := storage.AllocNew();
    ghost var g := storage.disk;
    storage.WriteData(again, 0, [z]);
    SecondWritten(f, g, storage.disk, again, x, y, z);
  }

  /** The value on the second page is all there is, and can be moved to the first page once that is freed. */
  lemma ReadyToCondense(d: Disk, e: Disk, x: Byte, y: Byte, z: Byte, values: map<nat, Byte>)
    requires CutShort(d, multiset{}, x, y, z) && Freed(d, e, 1) && ValidDisk(e) && values == map[2 := z]
    ensures CutShort(e, multiset{1}, x, y, z) && Sound(e, map[2 := [2]], map[2 := 2])
    ensures OnDisk(OneByte(), e, map[2 := [2]], z, 2) && Stream(e, [2]) == [z]
  {
    assert LinkedAt(e, [2], 0);
    var none: seq<seq<Byte>> := [];
    assert Holds(e, [2], none, [z]);
    assert [2][..0] == [] && Concat(none) + [z] == [z];
  }

  /** It is moved there, and the page goes on as it did before. */
  lemma GoesOnAsBefore(d: Disk, x: Byte, y: Byte, z: Byte, values: map<nat, Byte>, r: Option<nat>,
                       d': Disk, chains: Chains, owner: map<nat, nat>, values': map<nat, Byte>)
    requires CutShort(d, multiset{1}, x, y, z) && Stream(d, [2]) == [z] && Sound(d', chains, owner)
    requires r.Some? && LowestFrom(d.freed, 2, r.value)
    requires r.value < 2 ==> CondensedTo(d, map[2 := [2]], values, 2, d', chains, values', r.value)
    ensures r == Some(1) && 1 in chains && chains[1] == [1] && Linked(d', [1])
    ensures |Stream(d', [1])| == d.size && Stream(d', [1])[..2] == [z, y]
  {
    hide CondensedTo, SameStream, Stream, Sound, Linked;
    assert 1 in d.freed;
    SoundLinkedTo(d, values, d', chains, owner, values');
    assert [1][..0] == [];
    OnePage(d, z, d', d.pages[1].data);
  }

  lemma SoundLinkedTo(d: Disk, values: map<nat, Byte>, d': Disk, chains: Chains, owner: map<nat, nat>,
                      values': map<nat, Byte>)
    requires Sound(d', chains, owner) && CondensedTo(d, map[2 := [2]], values, 2, d', chains, values', 1)
    ensures 1 in chains && chains[1] == [1] && Linked(d', [1]) && SameStream(d, [2], d', [1])
  {
    hide SameStream, Sound;
    SoundLinked(d', chains, owner, 1);
  }

  lemma OnePage(d: Disk, z: Byte, d': Disk, was: seq<Byte>)
    requires SameStream(d, [2], d', [1]) && Stream(d, [2]) == [z] && d.pages[1].data == was && |was| >= 2
    ensures Stream(d', [1]) == [z] + was[1..]
  {
    assert [1][..0] == [];
  }

  /** A storage of which all pages but the last value's have been freed, and whose file ends in that value's page. */
  method MakeReady(geo: Geometry, x: Byte, y: Byte, z: Byte) returns (st: PagedStorage<Byte>)
    requires geo.pageBytes + 5 < ID_LIMIT
    ensures fresh(st) && fresh(st.pageuse) && st.Valid() && st.cache == map[] && st.pageuse.geo == geo
    ensures st.chains == map[2 := [2]] && st.values == map[2 := z] && Linked(st.pageuse.disk, [2])
    ensures CutShort(st.pageuse.disk, multiset{1}, x, y, z) && Stream(st.pageuse.disk, [2]) == [z]
  {
    hide Shows, Freed, Sound, ValidDisk, Stream, Linked, OnDisk;
    st := new PagedStorage.Open(geo, OneByte());
    var storage := st.pageuse;
    MakeCutShort(storage, x, y, z);
    ghost var d := storage.disk;
    var ok := storage.FreePage(1);
    st.chains, st.owner, st.values := map[2 := [2]], map[2 := 2], map[2 := z];
    ReadyToCondense(d, storage.disk, x, y, z, st.values);
    SoundLinked(storage.disk, st.chains, st.owner, 2);
  }

  /** What the moved value's page reads as, before and after. */
  method CondenseGoesOn(geo: Geometry, x: Byte, y: Byte, z: Byte) returns (was: seq<Byte>, now: seq<Byte>)
    requires geo.pageBytes + 5 < ID_LIMIT
    ensures was == [z] && |now| == geo.DataSize() && now[..2] == [z, y]
  {
    hide Shows, Sound, ValidDisk, CondensedTo, Stream, Linked, EntriesOk, LowestFrom;
    var st := MakeReady(geo, x, y, z);
    ghost var d, values := st.pageuse.disk, st.values;
    var pages;
    was, pages := ReadToEnd(st.pageuse, 2, [2]);
    var r := st.Condense(2);
    GoesOnAsBefore(d, x, y, z, values, r, st.pageuse.disk, st.chains, st.owner, st.values);
    now, pages := ReadToEnd(st.pageuse, 1, [1]);
  }
}
