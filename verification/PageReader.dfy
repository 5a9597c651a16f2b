/** Reading a chain's pages one after the other, following the links in the file. */
module PageReaders {
  import opened Bytes
  import opened Powers
  import opened Layout
  import opened PageGraph
  import opened PageUses
  import opened PageWriters

  /** A chain as the file's links tell it. */
  ghost predicate Linked(d: Disk, c: seq<nat>) {
    PagesExist(d, c) && forall i {:trigger LinkedAt(d, c, i)} :: 0 <= i < |c| ==> LinkedAt(d, c, i)
  }

  /** The bytes before offset `amount` of page `k` of a chain. */
  ghost function BytesBefore(d: Disk, c: seq<nat>, k: nat, amount: nat): seq<Byte>
    requires PagesExist(d, c) && k < |c| && amount <= |d.pages[c[k]].data|
  {
    Stream(d, c[..k]) + d.pages[c[k]].data[..amount]
  }

  lemma BytesBeforeNext(d: Disk, c: seq<nat>, k: nat)
    requires PagesExist(d, c) && k < |c|
    ensures BytesBefore(d, c, k, |d.pages[c[k]].data|) == Stream(d, c[..k + 1])
    ensures k + 1 < |c| ==> BytesBefore(d, c, k + 1, 0) == Stream(d, c[..k + 1])
  {
    assert c[..k + 1][..k] == c[..k];
    var data := d.pages[c[k]].data;
    assert data[..|data|] == data;
  }

  /** Reading from the middle of a page's data. */
  lemma DataFrom(f: File, at: nat, size: nat, amount: nat, n: nat)
    requires amount <= |ReadAt(f, at, size)| && amount + n <= size
    ensures var data, bytes := ReadAt(f, at, size), ReadAt(f, at + amount, n);
            && amount + |bytes| <= |data| && data[..amount] + bytes == data[..amount + |bytes|]
            && (|bytes| < n ==> amount + |bytes| == |data|)
  {
    ReadAtAt(f, at, size);
    ReadAtAt(f, at + amount, n);
  }

  class PageReader {
    const storage: PageUse
    var pageIds: seq<nat>
    var current: nat
    var amount: nat

    // the chain being read, and which of its pages is current
    ghost const chain: seq<nat>
    ghost var k: nat

    ghost predicate Valid()
      reads this, storage
    {
      && storage.Valid()
      && k < |chain| && Linked(storage.disk, chain)
      && pageIds == chain[..k + 1] && current == chain[k]
      && amount <= |storage.disk.pages[current].data|
      && (amount == storage.disk.size ==> k + 1 == |chain|)
    }

    ghost function Consumed(): seq<Byte>
      reads this, storage
      requires Valid()
    {
      BytesBefore(storage.disk, chain, k, amount)
    }

    constructor (storage: PageUse, id: nat, ghost chain: seq<nat>)
      requires storage.Valid() && storage.disk.size > 0
      requires chain != [] && chain[0] == id && Linked(storage.disk, chain)
      ensures Valid() && this.storage == storage && this.chain == chain && amount == 0 && k == 0
      ensures Consumed() == []
    {
      this.storage, this.chain := storage, chain;
      pageIds, current, amount, k := [id], id, 0, 0;
    }

    /** What the links and the data of a page on the chain say, read from the file. */
    lemma PageOnDisk(i: nat)
      requires storage.Valid() && Linked(storage.disk, chain) && i < |chain|
      ensures PagesExist(storage.disk, chain)
      ensures var p, o := storage.disk.pages[chain[i]], storage.geo.Offset(chain[i]);
              && p.data == ReadAt(storage.file, o + PAGE_HEADER_SIZE, storage.geo.DataSize())
              && (|p.data| == storage.geo.DataSize() ==>
                    FromBigEndian(ReadAt(storage.file, o, LINK_SIZE)) == if i + 1 < |chain| then chain[i + 1] else 0)
      ensures i + 1 < |chain| ==> |storage.disk.pages[chain[i]].data| == storage.geo.DataSize() && chain[i + 1] != 0
    {
      assert LinkedAt(storage.disk, chain, i);
      if i + 1 < |chain| { assert LinkedAt(storage.disk, chain, i + 1); }
      var id := chain[i];
      assert storage.disk.pages[id] == storage.geo.Image(storage.file, id);
      if |storage.disk.pages[id].data| == storage.geo.DataSize() {
        NumberRead(storage.file, storage.geo.Offset(id), LINK_SIZE);
      }
    }

    /** What reading at most `n` bytes of the current page returns. */
    lemma ReadHere(n: nat)
      requires Valid() && amount + n <= storage.disk.size
      ensures var bytes := ReadAt(storage.file, storage.geo.Offset(current) + PAGE_HEADER_SIZE + amount, n);
              && amount + |bytes| <= |storage.disk.pages[current].data|
              && BytesBefore(storage.disk, chain, k, amount + |bytes|) == Consumed() + bytes
              && (|bytes| < n ==> amount + |bytes| == |storage.disk.pages[current].data|)
    {
      hide Sound, ValidDisk, Shows, Linked, Stream, FromBigEndian, ReadAt;
      PageOnDisk(k);
      DataFrom(storage.file, storage.geo.Offset(current) + PAGE_HEADER_SIZE, storage.geo.DataSize(), amount, n);
      var data := storage.disk.pages[current].data;
      var bytes := ReadAt(storage.file, storage.geo.Offset(current) + PAGE_HEADER_SIZE + amount, n);
      assert Stream(storage.disk, chain[..k]) + (data[..amount] + bytes)
          == Stream(storage.disk, chain[..k]) + data[..amount] + bytes;
    }

    /** Moves on when the current page's data is used up, if the page has a successor. */
    method TurnPage()
      requires storage.Valid() && Linked(storage.disk, chain)
      requires k < |chain| && pageIds == chain[..k + 1] && current == chain[k]
      requires |storage.disk.pages[current].data| == amount == storage.disk.size
      modifies this
      ensures Valid() && (amount == 0 || k + 1 == |chain|)
      ensures Consumed() == Stream(storage.disk, chain[..old(k) + 1])
      ensures if old(k) + 1 < |chain| then k == old(k) + 1 && amount == 0 else k == old(k) && amount == old(amount)
    {
      hide Sound, ValidDisk, Shows, Linked, Stream, FromBigEndian, BytesBefore;
      PageOnDisk(k);
      BytesBeforeNext(storage.disk, chain, k);
      var next := FromBigEndian(ReadAt(storage.file, storage.geo.Offset(current), LINK_SIZE));
      if next != 0 {
        pageIds := pageIds + [next];
        current := next;
        amount := 0;
        k := k + 1;
      }
    }

    /** Reads from the current page, and moves to the next one when the page's data is used up. */
    method Read(n: nat) returns (bytes: seq<Byte>)
      requires Valid() && storage.disk.size > 0
      modifies this
      ensures Valid() && |bytes| == Min(n, |storage.disk.pages[old(current)].data| - old(amount))
      ensures Consumed() == old(Consumed()) + bytes
      ensures if old(amount) + |bytes| == storage.disk.size && old(k) + 1 < |chain| then k == old(k) + 1 && amount == 0
              else k == old(k) && amount == old(amount) + |bytes|
      ensures bytes == [] && n > 0 ==> k + 1 == |chain| && Consumed() == Stream(storage.disk, chain)
      ensures n >= storage.disk.size && old(amount) == 0 ==> amount == 0 || k + 1 == |chain|
    {
      hide Sound, ValidDisk, Shows, Linked, Stream, FromBigEndian, BytesBefore, ReadAt;
      PageOnDisk(k);
      var available := storage.geo.DataSize() - amount;
      ReadHere(Min(n, available));
      BytesBeforeNext(storage.disk, chain, k);
      bytes := ReadAt(storage.file, storage.geo.Offset(current) + PAGE_HEADER_SIZE + amount, Min(n, available));
      amount := amount + |bytes|;
      if k + 1 == |chain| {
        assert chain[..k + 1] == chain;
      }
      if amount == storage.geo.DataSize() {
        TurnPage();
      }
    }
  }
}
