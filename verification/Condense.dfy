/** Moving a chain's bytes to a chain that starts at a lower page. */
module Condensing {
  import opened Bytes
  import opened Layout
  import opened PageGraph
  import opened PageUses
  import opened PageWriters
  import opened PageReaders
  import opened Pages

  lemma ConcatOne(page: seq<Byte>)
    ensures Concat([page]) == page
  {
    assert [page][..0] == [];
  }

  lemma {:induction false} ConcatFront(pages: seq<seq<Byte>>)
    requires pages != []
    ensures Concat(pages) == pages[0] + Concat(pages[1..])
  {
    hide Concat;
    var n := |pages| - 1;
    if n == 0 {
      assert pages == [pages[0]] && pages[1..] == [];
      ConcatOne(pages[0]);
      ConcatNone();
    } else {
      var first, last := pages[..n], pages[n];
      ConcatFront(first);
      assert pages == first + [last] && pages[1..] == first[1..] + [last];
      ConcatPush(first, last);
      ConcatPush(first[1..], last);
    }
  }

  lemma ConcatNone()
    ensures Concat([]) == []
  {
  }

  lemma FirstCut(size: nat, full: seq<seq<Byte>>, part: seq<Byte>)
    requires full != [] && |full[0]| == size
    ensures var s := Concat(full) + part;
            size <= |s| && s[..size] == full[0] && s[size..] == Concat(full[1..]) + part
  {
    ConcatFront(full);
  }

  /** Pages of one size cut a stream in one way: a start of the stream is cut where the stream is. */
  lemma {:induction false} SameCuts(size: nat, full: seq<seq<Byte>>, part: seq<Byte>, full': seq<seq<Byte>>,
      part': seq<Byte>)
    requires forall j :: 0 <= j < |full| ==> |full[j]| == size
    requires forall j :: 0 <= j < |full'| ==> |full'[j]| == size
    requires |part| < size && |part'| < size
    requires Concat(full) + part <= Concat(full') + part'
    ensures |full| <= |full'| && full == full'[..|full|]
    ensures part <= if |full| < |full'| then full'[|full|] else part'
  {
    var s, s' := Concat(full) + part, Concat(full') + part';
    if full == [] {
      assert s == part;
      if full' != [] {
        FirstCut(size, full', part');
      }
    } else {
      FirstCut(size, full, part);
      if full' != [] {
        hide Concat;
        FirstCut(size, full', part');
        assert s[..size] == s'[..size] && s[size..] <= s'[size..];
        SameCuts(size, full[1..], part, full'[1..], part');
        forall j | 0 <= j < |full| ensures j < |full'| && full[j] == full'[j] {
          if j > 0 { assert full[1..][j - 1] == full'[1..][..|full| - 1][j - 1]; }
        }
      }
    }
  }

  /** A chain no longer than the one a value was stored on, with all of that one's bytes, stores the value. */
  lemma StoredByMove(d: Disk, c: seq<nat>, bs: seq<Byte>, d': Disk, c': seq<nat>, full': seq<seq<Byte>>,
      part': seq<Byte>)
    requires Stored(d, c, bs) && d.size == d'.size && |c'| <= |c|
    requires Holds(d', c', full', part') && bs <= Concat(full') + part'
    ensures Stored(d', c', bs)
  {
    var full, part :| Holds(d, c, full, part) && Concat(full) + part == bs && |c| <= |full| + 1;
    SameCuts(d.size, full, part, full', part');
    assert Holds(d', c', full, part);
  }

  /** A linked chain's own pages are one way to cut its stream, so they are how many pages any cut has. */
  lemma StreamPages(d: Disk, c: seq<nat>, full: seq<seq<Byte>>, part: seq<Byte>)
    requires Linked(d, c) && c != []
    requires |d.pages[c[|c| - 1]].data| <= d.size
    requires forall j :: 0 <= j < |full| ==> |full[j]| == d.size
    requires |part| < d.size && Concat(full) + part == Stream(d, c)
    ensures |full| == if |d.pages[c[|c| - 1]].data| == d.size then |c| else |c| - 1
    ensures part == if |d.pages[c[|c| - 1]].data| == d.size then [] else d.pages[c[|c| - 1]].data
  {
    var n := |c| - 1;
    var last := d.pages[c[n]].data;
    var pages := seq(n, i requires 0 <= i < n => d.pages[c[i]].data);
    forall i | 0 <= i < n ensures |pages[i]| == d.size {
      assert LinkedAt(d, c, i);
    }
    FullStream(d, c, pages);
    var full', part' := if |last| == d.size then pages + [last] else pages, if |last| == d.size then [] else last;
    ConcatPush(pages, last);
    assert Concat(full') + part' == Stream(d, c);
    SameCuts(d.size, full, part, full', part');
    SameCuts(d.size, full', part', full, part);
  }

  /** How many pages a chain has once a writer has filled a fresh one. */
  lemma PagesWritten(state: WriterState, comp: seq<nat>, added: seq<nat>, full: seq<seq<Byte>>, part: seq<Byte>)
    requires StateMatches(state, comp, added, |full|, |part|) && |comp| == 1
    requires state.WritingNew? ==> state.written > 0
    ensures |comp + added| == if full != [] && part == [] then |full| else |full| + 1
  {
  }

  /** `read_to_end` from a chain's first page: all its bytes, and the pages passed on the way. */
  method ReadToEnd(pageuse: PageUse, id: nat, ghost c: seq<nat>) returns (buffer: seq<Byte>, pages: seq<nat>)
    requires pageuse.Valid() && pageuse.disk.size > 0
    requires c != [] && c[0] == id && Linked(pageuse.disk, c)
    ensures buffer == Stream(pageuse.disk, c) && pages == c
  {
    hide Shows, ValidDisk, Stream, BytesBefore, LinkedAt;
    var reader := new PageReader(pageuse, id, c);
    buffer := [];
    ghost var all := Stream(pageuse.disk, c);
    BytesBeforeIsPrefix(pageuse.disk, c, 0, 0);
    var bytes := reader.Read(pageuse.geo.DataSize());
    BytesBeforeIsPrefix(pageuse.disk, c, reader.k, reader.amount);
    while bytes != []
      invariant fresh(reader) && reader.Valid() && reader.storage == pageuse && reader.chain == c
      invariant reader.Consumed() == buffer + bytes && buffer + bytes <= all
      invariant bytes == [] ==> reader.k + 1 == |c| && reader.Consumed() == all
      decreases |all| - |buffer|
    {
      buffer := buffer + bytes;
      bytes := reader.Read(pageuse.geo.DataSize());
      BytesBeforeIsPrefix(pageuse.disk, c, reader.k, reader.amount);
    }
    assert c[..|c|] == c;
    pages := reader.pageIds;
  }

  /** Writes bytes over a chain of one page, taking more pages as it needs them. */
  method WriteOut(pageuse: PageUse, id: nat, buffer: seq<Byte>, ghost chains: Chains, ghost owner: map<nat, nat>)
    returns (ghost c: seq<nat>, ghost owner': map<nat, nat>, ghost full: seq<seq<Byte>>, ghost part: seq<Byte>)
    requires pageuse.Valid() && pageuse.disk.size > 0 && Sound(pageuse.disk, chains, owner)
    requires id in chains && chains[id] == [id] && |pageuse.disk.pages| + |buffer| + 1 < ID_LIMIT
    modifies pageuse
    ensures pageuse.Valid() && Sound(pageuse.disk, chains[id := c], owner')
    ensures OthersKept(old(pageuse.disk), pageuse.disk, owner, id)
    ensures Holds(pageuse.disk, c, full, part) && Concat(full) + part == buffer
    ensures |c| == if full != [] && part == [] then |full| else |full| + 1
    ensures c != [] && c[0] == id && Taken(old(pageuse.disk), pageuse.disk, c[1..])
    ensures Left(old(pageuse.disk), pageuse.disk, c, |full|, |part|)
    ensures Accounted(old(pageuse.disk), chains, owner, pageuse.disk, chains[id := c], owner')
    ensures pageuse.disk.size == old(pageuse.disk).size
    ensures old(HeadersInFile(pageuse.disk)) ==> HeadersInFile(pageuse.disk)
  {
    hide Sound, ValidDisk, Shows, HeadersInFile, Holds, OwnersKept, StateMatches, Taken, Left, Accounted;
    var writer := new PageWriter(pageuse, [id], chains, owner);
    writer.WriteAll(buffer);
    full, part, c, owner' := writer.full, writer.part, writer.chains[id], writer.owner;
    PagesWritten(writer.state, [id], writer.addedPages, full, part);
    assert writer.chains == chains[id := c] by {
      assert forall h :: h in chains && h != id ==> h in writer.chains - {id} && (chains - {id})[h] == writer.chains[h];
      assert forall h :: h in writer.chains && h != id ==> h in chains - {id} && (writer.chains - {id})[h] == chains[h];
    }
  }
}
