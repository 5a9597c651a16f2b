/** `Page`: one value with the chain it is stored on, flushed to the page file and opened from it. */
module Pages {
  import opened Wrappers
  import opened Bytes
  import opened Layout
  import opened PageGraph
  import opened PageUses
  import opened PageWriters
  import opened PageReaders

  // Freeing the pages a shorter stream no longer needs -------------------------------------------

  /** A chain's first `m` pages keep their data while the rest is freed. */
  ghost predicate PagesKept(d: Disk, d': Disk, c: seq<nat>, m: nat) {
    && m <= |c| && PagesExist(d, c) && PagesExist(d', c) && d.size == d'.size
    && forall j :: 0 <= j < m ==>
                     && d.pages[c[j]].data <= d'.pages[c[j]].data
                     && (|d.pages[c[j]].data| == d.size ==> d'.pages[c[j]].data == d.pages[c[j]].data)
  }

  lemma PagesKeptHolds(d: Disk, d': Disk, c: seq<nat>, m: nat, full: seq<seq<Byte>>, part: seq<Byte>)
    requires PagesKept(d, d', c, m) && Holds(d, c, full, part)
    requires |full| <= m && (part != [] ==> |full| < m)
    ensures Holds(d', c[..m], full, part)
  {
  }

  lemma FreeKeeps(e: Disk, d: Disk, d': Disk, chains: Chains, owner: map<nat, nat>,
                  head: nat, c: seq<nat>, m: nat, k: nat)
    requires Freeing(d, chains, owner, head, c, m, k) && k < |c|
    requires Freed(d, d', c[k])
    requires PagesKept(e, d, c, m) && OthersKept(e, d, owner, head) && forall p :: p in owner ==> p >= 1
    ensures PagesKept(e, d', c, m) && OthersKept(e, d', owner, head)
    ensures |d'.pages| == |d.pages| && d'.freed == d.freed + multiset{c[k]}
    ensures HeadersInFile(d) ==> HeadersInFile(d') && AllDataKept(d, d')
  {
    var prev := d.pages[c[k]].prev;
    assert prev == if k > 0 then c[k - 1] else 0;
    assert Confined({c[k], prev}, owner, head);
    OthersKeptByStep(d, d', owner, head, {c[k], prev});
    forall j | 0 <= j < m
      ensures && d.pages[c[j]].data <= d'.pages[c[j]].data
              && (|d.pages[c[j]].data| == d.size ==> d'.pages[c[j]].data == d.pages[c[j]].data)
    {
      assert c[j] != c[k];
    }
  }

  /** Whether page `c[k]` may be handed to `free_page`. */
  lemma FreeAllowed(d: Disk, chains: Chains, owner: map<nat, nat>, head: nat, c: seq<nat>, m: nat, k: nat)
    requires Freeing(d, chains, owner, head, c, m, k) && k < |c|
    ensures 1 <= c[k] < |d.pages| && c[k] !in d.freed && d.pages[c[k]].hasHeader
    ensures d.pages[c[k]].prev != c[k] && d.pages[c[k]].prev < |d.pages|
  {
    assert d.pages[c[k]].prev == if k > 0 then c[k - 1] else 0;
    if k > m {
      assert c[k] !in c[m..k];
      assert c[k] in Without(owner, c[m..k]);
    } else if k > 0 {
      assert ChainOf(d, c, head, owner) && LinkedAt(d, c, k - 1);
    }
  }

  /** What is live once `c[m..]` has been freed. */
  ghost predicate Cut(d: Disk, chains: Chains, owner: map<nat, nat>, head: nat, m: nat, chains': Chains,
      owner': map<nat, nat>)
    requires head in chains && m <= |chains[head]|
  {
    && Sound(d, chains', owner') && OwnersKept(owner, owner', head)
    && owner' == (if m == |chains[head]| then owner else Without(owner, chains[head][m..]))
    && chains' == if m == |chains[head]| then chains else CutChains(chains, head, chains[head], m)
  }

  lemma FreedAll(d: Disk, chains: Chains, owner: map<nat, nat>, head: nat, c: seq<nat>, m: nat)
    requires Freeing(d, chains, owner, head, c, m, |c|) && head in chains && chains[head] == c
    ensures m < |c| ==> Cut(d, chains, owner, head, m, CutChains(chains, head, c, m), Without(owner, c[m..]))
    ensures m == |c| ==> Cut(d, chains, owner, head, m, chains, owner)
  {
    assert c[m..|c|] == c[m..];
    if m < |c| {
      var owner' := Without(owner, c[m..]);
      forall p | p in owner && owner[p] != head ensures p in owner' && owner'[p] == owner[p] {
        assert p !in c[m..];
      }
    }
  }

  lemma ChainsAfterCut(d: Disk, before: Chains, chains: Chains, owner: map<nat, nat>, head: nat, m: nat,
                       chains': Chains, owner': map<nat, nat>)
    requires head in chains && m <= |chains[head]| && Cut(d, chains, owner, head, m, chains', owner')
    requires chains - {head} == before - {head} && chains[head] != []
    ensures chains' == if m == 0 then before - {head} else before[head := chains[head][..m]]
  {
    assert m == |chains[head]| ==> chains[head][..m] == chains[head];
    assert forall h :: h in chains && h != head ==>
        h in before - {head} && before[h] == (chains - {head})[h] == chains[h];
    assert forall h :: h in before && h != head ==>
        h in chains - {head} && chains[h] == (before - {head})[h] == before[h];
  }

  /** Frees the pages of a chain from `m` on, front to back. */
  method FreeTail(storage: PageUse, c: seq<nat>, m: nat, ghost chains: Chains, ghost owner: map<nat, nat>,
      ghost head: nat)
    returns (ghost chains': Chains, ghost owner': map<nat, nat>)
    requires storage.Valid() && Sound(storage.disk, chains, owner)
    requires head in chains && chains[head] == c && m <= |c|
    requires m == 0 ==> storage.disk.pages[head].hasHeader
    modifies storage
    ensures storage.Valid() && |storage.disk.pages| == |old(storage.disk).pages|
    ensures Cut(storage.disk, chains, owner, head, m, chains', owner')
    ensures PagesKept(old(storage.disk), storage.disk, c, m)
    ensures OthersKept(old(storage.disk), storage.disk, owner, head)
    ensures old(HeadersInFile(storage.disk)) ==>
              HeadersInFile(storage.disk) && AllDataKept(old(storage.disk), storage.disk)
    ensures storage.disk.freed == old(storage.disk).freed + multiset(c[m..])
    ensures Accounted(old(storage.disk), chains, owner, storage.disk, chains', owner')
  {
    hide ValidDisk, Shows, Freed, HeadersInFile, OthersKept, PagesKept, Freeing, Cut, LinkedAt, AllDataKept, Accounted;
    AllKeptRefl(storage.disk);
    StartFreeing(storage.disk, chains, owner, head, m);
    StartKept(storage.disk, chains, owner, head, m);
    for k := m to |c|
      invariant storage.Valid() && |storage.disk.pages| == |old(storage.disk).pages|
      invariant Freeing(storage.disk, chains, owner, head, c, m, k)
      invariant PagesKept(old(storage.disk), storage.disk, c, m)
      invariant OthersKept(old(storage.disk), storage.disk, owner, head)
      invariant old(HeadersInFile(storage.disk)) ==>
                  HeadersInFile(storage.disk) && AllDataKept(old(storage.disk), storage.disk)
      invariant storage.disk.freed == old(storage.disk).freed + multiset(c[m..k])
    {
      ghost var before := storage.disk;
      FreeAllowed(before, chains, owner, head, c, m, k);
      var ok := storage.FreePage(c[k]);
      FreeStep(before, storage.disk, chains, owner, head, c, m, k);
      FreeKeeps(old(storage.disk), before, storage.disk, chains, owner, head, c, m, k);
      AllKeptTrans(old(storage.disk), before, storage.disk);
      assert c[m..k + 1] == c[m..k] + [c[k]];
    }
    assert c[m..|c|] == c[m..];
    FreedAll(storage.disk, chains, owner, head, c, m);
    chains' := if m == |c| then chains else CutChains(chains, head, c, m);
    owner' := if m == |c| then owner else Without(owner, c[m..]);
    TailAccounted(old(storage.disk), storage.disk, chains, owner, head, m);
  }

  lemma TailAccounted(d: Disk, d': Disk, chains: Chains, owner: map<nat, nat>, head: nat, m: nat)
    requires Sound(d, chains, owner) && head in chains && m <= |chains[head]| && |d'.pages| == |d.pages|
    requires d'.freed == d.freed + multiset(chains[head][m..])
    ensures if m == |chains[head]| then Accounted(d, chains, owner, d', chains, owner)
            else Accounted(d, chains, owner, d', CutChains(chains, head, chains[head], m),
                           Without(owner, chains[head][m..]))
  {
    hide Accounted;
    assert ChainOf(d, chains[head], head, owner);
    if m == |chains[head]| {
      SameAccounted(d, d', chains, owner);
    } else {
      CutAccounted(d, d', chains, owner, head, m);
    }
  }

  lemma AllKeptRefl(d: Disk)
    ensures AllDataKept(d, d)
  {
  }

  lemma AllKeptTrans(d: Disk, e: Disk, f: Disk)
    ensures AllDataKept(d, e) && AllDataKept(e, f) ==> AllDataKept(d, f)
  {
  }

  lemma StartKept(d: Disk, chains: Chains, owner: map<nat, nat>, head: nat, m: nat)
    requires Sound(d, chains, owner) && head in chains && m <= |chains[head]|
    ensures PagesKept(d, d, chains[head], m) && OthersKept(d, d, owner, head)
  {
    assert ChainOf(d, chains[head], head, owner);
    assert forall i :: 0 <= i < |chains[head]| ==> LinkedAt(d, chains[head], i);
  }

  // One page's value -----------------------------------------------------------------------------

  /**
   How values are written and read. A decoder gives back an encoded value, whatever follows it, and finds that a mere
   start of an encoding is too short, so that the reader goes on to the next page.
   */
  datatype Codec<!T> = Codec(encode: T -> seq<Byte>, decode: seq<Byte> -> Option<T>) {

    ghost predicate Decodes(v: T) {
      && (forall junk :: decode(encode(v) + junk) == Some(v))
      && (forall n :: 0 <= n < |encode(v)| ==> decode(encode(v)[..n]) == None)
    }
  }

  /** The chain holds `bs`, with at most one page more than it needs. */
  ghost predicate Stored(d: Disk, c: seq<nat>, bs: seq<Byte>) {
    exists full, part :: Holds(d, c, full, part) && Concat(full) + part == bs && |c| <= |full| + 1
  }

  lemma {:induction false} ConcatLength(pages: seq<seq<Byte>>, size: nat, j: nat)
    requires j <= |pages| && forall i :: 0 <= i < |pages| ==> |pages[i]| == size
    ensures j < |pages| ==> |Concat(pages[..j])| + size <= |Concat(pages)|
    ensures |Concat(pages[..j])| <= |Concat(pages)|
  {
    if j < |pages| {
      var n := |pages| - 1;
      ConcatLength(pages[..n], size, j);
      assert pages[..n][..j] == pages[..j];
    } else {
      assert pages[..j] == pages;
    }
  }

  /** Once a reader's full pages reach the end of what is stored, it stands on the chain's last page. */
  lemma ReachesLastPage(d: Disk, c: seq<nat>, bs: seq<Byte>, k: nat)
    requires Linked(d, c) && Stored(d, c, bs) && k < |c|
    requires |bs| <= |Stream(d, c[..k])|
    ensures k + 1 == |c|
  {
    var full, part :| Holds(d, c, full, part) && Concat(full) + part == bs && |c| <= |full| + 1;
    if k < |full| {
      FullStream(d, c[..k], full[..k]);
      assert c[..k][..k] == c[..k];
      ConcatLength(full, d.size, k);
    }
  }

  lemma BytesBeforeIsPrefix(d: Disk, c: seq<nat>, k: nat, amount: nat)
    requires PagesExist(d, c) && k < |c| && amount <= |d.pages[c[k]].data|
    ensures BytesBefore(d, c, k, amount) <= Stream(d, c)
  {
    BytesBeforeNext(d, c, k);
    StreamPrefix(d, c, k + 1);
  }

  lemma StoredIsPrefix(d: Disk, c: seq<nat>, bs: seq<Byte>)
    requires Linked(d, c) && Stored(d, c, bs)
    ensures PagesExist(d, c) && bs <= Stream(d, c)
  {
    var full, part :| Holds(d, c, full, part) && Concat(full) + part == bs && |c| <= |full| + 1;
    HeldStream(d, c, full, part);
  }

  /** A decoder given the start of a stream knows whether it has the whole encoding. */
  lemma DecodedYet<T(!new)>(codec: Codec<T>, v: T, buffer: seq<Byte>, stream: seq<Byte>)
    requires codec.Decodes(v) && codec.encode(v) <= stream && buffer <= stream
    ensures codec.decode(buffer) == if |codec.encode(v)| <= |buffer| then Some(v) else None
  {
    var bs := codec.encode(v);
    if |bs| <= |buffer| {
      assert buffer == bs + buffer[|bs|..];
    } else {
      assert buffer == bs[..|buffer|];
    }
  }

  /** Pages freed by `flush` after writing: what the writer did not use, but never the first page unless allowed. */
  function UnusedFrom(state: WriterState, component: seq<nat>, mayFreeFirst: bool): (m: nat)
    requires state.Begin? || state.WritingAllocated? ==> |state.toWrite| <= |component|
    ensures m <= |component|
  {
    match state
    case Begin(toWrite) => |component| - |toWrite| + if mayFreeFirst || toWrite == [] then 0 else 1
    case WritingAllocated(_, _, toWrite) => |component| - |toWrite|
    case _ => |component|
  }

  /** What `flush` keeps is a chain that holds the stream, with at most one page to spare. */
  lemma KeptPages(d: Disk, state: WriterState, comp: seq<nat>, added: seq<nat>,
                  full: seq<seq<Byte>>, part: seq<Byte>, mayFreeFirst: bool)
    requires StateMatches(state, comp, added, |full|, |part|) && comp != []
    requires Holds(d, comp + added, full, part)
    ensures state.Begin? || state.WritingAllocated? ==> |state.toWrite| <= |comp| && added == []
    ensures var m := UnusedFrom(state, comp, mayFreeFirst);
            && |full| <= m + |added| <= |full| + 1
            && (part != [] ==> |full| < m + |added|)
            && (m < |comp| ==> added == [])
            && (m + |added| == 0 <==> mayFreeFirst && state.Begin? && full == [])
  {
  }

  class Page<!T(!new)> {
    const pageuse: PageUse
    var item: T
    var dirty: bool
    // two flags: free the page once it is clean and writes nothing, or free it whatever it holds
    var mayFree: bool
    var mustFree: bool
    var componentPages: seq<nat>
    // the shared pointer's count, less the cache's own reference
    var handles: nat

    constructor (pageuse: PageUse, item: T, dirty: bool, componentPages: seq<nat>)
      ensures this.pageuse == pageuse && this.item == item && this.dirty == dirty
      ensures this.componentPages == componentPages && !mayFree && !mustFree && handles == 0
    {
      this.pageuse, this.item, this.dirty := pageuse, item, dirty;
      this.componentPages := componentPages;
      mayFree, mustFree, handles := false, false, 0;
    }

    /** `write`: the value may change, so it is dirty, and a pending light free is called off. */
    method Write(v: T)
      modifies this`item, this`dirty, this`mayFree
      ensures item == v && dirty && !mayFree
    {
      item, dirty, mayFree := v, true, false;
    }

    /** Serializes through a buffered writer, which passes the bytes on in cuts of any size. */
    method WriteCuts(bs: seq<Byte>, ghost chains: Chains, ghost owner: map<nat, nat>) returns (writer: PageWriter)
      requires pageuse.Valid() && pageuse.disk.size > 0
      requires componentPages != [] && Sound(pageuse.disk, chains, owner)
      requires componentPages[0] in chains && chains[componentPages[0]] == componentPages
      requires |pageuse.disk.pages| + |bs| + 1 < ID_LIMIT
      modifies pageuse
      ensures fresh(writer) && writer.Valid() && writer.storage == pageuse
      ensures writer.head == componentPages[0] && writer.component == componentPages
      ensures Concat(writer.full) + writer.part == bs
      ensures bs == [] ==> writer.state.Begin? && writer.full == [] && pageuse.disk == old(pageuse.disk)
      ensures |pageuse.disk.pages| <= |old(pageuse.disk).pages| + |bs|
      ensures OthersKept(old(pageuse.disk), pageuse.disk, owner, writer.head)
      ensures OwnersKept(owner, writer.owner, writer.head)
      ensures writer.chains - {writer.head} == chains - {writer.head}
      ensures Accounted(old(pageuse.disk), chains, owner, pageuse.disk, writer.chains, writer.owner)
      ensures old(HeadersInFile(pageuse.disk)) ==> HeadersInFile(pageuse.disk)
    {
      hide Sound, ValidDisk, Shows, HeadersInFile, OthersKept, OwnersKept, Holds, StateMatches, Accounted, Taken, Left;
      writer := new PageWriter(pageuse, componentPages, chains, owner);
      OthersKeptRefl(pageuse.disk, owner, writer.head);
      AccountedRefl(pageuse.disk, chains, owner);
      var rest := bs;
      while rest != []
        invariant fresh(writer) && writer.Valid() && writer.storage == pageuse
        invariant writer.head == componentPages[0] && writer.component == componentPages
        invariant Concat(writer.full) + writer.part + rest == bs
        invariant bs == [] ==> writer.state.Begin? && writer.full == [] && pageuse.disk == old(pageuse.disk)
        invariant |pageuse.disk.pages| + |rest| <= |old(pageuse.disk).pages| + |bs|
        invariant OthersKept(old(pageuse.disk), pageuse.disk, owner, writer.head)
        invariant OwnersKept(owner, writer.owner, writer.head)
        invariant writer.chains - {writer.head} == chains - {writer.head}
        invariant Accounted(old(pageuse.disk), chains, owner, pageuse.disk, writer.chains, writer.owner)
        invariant old(HeadersInFile(pageuse.disk)) ==> HeadersInFile(pageuse.disk)
        decreases |rest|
      {
        var n :| 0 < n <= |rest|;
        ghost var d, o, cs := pageuse.disk, writer.owner, writer.chains;
        writer.WriteAll(rest[..n]);
        AccountedTrans(old(pageuse.disk), chains, owner, d, cs, o, pageuse.disk, writer.chains, writer.owner);
        OthersKeptTrans(old(pageuse.disk), d, pageuse.disk, owner, o, writer.head);
        assert rest == rest[..n] + rest[n..];
        rest := rest[n..];
      }
    }

    /** Frees the pages of the chain that the writer did not need, and says which pages are left. */
    static method FreeUnused(writer: PageWriter, mayFreeFirst: bool, ghost chains: Chains)
      returns (pages: seq<nat>, ghost chains': Chains, ghost owner': map<nat, nat>)
      requires writer.Valid() && writer.storage.Valid()
      requires writer.chains - {writer.head} == chains - {writer.head}
      requires mayFreeFirst && writer.state.Begin? && writer.full == [] ==>
                 writer.head < |writer.storage.disk.pages| && writer.storage.disk.pages[writer.head].hasHeader
      modifies writer.storage
      ensures writer.storage.Valid() && Sound(writer.storage.disk, chains', owner')
      ensures |writer.storage.disk.pages| == |old(writer.storage.disk).pages|
      ensures chains' == if pages == [] then chains - {writer.head} else chains[writer.head := pages]
      ensures OthersKept(old(writer.storage.disk), writer.storage.disk, writer.owner, writer.head)
      ensures OwnersKept(writer.owner, owner', writer.head)
      ensures pages == [] <==> mayFreeFirst && writer.state.Begin? && writer.full == []
      ensures pages != [] ==> pages[0] == (writer.component + writer.addedPages)[0]
      ensures pages != [] ==> Stored(writer.storage.disk, pages, Concat(writer.full) + writer.part)
      ensures pages <= writer.component + writer.addedPages && (pages == [] ==> writer.addedPages == [])
      ensures writer.storage.disk.freed
          == old(writer.storage.disk).freed + multiset((writer.component + writer.addedPages)[|pages|..])
      ensures Accounted(old(writer.storage.disk), writer.chains, writer.owner, writer.storage.disk, chains', owner')
      ensures old(HeadersInFile(writer.storage.disk)) ==> HeadersInFile(writer.storage.disk)
    {
      hide Sound, ValidDisk, Shows, HeadersInFile, OthersKept, OwnersKept, Holds, StateMatches, PagesKept;
      hide Accounted, Taken, Left, AllDataKept;
      var comp, added := writer.component, writer.addedPages;
      ghost var d := writer.storage.disk;
      KeptPages(d, writer.state, comp, added, writer.full, writer.part, mayFreeFirst);
      var m := UnusedFrom(writer.state, comp, mayFreeFirst);
      var all := comp + added;
      var kept := if m < |comp| then m else |all|;
      chains', owner' := FreeTail(writer.storage, all, kept, writer.chains, writer.owner, writer.head);
      pages := comp[..m] + added;
      assert pages == all[..kept];
      PagesKeptHolds(d, writer.storage.disk, all, kept, writer.full, writer.part);
      ChainsAfterCut(writer.storage.disk, chains, writer.chains, writer.owner, writer.head, kept, chains', owner');
    }

    /** `flush`, for a value that is to be written. */
    method FlushItem(encode: T -> seq<Byte>, ghost chains: Chains, ghost owner: map<nat, nat>)
      returns (ghost chains': Chains, ghost owner': map<nat, nat>)
      requires pageuse.Valid() && pageuse.disk.size > 0
      requires componentPages != [] && Sound(pageuse.disk, chains, owner)
      requires componentPages[0] in chains && chains[componentPages[0]] == componentPages
      requires |pageuse.disk.pages| + |encode(item)| + 1 < ID_LIMIT
      requires mayFree && encode(item) == [] ==>
                 componentPages[0] < |pageuse.disk.pages| && pageuse.disk.pages[componentPages[0]].hasHeader
      modifies this`componentPages, pageuse
      ensures pageuse.Valid() && Sound(pageuse.disk, chains', owner')
      ensures |pageuse.disk.pages| <= |old(pageuse.disk).pages| + |encode(item)|
      ensures var head := old(componentPages)[0];
              && chains' == (if componentPages == [] then chains - {head} else chains[head := componentPages])
              && OthersKept(old(pageuse.disk), pageuse.disk, owner, head)
              && OwnersKept(owner, owner', head)
      ensures componentPages == [] <==> mayFree && encode(item) == []
      ensures componentPages == [] ==>
                pageuse.disk.freed == old(pageuse.disk).freed + multiset(old(componentPages))
      ensures Accounted(old(pageuse.disk), chains, owner, pageuse.disk, chains', owner')
      ensures componentPages != [] ==>
                componentPages[0] == old(componentPages)[0] && Stored(pageuse.disk, componentPages, encode(item))
      ensures old(HeadersInFile(pageuse.disk)) ==> HeadersInFile(pageuse.disk)
    {
      hide Sound, ValidDisk, Shows, HeadersInFile, OthersKept, OwnersKept, Holds, StateMatches, Stored, Accounted;
      hide Taken, Left;
      var writer := WriteCuts(encode(item), chains, owner);
      ghost var d := pageuse.disk;
      if writer.state.Begin? && writer.full == [] { EmptyBegins(writer); }
      componentPages, chains', owner' := FreeUnused(writer, mayFree, chains);
      OthersKeptTrans(old(pageuse.disk), d, pageuse.disk, owner, writer.owner, writer.head);
      AccountedTrans(old(pageuse.disk), chains, owner, d, writer.chains, writer.owner, pageuse.disk, chains', owner');
    }

    /**
     `flush`, called when the page leaves the cache: a clean page is left alone, a page marked to be freed gives
     up its whole chain unread, and any other is written out.
     */
    method Flush(encode: T -> seq<Byte>, ghost chains: Chains, ghost owner: map<nat, nat>)
      returns (ghost chains': Chains, ghost owner': map<nat, nat>)
      requires pageuse.Valid() && pageuse.disk.size > 0
      requires componentPages != [] && Sound(pageuse.disk, chains, owner)
      requires componentPages[0] in chains && chains[componentPages[0]] == componentPages
      requires |pageuse.disk.pages| + |encode(item)| + 1 < ID_LIMIT
      requires mustFree || (mayFree && encode(item) == []) ==>
                 componentPages[0] < |pageuse.disk.pages| && pageuse.disk.pages[componentPages[0]].hasHeader
      modifies this`componentPages, pageuse
      ensures pageuse.Valid() && Sound(pageuse.disk, chains', owner')
      ensures |pageuse.disk.pages| <= |old(pageuse.disk).pages| + |encode(item)|
      ensures var head := old(componentPages)[0];
              OthersKept(old(pageuse.disk), pageuse.disk, owner, head) && OwnersKept(owner, owner', head)
      ensures FlushOutcome(encode(item), old(componentPages), chains, old(pageuse.disk), chains', pageuse.disk)
      ensures Accounted(old(pageuse.disk), chains, owner, pageuse.disk, chains', owner')
      ensures old(HeadersInFile(pageuse.disk)) ==> HeadersInFile(pageuse.disk)
    {
      hide Sound, ValidDisk, Shows, HeadersInFile, OthersKept, OwnersKept, Stored, Accounted, AllDataKept;
      AccountedRefl(pageuse.disk, chains, owner);
      ghost var head := componentPages[0];
      chains', owner' := chains, owner;
      OthersKeptRefl(pageuse.disk, owner, head);
      if dirty || mayFree || mustFree {
        if mustFree {
          chains', owner' := FreeTail(pageuse, componentPages, 0, chains, owner, head);
          assert componentPages[0..] == componentPages;
          return;
        }
        chains', owner' := FlushItem(encode, chains, owner);
      }
    }

    /** Which chains there are after a flush, and which pages it frees, by the page's flags. */
    ghost predicate FlushOutcome(bs: seq<Byte>, comp: seq<nat>, chains: Chains, d: Disk, chains': Chains, d': Disk)
      reads this
      requires comp != []
    {
      var head := comp[0];
      if !dirty && !mayFree && !mustFree then chains' == chains && d' == d
      else if mustFree || (mayFree && bs == []) then
        chains' == chains - {head} && d'.freed == d.freed + multiset(comp)
      else
        && head in chains' && chains'[head] != [] && chains' == chains[head := chains'[head]]
        && Stored(d', chains'[head], bs)
    }

    /** A writer that still stands at its first page has written nothing. */
    static lemma EmptyBegins(writer: PageWriter)
      requires writer.Valid() && writer.state.Begin? && writer.full == []
      ensures Concat(writer.full) + writer.part == []
    {
    }

    /**
     `open`: follows the chain from its first page, feeding the decoder page by page until it has a value.
     The pages passed on the way become the value's component pages.
     */
    static method Open(pageuse: PageUse, id: nat, codec: Codec<T>, ghost c: seq<nat>, ghost v: T)
      returns (r: Option<Page<T>>)
      requires pageuse.Valid() && pageuse.disk.size > 0
      requires c != [] && c[0] == id && Linked(pageuse.disk, c)
      requires Stored(pageuse.disk, c, codec.encode(v)) && codec.Decodes(v)
      ensures r.Some? && fresh(r.value)
      ensures r.value.pageuse == pageuse && r.value.item == v && !r.value.dirty && r.value.componentPages == c
      ensures !r.value.mayFree && !r.value.mustFree && r.value.handles == 0
    {
      hide Shows, ValidDisk, Linked, Stored, Stream, BytesBefore;
      var reader := new PageReader(pageuse, id, c);
      var buffer := [];
      StoredIsPrefix(pageuse.disk, c, codec.encode(v));
      BytesBeforeIsPrefix(pageuse.disk, c, 0, 0);
      DecodedYet(codec, v, buffer, Stream(pageuse.disk, c));
      var item := codec.decode(buffer);
      while item.None?
        invariant fresh(reader) && reader.Valid() && reader.storage == pageuse && reader.chain == c
        invariant buffer == reader.Consumed() && buffer <= Stream(pageuse.disk, c)
        invariant reader.amount == 0 || reader.k + 1 == |c|
        invariant item == codec.decode(buffer) == if |codec.encode(v)| <= |buffer| then Some(v) else None
        decreases |codec.encode(v)| - |buffer|
      {
        var bytes := reader.Read(pageuse.geo.DataSize());
        if bytes == [] {
          return None;
        }
        buffer := buffer + bytes;
        BytesBeforeIsPrefix(pageuse.disk, c, reader.k, reader.amount);
        DecodedYet(codec, v, buffer, Stream(pageuse.disk, c));
        item := codec.decode(buffer);
      }
      if reader.k + 1 < |c| {
        AtPageStart(pageuse.disk, c, reader.k);
        ReachesLastPage(pageuse.disk, c, codec.encode(v), reader.k);
      }
      assert c[..|c|] == c;
      var page := new Page(pageuse, item.value, false, reader.pageIds);
      r := Some(page);
    }

    static lemma AtPageStart(d: Disk, c: seq<nat>, k: nat)
      requires PagesExist(d, c) && k < |c|
      ensures BytesBefore(d, c, k, 0) == Stream(d, c[..k])
    {
    }
  }
}
