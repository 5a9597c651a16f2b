/** `PagedStorage`: values by page id, kept in a cache over the page file. To its clients it is a map. */
module PagedStorages {
  import opened Wrappers
  import opened Bytes
  import opened Layout
  import opened PageGraph
  import opened PageUses
  import opened PageWriters
  import opened PageReaders
  import opened Pages
  import opened Condensing

  /** A cached page agrees with the map and with its chain; what it holds is on disk too unless it is dirty. */
  ghost predicate CachedOk<T(!new)>(encode: T -> seq<Byte>, d: Disk, chains: Chains, values: map<nat, T>, id: nat,
      page: Page<T>)
    reads page`item, page`dirty, page`mayFree, page`mustFree, page`componentPages
  {
    && id in chains && page.componentPages == chains[id] && !page.mayFree
    && (if page.mustFree then id !in values && id < |d.pages| && d.pages[id].hasHeader
        else id in values && values[id] == page.item)
    && (page.dirty || page.mustFree || Stored(d, chains[id], encode(page.item)))
  }

  /** A value that is not cached is what its chain holds. */
  ghost predicate OnDisk<T(!new)>(encode: T -> seq<Byte>, d: Disk, chains: Chains, v: T, id: nat) {
    id in chains && Stored(d, chains[id], encode(v))
  }

  /** A chain holds whatever it held before. */
  ghost predicate ChainKept(d: Disk, d': Disk, c: seq<nat>, id: nat) {
    && (forall bs :: Stored(d, c, bs) ==> Stored(d', c, bs))
    && id < |d.pages| <= |d'.pages| && (d.pages[id].hasHeader ==> d'.pages[id].hasHeader)
  }

  /** A step confined to one chain keeps all the others. */
  ghost predicate ChainsKept(d: Disk, d': Disk, chains: Chains, chains': Chains, head: nat) {
    forall id :: id in chains && id != head ==>
                   id in chains' && chains'[id] == chains[id] && ChainKept(d, d', chains[id], id)
  }

  lemma StoredKept(d: Disk, d': Disk, chains: Chains, owner: map<nat, nat>, head: nat, id: nat, bs: seq<Byte>)
    requires Sound(d, chains, owner) && OthersKept(d, d', owner, head)
    requires id in chains && id != head && Stored(d, chains[id], bs)
    ensures Stored(d', chains[id], bs)
  {
    var c := chains[id];
    assert ChainOf(d, c, id, owner);
    var full, part :| Holds(d, c, full, part) && Concat(full) + part == bs && |c| <= |full| + 1;
    assert Holds(d', c, full, part) by {
      assert forall i :: 0 <= i < |c| ==> LinkedAt(d, c, i);
    }
  }

  lemma OthersKeptChains(d: Disk, d': Disk, chains: Chains, owner: map<nat, nat>, head: nat, chains': Chains)
    requires Sound(d, chains, owner) && OthersKept(d, d', owner, head)
    requires chains' - {head} == chains - {head}
    ensures ChainsKept(d, d', chains, chains', head)
  {
    forall id | id in chains && id != head
      ensures id in chains' && chains'[id] == chains[id] && ChainKept(d, d', chains[id], id)
    {
      assert id in chains - {head} && (chains' - {head})[id] == (chains - {head})[id];
      var c := chains[id];
      forall bs | Stored(d, c, bs) ensures Stored(d', c, bs) {
        StoredKept(d, d', chains, owner, head, id, bs);
      }
      assert ChainOf(d, c, id, owner) && LinkedAt(d, c, 0);
    }
  }

  lemma ChainsKeptRefl(d: Disk, chains: Chains, owner: map<nat, nat>, head: nat)
    requires Sound(d, chains, owner)
    ensures ChainsKept(d, d, chains, chains, head)
  {
    forall id | id in chains ensures ChainKept(d, d, chains[id], id) {
      assert ChainOf(d, chains[id], id, owner) && LinkedAt(d, chains[id], 0);
    }
  }

  lemma SoundLinked(d: Disk, chains: Chains, owner: map<nat, nat>, id: nat)
    requires Sound(d, chains, owner) && id in chains
    ensures chains[id] != [] && chains[id][0] == id && Linked(d, chains[id])
    ensures 1 <= id < |d.pages| && NoDuplicates(chains[id])
  {
    assert ChainOf(d, chains[id], id, owner);
    assert forall i :: 0 <= i < |chains[id]| ==> LinkedAt(d, chains[id], i);
  }

  /** What the storage promises about its entries, whatever else changes. */
  ghost predicate EntriesOk<T(!new)>(encode: T -> seq<Byte>, d: Disk, chains: Chains, values: map<nat, T>,
      cache: map<nat, Page<T>>)
    reads cache.Values`item, cache.Values`dirty, cache.Values`mayFree, cache.Values`mustFree,
        cache.Values`componentPages
  {
    && (forall id :: id in cache ==> CachedOk(encode, d, chains, values, id, cache[id]))
    && (forall id :: id in values && id !in cache ==> OnDisk(encode, d, chains, values[id], id))
  }

  /** A step confined to the chain of one id keeps what the storage promises about every other. */
  lemma EntriesKept<T(!new)>(encode: T -> seq<Byte>, d: Disk, d': Disk, chains: Chains, chains': Chains, head: nat,
                             values: map<nat, T>, values': map<nat, T>, cache: map<nat, Page<T>>,
                             cache': map<nat, Page<T>>)
    requires EntriesOk(encode, d, chains, values, cache)
    requires ChainsKept(d, d', chains, chains', head)
    requires values' - {head} == values - {head} && cache' - {head} == cache - {head}
    requires head in cache' ==> CachedOk(encode, d', chains', values', head, cache'[head])
    requires head in values' && head !in cache' ==> OnDisk(encode, d', chains', values'[head], head)
    ensures EntriesOk(encode, d', chains', values', cache')
  {
    forall id | id in cache' ensures CachedOk(encode, d', chains', values', id, cache'[id]) {
      if id != head {
        assert id in cache' - {head} && (cache - {head})[id] == cache'[id];
        assert CachedOk(encode, d, chains, values, id, cache[id]);
        assert id in values <==> id in values - {head};
        assert id in values' <==> id in values' - {head};
        if id in values { assert (values' - {head})[id] == (values - {head})[id]; }
      }
    }
    forall id | id in values' && id !in cache' ensures OnDisk(encode, d', chains', values'[id], id) {
      if id != head {
        assert id in values' - {head} && (values - {head})[id] == values'[id];
        assert id !in cache - {head};
        assert OnDisk(encode, d, chains, values[id], id);
      }
    }
  }

  /** An allocation keeps every chain as it was. */
  lemma AllocatedKeeps(d: Disk, d': Disk, chains: Chains, owner: map<nat, nat>, id: nat)
    requires Sound(d, chains, owner) && Allocated(d, d', id)
    ensures OthersKept(d, d', owner, id) && (HeadersInFile(d) ==> HeadersInFile(d'))
    ensures |d'.pages| <= |d.pages| + 1 && d'.size == d.size
  {
  }

  lemma EntriesHaveChains<T(!new)>(encode: T -> seq<Byte>, d: Disk, chains: Chains, values: map<nat, T>,
                                   cache: map<nat, Page<T>>, id: nat)
    requires EntriesOk(encode, d, chains, values, cache)
    ensures id in cache || id in values ==> id in chains
    ensures id in values && id !in cache ==> Stored(d, chains[id], encode(values[id]))
    ensures id in cache ==> CachedOk(encode, d, chains, values, id, cache[id])
  {
    if id in values && id !in cache { assert OnDisk(encode, d, chains, values[id], id); }
  }

  /** A page opened from disk, entered for its id. */
  lemma OpenedEntryOk<T(!new)>(encode: T -> seq<Byte>, d: Disk, chains: Chains, id: nat,
                               values: map<nat, T>, cache: map<nat, Page<T>>, page: Page<T>)
    requires EntriesOk(encode, d, chains, values, cache)
    requires id in values && id !in cache && page.item == values[id] && page.componentPages == chains[id]
    requires id in chains && !page.dirty && !page.mayFree && !page.mustFree
    ensures EntriesOk(encode, d, chains, values, cache[id := page])
  {
    assert OnDisk(encode, d, chains, values[id], id);
  }

  lemma MapPut<X, Y>(m: map<X, Y>, x: X, y: Y)
    ensures m[x := y] - {x} == m - {x}
  {
  }

  lemma MapCut<X, Y>(m: map<X, Y>, m': map<X, Y>, x: X)
    ensures m' == m || m' == m - {x} || (x in m' && m' == m[x := m'[x]]) ==> m' - {x} == m - {x}
  {
  }

  lemma EntriesWithout<T(!new)>(encode: T -> seq<Byte>, d: Disk, chains: Chains, values: map<nat, T>,
      cache: map<nat, Page<T>>, id: nat)
    requires EntriesOk(encode, d, chains, values, cache)
    ensures EntriesOk(encode, d, chains, values - {id}, cache - {id})
  {
    forall other | other in values - {id} && other !in cache - {id}
      ensures OnDisk(encode, d, chains, (values - {id})[other], other)
    {
      assert other in values && other !in cache;
    }
  }

  /** No page object is cached under two ids. */
  lemma EntriesDistinct<T(!new)>(encode: T -> seq<Byte>, d: Disk, chains: Chains, owner: map<nat, nat>,
                                 values: map<nat, T>, cache: map<nat, Page<T>>, id: nat)
    requires Sound(d, chains, owner) && EntriesOk(encode, d, chains, values, cache) && id in cache
    ensures cache[id] !in (cache - {id}).Values
  {
    forall other | other in cache && other != id ensures cache[other] != cache[id] {
      SoundLinked(d, chains, owner, id);
      SoundLinked(d, chains, owner, other);
    }
  }

  /** A page taken out of the cache: its value, if it stands for one, is on disk. */
  lemma FlushedEntryOk<T(!new)>(encode: T -> seq<Byte>, d: Disk, d': Disk, chains: Chains, chains': Chains, id: nat,
                                values: map<nat, T>, rest: map<nat, Page<T>>)
    requires EntriesOk(encode, d, chains, values - {id}, rest) && id !in rest
    requires ChainsKept(d, d', chains, chains', id)
    requires id in values ==> OnDisk(encode, d', chains', values[id], id)
    ensures EntriesOk(encode, d', chains', values, rest)
  {
    assert values - {id} - {id} == values - {id};
    EntriesKept(encode, d, d', chains, chains', id, values - {id}, values, rest, rest);
  }

  /** A page marked to be freed: the map no longer has its id. */
  lemma FreedEntryOk<T(!new)>(encode: T -> seq<Byte>, d: Disk, chains: Chains, id: nat,
                              values: map<nat, T>, cache: map<nat, Page<T>>, page: Page<T>)
    requires EntriesOk(encode, d, chains, values - {id}, cache - {id})
    requires ChainsKept(d, d, chains, chains, id)
    requires id in cache && cache[id] == page && id in chains && page.componentPages == chains[id]
    requires page.mustFree && !page.mayFree && id < |d.pages| && d.pages[id].hasHeader
    ensures EntriesOk(encode, d, chains, values - {id}, cache)
  {
    assert values - {id} - {id} == values - {id} && cache - {id} - {id} == cache - {id};
    EntriesKept(encode, d, d, chains, chains, id, values - {id}, values - {id}, cache - {id}, cache);
  }

  /** A truncation keeps every live chain. */
  lemma TruncateKeepsChains(d: Disk, d': Disk, chains: Chains, owner: map<nat, nat>, kept: nat)
    requires Sound(d, chains, owner) && Truncated(d, d', kept)
    ensures forall id :: id in chains ==> ChainKept(d, d', chains[id], id)
  {
    forall id | id in chains ensures ChainKept(d, d', chains[id], id) {
      var c := chains[id];
      assert ChainOf(d, c, id, owner);
      forall bs | Stored(d, c, bs) ensures Stored(d', c, bs) {
        var full, part :| Holds(d, c, full, part) && Concat(full) + part == bs && |c| <= |full| + 1;
        forall i | 0 <= i < |c| ensures c[i] < kept && Grown(d.size, d.pages[c[i]], d'.pages[c[i]]) {
          TruncateKeepsLive(d, d', chains, owner, kept, c[i]);
        }
        assert Holds(d', c, full, part);
      }
      assert LinkedAt(d, c, 0);
      TruncateKeepsLive(d, d', chains, owner, kept, id);
    }
  }

  lemma EntriesAllKept<T(!new)>(encode: T -> seq<Byte>, d: Disk, d': Disk, chains: Chains,
                                values: map<nat, T>, cache: map<nat, Page<T>>)
    requires EntriesOk(encode, d, chains, values, cache)
    requires forall id :: id in chains ==> ChainKept(d, d', chains[id], id)
    ensures EntriesOk(encode, d', chains, values, cache)
  {
    forall id | id in values && id !in cache ensures OnDisk(encode, d', chains, values[id], id) {
      assert OnDisk(encode, d, chains, values[id], id);
    }
  }

  /** A dirty page entered for one id, with the value the map now has for it. */
  lemma DirtyEntryOk<T(!new)>(encode: T -> seq<Byte>, d: Disk, d': Disk, chains: Chains, chains': Chains, id: nat,
                              values: map<nat, T>, v: T, cache: map<nat, Page<T>>, page: Page<T>)
    requires EntriesOk(encode, d, chains, values, cache) && ChainsKept(d, d', chains, chains', id)
    requires id in chains' && page.componentPages == chains'[id]
    requires page.item == v && page.dirty && !page.mayFree && !page.mustFree
    ensures EntriesOk(encode, d', chains', values[id := v], cache[id := page])
  {
    MapPut(values, id, v);
    MapPut(cache, id, page);
    EntriesKept(encode, d, d', chains, chains', id, values, values[id := v], cache, cache[id := page]);
  }

  /** What is left of a cache after evictions: no entry is new, and none that was held is gone. */
  ghost predicate Shrunk<P>(cache0: map<nat, P>, cache: map<nat, P>, held: set<nat>) {
    && held <= cache.Keys <= cache0.Keys && cache.Values <= cache0.Values
    && forall id :: id in cache ==> cache[id] == cache0[id]
  }

  lemma ShrinkStep<P>(cache0: map<nat, P>, cache: map<nat, P>, held: set<nat>, id: nat)
    requires Shrunk(cache0, cache, held) && id !in held && id in cache
    ensures Shrunk(cache0, cache - {id}, held) && (cache - {id}).Keys < cache.Keys && id in cache0
  {
  }

  /**
   The chains after evictions: those of ids that stayed in the cache, or were not there, are as before, and those of
   ids that were given up are gone.
   */
  ghost predicate ChainsLeft<P>(chains0: Chains, cache0: map<nat, P>, freeing: set<nat>,
                                chains: Chains, cache: map<nat, P>)
  {
    && (forall id :: id in chains0 && (id in cache0 ==> id in cache) ==> id in chains && chains[id] == chains0[id])
    && (forall id :: id in cache0 && id !in cache && id in freeing ==> id !in chains)
  }

  lemma NoneLeft<P>(chains: Chains, cache: map<nat, P>, freeing: set<nat>)
    ensures ChainsLeft(chains, cache, freeing, chains, cache)
  {
  }

  lemma LeftStep<P>(chains0: Chains, cache0: map<nat, P>, freeing: set<nat>,
                    chains: Chains, cache: map<nat, P>, id: nat, chains': Chains)
    requires ChainsLeft(chains0, cache0, freeing, chains, cache) && id in cache && id in cache0
    requires chains' - {id} == chains - {id} && (id in freeing ==> id !in chains')
    ensures ChainsLeft(chains0, cache0, freeing, chains', cache - {id})
  {
    forall i | i != id ensures i in chains' <==> i in chains
                       ensures i in chains ==> chains'[i] == chains[i]
    {
      assert i in chains' <==> i in chains' - {id};
      assert i in chains <==> i in chains - {id};
      if i in chains { assert (chains' - {id})[i] == (chains - {id})[i]; }
    }
  }

  lemma SameFile(a: PageUse, b: PageUse)
    requires a.Valid() && b.geo == a.geo && b.file == a.file
    requires b.disk.size == b.geo.DataSize() && |b.disk.pages| == b.disk.counter == b.geo.Persisted(b.file)
    requires b.disk.freed == multiset{}
    requires forall id :: 1 <= id < |b.disk.pages| ==> b.disk.pages[id] == b.geo.Image(b.file, id)
    ensures Reopened(a.disk, b.disk)
  {
    forall p | 1 <= p < |a.disk.pages| ensures b.disk.pages[p] == a.disk.pages[p] {
      assert a.disk.pages[p] == a.geo.Image(a.file, p);
    }
  }

  lemma ReopenKeepsEntries<T(!new)>(encode: T -> seq<Byte>, d: Disk, d': Disk, chains: Chains, owner: map<nat, nat>,
                                    values: map<nat, T>, cache: map<nat, Page<T>>)
    requires Sound(d, chains, owner) && Reopened(d, d') && EntriesOk(encode, d, chains, values, cache)
    ensures EntriesOk(encode, d', chains, values, cache)
  {
    if 0 in chains { SoundLinked(d, chains, owner, 0); }
    assert OthersKept(d, d', owner, 0);
    OthersKeptChains(d, d', chains, owner, 0, chains);
    EntriesHaveChains(encode, d, chains, values, cache, 0);
    EntriesKept(encode, d, d', chains, chains, 0, values, values, cache, cache);
  }

  /** The values that are on disk as they are: all but those whose pages are in the cache and have been written to. */
  ghost function Saved<T(!new)>(values: map<nat, T>, cache: map<nat, Page<T>>): map<nat, T>
    reads cache.Values`dirty
  {
    map id | id in values && (id in cache ==> !cache[id].dirty) :: values[id]
  }

  lemma SavedOnDisk<T(!new)>(encode: T -> seq<Byte>, d: Disk, chains: Chains, values: map<nat, T>,
                             cache: map<nat, Page<T>>)
    requires EntriesOk(encode, d, chains, values, cache)
    ensures EntriesOk(encode, d, chains, Saved(values, cache), map[])
  {
    forall id | id in Saved(values, cache) ensures OnDisk(encode, d, chains, values[id], id) {
      if id in cache { assert CachedOk(encode, d, chains, values, id, cache[id]); }
    }
  }

  lemma ReadAgain<T(!new)>(d: Disk, d': Disk, encode: T -> seq<Byte>, chains: Chains, owner: map<nat, nat>,
                           values: map<nat, T>, cache: map<nat, Page<T>>)
    requires Sound(d, chains, owner) && Reopened(d, d') && EntriesOk(encode, d, chains, values, cache)
    ensures Sound(d', chains, owner) && EntriesOk(encode, d', chains, Saved(values, cache), map[])
  {
    hide Sound, EntriesOk, Saved, Reopened;
    ReopenSound(d, d', chains, owner);
    ReopenKeepsEntries(encode, d, d', chains, owner, values, cache);
    SavedOnDisk(encode, d', chains, values, cache);
  }

  /** Allocates a page for a new chain. */
  method AllocChain(pageuse: PageUse, ghost chains: Chains, ghost owner: map<nat, nat>)
    returns (id: nat, ghost owner': map<nat, nat>)
    requires pageuse.Valid() && Sound(pageuse.disk, chains, owner) && |pageuse.disk.pages| + 1 < ID_LIMIT
    modifies pageuse
    ensures pageuse.Valid() && id !in chains && Sound(pageuse.disk, chains[id := [id]], owner')
    ensures Allocated(old(pageuse.disk), pageuse.disk, id)
    ensures Accounted(old(pageuse.disk), chains, owner, pageuse.disk, chains[id := [id]], owner')
    ensures ChainsKept(old(pageuse.disk), pageuse.disk, chains, chains[id := [id]], id)
    ensures OthersKept(old(pageuse.disk), pageuse.disk, owner, id)
    ensures pageuse.disk.size == old(pageuse.disk).size && |pageuse.disk.pages| <= |old(pageuse.disk).pages| + 1
    ensures old(HeadersInFile(pageuse.disk)) ==> HeadersInFile(pageuse.disk)
  {
    hide Sound, ValidDisk, Shows, OthersKept, HeadersInFile, Allocated, ChainsKept, Accounted;
    ghost var d := pageuse.disk;
    id := pageuse.AllocNew();
    NewChainSound(d, pageuse.disk, chains, owner, id);
    NewChainAccounted(d, pageuse.disk, chains, owner, id);
    AllocatedKeeps(d, pageuse.disk, chains, owner, id);
    MapPut(chains, id, [id]);
    OthersKeptChains(d, pageuse.disk, chains, owner, id, chains[id := [id]]);
    owner' := owner[id := id];
  }

  /** Flushes a page as it leaves the cache. */
  method FlushChain<T(!new)>(page: Page<T>, encode: T -> seq<Byte>, id: nat, ghost chains: Chains,
                             ghost owner: map<nat, nat>)
    returns (ghost chains': Chains, ghost owner': map<nat, nat>)
    requires page.pageuse.Valid() && page.pageuse.disk.size > 0 && Sound(page.pageuse.disk, chains, owner)
    requires id in chains && chains[id] == page.componentPages && !page.mayFree
    requires |page.pageuse.disk.pages| + |encode(page.item)| + 1 < ID_LIMIT
    requires page.mustFree ==> id < |page.pageuse.disk.pages| && page.pageuse.disk.pages[id].hasHeader
    requires page.dirty || page.mustFree || Stored(page.pageuse.disk, chains[id], encode(page.item))
    modifies page`componentPages, page.pageuse
    ensures page.pageuse.Valid() && Sound(page.pageuse.disk, chains', owner')
    ensures ChainsKept(old(page.pageuse.disk), page.pageuse.disk, chains, chains', id)
    ensures !page.mustFree ==> OnDisk(encode, page.pageuse.disk, chains', page.item, id)
    ensures page.mustFree ==> chains' == chains - {id}
                              && page.pageuse.disk.freed == old(page.pageuse.disk).freed + multiset(chains[id])
    ensures !page.dirty && !page.mustFree ==> chains' == chains && page.pageuse.disk == old(page.pageuse.disk)
    ensures chains' - {id} == chains - {id}
    ensures Accounted(old(page.pageuse.disk), chains, owner, page.pageuse.disk, chains', owner')
    ensures page.pageuse.disk.size == old(page.pageuse.disk).size
    ensures |page.pageuse.disk.pages| <= |old(page.pageuse.disk).pages| + |encode(page.item)|
    ensures old(HeadersInFile(page.pageuse.disk)) ==> HeadersInFile(page.pageuse.disk)
  {
    hide Sound, ValidDisk, Shows, Stored, OthersKept, OwnersKept, HeadersInFile, ChainsKept, Accounted;
    ghost var d := page.pageuse.disk;
    SoundLinked(d, chains, owner, id);
    chains', owner' := page.Flush(encode, chains, owner);
    MapCut(chains, chains', id);
    OthersKeptChains(d, page.pageuse.disk, chains, owner, id, chains');
  }

  // Where condensing moves a chain's bytes --------------------------------------------------------

  /**
   A moved chain's bytes are the old chain's, and then whatever its last page held before past them. So they are the
   same just if the old chain ended where a page does.
   */
  ghost predicate SameStream(d: Disk, c: seq<nat>, d': Disk, c': seq<nat>) {
    && c != [] && c' != [] && PagesExist(d, c) && PagesExist(d', c') && PagesExist(d, c')
    && var before, last := Stream(d', c'[..|c'| - 1]), d.pages[c[|c| - 1]].data;
       var used := |Stream(d, c)| - |before|;
       && 0 <= used <= |d.pages[c'[|c'| - 1]].data|
       && Stream(d', c') == Stream(d, c) + d.pages[c'[|c'| - 1]].data[used..]
       && (Stream(d', c') == Stream(d, c) <==> |last| == d.size || (last == [] && |c| > 1))
  }

  /** What was read off one chain and written to another, which has no more pages. */
  lemma Moved(d: Disk, c: seq<nat>, d': Disk, c': seq<nat>, full: seq<seq<Byte>>, part: seq<Byte>)
    requires Linked(d, c) && c != [] && |d.pages[c[|c| - 1]].data| <= d.size == d'.size
    requires Holds(d', c', full, part) && Concat(full) + part == Stream(d, c)
    requires |c'| == if full != [] && part == [] then |full| else |full| + 1
    ensures |c'| <= |c| && forall bs :: Stored(d, c, bs) ==> Stored(d', c', bs)
  {
    StreamPages(d, c, full, part);
    forall bs | Stored(d, c, bs) ensures Stored(d', c', bs) {
      StoredIsPrefix(d, c, bs);
      StoredByMove(d, c, bs, d', c', full, part);
    }
  }

  /** The bytes of the new chain, if its pages are whole in the file and none was on a longer one before. */
  lemma MovedStream(d: Disk, c: seq<nat>, e: Disk, d': Disk, c': seq<nat>, full: seq<seq<Byte>>, part: seq<Byte>)
    requires Linked(d, c) && c != [] && |d.pages[c[|c| - 1]].data| <= d.size == d'.size
    requires Holds(d', c', full, part) && Concat(full) + part == Stream(d, c)
    requires |c'| == if full != [] && part == [] then |full| else |full| + 1
    requires NoDuplicates(c') && Left(e, d', c', |full|, |part|) && AllDataKept(d, e) && e.size == d.size
    requires forall p :: p in c' ==> 1 <= p < |d.pages| && |d.pages[p].data| == d.size
    ensures SameStream(d, c, d', c')
  {
    hide Concat, Left, AllDataKept, NoDuplicates, Stream, SameStream;
    StreamPages(d, c, full, part);
    assert forall i :: 0 <= i < |c'| ==> c'[i] in c';
    var n := |c'| - 1;
    if |full| == n {
      FullStream(d', c', full);
      GoesOn(d, e, d', c', full, part);
      StreamByRest(d, c, d', c', Concat(full), part);
    } else {
      assert full == full[..n] + [full[n]];
      FullStream(d', c', full[..n]);
      ConcatPush(full[..n], full[n]);
      StreamByRest(d, c, d', c', Concat(full[..n]), full[n]);
    }
  }

  /** How a stream ends on its last page. */
  lemma StreamByRest(d: Disk, c: seq<nat>, d': Disk, c': seq<nat>, before: seq<Byte>, part: seq<Byte>)
    requires c != [] && c' != [] && PagesExist(d, c) && PagesExist(d', c') && PagesExist(d, c')
    requires Stream(d', c'[..|c'| - 1]) == before && Stream(d, c) == before + part
    requires var was, last := d.pages[c'[|c'| - 1]].data, d.pages[c[|c| - 1]].data;
             && |part| <= |was| && d'.pages[c'[|c'| - 1]].data == part + was[|part|..]
             && (|part| == |was| <==> |last| == d.size || (last == [] && |c| > 1))
    ensures SameStream(d, c, d', c')
  {
    var rest := d.pages[c'[|c'| - 1]].data[|part|..];
    assert before + (part + rest) == before + part + rest;
  }

  /** A last page that is not filled goes on as it did before. */
  lemma GoesOn(d: Disk, e: Disk, d': Disk, c': seq<nat>, full: seq<seq<Byte>>, part: seq<Byte>)
    requires Holds(d', c', full, part) && |c'| == |full| + 1 && NoDuplicates(c')
    requires Left(e, d', c', |full|, |part|) && AllDataKept(d, e) && e.size == d.size
    requires var z := c'[|full|]; 1 <= z < |d.pages| && |d.pages[z].data| == d.size
    ensures var z := c'[|full|]; d'.pages[z].data == part + d.pages[z].data[|part|..]
  {
    var q, z := |full|, c'[|full|];
    assert z !in c'[..q];
    assert LeftAt(e, d', c', q, |part|, z);
    PartFirst(d', c', full, part);
  }

  lemma PartFirst(d: Disk, c: seq<nat>, full: seq<seq<Byte>>, part: seq<Byte>)
    requires Holds(d, c, full, part) && |full| < |c|
    ensures part <= d.pages[c[|full|]].data
  {
  }

  /** Takes a page for a chain no entry has yet. */
  method TakePage<T(!new)>(pageuse: PageUse, encode: T -> seq<Byte>, ghost chains: Chains, ghost owner: map<nat, nat>,
                           ghost values: map<nat, T>, ghost cache: map<nat, Page<T>>)
    returns (id: nat, ghost owner': map<nat, nat>)
    requires pageuse.Valid() && Sound(pageuse.disk, chains, owner) && |pageuse.disk.pages| + 1 < ID_LIMIT
    requires EntriesOk(encode, pageuse.disk, chains, values, cache) && HeadersInFile(pageuse.disk)
    modifies pageuse
    ensures pageuse.Valid() && id !in chains && id !in values && id !in cache
    ensures Sound(pageuse.disk, chains[id := [id]], owner')
    ensures EntriesOk(encode, pageuse.disk, chains[id := [id]], values, cache)
    ensures Allocated(old(pageuse.disk), pageuse.disk, id) && HeadersInFile(pageuse.disk)
    ensures Accounted(old(pageuse.disk), chains, owner, pageuse.disk, chains[id := [id]], owner')
    ensures pageuse.disk.size == old(pageuse.disk).size && |pageuse.disk.pages| <= |old(pageuse.disk).pages| + 1
  {
    hide Sound, ValidDisk, Shows, OthersKept, HeadersInFile, EntriesOk, ChainsKept, Allocated, Accounted;
    ghost var d := pageuse.disk;
    id, owner' := AllocChain(pageuse, chains, owner);
    EntriesHaveChains(encode, d, chains, values, cache, id);
    MapPut(chains, id, [id]);
    EntriesKept(encode, d, pageuse.disk, chains, chains[id := [id]], id, values, values, cache, cache);
  }

  /** Gives back a page that was taken and not used. */
  method GiveBack<T(!new)>(pageuse: PageUse, id: nat, encode: T -> seq<Byte>, ghost chains: Chains,
                           ghost owner: map<nat, nat>, ghost values: map<nat, T>, ghost cache: map<nat, Page<T>>)
    returns (ghost owner': map<nat, nat>)
    requires pageuse.Valid() && Sound(pageuse.disk, chains[id := [id]], owner) && HeadersInFile(pageuse.disk)
    requires id !in chains && id !in values && id !in cache
    requires EntriesOk(encode, pageuse.disk, chains[id := [id]], values, cache)
    modifies pageuse
    ensures pageuse.Valid() && Sound(pageuse.disk, chains, owner')
    ensures EntriesOk(encode, pageuse.disk, chains, values, cache) && HeadersInFile(pageuse.disk)
    ensures pageuse.disk.size == old(pageuse.disk).size && |pageuse.disk.pages| == |old(pageuse.disk).pages|
    ensures pageuse.disk.freed == old(pageuse.disk).freed + multiset{id}
    ensures Accounted(old(pageuse.disk), chains[id := [id]], owner, pageuse.disk, chains, owner')
  {
    hide Sound, ValidDisk, Shows, HeadersInFile, EntriesOk, ChainsKept, Accounted, AllDataKept;
    ghost var d, more := pageuse.disk, chains[id := [id]];
    SoundLinked(d, more, owner, id);
    HeaderHere(d, id);
    ghost var cut;
    cut, owner' := FreeTail(pageuse, [id], 0, more, owner, id);
    assert [id][0..] == [id];
    CutAll(pageuse.disk, more, owner, id, cut, owner');
    assert more - {id} == chains;
    OthersKeptChains(d, pageuse.disk, more, owner, id, chains);
    EntriesKept(encode, d, pageuse.disk, more, chains, id, values, values, cache, cache);
  }

  /** Moves the chain of `id` to the page `newPage`: reads it to its end, frees it, and writes what was read. */
  method MoveChain<T(!new)>(pageuse: PageUse, id: nat, newPage: nat, encode: T -> seq<Byte>, ghost chains: Chains,
                            ghost owner: map<nat, nat>, ghost values: map<nat, T>, ghost cache: map<nat, Page<T>>)
    returns (ghost c: seq<nat>, ghost owner': map<nat, nat>)
    requires pageuse.Valid() && pageuse.disk.size > 0 && Sound(pageuse.disk, chains, owner)
    requires id in chains && newPage in chains && id != newPage && chains[newPage] == [newPage]
    requires EntriesOk(encode, pageuse.disk, chains, values, cache)
    requires id in values && id !in cache && newPage !in values && newPage !in cache
    requires |pageuse.disk.pages| + |chains[id]| * pageuse.disk.size + 1 < ID_LIMIT
    requires id < |pageuse.disk.pages| && newPage + 1 < |pageuse.disk.pages| && HeadersInFile(pageuse.disk)
    modifies pageuse
    ensures pageuse.Valid() && Sound(pageuse.disk, (chains - {id})[newPage := c], owner')
    ensures EntriesOk(encode, pageuse.disk, (chains - {id})[newPage := c],
                      (values - {id})[newPage := values[id]], cache)
    ensures |c| <= |chains[id]| && SameStream(old(pageuse.disk), chains[id], pageuse.disk, c)
    ensures forall p :: p in chains[id] ==> p in pageuse.disk.freed || p in c
    ensures pageuse.disk.size == old(pageuse.disk).size && |pageuse.disk.pages| == |old(pageuse.disk).pages|
    ensures HeadersInFile(pageuse.disk)
    ensures Accounted(old(pageuse.disk), chains, owner, pageuse.disk, (chains - {id})[newPage := c], owner')
  {
    hide Sound, ValidDisk, Shows, HeadersInFile, OthersKept, OwnersKept, EntriesOk, ChainsKept, Holds, Stored;
    hide SameStream, Stream, Taken, Left, AllDataKept, NoDuplicates, Accounted;
    ghost var d, old_c := pageuse.disk, chains[id];
    SoundLinked(d, chains, owner, id);
    HeaderHere(d, id);
    pageuse.WholeBelow();
    EntriesHaveChains(encode, d, chains, values, cache, id);
    ChainData(pageuse, old_c);
    StreamBounded(d, old_c, d.size);
    var buffer, pages := ReadToEnd(pageuse, id, old_c);
    ghost var cut, left := FreeTail(pageuse, pages, 0, chains, owner, id);
    ghost var mid := pageuse.disk;
    CutAll(mid, chains, owner, id, cut, left);
    OthersKeptChains(d, mid, chains, owner, id, cut);
    EntriesKept(encode, d, mid, chains, cut, id, values, values - {id}, cache, cache);
    ghost var full, part;
    c, owner', full, part := WriteOut(pageuse, newPage, buffer, cut, left);
    Moved(d, old_c, pageuse.disk, c, full, part);
    assert pages[0..] == old_c;
    SoundLinked(d, chains, owner, newPage);
    LowPages(mid, d.freed, old_c, pageuse.disk, c);
    SoundLinked(pageuse.disk, cut[newPage := c], owner', newPage);
    MovedStream(d, old_c, mid, pageuse.disk, c, full, part);
    MapPut(cut, newPage, c);
    MapPut(values - {id}, newPage, values[id]);
    OthersKeptChains(mid, pageuse.disk, cut, left, newPage, cut[newPage := c]);
    AccountedTrans(d, chains, owner, mid, cut, left, pageuse.disk, cut[newPage := c], owner');
    assert OnDisk(encode, pageuse.disk, cut[newPage := c], values[id], newPage);
    EntriesKept(encode, mid, pageuse.disk, cut, cut[newPage := c], newPage,
                values - {id}, (values - {id})[newPage := values[id]], cache, cache);
  }

  /** A chain of no more pages than were just freed takes only pages that have others behind them. */
  lemma LowPages(d: Disk, before: multiset<nat>, freed: seq<nat>, d': Disk, c': seq<nat>)
    requires ValidDisk(d) && d.freed == before + multiset(freed) && 0 < |c'| <= |freed|
    requires Taken(d, d', c'[1..]) && 1 <= c'[0] && c'[0] + 1 < |d.pages|
    ensures forall p :: p in c' ==> 1 <= p && p + 1 < |d.pages|
    ensures |d'.pages| == |d.pages| && forall p :: p in d.freed ==> p in d'.freed || p in c'
  {
    hide ValidDisk;
    forall i | 0 <= i < |c'| ensures 1 <= c'[i] && c'[i] + 1 < |d.pages| {
      if i > 0 { TakenBelow(d, d', c'[1..], i - 1); }
    }
    forall p | p in d.freed ensures p in d'.freed || p in c' {
      if p !in d'.freed { assert p in multiset(c'[1..]); }
    }
  }

  lemma ChainData(pageuse: PageUse, c: seq<nat>)
    requires pageuse.Valid() && Linked(pageuse.disk, c)
    ensures forall i :: 0 <= i < |c| ==> |pageuse.disk.pages[c[i]].data| <= pageuse.disk.size
  {
    forall i | 0 <= i < |c| ensures |pageuse.disk.pages[c[i]].data| <= pageuse.disk.size {
      assert LinkedAt(pageuse.disk, c, i);
      pageuse.DataBounded(c[i]);
    }
  }

  lemma {:induction false} StreamBounded(d: Disk, c: seq<nat>, size: nat)
    requires PagesExist(d, c) && forall i :: 0 <= i < |c| ==> |d.pages[c[i]].data| <= size
    ensures |Stream(d, c)| <= |c| * size
  {
    if c != [] {
      StreamBounded(d, c[..|c| - 1], size);
      assert |c| * size == (|c| - 1) * size + size;
    }
  }

  /** A disk that differs in which pages are freed has the same streams. */
  lemma {:induction false} SamePages(d: Disk, e: Disk, c: seq<nat>)
    requires d.pages == e.pages && PagesExist(d, c)
    ensures Stream(d, c) == Stream(e, c)
  {
    if c != [] { SamePages(d, e, c[..|c| - 1]); }
  }

  /** Taking a page that is lower than a live one leaves all pages as they were. */
  lemma TakenLower(d: Disk, chains: Chains, owner: map<nat, nat>, e: Disk, id: nat, newPage: nat)
    requires Sound(d, chains, owner) && id in chains && Allocated(d, e, newPage) && newPage < id
    ensures e.pages == d.pages && e.size == d.size && newPage in d.freed && id < |d.pages|
    ensures chains[id] != [] && PagesExist(d, chains[id])
  {
    SoundLinked(d, chains, owner, id);
  }

  /** The smallest freed page, if that is lower than `id`. */
  ghost predicate LowestFrom(freed: multiset<nat>, id: nat, r: nat) {
    r <= id && (r < id ==> r in freed) && forall p :: p in freed ==> r <= p
  }

  lemma SmallestTaken(d: Disk, chains: Chains, owner: map<nat, nat>, e: Disk, id: nat, newPage: nat)
    requires Sound(d, chains, owner) && id in chains && Allocated(d, e, newPage)
    ensures LowestFrom(d.freed, id, if newPage < id then newPage else id)
  {
    SoundLinked(d, chains, owner, id);
  }

  /** What is free once a page has been taken and given back: a new one too, if there was none. */
  ghost predicate GivenBack(d: Disk, d': Disk) {
    if d.freed == multiset{} then d'.freed == multiset{|d.pages|} && |d'.pages| == |d.pages| + 1
    else d'.freed == d.freed && |d'.pages| == |d.pages|
  }

  lemma TakenAndGivenBack(d: Disk, e: Disk, newPage: nat, d': Disk)
    requires Allocated(d, e, newPage) && d'.freed == e.freed + multiset{newPage} && |d'.pages| == |e.pages|
    ensures GivenBack(d, d')
  {
  }

  lemma HeaderHere(d: Disk, p: nat)
    requires HeadersInFile(d) && 1 <= p < |d.pages|
    ensures d.pages[p].hasHeader
  {
  }

  /**
   What `condense` does when it moves something: the value has a new, lower id, its chain has the same bytes on no
   more pages, the pages it had are freed or in use for it again, and no other value or chain is touched.
   */
  ghost predicate CondensedTo<T>(d: Disk, chains: Chains, values: map<nat, T>, id: nat,
                                 d': Disk, chains': Chains, values': map<nat, T>, newId: nat) {
    && newId < id && id in values && newId !in values && id in chains && newId in chains'
    && values' == (values - {id})[newId := values[id]]
    && chains' - {newId} == chains - {id}
    && |chains'[newId]| <= |chains[id]|
    && SameStream(d, chains[id], d', chains'[newId])
    && |d'.pages| == |d.pages| && forall p :: p in chains[id] ==> p in d'.freed || p in chains'[newId]
  }

  lemma CondensedByMove<T>(d: Disk, chains: Chains, e: Disk, values: map<nat, T>, id: nat, newId: nat, d': Disk,
      c: seq<nat>)
    requires newId < id && id in values && newId !in values && id in chains && newId !in chains
    requires e.pages == d.pages && e.size == d.size && |d'.pages| == |d.pages|
    requires SameStream(e, chains[id], d', c) && |c| <= |chains[id]|
    requires forall p :: p in chains[id] ==> p in d'.freed || p in c
    ensures CondensedTo(d, chains, values, id, d', (chains[newId := [newId]] - {id})[newId := c],
                        (values - {id})[newId := values[id]], newId)
  {
    SamePages(d, e, chains[id]);
    assert (chains[newId := [newId]] - {id})[newId := c] - {newId} == chains - {id};
  }

  /** Moves the chain of `id` down to a page that was just taken. */
  method MoveDown<T(!new)>(pageuse: PageUse, id: nat, newPage: nat, encode: T -> seq<Byte>, ghost d: Disk,
                           ghost chains: Chains, ghost owner: map<nat, nat>, ghost left: map<nat, nat>,
                           ghost values: map<nat, T>, ghost cache: map<nat, Page<T>>)
    returns (ghost c: seq<nat>, ghost owner': map<nat, nat>)
    requires pageuse.Valid() && pageuse.disk.size > 0 && Sound(pageuse.disk, chains[newPage := [newPage]], left)
    requires Sound(d, chains, owner) && Allocated(d, pageuse.disk, newPage)
    requires EntriesOk(encode, pageuse.disk, chains[newPage := [newPage]], values, cache)
    requires newPage < id && id in chains && newPage !in chains
    requires id in values && id !in cache && newPage !in values && newPage !in cache
    requires |pageuse.disk.pages| + |chains[id]| * pageuse.disk.size + 1 < ID_LIMIT && HeadersInFile(pageuse.disk)
    modifies pageuse
    ensures pageuse.Valid() && Sound(pageuse.disk, (chains[newPage := [newPage]] - {id})[newPage := c], owner')
    ensures EntriesOk(encode, pageuse.disk, (chains[newPage := [newPage]] - {id})[newPage := c],
                      (values - {id})[newPage := values[id]], cache)
    ensures CondensedTo(d, chains, values, id, pageuse.disk, (chains[newPage := [newPage]] - {id})[newPage := c],
                        (values - {id})[newPage := values[id]], newPage)
    ensures HeadersInFile(pageuse.disk) && pageuse.disk.size == old(pageuse.disk).size
    ensures Accounted(old(pageuse.disk), chains[newPage := [newPage]], left, pageuse.disk,
                      (chains[newPage := [newPage]] - {id})[newPage := c], owner')
  {
    hide Sound, ValidDisk, Shows, OthersKept, HeadersInFile, EntriesOk, ChainsKept, Stored;
    hide SameStream, Stream, CachedOk, OnDisk, Linked, CondensedTo, Allocated, Accounted;
    ghost var e := pageuse.disk;
    TakenLower(d, chains, owner, e, id, newPage);
    c, owner' := MoveChain(pageuse, id, newPage, encode, chains[newPage := [newPage]], left, values, cache);
    CondensedByMove(d, chains, e, values, id, newPage, pageuse.disk, c);
  }

  /** Freeing a chain from its first page on leaves every other chain. */
  lemma CutAll(d: Disk, chains: Chains, owner: map<nat, nat>, head: nat, chains': Chains, owner': map<nat, nat>)
    requires head in chains && chains[head] != [] && Cut(d, chains, owner, head, 0, chains', owner')
    ensures chains' == chains - {head} && chains' - {head} == chains - {head}
    ensures Sound(d, chains', owner') && OwnersKept(owner, owner', head)
  {
  }

  /** A sound disk that is sound after a truncation has kept its counter. */
  lemma CounterKept(d: Disk, d': Disk, chains: Chains, owner: map<nat, nat>, kept: nat)
    requires Sound(d, chains, owner) && Truncated(d, d', kept)
    ensures ValidDisk(d') ==> d'.counter == d.counter
    ensures d.pages != []
  {
  }

  lemma OwnersKnown(d: Disk, chains: Chains, owner: map<nat, nat>, d': Disk, chains': Chains, owner': map<nat, nat>)
    requires Accounted(d, chains, owner, d', chains', owner') && Owned(chains, owner)
    ensures Owned(chains', owner')
  {
  }

  /** What was free is lost once it is forgotten. */
  lemma Forgotten(d: Disk, d': Disk, chains: Chains, owner: map<nat, nat>)
    requires Sound(d, chains, owner) && |d'.pages| == |d.pages| && d'.freed == multiset{}
    ensures forall p :: Lost(d', owner, p) <==> Lost(d, owner, p) || p in d.freed
  {
    forall p | p in d.freed ensures FreedPage(d, p) {}
  }

  /** Another allocator over a storage's file, which shows what was saved. */
  method OpenAgain<T(!new)>(before: PagedStorage<T>) returns (pageuse: PageUse)
    requires before.Valid()
    ensures fresh(pageuse) && pageuse.Valid() && pageuse.disk.size > 0 && pageuse.file == before.pageuse.file
    ensures Sound(pageuse.disk, before.chains, before.owner)
    ensures EntriesOk(before.encode, pageuse.disk, before.chains, Saved(before.values, before.cache), map[])
    ensures |pageuse.disk.pages| == |before.pageuse.disk.pages| && pageuse.disk.freed == multiset{}
  {
    hide Sound, EntriesOk, Saved;
    var a := before.pageuse;
    pageuse := new PageUse.Open(a.geo, a.file);
    SameFile(a, pageuse);
    ReadAgain(a.disk, pageuse.disk, before.encode, before.chains, before.owner, before.values, before.cache);
  }

  class PagedStorage<!T(!new)> {
    const pageuse: PageUse
    const encode: T -> seq<Byte>
    var cache: map<nat, Page<T>>

    ghost var chains: Chains
    ghost var owner: map<nat, nat>
    // the map this storage stands for
    ghost var values: map<nat, T>

    ghost predicate Valid()
      reads this, pageuse, cache.Values
    {
      && pageuse.Valid() && pageuse.disk.size > 0
      && Sound(pageuse.disk, chains, owner) && Owned(chains, owner)
      && (forall id :: id in cache ==> cache[id].pageuse == pageuse)
      && EntriesOk(encode, pageuse.disk, chains, values, cache)
    }

    /** Opening an empty storage. */
    constructor Open(geo: Geometry, encode: T -> seq<Byte>)
      ensures Valid() && values == map[] && cache == map[] && fresh(pageuse) && this.encode == encode
      ensures pageuse.geo == geo && |pageuse.disk.pages| == 1 && pageuse.disk.freed == multiset{}
      ensures forall p :: !Lost(pageuse.disk, owner, p)
    {
      this.encode := encode;
      pageuse := new PageUse.Open(geo, []);
      cache := map[];
      chains, owner, values := map[], map[], map[];
    }

    /** Opening the file of a storage again: the same map, but for what was still unsaved in that one's cache. */
    constructor Reopen(before: PagedStorage<T>)
      requires before.Valid()
      ensures Valid() && values == Saved(before.values, before.cache) && cache == map[] && fresh(pageuse)
      ensures pageuse.file == before.pageuse.file && chains == before.chains && encode == before.encode
      ensures pageuse.disk.freed == multiset{}
      ensures forall p :: Lost(pageuse.disk, owner, p) <==>
                Lost(before.pageuse.disk, before.owner, p) || p in before.pageuse.disk.freed
    {
      hide Sound, EntriesOk, ValidDisk, Shows, Saved, Owned;
      encode := before.encode;
      var again := OpenAgain(before);
      Forgotten(before.pageuse.disk, again.disk, before.chains, before.owner);
      pageuse := again;
      cache := map[];
      chains, owner, values := before.chains, before.owner, Saved(before.values, before.cache);
      new;
    }

    /** `new_page`: the value is cached under an id that stood for nothing, and not yet written. */
    method NewPage(v: T) returns (id: nat)
      requires Valid() && |pageuse.disk.pages| + 1 < ID_LIMIT
      modifies this, pageuse
      ensures Valid()
      ensures id !in old(values) && id !in old(cache) && values == old(values)[id := v]
      ensures id in cache && cache == old(cache)[id := cache[id]] && fresh(cache[id]) && cache[id].handles == 0
      ensures cache[id].dirty && !cache[id].mustFree
      ensures Allocated(old(pageuse.disk), pageuse.disk, id) && chains == old(chains)[id := [id]]
      ensures Accounted(old(pageuse.disk), old(chains), old(owner), pageuse.disk, chains, owner)
      ensures old(HeadersInFile(pageuse.disk)) ==> HeadersInFile(pageuse.disk)
    {
      hide Sound, ValidDisk, Shows, HeadersInFile, ChainsKept, EntriesOk, CachedOk, Allocated, Owned, Lost, Accounted;
      ghost var d, cs, before := pageuse.disk, chains, owner;
      ghost var os;
      id, os := AllocChain(pageuse, chains, owner);
      EntriesHaveChains(encode, d, cs, values, cache, id);
      var page := new Page(pageuse, v, true, [id]);
      DirtyEntryOk(encode, d, pageuse.disk, cs, cs[id := [id]], id, values, v, cache, page);
      chains, owner := cs[id := [id]], os;
      cache := cache[id := page];
      values := values[id := v];
      OwnersKnown(d, cs, before, pageuse.disk, chains, owner);
    }

    /** The other entries of the cache are the same objects, with as many handles. */
    twostate predicate OthersHeldAsBefore(id: nat)
      reads this, cache.Values
    {
      && (forall other :: other != id ==> (other in cache <==> other in old(cache)))
      && forall other :: other in cache && other in old(cache) && other != id ==>
                           cache[other] == old(cache)[other] && cache[other].handles == old(cache[other].handles)
    }

    /** `get`: nothing for an id that was never handed out; otherwise a handle to the page that holds the value. */
    method Get(id: nat, decode: seq<Byte> -> Option<T>) returns (r: Option<Page<T>>)
      requires Valid() && (id < |pageuse.disk.pages| ==> id in values || id in cache)
      requires id in values && id !in cache ==> Codec(encode, decode).Decodes(values[id])
      modifies this`cache, cache.Values`handles
      ensures Valid() && values == old(values)
      ensures r.None? <==> id >= |pageuse.disk.pages|
      ensures r.Some? ==> id in cache && cache[id] == r.value
      ensures r.Some? ==> r.value.handles == (if id in old(cache) then old(cache[id].handles) else 0) + 1
      ensures r.None? ==> cache == old(cache)
      ensures OthersHeldAsBefore(id)
      ensures id in values ==> r.Some? && r.value.item == values[id]
      ensures if id in old(cache) then cache == old(cache)
              else r.Some? ==> fresh(r.value) && !r.value.dirty && !r.value.mustFree
    {
      hide Sound, ValidDisk, Shows, Stored, EntriesOk, Owned;
      EntriesHaveChains(encode, pageuse.disk, chains, values, cache, id);
      if id in cache {
        EntriesDistinct(encode, pageuse.disk, chains, owner, values, cache, id);
        assert forall other :: other in cache && other != id ==> (cache - {id})[other] == cache[other];
      }
      if id in chains { SoundLinked(pageuse.disk, chains, owner, id); }
      if id >= pageuse.lowestUnallocatedId {
        return None;
      }
      if id !in cache {
        SoundLinked(pageuse.disk, chains, owner, id);
        var loaded := Page.Open(pageuse, id, Codec(encode, decode), chains[id], values[id]);
        OpenedEntryOk(encode, pageuse.disk, chains, id, values, cache, loaded.value);
        cache := cache[id := loaded.value];
      }
      var page := cache[id];
      page.handles := page.handles + 1;
      r := Some(page);
    }

    /** A client writes through a handle it holds. Through one that it has marked to be freed that changes nothing. */
    method Update(id: nat, page: Page<T>, v: T)
      requires Valid() && id in cache && cache[id] == page && page.handles > 0
      modifies this`values, page`item, page`dirty, page`mayFree
      ensures Valid() && values == if page.mustFree then old(values) else old(values)[id := v]
      ensures page.item == v && page.dirty && !page.mayFree
    {
      hide Sound, ValidDisk, Shows, Stored, EntriesOk;
      ghost var rest := cache - {id};
      EntriesHaveChains(encode, pageuse.disk, chains, values, cache, id);
      EntriesWithout(encode, pageuse.disk, chains, values, cache, id);
      EntriesDistinct(encode, pageuse.disk, chains, owner, values, cache, id);
      ChainsKeptRefl(pageuse.disk, chains, owner, id);
      page.Write(v);
      if page.mustFree {
        FreedEntryOk(encode, pageuse.disk, chains, id, values, cache, page);
        assert values - {id} == values;
      } else {
        DirtyEntryOk(encode, pageuse.disk, pageuse.disk, chains, chains, id, values - {id}, v, rest, page);
        assert (values - {id})[id := v] == values[id := v] && rest[id := page] == cache;
        values := values[id := v];
      }
    }

    /** A client drops a handle. */
    method Release(id: nat, page: Page<T>)
      requires Valid() && id in cache && cache[id] == page && page.handles > 0
      modifies page`handles
      ensures Valid() && page.handles == old(page.handles) - 1
    {
      page.handles := page.handles - 1;
    }

    /**
     Drops a page no client holds from the cache, which flushes it. A page marked to be freed gives up its whole chain,
     and a clean one is left as it is.
     */
    method EvictOne(id: nat, page: Page<T>)
      requires Valid() && id in cache && cache[id] == page && page.handles == 0
      requires |pageuse.disk.pages| + |encode(page.item)| + 1 < ID_LIMIT
      modifies this, pageuse, page`componentPages
      ensures Valid() && values == old(values) && cache == old(cache) - {id}
      ensures chains - {id} == old(chains) - {id} && (page.mustFree ==> id !in chains)
      ensures page.mustFree ==> pageuse.disk.freed == old(pageuse.disk).freed + multiset(old(chains)[id])
      ensures !page.mustFree && !page.dirty ==> chains == old(chains) && pageuse.disk == old(pageuse.disk)
      ensures Accounted(old(pageuse.disk), old(chains), old(owner), pageuse.disk, chains, owner)
      ensures |pageuse.disk.pages| <= |old(pageuse.disk).pages| + |encode(page.item)|
      ensures old(HeadersInFile(pageuse.disk)) ==> HeadersInFile(pageuse.disk)
    {
      hide Sound, ValidDisk, Shows, Stored, HeadersInFile, ChainsKept, EntriesOk, OnDisk, Lost, Owned, Accounted;
      ghost var d, cs, os := pageuse.disk, chains, owner;
      EntriesHaveChains(encode, d, cs, values, cache, id);
      EntriesWithout(encode, d, cs, values, cache, id);
      EntriesDistinct(encode, d, cs, os, values, cache, id);
      cache := cache - {id};
      chains, owner := FlushChain(page, encode, id, cs, os);
      OwnersKnown(d, cs, os, pageuse.disk, chains, owner);
      FlushedEntryOk(encode, d, pageuse.disk, cs, chains, id, values, cache);
    }

    /** Whether a page can be evicted: no client holds it, and ids are left for the pages its flush may add. */
    predicate Evictable(id: nat)
      reads this, pageuse, cache.Values
    {
      && id in cache && cache[id].handles == 0
      && |encode(cache[id].item)| + pageuse.lowestUnallocatedId + 1 < ID_LIMIT
    }

    ghost function Held(): set<nat>
      reads this, cache.Values
    {
      set id | id in cache && cache[id].handles > 0
    }

    ghost function ToFree(): set<nat>
      reads this, cache.Values
    {
      set id | id in cache && cache[id].mustFree
    }

    /** Everything a client can see stays as it is: the map, and the pages it holds. Pages given up are freed. */
    twostate predicate ClientsUnaffected()
      reads this, pageuse
    {
      && values == old(values) && Shrunk(old(cache), cache, old(Held()))
      && ChainsLeft(old(chains), old(cache), old(ToFree()), chains, cache)
      && Accounted(old(pageuse.disk), old(chains), old(owner), pageuse.disk, chains, owner)
      && (old(HeadersInFile(pageuse.disk)) ==> HeadersInFile(pageuse.disk))
    }

    /** `evict`: `count` pages leave the cache, whichever they are, or as many as can. */
    method Evict(count: nat)
      requires Valid()
      modifies this, pageuse, cache.Values`componentPages
      ensures Valid() && ClientsUnaffected()
      ensures |cache| >= |old(cache)| - count
      ensures |cache| == |old(cache)| - count || !exists id :: id in cache && Evictable(id)
    {
      hide Sound, ValidDisk, Shows, Stored, HeadersInFile, EntriesOk, CachedOk, Accounted, Owned, ChainsLeft;
      NoneLeft(chains, cache, ToFree());
      AccountedRefl(pageuse.disk, chains, owner);
      var left := count;
      while left > 0 && exists id :: id in cache && Evictable(id)
        invariant Valid() && ClientsUnaffected() && 0 <= left <= count && |cache| == |old(cache)| - (count - left)
      {
        var id :| id in cache && Evictable(id);
        EvictNext(id, cache[id], old(pageuse.disk), old(chains), old(owner), old(cache), old(ToFree()), old(Held()));
        left := left - 1;
      }
    }

    /** One more page leaves a cache from which some may have left already. */
    method EvictNext(id: nat, page: Page<T>, ghost d: Disk, ghost cs: Chains, ghost os: map<nat, nat>,
                     ghost cache0: map<nat, Page<T>>, ghost freeing: set<nat>, ghost held: set<nat>)
      requires Valid() && Evictable(id) && cache[id] == page && id !in held && (id in freeing <==> page.mustFree)
      requires Accounted(d, cs, os, pageuse.disk, chains, owner)
      requires ChainsLeft(cs, cache0, freeing, chains, cache) && Shrunk(cache0, cache, held)
      modifies this, pageuse, page`componentPages
      ensures Valid() && values == old(values) && cache == old(cache) - {id} && |cache| == |old(cache)| - 1
      ensures Accounted(d, cs, os, pageuse.disk, chains, owner)
      ensures ChainsLeft(cs, cache0, freeing, chains, cache) && Shrunk(cache0, cache, held)
      ensures old(HeadersInFile(pageuse.disk)) ==> HeadersInFile(pageuse.disk)
    {
      hide Sound, ValidDisk, Shows, Stored, HeadersInFile, EntriesOk, CachedOk, Accounted, Owned, ChainsLeft, Shrunk;
      ghost var e, cs', os', before := pageuse.disk, chains, owner, cache;
      ShrinkStep(cache0, before, held, id);
      EvictOne(id, page);
      AccountedTrans(d, cs, os, e, cs', os', pageuse.disk, chains, owner);
      LeftStep(cs, cache0, freeing, cs', before, id, chains);
    }

    /**
     `flush`: every page that no client holds leaves the cache. It stops early only if the ids could run out.
     */
    method FlushAll() returns (done: bool)
      requires Valid()
      modifies this, pageuse, cache.Values`componentPages
      ensures Valid() && ClientsUnaffected()
      ensures done ==> forall id :: id in cache ==> cache[id].handles > 0
      ensures done ==> forall id :: id in values && id !in old(Held()) ==> id !in cache && id in Saved(values, cache)
      ensures !done ==> exists id :: id in cache && cache[id].handles == 0 && !Evictable(id)
    {
      hide Sound, ValidDisk, Shows, Stored, HeadersInFile, EntriesOk, CachedOk, Accounted, Owned, ChainsLeft;
      NoneLeft(chains, cache, ToFree());
      AccountedRefl(pageuse.disk, chains, owner);
      while exists id :: id in cache && cache[id].handles == 0
        invariant Valid() && ClientsUnaffected()
        decreases cache.Keys
      {
        var id :| id in cache && cache[id].handles == 0;
        if !Evictable(id) {
          return false;
        }
        EvictNext(id, cache[id], old(pageuse.disk), old(chains), old(owner), old(cache), old(ToFree()), old(Held()));
      }
      done := true;
    }

    /** `force_free`: the id stands for nothing from now on, and its pages are freed when it leaves the cache. */
    method ForceFree(id: nat, page: Page<T>)
      requires Valid() && id in cache && cache[id] == page && page.handles > 0
      requires pageuse.disk.pages[id].hasHeader
      modifies this`values, page`mustFree
      ensures Valid() && values == old(values) - {id} && page.mustFree
    {
      hide Sound, ValidDisk, Shows, Stored, EntriesOk;
      EntriesHaveChains(encode, pageuse.disk, chains, values, cache, id);
      EntriesWithout(encode, pageuse.disk, chains, values, cache, id);
      EntriesDistinct(encode, pageuse.disk, chains, owner, values, cache, id);
      SoundLinked(pageuse.disk, chains, owner, id);
      ChainsKeptRefl(pageuse.disk, chains, owner, id);
      ghost var was := values;
      page.mustFree := true;
      values := values - {id};
      FreedEntryOk(encode, pageuse.disk, chains, id, was, cache, page);
    }

    /**
     `condense`: moves a value that is not cached to a chain that starts at a lower page, if there is one, and
     says where it is now. Until the file has been truncated every header can be read.
     */
    method Condense(id: nat) returns (r: Option<nat>)
      requires Valid() && (id !in cache ==> id in values)
      requires HeadersInFile(pageuse.disk)
      requires |pageuse.disk.pages| + (if id in chains then |chains[id]| * pageuse.disk.size else 0) + 2 < ID_LIMIT
      modifies this`chains, this`owner, this`values, pageuse
      ensures Valid() && HeadersInFile(pageuse.disk)
      ensures r.None? <==> id in cache
      ensures r.None? ==> values == old(values) && pageuse.disk == old(pageuse.disk)
      ensures r == Some(id) ==>
                values == old(values) && chains == old(chains) && GivenBack(old(pageuse.disk), pageuse.disk)
      ensures Accounted(old(pageuse.disk), old(chains), old(owner), pageuse.disk, chains, owner)
      ensures r.Some? ==> LowestFrom(old(pageuse.disk).freed, id, r.value)
      ensures r.Some? && r.value < id ==>
                CondensedTo(old(pageuse.disk), old(chains), old(values), id, pageuse.disk, chains, values, r.value)
    {
      hide Sound, ValidDisk, Shows, OthersKept, HeadersInFile, EntriesOk, ChainsKept, Stored;
      hide SameStream, Stream, CachedOk, OnDisk, Linked, CondensedTo, Allocated, LowestFrom, GivenBack;
      hide Accounted, Owned;
      AccountedRefl(pageuse.disk, chains, owner);
      if id in cache {
        return None;
      }
      ghost var d, cs, os := pageuse.disk, chains, owner;
      EntriesHaveChains(encode, d, cs, values, cache, id);
      ghost var left;
      var newPage;
      newPage, left := TakePage(pageuse, encode, cs, os, values, cache);
      ghost var e, more := pageuse.disk, left;
      SmallestTaken(d, cs, os, pageuse.disk, id, newPage);
      if newPage >= id {
        owner := GiveBack(pageuse, newPage, encode, cs, left, values, cache);
        AccountedTrans(d, cs, os, e, cs[newPage := [newPage]], more, pageuse.disk, cs, owner);
        OwnersKnown(d, cs, os, pageuse.disk, cs, owner);
        TakenAndGivenBack(d, e, newPage, pageuse.disk);
        return Some(id);
      }
      ghost var c;
      c, left := MoveDown(pageuse, id, newPage, encode, d, cs, os, left, values, cache);
      chains, owner := (cs[newPage := [newPage]] - {id})[newPage := c], left;
      AccountedTrans(d, cs, os, e, cs[newPage := [newPage]], more, pageuse.disk, chains, owner);
      OwnersKnown(d, cs, os, pageuse.disk, chains, owner);
      values := (values - {id})[newPage := values[id]];
      return Some(newPage);
    }

    /** `truncate_unused`: no value changes, in the cache or on disk, unless the file is blank and loses its counter. */
    method TruncateUnused() returns (ghost kept: nat)
      requires Valid()
      modifies pageuse
      ensures Valid() <==> old(|pageuse.file|) > 0
      ensures Truncated(old(pageuse.disk), pageuse.disk, kept) && |pageuse.file| == pageuse.geo.Offset(kept)
      ensures pageuse.disk.counter == old(pageuse.disk.counter) <==> old(|pageuse.file|) > 0
      ensures old(pageuse.disk.pages != [] && |pageuse.disk.pages| - 1 !in pageuse.disk.freed)
          ==> HeadersInFile(pageuse.disk)
    {
      hide Sound, ValidDisk, Shows, Stored, EntriesOk, HeadersInFile;
      ghost var d := pageuse.disk;
      var cutAt := pageuse.TruncateUnused();
      kept := cutAt;
      CounterKept(d, pageuse.disk, chains, owner, kept);
      TruncateSoundIff(d, pageuse.disk, chains, owner, kept);
      TruncateKeepsChains(d, pageuse.disk, chains, owner, kept);
      EntriesAllKept(encode, d, pageuse.disk, chains, values, cache);
      TruncateHeadersIff(d, pageuse.disk, kept);
    }
  }
}
