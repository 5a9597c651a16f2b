/**
 The page graph: what the allocator's steps do to pages and their links, and why live chains never meet
 each other or the freed pages. Pages appear here as images; the bytes behind them are in `PageUse`.
 */
module PageGraph {
  import opened Bytes
  import opened Layout

  /** An allocator's pages: `pages[id]` for every id below the counter (index 0 is the reserved page). */
  datatype Disk = Disk(size: nat, freed: multiset<nat>, pages: seq<PageImage>, counter: nat)

  /** A freed page: once, below the counter, with a blank header. */
  ghost predicate FreedPage(d: Disk, p: nat) {
    d.freed[p] == 1 && 1 <= p < |d.pages| && d.pages[p].next == 0 && d.pages[p].prev == 0
  }

  /** The persisted counter is the next id to hand out, and freed pages are blank. */
  ghost predicate ValidDisk(d: Disk) {
    && 1 <= |d.pages| < ID_LIMIT && d.counter == |d.pages|
    && forall p :: p in d.freed ==> FreedPage(d, p)
  }

  /** Every page ever handed out has its header inside the file, as it has until the file is truncated. */
  ghost predicate HeadersInFile(d: Disk) {
    forall p :: 1 <= p < |d.pages| ==> d.pages[p].hasHeader
  }

  /** Only the pages in `ids` differ, and none is lost. */
  ghost predicate Only(d: Disk, d': Disk, ids: set<nat>) {
    && d'.size == d.size && |d.pages| <= |d'.pages|
    && forall p :: 1 <= p < |d.pages| && p !in ids ==> Grown(d.size, d.pages[p], d'.pages[p])
  }

  /** Pages that are whole in the file keep their data. */
  ghost predicate DataKept(d: Disk, d': Disk) {
    && |d.pages| <= |d'.pages|
    && forall p :: 1 <= p < |d.pages| && |d.pages[p].data| == d.size ==> d'.pages[p].data == d.pages[p].data
  }

  /** All pages keep their data, also one that the file's end cuts short. */
  ghost predicate AllDataKept(d: Disk, d': Disk) {
    |d.pages| <= |d'.pages| && forall p :: 1 <= p < |d.pages| ==> d'.pages[p].data == d.pages[p].data
  }

  // The allocator's steps ------------------------------------------------------------------------

  /** `alloc_new`: the smallest freed page, left as it is, or a new one past the counter; either way it is blank. */
  ghost predicate Allocated(d: Disk, d': Disk, id: nat) {
    && ValidDisk(d') && Only(d, d', {})
    && (if d.freed == multiset{}
        then id == |d.pages| && |d'.pages| == id + 1 && d'.pages[id].hasHeader && |d'.pages[id].data| == d'.size
        else id in d.freed && d'.pages == d.pages)
    && (forall p :: p in d.freed ==> id <= p)
    && d'.freed == d.freed - multiset{id}
    && 1 <= id < |d'.pages|
    && d'.pages[id].next == 0 && d'.pages[id].prev == 0
    && (HeadersInFile(d) ==> HeadersInFile(d'))
  }

  /** `alloc_new_after`: the same, and the new page is linked behind `oldPage`. */
  ghost predicate AllocatedAfter(d: Disk, d': Disk, oldPage: nat, newPage: nat) {
    && ValidDisk(d') && Only(d, d', {oldPage, newPage}) && DataKept(d, d')
    && 1 <= oldPage < |d.pages| && 1 <= newPage < |d'.pages| && newPage != oldPage
    && (if d.freed == multiset{} then newPage == |d.pages| && |d'.pages| == newPage + 1
        else newPage in d.freed && |d'.pages| == |d.pages|)
    && (forall p :: p in d.freed ==> newPage <= p)
    && d'.freed == d.freed - multiset{newPage}
    && d'.pages[oldPage].next == newPage && d'.pages[oldPage].prev == d.pages[oldPage].prev
    && (d.pages[oldPage].hasHeader ==> d'.pages[oldPage].hasHeader)
    && d'.pages[newPage].next == 0 && d'.pages[newPage].prev == oldPage && d'.pages[newPage].hasHeader
    && (HeadersInFile(d) ==> HeadersInFile(d'))
  }

  /** `free_page`: the page joins the freed ones, blank, and the page before it ends its chain. */
  ghost predicate Freed(d: Disk, d': Disk, free: nat) {
    && 1 <= free < |d.pages| == |d'.pages|
    && var prev := d.pages[free].prev;
    && ValidDisk(d') && Only(d, d', {free, prev}) && DataKept(d, d')
    && d'.freed == d.freed + multiset{free}
    && d'.pages[free].next == 0 && d'.pages[free].prev == 0
    && (prev != 0 ==>
          && prev < |d.pages|
          && d'.pages[prev].next == 0 && d'.pages[prev].prev == d.pages[prev].prev
          && d.pages[prev].data <= d'.pages[prev].data
          && (d.pages[prev].hasHeader ==> d'.pages[prev].hasHeader))
    && (HeadersInFile(d) ==> HeadersInFile(d') && AllDataKept(d, d'))
  }

  /** Writing `bs` at offset `n` of a page's data. */
  ghost predicate DataWritten(d: Disk, d': Disk, id: nat, n: nat, bs: seq<Byte>) {
    && ValidDisk(d') && Only(d, d', {id})
    && 1 <= id < |d.pages| == |d'.pages|
    && d'.freed == d.freed
    && d'.pages[id].next == d.pages[id].next && d'.pages[id].prev == d.pages[id].prev
    && n <= |d.pages[id].data| && d'.pages[id].data == Overwritten(d.pages[id].data, n, bs)
    && |d'.pages[id].data| <= d.size
    && (d.pages[id].hasHeader || bs != [] ==> d'.pages[id].hasHeader)
    && (HeadersInFile(d) ==> HeadersInFile(d'))
  }

  // Chains ---------------------------------------------------------------------------------------

  ghost predicate NoDuplicates(c: seq<nat>) {
    forall i, j :: 0 <= i < j < |c| ==> c[i] != c[j]
  }

  /** The headers of page `i` of a chain say what the chain says, and a page that has a successor is full. */
  ghost predicate LinkedAt(d: Disk, c: seq<nat>, i: nat)
    requires i < |c|
  {
    && 1 <= c[i] < |d.pages|
    && d.pages[c[i]].next == (if i + 1 < |c| then c[i + 1] else 0)
    && d.pages[c[i]].prev == (if i > 0 then c[i - 1] else 0)
    && (i + 1 < |c| ==> |d.pages[c[i]].data| == d.size)
    && (i > 0 ==> d.pages[c[i]].hasHeader)
  }

  type Chains = map<nat, seq<nat>>

  /** `owner` sends every page of a live chain to the chain's first page, so chains cannot share a page. */
  ghost predicate ChainOf(d: Disk, c: seq<nat>, head: nat, owner: map<nat, nat>) {
    && c != [] && c[0] == head && NoDuplicates(c)
    && (forall i :: 0 <= i < |c| ==> LinkedAt(d, c, i))
    && (forall i :: 0 <= i < |c| ==> c[i] in owner && owner[c[i]] == head)
  }

  /** The page graph is sound. */
  ghost predicate Sound(d: Disk, chains: Chains, owner: map<nat, nat>) {
    && ValidDisk(d)
    && (forall h :: h in chains ==> ChainOf(d, chains[h], h, owner))
    && (forall p :: p in owner ==> 1 <= p < |d.pages| && p !in d.freed)
  }

  /** What soundness means page by page: one page is never in two places, and never both live and freed. */
  lemma SoundDisjoint(d: Disk, chains: Chains, owner: map<nat, nat>, g: nat, i: nat, h: nat, j: nat)
    requires Sound(d, chains, owner)
    requires g in chains && h in chains && i < |chains[g]| && j < |chains[h]|
    ensures chains[g][i] == chains[h][j] ==> g == h && i == j
    ensures chains[g][i] !in d.freed && 1 <= chains[g][i] < |d.pages|
  {
    assert ChainOf(d, chains[g], g, owner) && ChainOf(d, chains[h], h, owner);
  }

  // Where every page is --------------------------------------------------------------------------

  /** A page that was handed out, is not freed, and is on no chain. */
  ghost predicate Lost(d: Disk, owner: map<nat, nat>, p: nat) {
    1 <= p < |d.pages| && p !in d.freed && p !in owner
  }

  /** Only pages of chains have owners. */
  ghost predicate Owned(chains: Chains, owner: map<nat, nat>) {
    forall p :: p in owner ==> owner[p] in chains && p in chains[owner[p]]
  }

  /** No page gets lost, and none that was lost comes back. */
  ghost predicate Accounted(d: Disk, chains: Chains, owner: map<nat, nat>,
                            d': Disk, chains': Chains, owner': map<nat, nat>)
  {
    && |d.pages| <= |d'.pages|
    && (forall p :: Lost(d', owner', p) <==> Lost(d, owner, p))
    && (Owned(chains, owner) ==> Owned(chains', owner'))
  }

  lemma AccountedRefl(d: Disk, chains: Chains, owner: map<nat, nat>)
    ensures Accounted(d, chains, owner, d, chains, owner)
  {
  }

  lemma AccountedTrans(d: Disk, cs: Chains, os: map<nat, nat>, e: Disk, cs': Chains, os': map<nat, nat>,
                       f: Disk, cs'': Chains, os'': map<nat, nat>)
    requires Accounted(d, cs, os, e, cs', os') && Accounted(e, cs', os', f, cs'', os'')
    ensures Accounted(d, cs, os, f, cs'', os'')
  {
  }

  /** A page is on a chain just if it has an owner, so a lost page is on none. */
  lemma LostIsOnNone(d: Disk, chains: Chains, owner: map<nat, nat>, p: nat)
    requires Sound(d, chains, owner) && Owned(chains, owner)
    ensures Lost(d, owner, p) <==>
              1 <= p < |d.pages| && p !in d.freed && forall h :: h in chains ==> p !in chains[h]
  {
    forall h | h in chains && p in chains[h] ensures p in owner {
      assert ChainOf(d, chains[h], h, owner);
    }
  }

  lemma LostByTaking(d: Disk, owner: map<nat, nat>, d': Disk, newPage: nat, head: nat, p: nat)
    requires d'.freed == d.freed - multiset{newPage}
    requires if newPage in d.freed then |d'.pages| == |d.pages| else newPage == |d.pages| && |d'.pages| == newPage + 1
    ensures Lost(d', owner[newPage := head], p) <==> Lost(d, owner, p)
  {
  }

  /** Putting an allocated page on a chain of its own. */
  lemma NewChainAccounted(d: Disk, d': Disk, chains: Chains, owner: map<nat, nat>, id: nat)
    requires Allocated(d, d', id) && id !in owner && id !in chains
    ensures Accounted(d, chains, owner, d', chains[id := [id]], owner[id := id])
  {
    forall p ensures Lost(d', owner[id := id], p) <==> Lost(d, owner, p) {
      hide Lost;
      LostByTaking(d, owner, d', id, id, p);
    }
    assert |d.pages| <= |d'.pages|;
    hide Allocated, Lost;
  }

  /** Putting one behind a chain's last page. */
  lemma ExtendedAccounted(d: Disk, d': Disk, chains: Chains, owner: map<nat, nat>, head: nat, oldPage: nat,
                          newPage: nat)
    requires AllocatedAfter(d, d', oldPage, newPage) && newPage !in owner && head in chains
    ensures Accounted(d, chains, owner, d', chains[head := chains[head] + [newPage]], owner[newPage := head])
  {
    forall p ensures Lost(d', owner[newPage := head], p) <==> Lost(d, owner, p) {
      hide Lost;
      LostByTaking(d, owner, d', newPage, head, p);
    }
    assert |d.pages| <= |d'.pages|;
    hide AllocatedAfter, Lost;
  }

  /** Freeing the end of a chain. */
  lemma CutAccounted(d: Disk, d': Disk, chains: Chains, owner: map<nat, nat>, head: nat, m: nat)
    requires head in chains && m < |chains[head]| && |d'.pages| == |d.pages|
    requires d'.freed == d.freed + multiset(chains[head][m..])
    requires forall p :: p in chains[head] ==> p in owner && owner[p] == head
    ensures Accounted(d, chains, owner, d', CutChains(chains, head, chains[head], m), Without(owner, chains[head][m..]))
  {
    var c := chains[head];
    assert c == c[..m] + c[m..];
    forall p ensures Lost(d', Without(owner, c[m..]), p) <==> Lost(d, owner, p) {
      assert p in multiset(c[m..]) <==> p in c[m..];
      assert p in c[m..] ==> p in c;
    }
  }

  /** Changing neither what is freed nor the chains. */
  lemma SameAccounted(d: Disk, d': Disk, chains: Chains, owner: map<nat, nat>)
    requires d'.freed == d.freed && |d'.pages| == |d.pages|
    ensures Accounted(d, chains, owner, d', chains, owner)
  {
  }

  // Frames ---------------------------------------------------------------------------------------

  /** A change that keeps to pages outside a chain keeps the chain. */
  lemma ChainFrame(d: Disk, d': Disk, c: seq<nat>, head: nat, owner: map<nat, nat>, owner': map<nat, nat>,
      ids: set<nat>)
    requires ChainOf(d, c, head, owner)
    requires Only(d, d', ids)
    requires forall i :: 0 <= i < |c| ==> c[i] !in ids
    requires forall i :: 0 <= i < |c| ==> c[i] in owner' && owner'[c[i]] == head
    ensures ChainOf(d', c, head, owner')
  {
    forall i | 0 <= i < |c| ensures LinkedAt(d', c, i) {
      assert LinkedAt(d, c, i);
    }
  }

  /** A step confined to one chain's pages and to pages on no chain. */
  ghost predicate Confined(ids: set<nat>, owner: map<nat, nat>, head: nat) {
    forall p :: p in ids && p in owner ==> owner[p] == head
  }

  ghost predicate OwnersKept(owner: map<nat, nat>, owner': map<nat, nat>, head: nat) {
    forall p :: p in owner && owner[p] != head ==> p in owner' && owner'[p] == owner[p]
  }

  /** A confined step that ends one chain keeps the graph sound without it. */
  lemma SoundAfterRemoval(d: Disk, d': Disk, chains: Chains, owner: map<nat, nat>,
                          head: nat, owner': map<nat, nat>, ids: set<nat>)
    requires Sound(d, chains, owner)
    requires Only(d, d', ids) && Confined(ids, owner, head) && OwnersKept(owner, owner', head)
    requires ValidDisk(d') && forall p :: p in owner' ==> 1 <= p < |d'.pages| && p !in d'.freed
    ensures Sound(d', chains - {head}, owner')
  {
    forall h | h in chains - {head} ensures ChainOf(d', chains[h], h, owner') {
      assert ChainOf(d, chains[h], h, owner);
      ChainFrame(d, d', chains[h], h, owner, owner', ids);
    }
  }

  /** A confined step that leaves a chain behind keeps the graph sound with it. */
  lemma SoundAfterChainStep(d: Disk, d': Disk, chains: Chains, owner: map<nat, nat>,
                            head: nat, c: seq<nat>, owner': map<nat, nat>, ids: set<nat>)
    requires Sound(d, chains, owner)
    requires Only(d, d', ids) && Confined(ids, owner, head) && OwnersKept(owner, owner', head)
    requires ValidDisk(d') && forall p :: p in owner' ==> 1 <= p < |d'.pages| && p !in d'.freed
    requires ChainOf(d', c, head, owner')
    ensures Sound(d', chains[head := c], owner')
  {
    SoundAfterRemoval(d, d', chains, owner, head, owner', ids);
    var chains' := chains[head := c];
    forall h | h in chains' ensures ChainOf(d', chains'[h], h, owner') {
      if h != head { assert h in chains - {head}; }
    }
  }

  // What the steps do to the graph ---------------------------------------------------------------

  /** A fresh page starts a chain of its own. */
  lemma NewChainSound(d: Disk, d': Disk, chains: Chains, owner: map<nat, nat>, id: nat)
    requires Sound(d, chains, owner) && Allocated(d, d', id)
    ensures id !in owner && id !in chains
    ensures Sound(d', chains[id := [id]], owner[id := id])
  {
    forall h | h in chains ensures h in owner {
      assert ChainOf(d, chains[h], h, owner);
    }
    var owner' := owner[id := id];
    assert LinkedAt(d', [id], 0);
    SoundAfterChainStep(d, d', chains, owner, id, [id], owner', {});
  }

  lemma ExtendedLinks(d: Disk, d': Disk, c: seq<nat>, head: nat, owner: map<nat, nat>, newPage: nat, i: nat)
    requires ChainOf(d, c, head, owner) && newPage !in owner && i <= |c|
    requires AllocatedAfter(d, d', c[|c| - 1], newPage) && |d.pages[c[|c| - 1]].data| == d.size
    ensures LinkedAt(d', c + [newPage], i)
  {
    hide HeadersInFile, ValidDisk;
    if i < |c| { assert LinkedAt(d, c, i); }
  }

  /** A fresh page behind a chain's last page, which is full, extends the chain. */
  lemma ExtendChainSound(d: Disk, d': Disk, chains: Chains, owner: map<nat, nat>, head: nat, newPage: nat)
    requires Sound(d, chains, owner) && head in chains && chains[head] != []
    requires AllocatedAfter(d, d', chains[head][|chains[head]| - 1], newPage)
    requires |d.pages[chains[head][|chains[head]| - 1]].data| == d.size
    ensures newPage !in owner
    ensures Sound(d', chains[head := chains[head] + [newPage]], owner[newPage := head])
  {
    var c := chains[head];
    var last := c[|c| - 1];
    var c', owner' := c + [newPage], owner[newPage := head];
    assert ChainOf(d, c, head, owner);
    forall i | 0 <= i < |c'| ensures LinkedAt(d', c', i) {
      ExtendedLinks(d, d', c, head, owner, newPage, i);
    }
    hide LinkedAt, HeadersInFile, DataKept;
    SoundAfterChainStep(d, d', chains, owner, head, c', owner', {last, newPage});
  }

  /** Writing data inside one page of a chain. */
  lemma DataStepSound(d: Disk, d': Disk, chains: Chains, owner: map<nat, nat>, head: nat, k: nat, n: nat, bs: seq<Byte>)
    requires Sound(d, chains, owner) && head in chains && k < |chains[head]|
    requires DataWritten(d, d', chains[head][k], n, bs)
    ensures Sound(d', chains, owner)
  {
    var c, p := chains[head], chains[head][k];
    assert ChainOf(d, c, head, owner);
    forall i | 0 <= i < |c| ensures LinkedAt(d', c, i) {
      assert LinkedAt(d, c, i);
    }
    SoundAfterChainStep(d, d', chains, owner, head, c, owner, {p});
    assert chains[head := c] == chains;
  }

  // Freeing the end of a chain -------------------------------------------------------------------

  /** The pages from `k` on still link back along the chain they were cut from. */
  ghost predicate TailLinked(d: Disk, c: seq<nat>, k: nat) {
    forall j :: k <= j < |c| ==>
                  && 1 <= c[j] < |d.pages| && d.pages[c[j]].hasHeader
                  && d.pages[c[j]].prev == if j > 0 then c[j - 1] else 0
  }

  ghost function CutChains(chains: Chains, head: nat, c: seq<nat>, m: nat): Chains
    requires m <= |c|
  {
    if m == 0 then chains - {head} else chains[head := c[..m]]
  }

  ghost function Without(owner: map<nat, nat>, ps: seq<nat>): map<nat, nat> {
    map p | p in owner && p !in ps :: owner[p]
  }

  /** Halfway through freeing `c[m..]`: pages up to `k` are freed, the later ones are on no chain. */
  ghost predicate Freeing(d: Disk, chains: Chains, owner: map<nat, nat>, head: nat, c: seq<nat>, m: nat, k: nat) {
    && m <= k <= |c| && NoDuplicates(c)
    && TailLinked(d, c, k)
    && (forall j :: 0 <= j < |c| ==> c[j] in owner && owner[c[j]] == head && 1 <= c[j] < |d.pages|)
    && (if k == m then head in chains && chains[head] == c && Sound(d, chains, owner)
        else Sound(d, CutChains(chains, head, c, m), Without(owner, c[m..k])))
  }

  /** A chain whose pages from `m` on can be read is ready to be cut there. */
  lemma StartFreeing(d: Disk, chains: Chains, owner: map<nat, nat>, head: nat, m: nat)
    requires Sound(d, chains, owner) && head in chains && m <= |chains[head]|
    requires m == 0 ==> d.pages[head].hasHeader
    ensures Freeing(d, chains, owner, head, chains[head], m, m)
  {
    var c := chains[head];
    assert ChainOf(d, c, head, owner);
    assert forall j :: 0 <= j < |c| ==> LinkedAt(d, c, j);
    forall j | m <= j < |c|
      ensures 1 <= c[j] < |d.pages| && d.pages[c[j]].hasHeader && d.pages[c[j]].prev == if j > 0 then c[j - 1] else 0
    {
      assert LinkedAt(d, c, j);
    }
    assert TailLinked(d, c, m);
    assert NoDuplicates(c);
    assert (forall j :: 0 <= j < |c| ==> c[j] in owner && owner[c[j]] == head && 1 <= c[j] < |d.pages|);
  }

  lemma FirstFreeStep(d: Disk, d': Disk, chains: Chains, owner: map<nat, nat>, head: nat, c: seq<nat>, m: nat)
    requires Freeing(d, chains, owner, head, c, m, m) && m < |c|
    requires Freed(d, d', c[m])
    ensures Sound(d', CutChains(chains, head, c, m), Without(owner, c[m..m + 1]))
  {
    var free, prev := c[m], d.pages[c[m]].prev;
    var owner' := Without(owner, c[m..m + 1]);
    assert c[m..m + 1] == [free];
    assert ChainOf(d, c, head, owner);
    if m == 0 {
      SoundAfterRemoval(d, d', chains, owner, head, owner', {free, prev});
    } else {
      var c' := c[..m];
      assert prev == c[m - 1];
      forall i | 0 <= i < m ensures LinkedAt(d', c', i) {
        assert LinkedAt(d, c, i);
      }
      SoundAfterChainStep(d, d', chains, owner, head, c', owner', {free, prev});
    }
  }

  lemma NextFreeStep(d: Disk, d': Disk, chains: Chains, owner: map<nat, nat>, head: nat, c: seq<nat>, m: nat, k: nat)
    requires Freeing(d, chains, owner, head, c, m, k) && m < k < |c|
    requires Freed(d, d', c[k])
    ensures Sound(d', CutChains(chains, head, c, m), Without(owner, c[m..k + 1]))
  {
    var free, prev := c[k], c[k - 1];
    var cut := CutChains(chains, head, c, m);
    var before, after := Without(owner, c[m..k]), Without(owner, c[m..k + 1]);
    assert c[m..k + 1] == c[m..k] + [free];
    assert prev in c[m..k] by { assert c[m..k][k - 1 - m] == prev; }
    forall p | p in after ensures p in before && after[p] == before[p] && p != free {
      assert p in owner && p !in c[m..k];
    }
    forall h | h in cut ensures ChainOf(d', cut[h], h, after) {
      var ch := cut[h];
      assert ChainOf(d, ch, h, before);
      forall i | 0 <= i < |ch| ensures ch[i] != free && ch[i] != prev {
        if h == head { assert ch == c[..m] && ch[i] == c[i]; } else { assert before[ch[i]] == h; }
      }
      ChainFrame(d, d', ch, h, before, after, {free, prev});
    }
  }

  /** One page more of the tail is freed. */
  lemma FreeStep(d: Disk, d': Disk, chains: Chains, owner: map<nat, nat>, head: nat, c: seq<nat>, m: nat, k: nat)
    requires Freeing(d, chains, owner, head, c, m, k) && k < |c|
    requires Freed(d, d', c[k])
    ensures Freeing(d', chains, owner, head, c, m, k + 1)
  {
    var prev := d.pages[c[k]].prev;
    assert prev == if k > 0 then c[k - 1] else 0;
    if k == m {
      FirstFreeStep(d, d', chains, owner, head, c, m);
    } else {
      NextFreeStep(d, d', chains, owner, head, c, m, k);
    }
    forall j | k + 1 <= j < |c|
      ensures && 1 <= c[j] < |d'.pages| && d'.pages[c[j]].hasHeader
              && d'.pages[c[j]].prev == if j > 0 then c[j - 1] else 0
    {
      assert c[j] !in {c[k], prev};
    }
  }

  // Truncating and reopening ---------------------------------------------------------------------

  /** The last page a truncation keeps: everything handed out above it is freed, and it is not. */
  ghost predicate LastKept(lowest: nat, freed: multiset<nat>, kept: nat) {
    && 1 <= kept <= lowest
    && (forall p :: kept <= p < lowest ==> p in freed)
    && kept - 1 !in freed
  }

  /** `truncate_unused`: pages below `kept` keep all they had, pages above lose their data and read as blank. */
  ghost predicate Truncated(d: Disk, d': Disk, kept: nat) {
    && LastKept(|d.pages|, d.freed, kept)
    && d'.size == d.size && d'.freed == d.freed && |d'.pages| == |d.pages|
    && (forall p :: 1 <= p < kept ==> Grown(d.size, d.pages[p], d'.pages[p]) && d'.pages[p].hasHeader)
    && (forall p :: kept <= p < |d.pages| ==>
          d'.pages[p].next == 0 && d'.pages[p].prev == 0 && !d'.pages[p].hasHeader && d'.pages[p].data == [])
  }

  /** Truncation never cuts a live page. */
  lemma TruncateKeepsLive(d: Disk, d': Disk, chains: Chains, owner: map<nat, nat>, kept: nat, p: nat)
    requires Sound(d, chains, owner) && Truncated(d, d', kept) && p in owner
    ensures p < kept && Grown(d.size, d.pages[p], d'.pages[p])
  {
  }

  /** Truncation keeps the page graph sound exactly when it keeps the persisted counter. */
  lemma TruncateSoundIff(d: Disk, d': Disk, chains: Chains, owner: map<nat, nat>, kept: nat)
    requires Sound(d, chains, owner) && Truncated(d, d', kept)
    ensures Sound(d', chains, owner) <==> d'.counter == d.counter
  {
    if d'.counter == d.counter {
      forall p | p in d'.freed ensures FreedPage(d', p) {
        assert FreedPage(d, p);
      }
      forall h | h in chains ensures ChainOf(d', chains[h], h, owner) {
        var c := chains[h];
        assert ChainOf(d, c, h, owner);
        forall i | 0 <= i < |c| ensures LinkedAt(d', c, i) {
          assert LinkedAt(d, c, i);
          TruncateKeepsLive(d, d', chains, owner, kept, c[i]);
        }
      }
    }
  }

  /**
   Freeing a page reads its header, which fails past the end of the file. After a truncation every header can
   still be read exactly when there was nothing to cut, because the heap keeps the pages that were cut.
   */
  lemma TruncateHeadersIff(d: Disk, d': Disk, kept: nat)
    requires 1 <= |d.pages| && Truncated(d, d', kept)
    ensures HeadersInFile(d') <==> |d.pages| - 1 !in d.freed
  {
    if kept < |d.pages| {
      assert !d'.pages[|d.pages| - 1].hasHeader;
    }
  }

  /**
   After a truncation the header of the next page handed out can be read just if the page was not cut or is a new one.
   A page that was cut comes back without a header, and freeing it before the file reaches over it again fails.
   */
  lemma ComesBackIff(d: Disk, cut: Disk, kept: nat, d': Disk, id: nat)
    requires Truncated(d, cut, kept) && Allocated(cut, d', id)
    ensures d'.pages[id].hasHeader <==> id < kept || id == |d.pages|
  {
    if cut.freed != multiset{} { assert d'.pages[id] == cut.pages[id]; }
  }

  /** Another allocator over the same file, which has forgotten the freed pages and nothing else. */
  ghost predicate Reopened(d: Disk, d': Disk) {
    && d'.size == d.size && d'.counter == d.counter && d'.freed == multiset{}
    && |d'.pages| == |d.pages| && forall p :: 1 <= p < |d.pages| ==> d'.pages[p] == d.pages[p]
  }

  /** Opening the file again keeps the graph sound, so no live page is handed out twice. */
  lemma ReopenSound(d: Disk, d': Disk, chains: Chains, owner: map<nat, nat>)
    requires Sound(d, chains, owner) && Reopened(d, d')
    ensures Sound(d', chains, owner)
  {
    forall h | h in chains ensures ChainOf(d', chains[h], h, owner) {
      assert ChainOf(d, chains[h], h, owner);
      ChainFrame(d, d', chains[h], h, owner, owner, {});
    }
  }
}
