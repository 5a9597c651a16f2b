# Verified models of the on-disk spatial store

The store keeps map data in k-d trees whose nodes live on pages of one file. This project models its four layers in
Dafny and proves what each promises to the one above it. `dafny verify dfyconfig.toml` checks all of it.

## Paged storage

- The page file is a byte sequence, and page headers are the links in it (`Layout`). `PageUse`, `PageWriter`,
  `PageReader`, `Page` and `PagedStorage` are classes that change it byte for byte as the source does.
- `PageGraph` states what the allocator's steps mean for pages and links. `Sound` says that live chains are linked
  both ways and disjoint from each other and from the freed pages, that freed pages are blank, distinct and below the
  counter, and that the counter in the file is the one in memory.
- `PagedStorage.Valid` says that the whole stack is a plain map from page ids to values (`values`): every clean cached
  value equals what its chain decodes to, and every uncached one is on disk. Every method keeps it, so it holds in
  every run of opening, new pages, reads, writes, releases, evictions, flushes, forced frees, condensing, truncating
  and reopening. A storage knows how to write values; how to read one comes with each `Get`, as in the source: a
  decoder that inverts the encoder on that value, whatever follows, and finds a mere start of its encoding too short
  (`Decodes`).
- `Accounted` is the law that no page gets lost: at all times each page that was handed out is free, on exactly one
  chain, or was lost before. Every operation keeps it but reopening a file, which forgets the freed pages
  (`Forgotten`).
- `CacheProtocol` is the cache under concurrency: `Enabled` and `Apply` are the steps of `get_or_insert`, `evict` and
  `evict_all_possible`, and of `get`, `new_page` and `force_free` above them, between two points where another thread
  may come in, with the readers-writer lock, the lock of the page file, the once-cells, the reference counts, the byte
  counter and the freed ids. `Reachable` ranges over all interleavings of any number of threads.

## BTreeVec

Nested range lists with both search strategies, pushed into and iterated as in the source, against a sorted sequence
of entries (`Multimap`). `Flat` is the sequence a node stands for. Keys are ordered by `rank` alone:
`DeltaBoundingBox32` compares by corner only, so boxes with one corner share an entry, which keeps the extent pushed
first.

## Trees

- The dense tree (`DenseTrees.StoredTree`) and the sparse one over one-dimensional keys (`SparseTrees.BinaryTree`) are
  classes with nodes by id and pages in a map. Nodes refer to pages by id, and `Mirrors` ties a page and the count of
  its node to what the node stands for. `NodePages` shows that `PagedStorage` is such a map for a dense tree: its
  three ways to reach a page do there what they do to the map, and evictions, flushes and truncations between them
  change nothing.
- `view` is what a tree stands for. `TreeOk` is the invariant of every run: boxes are the even halves of their parents
  on alternating axes, every key lies in its node's box, and no key at a split node fits one of its halves.
- `log` is the run itself, the pairs inserted so far. Queries are specified by it, as multisets: a dense query returns
  exactly the logged pairs it asks for. That is stated where equal corners mean equal boxes (`Lawful`), as for all
  points; without that assumption it is stated by corner (`Logged`, the clauses of `Get` about its home and about
  corners, and the queries' clauses about what the tree shows).
- Which dense nodes are split does not depend on the order: a node is split just if it and the nodes below it hold
  more than one pair too many for a node (`Filled`, part of `StoredTree.Valid`), so where equal corners mean equal
  boxes the shape of the tree, and what a search down to any depth finds, depend only on which pairs were inserted
  (`DenseCapacities.SplitIff`, `DenseCapacities.OrderIsFree`).
- A sparse lookup depends on the order of the inserts, not only on the pairs. `SparseHistory` works out from that
  order what every node holds (`Tells`), and so which keys are found (`Findable`); `BinaryTree.Valid` keeps it over
  every run.

## Codecs

Morton codes by table lookup, varints, box offsets, the offset-coded children of a node, the node structure, and
five-bit strings. The loops are methods proved equal to functions, and the round trips are lemmas about the functions.
They compose: `InnerRoundTrip` uses the sortedness of `BTreeVec`, the offsets of boxes and the varints, and
`NodePageDecodes` joins it to the trees and to the storage.

## Where the code does less than it says

Each has a lemma with an input or with the exact condition.

- Truncating a blank file writes a page of zeros, so the counter it then persists is 0 and the reserved page would be
  handed out next (`PageUses.TruncateBlankLosesCounter`). Truncation keeps the page graph sound if and only if it
  keeps the counter (`PageGraph.TruncateSoundIff`), which it does if and only if the file is not blank
  (`PageUses.PageUse.TruncateUnused`).
- `truncate_unused` leaves the pages it cuts in the heap. Handing one out again does not restore its header: the page
  has one if and only if it lies below the cut or is a new page at the end (`PageGraph.ComesBackIff`). Freeing a page
  without one reads past the end of the file and panics, and a short run leads there (`PageUses.FreeAfterTruncation`).
  All headers can be read after truncation if and only if the last page handed out is not freed
  (`PageGraph.TruncateHeadersIff`). `FreePage` succeeds if and only if the header can be read.
- Opening a file again forgets which pages were free, and they are lost: the pages that no chain has and that are not
  handed out again are then exactly those that were so before and those that were free (`PagedStorages.Forgotten`,
  `PagedStorages.PagedStorage.Reopen`). Nothing else loses a page.
- A dense insert never ends if the box is at most 1 long both ways and more stored boxes of that kind than the
  saturation share its end corner; it ends in all other cases (`DenseDescent.EndsIff`). Inserting such a box
  saturation + 2 times is a run that never ends (`DenseLogs.CopiesNeverEnd`), and where equal corners mean equal boxes
  the condition is one on the inserts so far (`DenseLogs.NeverEndsLogged`).
- A dense split marks an emptied page with `allow_free`, which only frees a page that serializes to nothing, but an
  empty node writes its length, so the page stays (`NodePages.NodePageStays`).
- The sparse `get_owned` can miss an inserted key (`SparseDescent.LimitLosesKey`). Halving ends at a range at most 1
  long, the key's cell. Once a cell overflows, its right leaf never changes again and every later key of the cell goes
  left, where a full leaf is cut down to its first quarter, while a search for a key past the middle goes right. So an
  inserted key of the root's range is found if and only if its cell never overflowed, or the key is past the middle
  and came before the cell was split, or it is not past the middle and nodes hold at least four, or, where they hold
  fewer and the quarter is empty, it came since the left leaf was last full (`SparseHistory.InsertedFindable`).
- The sparse `insert` also accepts keys outside the root's range. If the root can be halved, they stay there and are
  found only until it is split (`Findable`). If it cannot, those that came before it was split are shared out with the
  rest, and the condition then counts the smaller keys before the one searched for (`FoundPastLimit`).
- A string of length 1 cannot be read back from five-bit packing (`FiveBits.RoundTripIff`).
- The byte counter of the cache is an over-count: every thread that waits for the same cell adds its size, and only
  one of them is taken off again. It is what is cached and what was ever added again (`CacheProtocol.CountIs`), and
  can be twice what is cached (`CacheProtocol.CountExceeds`). It never underflows.
- `IntoIter` of `BTreeVec` yields a key's values newest first, so what a split moves changes order within a key
  (`BTreeVecApi.IntoIter.Next`).
- `condense` does not always keep the full byte stream. It does if and only if the old chain's last page was whole in
  the file, or had nothing in it and another page before it (`SameStream`, part of what `Condense` promises).
  Otherwise the stream goes on with whatever the new chain's last page held before, and a run leads there
  (`CondenseRuns.CondenseGoesOn`). A value read from it is the same, since its decoder stops before.

## Model

| member | source | states |
|---|---|---|
| `PagedStorages.PagedStorage.Open` | storage/src/paged_storage.rs:404-431 | a blank file opens as the empty map |
| `PagedStorages.PagedStorage.Reopen` | storage/src/paged_storage.rs:404-431 | opening the file again gives the same map, but for values still unsaved in the cache, with no live page free to be handed out; the pages lost are those that were lost or free before, no others |
| `PagedStorages.PagedStorage.NewPage` | storage/src/paged_storage.rs:287-315 | the smallest freed page or the next new one, which stood for nothing, now stands for the value: it has a dirty page of its own in the cache, held by nobody; every other id, entry and chain is as it was, and no page is lost |
| `PagedStorages.PagedStorage.Get` | storage/src/paged_storage.rs:317-331 | `None` exactly past the allocation counter; otherwise one more handle to the page of the id, whose value is the last one written to it, whether it was cached or had to be read from its chain with the decoder that came with the call; every other entry is the same object with as many handles; the map does not change |
| `PagedStorages.PagedStorage.Update` | storage/src/paged_storage.rs:591-602 | writing through a handle changes the map at its id and nowhere else; through one that was marked to be freed it changes nothing |
| `PagedStorages.PagedStorage.Release` | storage/src/paged_storage.rs:326-331 | dropping a handle keeps the storage valid and changes no value |
| `PagedStorages.PagedStorage.EvictOne` | storage/src/paged_storage.rs:727-739 | a page no client holds leaves the cache through `flush`: the map is unchanged; a page that was given up has its whole chain freed, a clean one touches nothing, and of any other the file now has the value; other chains stay, and no page is lost |
| `PagedStorages.PagedStorage.Evict` | storage/src/cache/mod.rs:100-142 | `count` unheld pages leave the cache, whichever they are, or as many as can; the map, the held pages and the other chains stay, pages given up are freed, and no page is lost |
| `PagedStorages.PagedStorage.FlushAll` | storage/src/cache/mod.rs:144-167 | every page left in the cache is held by a client, and every other value is saved, unless ids could run out for the flush of some unheld page; pages given up are freed, and no page is lost |
| `PagedStorages.PagedStorage.ForceFree` | storage/src/paged_storage.rs:616-619 | the id leaves the map; every other value stays |
| `PagedStorages.PagedStorage.Condense` | storage/src/paged_storage.rs:337-384 | `None` exactly for a cached id, changing nothing; otherwise the smallest freed page if that is lower, and else the id itself, with the page that was taken given back; if lower, `CondensedTo`: the value moved, the byte stream is the old one and then whatever its last page held before past it, so it is the same if and only if the old chain ended where a page does; no page is added or lost, the old ones are freed or reused, every other value and chain is untouched |
| `PagedStorages.PagedStorage.TruncateUnused` | storage/src/paged_storage.rs:333-335 | the file ends where the run of freed pages at its end began; the storage stays valid, with every value as it was, cached or on disk, if and only if the file was not blank |
| `PagedStorages.MoveChain` | storage/src/paged_storage.rs:354-379 | reading a chain to its end, freeing it and writing the bytes from a new first page: every stored value still decodes, the new chain is no longer than the old, and each old page is freed or in the new chain |
| `PagedStorages.MoveDown` | storage/src/paged_storage.rs:349-384 | moving an uncached id to a lower page just taken: the new id has its value, every other value and chain is untouched, no page is added |
| `PagedStorages.TakenAndGivenBack` | storage/src/paged_storage.rs:341-348 | taking a page and giving it back leaves the same pages free, or one new one if none was |
| `PagedStorages.LeftStep` | storage/src/cache/mod.rs:123-129 | an eviction more leaves the chains of what stays in the cache, and none of what was given up |
| `PagedStorages.Forgotten` | storage/src/paged_storage.rs:404-431 | what is lost by opening a file again is what was free |
| `PagedStorages.EntriesKept` | storage/src/paged_storage.rs:278-398 | a step confined to one chain keeps, for every other id, that a clean cached value equals what its chain decodes to and that an uncached value is on disk |
| `PagedStorages.Moved` | storage/src/paged_storage.rs:363-379 | whatever value the old chain stored, the moved chain stores, on no more pages |
| `PagedStorages.MovedStream` | storage/src/paged_storage.rs:354-379 | the exact bytes of the moved chain, and when they are the old ones: if the old last page was whole in the file, or had nothing in it and another before it |
| `PagedStorages.LowPages` | storage/src/paged_storage.rs:189-215 | a chain rewritten on no more pages than were freed never takes the last page, as the smallest come first, so all its pages are whole in the file |
| `CondenseRuns.CondenseGoesOn` | storage/src/paged_storage.rs:337-384 | a run on a new file in which condensing changes what a page reads as: one byte before, and a whole page after, which goes on with what the page held before |
| `Condensing.SameCuts` | storage/src/paged_storage.rs:363-379 | pages of one size cut a byte stream in only one way |
| `Condensing.StreamPages` | storage/src/paged_storage.rs:363-379 | rewriting a chain's stream takes exactly the pages the chain fills, so moving never needs more |
| `Condensing.ReadToEnd` | storage/src/paged_storage.rs:354-363 | reading to the end yields all bytes of the chain and its page ids in order |
| `Condensing.WriteOut` | storage/src/paged_storage.rs:369-379 | writing over a one-page chain leaves a sound graph, the bytes written, and no page more than they need |
| `Pages.Page.Open` | storage/src/paged_storage.rs:631-659 | for any codec whose decoder has too few bytes exactly short of an encoding: decoding through the reader gives back the value that was stored, and the ids of exactly the pages of its chain |
| `Pages.Page.WriteCuts` | storage/src/paged_storage.rs:681-690 | serializing in cuts of any length writes exactly the bytes of the value; an empty encoding touches nothing |
| `Pages.Page.FreeUnused` | storage/src/paged_storage.rs:703-720 | what the writer did not use is freed; what is kept stores the bytes on at most one page more than they need; the chain vanishes exactly if freeing its first page is allowed and nothing was written |
| `Pages.Page.FlushItem` | storage/src/paged_storage.rs:665-724 | after a flush the chain starts at the same page and holds the encoding of the value; no other chain has changed; the graph is sound |
| `Pages.Page.Flush` | storage/src/paged_storage.rs:665-724 | the outcomes by dirtiness and free flags, and the pages that are freed, each leaving a sound graph, no page lost and every other chain as it was |
| `Pages.FreeTail` | storage/src/paged_storage.rs:718-720 | freeing the end of a chain front to back keeps the kept pages, every other chain and soundness, though each free cuts the link of a page already freed |
| `Pages.KeptPages` | storage/src/paged_storage.rs:703-716 | for every state a writer can end in, the pages kept are at most one more than the full ones, and none only when nothing was written and the first page may go |
| `Pages.DecodedYet` | storage/src/paged_storage.rs:638-648 | a lawful decoder fed a growing prefix of the stream succeeds exactly when it has the whole encoding |
| `PageReaders.PageReader.Read` | storage/src/paged_storage.rs:877-907 | each read returns the next bytes of the chain, as many as are asked for or the page has left, and moves on exactly when the page is used up and has a successor |
| `PageReaders.PageReader.TurnPage` | storage/src/paged_storage.rs:892-903 | a used-up page is left for its successor, which the link in the file names, exactly if it has one |
| `PageWriters.PageWriter.EnterPage` | storage/src/paged_storage.rs:797-822 | the writer stands on the next page of its chain, old or newly added, where the next byte belongs, in every one of its four states |
| `PageWriters.PageWriter.Write` | storage/src/paged_storage.rs:795-854 | writes as much of the buffer as fits in the page: what has been written grows by just that prefix, other chains keep every byte, and no page is lost |
| `PageWriters.PageWriter.WriteAll` | storage/src/paged_storage.rs:795-854 | repeated writes put the whole buffer behind what was written before |
| `PageWriters.HeldStream` | storage/src/paged_storage.rs:788-859 | what was written is where the chain's stream starts |
| `PageWriters.WriteStep` | storage/src/paged_storage.rs:828-851 | writing data where the writer stands keeps the graph sound and other chains' bytes |
| `PageWriters.ExtendStep` | storage/src/paged_storage.rs:813-821 | adding a page keeps the graph sound, and the new page was on no chain |
| `PageWriters.TakenStep` | storage/src/paged_storage.rs:813-821 | the pages a writer adds are the smallest freed ones, in order, and new ones once those are used up |
| `PageWriters.TakenBelow` | storage/src/paged_storage.rs:189-215 | fewer pages than are free come from among those, short of the largest |
| `PageWriters.LeftByWrite` | storage/src/paged_storage.rs:824-851 | writing leaves what it does not reach: a page keeps its bytes past what was written, and pages not written yet keep all |
| `PageUses.PageUse.Open` | storage/src/paged_storage.rs:404-424 | the counter is what the file says, or 1 if it is blank; freed pages are forgotten |
| `PageUses.PageUse.AllocNew` | storage/src/paged_storage.rs:189-215 | the page handed out is the smallest freed one, left as it is, or else the next new one, whole in the file, and blank either way; the persisted counter is the one in memory |
| `PageUses.PageUse.AllocNewAfter` | storage/src/paged_storage.rs:232-246 | the new page and the old one link to each other and no other page changes |
| `PageUses.PageUse.LinkPages` | storage/src/paged_storage.rs:237-243 | after both header writes the pages link to each other, and the file shows every other page as it was |
| `PageUses.PageUse.FreePage` | storage/src/paged_storage.rs:248-271 | succeeds if and only if the header of the page can be read; then the page is freed and blank, the page before it ends its chain, nothing else changes; otherwise nothing changes at all |
| `PageUses.PageUse.TruncateUnused` | storage/src/paged_storage.rs:217-230 | the file ends at the cut, and pages below it keep all they had; the persisted counter survives exactly if the file was not blank |
| `PageUses.PageUse.MaxTruncatable` | storage/src/paged_storage.rs:218-227 | everything handed out from the cut on is freed, and the page below the cut is not |
| `PageUses.PageUse.WholeBelow` | storage/src/paged_storage.rs:142-169 | if every header can be read, only the last page can be cut short by the end of the file |
| `PageUses.TruncateBlankLosesCounter` | storage/src/paged_storage.rs:217-230 | truncating a blank file leaves a file whose counter reads 0, the reserved page, where a blank one reads 1 |
| `PageUses.FreeAfterTruncation` | storage/src/paged_storage.rs:189-271 | a run on a new file in which freeing fails: page 2 is handed out, freed, cut off and handed out again, and then its header cannot be read |
| `PageGraph.SoundDisjoint` | storage/src/paged_storage.rs:181-186 | in a sound state no page is in two places of any chains, and no chain page is freed or out of range |
| `PageGraph.LostIsOnNone` | storage/src/paged_storage.rs:181-186 | in a sound state where only pages of chains have owners, a lost page is one handed out, not freed and on no chain |
| `PageGraph.NewChainAccounted` | storage/src/paged_storage.rs:189-215 | an allocation that starts a chain loses no page |
| `PageGraph.ExtendedAccounted` | storage/src/paged_storage.rs:232-246 | nor does one that extends a chain |
| `PageGraph.CutAccounted` | storage/src/paged_storage.rs:248-271 | nor does freeing the end of a chain: those pages are free and have no owner any more |
| `PageGraph.NewChainSound` | storage/src/paged_storage.rs:189-215 | an allocation keeps the graph sound with the page as a chain of its own |
| `PageGraph.ExtendChainSound` | storage/src/paged_storage.rs:232-246 | linking a page behind a full last page keeps the graph sound with the longer chain |
| `PageGraph.DataStepSound` | storage/src/paged_storage.rs:824-831 | writing data inside a chain's page keeps the graph sound |
| `PageGraph.FreeStep` | storage/src/paged_storage.rs:248-271 | freeing one page more of a cut tail keeps the graph sound without it |
| `PageGraph.TruncateKeepsLive` | storage/src/paged_storage.rs:217-230 | truncation never cuts a live page |
| `PageGraph.TruncateSoundIff` | storage/src/paged_storage.rs:217-230 | truncation keeps the graph sound if and only if it keeps the persisted counter |
| `PageGraph.TruncateHeadersIff` | storage/src/paged_storage.rs:217-230 | after truncation every page header can be read if and only if the last page handed out is not freed |
| `PageGraph.ComesBackIff` | storage/src/paged_storage.rs:189-230 | the page handed out after a truncation has a readable header if and only if it lies below the cut or was never handed out before |
| `PageGraph.ReopenSound` | storage/src/paged_storage.rs:404-431 | opening the file again keeps the graph sound, so no live page is handed out twice |
| `Layout.Geometry_.WriteInPage` | storage/src/paged_storage.rs:142-169 | a write inside one page leaves every other page and the counter alone |
| `Layout.Geometry_.LinkPages` | storage/src/paged_storage.rs:237-243 | the two header writes link the pages both ways and touch nothing else |
| `CacheProtocol.Keeps` | storage/src/cache/mod.rs:46-167 | every step any thread can take keeps the protocol invariant: the steps of lookups, evictions, flushes, new pages and reused ones, and of clients with their handles |
| `CacheProtocol.RunKeeps` | storage/src/cache/mod.rs:46-167 | so does every interleaving of steps |
| `CacheProtocol.ReachableInv` | storage/src/cache/mod.rs:30-36 | every state reachable from a new cache has the invariant |
| `CacheProtocol.AtMostOneObject` | storage/src/cache/mod.rs:64-76 | over every interleaving, at most one live object per key, whether cached, held or on its way to disk |
| `CacheProtocol.HandlesSeeLastWrite` | storage/src/cache/mod.rs:50-78 | over every interleaving, every handle in use shows the last value written for its key, in the object the cache has |
| `CacheProtocol.NothingLost` | storage/src/cache/mod.rs:100-142 | over every interleaving, a key without a live object has its last written value on disk, unless its value is still on its way into the cache as a new page, or it was given up and its pages are free |
| `CacheProtocol.EvictsOnlyUnheld` | storage/src/cache/mod.rs:107-128 | what an eviction removes, and later drops, no client and no call holds |
| `CacheProtocol.EvictsEnough` | storage/src/cache/mod.rs:100-142 | an eviction that ends has brought the counter below half of the limit, or has removed everything that nobody held when it began; a flush always the latter |
| `CacheProtocol.FullCacheEvicts` | storage/src/cache/mod.rs:84-98 | a call that finds the cache over its limit does not return before an eviction, and only such a call runs one |
| `CacheProtocol.NoUnderflow` | storage/src/cache/mod.rs:123-129 | no subtraction from the byte counter, or from an eviction's reading of it, goes below zero |
| `CacheProtocol.CountIs` | storage/src/cache/mod.rs:82-87 | when an eviction runs, the counter is the size of all that is cached and all that was ever added again by threads that found a cell filled and counted |
| `CacheProtocol.CountExceeds` | storage/src/cache/mod.rs:46-98 | a reachable state in which the counter is twice the size of all that is cached, half of it added again: two threads missed one key at once |
| `CacheProtocol.NewPageInserts` | storage/src/paged_storage.rs:287-315 | over every interleaving, the lookup that enters a new page never finds the page there, also where its id was freed and is handed out again: no other thread looks it up, and its own closure fills the cell |
| `CacheProtocol.FreedIsGone` | storage/src/paged_storage.rs:294-298 | over every interleaving, an id is free to be handed out again only once it is out of the cache, and nobody has its object or looks it up |
| `CacheProtocol.KeyComesBack` | storage/src/paged_storage.rs:287-315 | a run in which an id that was given up, dropped and freed is handed out again, for another value |
| `CacheProtocol.NoDeadlock` | storage/src/cache/mod.rs:46-167 | while any thread is inside a call, some thread inside a call can take a step, with both the lock of the map and the lock of the page file taken and waited for |
| `NonEmptyVec.Iter.Next` | btree_vec/src/nonempty_vec.rs:50-61 | yields the items in order, and nothing exactly when none is left |
| `NonEmptyVec.IntoIter.Next` | btree_vec/src/nonempty_vec.rs:63-84 | yields the rest from its end, then the front |
| `NonEmptyVec.DrainedMultiset` | btree_vec/src/nonempty_vec.rs:63-84 | draining yields the same items as iterating |
| `Multimap.AddedSorted` | btree_vec/src/btree_vec.rs:101-136 | adding a pair keeps the entries strictly sorted |
| `Multimap.LookupAdded` | btree_vec/src/btree_vec.rs:101-136 | after adding, the pair's key has its values with the new one last, and every other key is as it was |
| `Multimap.LookupPushed` | btree_vec/src/btree_vec.rs:184-193 | after any run of pushes, looking up a key gives exactly the values pushed under it, in order |
| `Multimap.PushesSortStably` | btree_vec/src/btree_vec.rs:217-239 | iterating after any run of pushes gives the stable sort of the run by key |
| `Multimap.FlattenedValues` | btree_vec/src/btree_vec.rs:217-239 | a sorted multimap read out pair by pair shows each key's values as stored |
| `BTreeVec.FlatSorted` | btree_vec/src/btree_vec.rs:42-45 | a well-formed node stands for a sorted sequence of entries |
| `BTreeVec.SearchAgrees` | btree_vec/src/btree_vec.rs:147-181 | on disjoint ranges any two correct searches give the same answer |
| `BTreeVec.BinarySearch` | btree_vec/src/btree_vec.rs:147-157 | finds the range that holds the key, or where it belongs |
| `BTreeVec.LinearSearch` | btree_vec/src/btree_vec.rs:166-180 | the same, scanning |
| `BTreeVec.BTreeSearch` | btree_vec/src/btree_vec.rs:159-181 | the same, by whichever strategy the length selects |
| `BTreeVec.GetIn` | btree_vec/src/btree_vec.rs:138-145 | returns exactly the values stored under the key, at any nesting |
| `BTreeVec.MakeLeafToListWithAdded` | btree_vec/src/btree_vec.rs:60-99 | the list that replaces a leaf holds its entry and the new pair in order, and fills its range |
| `BTreeVec.PushInto` | btree_vec/src/btree_vec.rs:101-136 | keeps the nested range invariant and stands for one pair more; the node gets a slot more just for a key past its end, or for one in none of its ranges while it has few |
| `BTreeVec.PushIntoSlot` | btree_vec/src/btree_vec.rs:107-120 | growing a slot in place, its range stretched to the key where needed, adds just the pair |
| `BTreeVec.InsertSlotAdds` | btree_vec/src/btree_vec.rs:121-133 | a new leaf between two slots adds just the pair |
| `BTreeVec.PushBefore` | btree_vec/src/btree_vec.rs:121-133 | pushing a key that belongs before a slot puts its pair in the gap and nowhere else |
| `BTreeVecApi.BTreeVec.Push` | btree_vec/src/btree_vec.rs:185-189 | the container holds what it held and the pair |
| `BTreeVecApi.BTreeVec.Get` | btree_vec/src/btree_vec.rs:191-193 | looks the key up in what the container holds |
| `BTreeVecApi.BTreeVec.IsEmpty` | btree_vec/src/btree_vec.rs:213-215 | true exactly if nothing is held |
| `BTreeVecApi.FromIter` | btree_vec/src/btree_vec.rs:250-258 | building from a stream stably sorts it |
| `BTreeVecApi.Deduplicate` | btree_vec/src/btree_vec.rs:260-301 | a sorted stream without an error becomes the container that pushing its pairs would give, with its length; otherwise the first error is returned |
| `BTreeVecApi.NextLeaf` | btree_vec/src/btree_vec.rs:217-239 | each turn of the iteration stack yields the next leaf in key order; it ends |
| `BTreeVecApi.IntoIter.Next` | btree_vec/src/btree_vec.rs:416-447 | consuming yields leaf by leaf, newest value first within a key, each pair once |
| `BTreeVecApi.DrainedSame` | btree_vec/src/btree_vec.rs:390-447 | the consuming iterator yields the same pairs as the borrowing one |
| `BTreeVecWalk.StatelessNext` | btree_vec/src/btree_vec.rs:342-387 | for every index path into a well-formed container: yields the first entry left and moves the path past it, or nothing exactly if none is left; it ends |
| `BTreeVecWalk.VisitAll` | btree_vec/src/btree_vec.rs:338-387 | from `begin_iteration` until nothing is yielded, every entry is visited once, in key order |
| `Morton.MortonValue` | lutmorton/src/table_gen.rs:41-51 | the loop spreads the eight bits of a byte out |
| `Morton.UnmortonValue` | lutmorton/src/table_gen.rs:27-39 | the loop gathers even and odd bits |
| `Morton.MortonTable` | lutmorton/src/table_gen.rs:3-13 | every table entry is its index spread out and shifted |
| `Morton.UnmortonTable` | lutmorton/src/table_gen.rs:15-25 | every table entry is its index taken apart |
| `Morton.LookUpMorton` | lutmorton/src/lib.rs:8-18 | the lookups compute the byte-wise spread code |
| `Morton.LookUpUnmorton` | lutmorton/src/lib.rs:20-34 | the lookups gather the two words |
| `Morton.MortonInterleaves` | lutmorton/src/lib.rs:8-18 | for all 32-bit words, the table form is bit-by-bit interleaving |
| `Morton.UnmortonMorton` | lutmorton/src/lib.rs:20-34 | unmorton undoes morton, for all words |
| `Morton.MortonUnmorton` | lutmorton/src/lib.rs:20-34 | morton undoes unmorton, for all 64-bit codes |
| `Morton.MortonMonotone` | lutmorton/src/lib.rs:8-18 | the code is monotone in each word, strictly if one grows |
| `Morton.InterleavedApart` | lutmorton/src/lib.rs:8-34 | interleaving numbers of any size can be taken apart again |
| `Morton.InterleavedTogether` | lutmorton/src/lib.rs:8-34 | and every number is the interleaving of its parts |
| `Morton.InterleavedMonotone` | lutmorton/src/lib.rs:8-18 | interleaving numbers of any size is monotone |
| `BBoxes.AndXor` | tree/src/tree_traits.rs:200-209 | twice the and plus the xor is the sum, for two's-complement words of every width |
| `BBoxes.AvgIsFloorMean` | tree/src/tree_traits.rs:200-209 | the bit trick is the mean rounded down for signed words of every width, and no step leaves the word |
| `BBoxes.SplitAt` | tree/src/bbox.rs:320-352 | a box is split at the floor of the exact mean |
| `BBoxes.SplitCovers` | tree/src/bbox.rs:320-352 | both halves are boxes inside the parent, and have all its points between them |
| `BBoxes.SplitShrinks` | tree/src/bbox.rs:320-352 | the halves add up to the parent along the split and differ by at most 1, so they shrink once it is 2 long |
| `BBoxes.OverlapsIsSharing` | tree/src/bbox.rs:380-391 | two boxes overlap exactly if they share a point |
| `BBoxes.ContainsIsCovering` | tree/src/bbox.rs:372-378 | a box contains another exactly if it has all its points |
| `BBoxes.SideRulesAgree` | tree/src/bbox.rs:459-498 | for a box inside the parent the one-axis rule and containment in the halves pick the same side and half |
| `BBoxes.AbsoluteDelta` | tree/src/bbox.rs:354-369 | for every box in its parent over the whole i32 range, the offset leads back to the box and no checked addition fails |
| `BBoxes.SameCorner` | tree/src/bbox.rs:575-593 | offsets compare equal exactly if their boxes share a corner, and are equal exactly if the boxes are |
| `Varints.WriteVarint` | storage/src/varint.rs:52-76 | the loop writes the encoding, for numbers of any width |
| `Varints.Varint` | storage/src/varint.rs:52-76 | the encoding has bitlength / 7 + 1 bytes |
| `Varints.FromVarint` | storage/src/varint.rs:78-97 | the loop decodes in words of the given width, and fails only if the bytes run out |
| `Varints.RoundTrip` | storage/src/varint.rs:52-97 | for every width and value, decoding the encoding followed by anything gives the value and leaves exactly what follows |
| `Varints.ZigzagRoundTrip` | storage/src/varint.rs:112-122 | the rotation round trips over the whole signed range of every width |
| `Varints.SignedRoundTrip` | storage/src/varint.rs:112-132 | signed numbers round trip, whatever follows |
| `InnerCodecs.OffsetRoundTrip` | tree/src/bbox.rs:638-697 | an offset round trips through its packed or unpacked header, whatever follows |
| `InnerCodecs.StoredKeyFits` | tree/src/bbox.rs:354-369 | the offset of every box in its parent fits the words of the format |
| `InnerCodecs.PairsRoundTrip` | tree/src/dense/tree_serde.rs:45-59 | sorted pairs coded as offsets from pair to pair decode to the same pairs and leave exactly what follows |
| `InnerCodecs.PushedFlattened` | btree_vec/src/btree_vec.rs:241-247 | pushing a sorted multimap's pairs one by one builds it again |
| `InnerCodecs.InnerRoundTrip` | tree/src/dense/tree_serde.rs:34-110 | a node's children, written and then read with the stored count and box, are the same items in the same order, read from exactly the bytes written |
| `InnerCodecs.SerializeInner` | tree/src/dense/tree_serde.rs:34-62 | the iteration writes the count and the encoded pairs |
| `InnerCodecs.DeserializeInner` | tree/src/dense/tree_serde.rs:77-110 | reads what the bytes decode to, or fails exactly if they decode to nothing |
| `NodePages.NodeKeysFit` | tree/src/dense/tree_serde.rs:34-62 | every key at every node of a valid dense tree can be written there, and the node is sorted, as the round trip of its page needs |
| `NodePages.SteadyInner` | tree/src/dense/tree_serde.rs:77-110 | what a decoder of children has read from some bytes it reads from any longer ones too, with the rest left over |
| `NodePages.NodePageDecodes` | tree/src/dense/tree_serde.rs:34-110 | the page of every node of a valid dense tree is decoded as the paged storage needs it: to just what the tree has there, whatever follows, and not from a mere start |
| `NodePages.NodePageStays` | tree/src/dense/tree.rs:602-621 | the page of a node, emptied by a split or not, has something written on it, so a flush that may free it if nothing is written keeps it |
| `NodePages.FetchNode` | storage/src/paged_storage.rs:317-331 | where a storage keeps the pages of a valid dense tree, getting the page of a node gives one more handle to what the tree has there, cached or read again with the count and box of the node, and changes no other entry |
| `NodePages.StoreNode` | tree/src/dense/tree.rs:157-209 | writing to the page of a node through its handle: the storage keeps the changed tree, and no other node changes |
| `NodePages.StoreNewNode` | tree/src/dense/tree.rs:157-209 | giving a node without a page one: the storage keeps the changed tree |
| `NodeCodecs.HeaderRoundTrip` | tree/src/dense/tree_serde.rs:172-183 | page id or none, count and split flag round trip |
| `NodeCodecs.NodeRoundTrip` | tree/src/dense/tree_serde.rs:158-247 | every tree of nodes is read back as it was, with the boxes worked out again on alternating axes, from exactly the bytes written |
| `NodeCodecs.BoxRoundTrip` | tree/src/bbox.rs:159-216 | boxes and points round trip |
| `NodeCodecs.RootRoundTrip` | tree/src/dense/tree_serde.rs:113-156 | the whole structure round trips |
| `NodeCodecs.TreeFits` | tree/src/dense/tree_serde.rs:158-247 | every tree `StoredTree` keeps has the shape the round trip needs |
| `FiveBits.ToCharset` | storage/src/packed_string_serialization/latin_lowercase_fivebit.rs:110-167 | the chunk loop yields the header nibble and the bytes of the triples and the remainder |
| `FiveBits.GatherSection` | storage/src/packed_string_serialization/latin_lowercase_fivebit.rs:146-161 | three characters and the end bit fill a section from the top down |
| `FiveBits.ReadAllTriples` | storage/src/packed_string_serialization/latin_lowercase_fivebit.rs:62-82 | the loop reads triples up to the marked one, or fails |
| `FiveBits.TriplesRoundTrip` | storage/src/packed_string_serialization/latin_lowercase_fivebit.rs:62-167 | the triples of a string round trip and leave what follows |
| `FiveBits.RoundTripIff` | storage/src/packed_string_serialization/latin_lowercase_fivebit.rs:37-167 | a string over the charset round trips, using exactly its bytes, if and only if its length is not 1; of length 1 it cannot be read |
| `DenseViews.HomeUnique` | tree/src/dense/tree.rs:383-420 | a box belongs to one node |
| `DenseViews.AddedPairs` | btree_vec/src/btree_vec.rs:101-136 | adding to a node adds that pair to what it shows |
| `DenseSteps.AddAtOk` | tree/src/dense/tree.rs:157-209 | adding a key where it belongs keeps the tree's invariant |
| `DenseSteps.AddAtPairs` | tree/src/dense/tree.rs:157-209 | the multiset of (corner, value) over the tree gains exactly the inserted pair; so does that of (box, value) if keys met have equal extents |
| `DenseSteps.SplitOk` | tree/src/dense/tree.rs:551-647 | a split keeps the invariant: halves even on the alternating axis, keys in their node's box, none at a split node fitting a half |
| `DenseSteps.SplitPairs` | tree/src/dense/tree.rs:551-647 | a split neither loses nor makes up a pair |
| `DenseSteps.SplitHeld` | tree/src/dense/tree.rs:573-621 | what each of the three nodes holds after a split belongs there |
| `DenseSteps.SplitShares` | tree/src/dense/tree.rs:573-621 | each pair of the split node goes to exactly one of the three nodes, showing the same box |
| `DenseLogs.AddLogged` | tree/src/dense/tree.rs:211-229 | the tree accounts for all inserts: by corner always, by box if equal corners mean equal boxes |
| `DenseCapacities.SplitBelow` | tree/src/dense/tree.rs:551-647 | a split changes what is at and below a node for no node of the tree |
| `DenseCapacities.SplitFilled` | tree/src/dense/tree.rs:526-549 | splitting a full leaf on the way of a pair keeps it true that nodes are split exactly when they and what is below hold too much |
| `DenseCapacities.AddFilled` | tree/src/dense/tree.rs:211-229 | adding the pair where its descent stops leaves no leaf too full and no node split too early |
| `DenseCapacities.SizeIsGoing` | tree/src/dense/tree.rs:211-229 | where equal corners mean equal boxes, a node and those below it have exactly the inserted pairs whose boxes come there |
| `DenseCapacities.SplitIff` | tree/src/dense/tree.rs:526-549 | where equal corners mean equal boxes, a node exists and is split if and only if the boxes of more than saturation + 1 inserts come to it |
| `DenseCapacities.OrderIsFree` | tree/src/dense/tree.rs:443-465 | where equal corners mean equal boxes, the order of the inserts matters neither for which nodes there are nor for what each of them has |
| `DenseDescent.SplitProgress` | tree/src/dense/tree.rs:443-465 | every split of a descent that ends shrinks the box, parts a pair off, or aligns an axis |
| `DenseDescent.DescentEnds` | tree/src/dense/tree.rs:443-465 | a descent ends unless the key is small and its cell is crowded |
| `DenseDescent.RunsForever` | tree/src/dense/tree.rs:443-465 | in that case it takes any number of steps |
| `DenseDescent.EndsIff` | tree/src/dense/tree.rs:443-465 | a descent ends if and only if not: the box is at most 1 long both ways and more stored such boxes than the saturation share its end corner |
| `DenseDescent.CopyInserted` | tree/src/dense/tree.rs:443-465 | up to that many inserts of the box, each ends at the root and adds one |
| `DenseLogs.CopiesLogged` | tree/src/dense/tree.rs:211-229 | inserting one box any number of times leaves a tree with all of them at its home |
| `DenseLogs.CopiesNeverEnd` | tree/src/dense/tree.rs:443-465 | after one small box has been inserted saturation + 1 times, inserting it again never ends |
| `DenseLogs.NeverEndsLogged` | tree/src/dense/tree.rs:443-465 | where equal corners mean equal boxes, an insert never ends if and only if the box is small and more small boxes than the saturation were inserted at its end corner |
| `DenseQueries.FoundWasInserted` | tree/src/dense/tree.rs:130-151 | what a lookup at a box's home finds was inserted at a box with the same corner |
| `DenseQueries.InsertedIsFound` | tree/src/dense/tree.rs:130-151 | where equal corners mean equal boxes, an inserted box is found at its home |
| `DenseQueries.WantedIsTouched` | tree/src/dense/tree.rs:289-340 | a node with a wanted entry is one the search sees |
| `DenseQueries.SeenIsAll` | tree/src/dense/tree.rs:289-340 | what the nodes seen hold of a wanted pair is all the tree has of it, down to the depth |
| `DenseQueries.WantedCounts` | tree/src/dense/tree.rs:111-127 | filtering a node's entries by the query keeps each matching pair as often as the node has it |
| `DenseTrees.PartChildren` | tree/src/dense/tree.rs:573-621 | draining a node sends each child to the half that contains it, left first, or back |
| `DenseTrees.SearchAllNodesTouchingArea` | tree/src/dense/tree.rs:289-340 | the queue visits exactly the nodes that touch the query within the depth, each once |
| `DenseTrees.StoredTree.constructor` | tree/src/dense/tree.rs:36-69 | a tree made anew is valid and empty |
| `DenseTrees.StoredTree.SplitLeftRightUnchecked` | tree/src/dense/tree.rs:551-647 | splits the node as specified and keeps counts, pages and the invariant |
| `DenseTrees.StoredTree.TrySplitLeftRight` | tree/src/dense/tree.rs:526-549 | splits exactly the unsplit nodes with more children than the saturation |
| `DenseTrees.StoredTree.GetKeyLeafSplittingIfNeeded` | tree/src/dense/tree.rs:422-466 | ends at the node where the key belongs, moving pairs only, whenever the descent can end |
| `DenseTrees.StoredTree.AddToLeaf` | tree/src/dense/tree.rs:157-209 | the leaf's page, old or new, gains the pair and its count is right |
| `DenseTrees.StoredTree.Insert` | tree/src/dense/tree.rs:211-229 | the descent from the root is taken step by step, each full leaf on it is split, and the pair is added where it stops (`InsertedBy`); no leaf is left too full and no node was split too early (`Filled`); the tree accounts for one insert more |
| `DenseTrees.StoredTree.SearchLeafForKey` | tree/src/dense/tree.rs:383-420 | finds the key's home and its box |
| `DenseTrees.StoredTree.Get` | tree/src/dense/tree.rs:130-151 | the first value that the home of the key has for it; inserted at the key's corner; with equal corners meaning equal boxes, something exactly if the key was inserted, and then one of its values |
| `DenseTrees.StoredTree.FindEntries` | tree/src/dense/tree.rs:248-280 | as a multiset, the matching pairs of the tree down to the depth, for any query |
| `DenseTrees.StoredTree.FindAll` | tree/src/dense/tree.rs:248-280 | to a depth the tree does not exceed, exactly the inserted pairs that match |
| `DenseTrees.StoredTree.FindEntriesInBox` | tree/src/dense/tree.rs:90-128 | for any tree, exactly its entries contained in the query, counted; where equal corners mean equal boxes, exactly the inserted ones |
| `DenseTrees.StoredTree.FindEntriesTouchingBox` | tree/src/dense/tree.rs:248-280 | for any tree, exactly its entries overlapping the query, counted; where equal corners mean equal boxes, exactly the inserted ones |
| `SparseViews.LimitIff` | tree/src/sparse/tree.rs:616-644 | the rounding limit is met exactly by ranges at most 1 long; short of it both halves shrink |
| `SparseViews.AddAtOk` | tree/src/sparse/tree.rs:270-299 | adding a key where it belongs keeps the invariant: every key of the root's range lies in its leaf's range |
| `SparseViews.AddAtPairs` | tree/src/sparse/tree.rs:270-299 | the multiset of (key, value) gains exactly the inserted pair |
| `SparseViews.ShareAll` | tree/src/sparse/tree.rs:646-674 | a split, even or 25/75, shares all pairs out and loses none |
| `SparseViews.SplitOk` | tree/src/sparse/tree.rs:599-692 | a split of either kind keeps the invariant and the multiset of pairs |
| `SparseDescent.QuarterHeld` | tree/src/sparse/tree.rs:646-660 | the side the descent takes after a rounding-limit split has fewer pairs than the node had |
| `SparseDescent.SplitProgress` | tree/src/sparse/tree.rs:486-508 | after a split the descent is at a shorter range, or the same range with fewer pairs |
| `SparseDescent.DescentEnds` | tree/src/sparse/tree.rs:486-508 | every descent ends, for any tree, key and saturation, equal keys included |
| `SparseDescent.SearchFindsLeaf` | tree/src/sparse/tree.rs:428-463 | a search that met no rounding limit is at the one leaf where the key may be |
| `SparseDescent.SearchFinds` | tree/src/sparse/tree.rs:198-208 | an inserted key of the range of the root is found if no node its search passes was split at the limit |
| `SparseDescent.LimitLosesKey` | tree/src/sparse/tree.rs:637-660 | four inserts of 0 in a new tree and one of 1: the 1 goes left of a rounding-limit split, and its search goes right and finds nothing |
| `SparseDescent.ZerosInserted` | tree/src/sparse/tree.rs:270-299 | each of those four inserts ends at the root and adds its value there |
| `SparseHistory.SplitTells` | tree/src/sparse/tree.rs:599-692 | a split, even or at the limit, leaves every node with just what the keys inserted so far say: all keys that came, or below a cell past the limit what its quarters kept |
| `SparseHistory.AddTells` | tree/src/sparse/tree.rs:270-299 | so does the insert that ends the descent |
| `SparseHistory.SplitIff` | tree/src/sparse/tree.rs:577-598 | short of the limit, a node exists and is split if and only if more keys came to it than fit |
| `SparseHistory.SearchTells` | tree/src/sparse/tree.rs:198-208 | in any such tree and for every key, whatever the values and wherever the search is led: it is found if and only if `Findable` says so of the keys inserted, in order |
| `SparseHistory.InsertedFindable` | tree/src/sparse/tree.rs:469-509 | an inserted key is findable if and only if its cell never overflowed, or it is past the middle and came before the split, or it is not and nodes hold at least four, or it came since the left leaf was last full |
| `SparseHistory.BagKeeps` | tree/src/sparse/tree.rs:646-660 | a key that the quarter reaches is never given up, over all later splits of the cell |
| `SparseHistory.BagForgets` | tree/src/sparse/tree.rs:646-660 | a key past the quarter is in the left leaf if and only if it came since the leaf was last full |
| `SparseTrees.PartEvenly` | tree/src/sparse/tree.rs:664-673 | draining sends each child to its half, left first, or back |
| `SparseTrees.PartByQuarters` | tree/src/sparse/tree.rs:646-660 | the first quarter drained goes left and the rest right |
| `SparseTrees.BinaryTree.constructor` | tree/src/sparse/tree.rs:518-526 | a new tree is valid and empty |
| `SparseTrees.BinaryTree.SplitLeftRightUnchecked` | tree/src/sparse/tree.rs:599-692 | splits the node as specified, or leaves a node without a page whole, keeping counts and pages |
| `SparseTrees.BinaryTree.TrySplitLeftRight` | tree/src/sparse/tree.rs:577-598 | splits exactly the unsplit nodes that hold something and at least the saturation |
| `SparseTrees.BinaryTree.GetKeyLeafSplittingIfNeeded` | tree/src/sparse/tree.rs:469-509 | ends, for every key and tree, at a node where the key belongs |
| `SparseTrees.BinaryTree.Insert` | tree/src/sparse/tree.rs:270-299 | for any key at all: the descent from the root is taken step by step and the pair is added where it stops (`InsertedBy`); the tree holds exactly the inserted pairs, one more, with every node as the order of inserts says |
| `SparseTrees.BinaryTree.SearchLeafForKey` | tree/src/sparse/tree.rs:428-463 | ends at the leaf of the search |
| `SparseTrees.BinaryTree.GetOwned` | tree/src/sparse/tree.rs:198-208 | the first value that the leaf of the search has for the key, an inserted one; and for every key, inside the range of the root or not: something is found if and only if the inserts so far make the key findable |

## Left out

- PagedStorages.PagedStorage.Open: a blank file only; a file with pages is the case of `Reopen`.
- PagedStorages.PagedStorage.NewPage: ids are assumed to be left (`ID_LIMIT`, eight bytes), as in every method that
  may allocate; at 2^64 pages the source overflows.
- PagedStorages.PagedStorage.Get: an id below the counter that was never handed out to this client, or whose value was
  freed, is excluded; the source decodes whatever the page holds and unwraps the error.
- PagedStorages.PagedStorage.Evict: the order by size and the early stop are left open here, so that the result holds
  for every choice; `CacheProtocol` has the stop, and leaves the order open too.
- PagedStorages.PagedStorage.FlushAll: may stop early if ids could run out, and says so in its result.
- PagedStorages.PagedStorage.ForceFree: the page's header must be readable, which truncation may have taken away;
  without it the flush that frees the page panics (`PageUses.FreeAfterTruncation`).
- PagedStorages.PagedStorage.Condense: assumes readable headers, for the same reason.
- PageUses.PageUse.FreePage: the back link of the page must name a page other than itself, as in every sound graph; on
  other links the source writes outside the pages or to the page being freed.
- Pages.Page.Open: the decoder must find every start of the encoding too short; one that succeeds early would make the
  source stop early too.
- Pages.Page.Flush: errors and short writes of the file are not modelled; every write is complete.
- PageReaders.PageReader.Read: a read returns as many bytes as the file has; the source's file may return fewer.
- CacheProtocol.Keeps: entries made by other views of the same pages are not steps, and a client does not ask for an
  id before `new_page` has returned it, nor after it gave it up, when no call for it may be under way, as `force_free`
  demands; memory orders are taken as sequentially consistent, and a panicking closure is not modelled.
- CacheProtocol.AtMostOneObject: for the steps that `CacheProtocol.Keeps` ranges over.
- CacheProtocol.NothingLost: `disk` is a map of values here; that a flush and an open are inverse is what
  `PagedStorages` proves.
- DenseTrees.StoredTree.constructor: a new tree only; reading the structure file of an existing one is
  `NodeCodecs.RootRoundTrip`, on values.
- DenseTrees.StoredTree.Insert: the key must lie in the root box, which the source asserts, and the descent must be
  one that ends.
- DenseTrees.StoredTree.Get: the key must lie in the root box, since offsets are only defined inside it.
- DenseTrees.StoredTree.FindEntriesInBox: the tree must be no deeper than `usize::MAX`, as must any that fits in
  memory.
- SparseDescent.SearchFinds: a sufficient condition; the exact one is in `SparseHistory.SearchTells` and
  `SparseTrees.BinaryTree.GetOwned`.
- SparseTrees.BinaryTree.GetOwned: `clone` of a value and its serialization are not modelled.
- InnerCodecs.StoredKeyFits: speaks of a box's offset; that the keys of a valid tree are such offsets is
  `NodePages.NodeKeysFit`.
- InnerCodecs.DeserializeInner: the debug assertion that the stored length is the node's count is not modelled; a
  failed checked addition counts as a failure.
- NodePages.FetchNode: the tree class keeps its own map of pages and does not call `PagedStorage`; what joins them is
  that each way to reach a page does the same to both.
- BTreeVecWalk.StatelessNext: the path must not be empty; the source panics when called again after returning nothing.
- Nodes nested inside a `BTreeVec` are values here and not objects, since the container owns them and nothing else can
  refer to them.
- Trees run one operation at a time; concurrent inserts, and the flush and reopening of the tree's structure file, are
  not modelled.
- Node ids grow without bound in the model; the shift that makes them overflows past 63 levels.
- `sub_view`, which shares one allocator among caches, and the contract of `allow_free` with its clients.
- `begin_range`, `expand_to_depth`, removal of unused leaves and condensing a whole tree.
- Sparse range queries, whose overlap is strict and whose half rule names the opposite half
  (tree/src/point_range.rs:157-181).
- The serialization of sparse nodes and of keys other than boxes.
- Union and extension of boxes, float boxes, zoom, and values of map objects.
- `Pool`, four-bit strings, literal, address, contact and colour codecs, most of which are unfinished.
- File errors, zstd, the OSM reader, the schema generator, the viewer and debug output.
