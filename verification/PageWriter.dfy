/** Writing a byte stream over a chain of pages, extending the chain where it is too short. */
module PageWriters {
  import opened Bytes
  import opened Powers
  import opened Layout
  import opened PageGraph
  import opened PageUses

  datatype WriterState =
    | Begin(toWrite: seq<nat>)
    | WritingAllocated(written: nat, current: nat, toWrite: seq<nat>)
    | WritingNew(written: nat, current: nat)
    | NeedsNewAllocation(previous: nat)

  ghost function Concat(pages: seq<seq<Byte>>): seq<Byte> {
    if pages == [] then [] else Concat(pages[..|pages| - 1]) + pages[|pages| - 1]
  }

  lemma ConcatPush(pages: seq<seq<Byte>>, page: seq<Byte>)
    ensures Concat(pages + [page]) == Concat(pages) + page
  {
    assert (pages + [page])[..|pages|] == pages;
  }

  ghost predicate PagesExist(d: Disk, c: seq<nat>) {
    forall i :: 0 <= i < |c| ==> c[i] < |d.pages|
  }

  /** The bytes a chain holds, as far as the file reaches. */
  ghost function Stream(d: Disk, c: seq<nat>): seq<Byte>
    requires PagesExist(d, c)
  {
    if c == [] then [] else Stream(d, c[..|c| - 1]) + d.pages[c[|c| - 1]].data
  }

  /** The first pages of a chain are filled with `full`, and the next one starts with `part`. */
  ghost predicate Holds(d: Disk, c: seq<nat>, full: seq<seq<Byte>>, part: seq<Byte>) {
    && PagesExist(d, c)
    && |full| <= |c| && |part| < d.size
    && (forall j :: 0 <= j < |full| ==> |full[j]| == d.size && d.pages[c[j]].data == full[j])
    && (part != [] ==> |full| < |c| && part <= d.pages[c[|full|]].data)
  }

  lemma {:induction false} StreamPrefix(d: Disk, c: seq<nat>, m: nat)
    requires PagesExist(d, c) && m <= |c|
    ensures Stream(d, c[..m]) <= Stream(d, c)
  {
    if m < |c| {
      StreamPrefix(d, c[..|c| - 1], m);
      assert c[..|c| - 1][..m] == c[..m];
    } else {
      assert c[..m] == c;
    }
  }

  lemma {:induction false} FullStream(d: Disk, c: seq<nat>, full: seq<seq<Byte>>)
    requires PagesExist(d, c) && |full| <= |c|
    requires forall j :: 0 <= j < |full| ==> d.pages[c[j]].data == full[j]
    ensures Stream(d, c[..|full|]) == Concat(full)
  {
    if full != [] {
      var n := |full| - 1;
      FullStream(d, c, full[..n]);
      assert c[..n + 1][..n] == c[..n];
    }
  }

  /** What a chain holds is where its stream starts. */
  lemma HeldStream(d: Disk, c: seq<nat>, full: seq<seq<Byte>>, part: seq<Byte>)
    requires Holds(d, c, full, part)
    ensures Concat(full) + part <= Stream(d, c)
  {
    var q := |full|;
    FullStream(d, c, full);
    StreamPrefix(d, c, q);
    if part != [] {
      assert c[..q + 1][..q] == c[..q];
      StreamPrefix(d, c, q + 1);
    }
  }

  /** Other chains' pages keep everything they had. */
  ghost predicate OthersKept(d: Disk, d': Disk, owner: map<nat, nat>, head: nat) {
    && d.size == d'.size && |d.pages| <= |d'.pages|
    && forall p :: p in owner && owner[p] != head && p < |d.pages| ==> Grown(d.size, d.pages[p], d'.pages[p])
  }

  lemma OthersKeptTrans(d: Disk, e: Disk, f: Disk, owner: map<nat, nat>, owner': map<nat, nat>, head: nat)
    requires OthersKept(d, e, owner, head) && OwnersKept(owner, owner', head)
    requires OthersKept(e, f, owner', head)
    ensures OthersKept(d, f, owner, head)
    ensures forall o :: OwnersKept(owner', o, head) ==> OwnersKept(owner, o, head)
  {
  }

  lemma OthersKeptRefl(d: Disk, owner: map<nat, nat>, head: nat)
    ensures OthersKept(d, d, owner, head) && OwnersKept(owner, owner, head)
  {
  }

  lemma OthersKeptByStep(d: Disk, d': Disk, owner: map<nat, nat>, head: nat, ids: set<nat>)
    requires Only(d, d', ids) && Confined(ids, owner, head) && forall p :: p in owner ==> p >= 1
    ensures OthersKept(d, d', owner, head)
  {
  }

  /** Where a writer stands, for the chain it was given, the pages it added, and `q` pages and `r` bytes written. */
  ghost predicate StateMatches(state: WriterState, comp: seq<nat>, added: seq<nat>, q: nat, r: nat) {
    match state
    case Begin(toWrite) => r == 0 && q < |comp| && toWrite == comp[q..] && added == []
    case WritingAllocated(written, current, toWrite) =>
      q < |comp| && written == r && current == comp[q] && toWrite == comp[q + 1..] && added == []
    case WritingNew(written, current) =>
      written == r && |comp| + |added| == q + 1 && added != [] && current == added[|added| - 1]
    case NeedsNewAllocation(previous) =>
      r == 0 && q == |comp| + |added| && q > 0 && previous == (comp + added)[q - 1]
  }

  /** After `n` more bytes, with the page left if they fill it. */
  function Advanced(state: WriterState, n: nat, fills: bool): WriterState
    requires state.WritingAllocated? || state.WritingNew?
  {
    match state
    case WritingAllocated(written, current, toWrite) =>
      if !fills then WritingAllocated(written + n, current, toWrite)
      else if toWrite == [] then NeedsNewAllocation(current)
      else Begin(toWrite)
    case WritingNew(written, current) =>
      if !fills then WritingNew(written + n, current) else NeedsNewAllocation(current)
  }

  lemma AdvancedMatches(state: WriterState, comp: seq<nat>, added: seq<nat>, q: nat, r: nat, n: nat, fills: bool)
    requires StateMatches(state, comp, added, q, r)
    requires state.WritingAllocated? || state.WritingNew?
    ensures if fills then StateMatches(Advanced(state, n, true), comp, added, q + 1, 0)
            else StateMatches(Advanced(state, n, false), comp, added, q, r + n)
    ensures var next := Advanced(state, n, fills); n > 0 && next.WritingNew? ==> next.written > 0
  {
  }

  /** Writing data where the writer stands. */
  lemma WriteStep(d: Disk, d': Disk, chains: Chains, owner: map<nat, nat>, head: nat,
                  full: seq<seq<Byte>>, part: seq<Byte>, bs: seq<Byte>)
    requires Sound(d, chains, owner) && head in chains
    requires Holds(d, chains[head], full, part) && |full| < |chains[head]|
    requires |part| + |bs| <= d.size
    requires DataWritten(d, d', chains[head][|full|], |part|, bs)
    ensures Sound(d', chains, owner) && OthersKept(d, d', owner, head)
    ensures |d'.pages| == |d.pages| && d'.freed == d.freed && (HeadersInFile(d) ==> HeadersInFile(d'))
    ensures if |part| + |bs| == d.size then Holds(d', chains[head], full + [part + bs], [])
            else Holds(d', chains[head], full, part + bs)
  {
    var c, q := chains[head], |full|;
    assert ChainOf(d, c, head, owner);
    DataStepSound(d, d', chains, owner, head, q, |part|, bs);
    assert d.pages[c[q]].data[..|part|] == part;
    forall j | 0 <= j < q ensures d'.pages[c[j]].data == full[j] {
      assert LinkedAt(d, c, j);
    }
    OthersKeptByStep(d, d', owner, head, {c[q]});
  }

  /** Adding a page where the writer needs one. */
  lemma ExtendStep(d: Disk, d': Disk, chains: Chains, owner: map<nat, nat>, head: nat,
                   full: seq<seq<Byte>>, newPage: nat)
    requires Sound(d, chains, owner) && head in chains && chains[head] != []
    requires Holds(d, chains[head], full, []) && |full| == |chains[head]|
    requires AllocatedAfter(d, d', chains[head][|full| - 1], newPage)
    ensures newPage !in owner
    ensures Sound(d', chains[head := chains[head] + [newPage]], owner[newPage := head])
    ensures OthersKept(d, d', owner, head) && OwnersKept(owner, owner[newPage := head], head)
    ensures Holds(d', chains[head] + [newPage], full, [])
    ensures |d'.pages| <= |d.pages| + 1 && (HeadersInFile(d) ==> HeadersInFile(d'))
    ensures d'.freed == d.freed - multiset{newPage}
  {
    hide Concat, StateMatches, HeadersInFile, FreedPage;
    var c, n := chains[head], |full|;
    var last := c[n - 1];
    assert ChainOf(d, c, head, owner);
    ExtendChainSound(d, d', chains, owner, head, newPage);
    forall j | 0 <= j < n ensures d'.pages[c[j]].data == full[j] {
      assert LinkedAt(d, c, j);
    }
    OthersKeptByStep(d, d', owner, head, {last, newPage});
  }

  // Which pages a writer takes, and what it leaves on them ----------------------------------------

  /** The pages taken since `start`: the smallest of the freed ones first, and new ones once those are used up. */
  ghost predicate Taken(start: Disk, d: Disk, added: seq<nat>) {
    && d.freed == start.freed - multiset(added)
    && (forall i, p :: 0 <= i < |added| && p in d.freed ==> added[i] <= p)
    && (|added| <= |start.freed| ==> multiset(added) <= start.freed && |d.pages| == |start.pages|)
  }

  lemma TakenStep(start: Disk, d: Disk, d': Disk, added: seq<nat>, oldPage: nat, newPage: nat)
    requires Taken(start, d, added) && AllocatedAfter(d, d', oldPage, newPage)
    ensures Taken(start, d', added + [newPage])
  {
    hide Only, DataKept, HeadersInFile, ValidDisk;
    TakenFrom(start.freed, d.freed, added, newPage);
    forall i, p | 0 <= i <= |added| && p in d'.freed ensures (added + [newPage])[i] <= p {
      assert p in d.freed;
    }
  }

  lemma TakenFrom(start: multiset<nat>, freed: multiset<nat>, added: seq<nat>, newPage: nat)
    requires freed == start - multiset(added) && (|added| <= |start| ==> multiset(added) <= start)
    requires freed == multiset{} || newPage in freed
    ensures freed - multiset{newPage} == start - multiset(added + [newPage])
    ensures |added| < |start| ==> freed != multiset{} && multiset(added + [newPage]) <= start
  {
    assert multiset(added + [newPage]) == multiset(added) + multiset{newPage};
    if |added| < |start| { LeftOver(start, multiset(added)); }
  }

  lemma LeftOver(s: multiset<nat>, m: multiset<nat>)
    requires m <= s
    ensures |s - m| == |s| - |m|
  {
    assert s == (s - m) + m;
  }

  /** Fewer pages than are free come from among those, short of the largest. */
  lemma TakenBelow(start: Disk, d: Disk, added: seq<nat>, i: nat)
    requires Taken(start, d, added) && ValidDisk(start) && i < |added| < |start.freed|
    ensures 1 <= added[i] && added[i] + 1 < |start.pages| == |d.pages|
  {
    var m := multiset(added);
    assert added[i] in m;
    LeftOver(start.freed, m);
    var q :| q in d.freed;
    assert FreedPage(start, q) && FreedPage(start, added[i]);
  }

  /**
   A page that was whole in the file at the start, and has not been filled since, is as it was, except that the one
   being written has `r` other bytes first.
   */
  ghost predicate LeftAt(start: Disk, d: Disk, c: seq<nat>, q: nat, r: nat, p: nat)
    requires 1 <= p < |start.pages| && |start.pages| <= |d.pages|
  {
    var n := if q < |c| && p == c[q] then r else 0;
    && |d.pages[p].data| == |start.pages[p].data| == d.size >= n
    && d.pages[p].data[n..] == start.pages[p].data[n..]
  }

  ghost predicate Left(start: Disk, d: Disk, c: seq<nat>, q: nat, r: nat) {
    && |start.pages| <= |d.pages| && start.size == d.size && q <= |c|
    && forall p :: 1 <= p < |start.pages| && |start.pages[p].data| == start.size && p !in c[..q] ==>
                     LeftAt(start, d, c, q, r, p)
  }

  lemma LeftByWrite(start: Disk, d: Disk, d': Disk, c: seq<nat>, q: nat, r: nat, bs: seq<Byte>)
    requires Left(start, d, c, q, r) && q < |c| && NoDuplicates(c) && r + |bs| <= d.size
    requires DataWritten(d, d', c[q], r, bs)
    ensures if r + |bs| == d.size then Left(start, d', c, q + 1, 0) else Left(start, d', c, q, r + |bs|)
  {
    hide ValidDisk, HeadersInFile;
    var (q', r') := if r + |bs| == d.size then (q + 1, 0) else (q, r + |bs|);
    assert c[..q + 1] == c[..q] + [c[q]];
    forall p | 1 <= p < |start.pages| && |start.pages[p].data| == start.size && p !in c[..q']
      ensures LeftAt(start, d', c, q', r', p)
    {
      assert p !in c[..q] && LeftAt(start, d, c, q, r, p);
      if p == c[q] {
        var was, now := d.pages[p].data, d'.pages[p].data;
        assert now[r + |bs|..] == was[r + |bs|..] == was[r..][|bs|..];
        assert start.pages[p].data[r..][|bs|..] == start.pages[p].data[r + |bs|..];
      }
    }
  }

  lemma LeftByExtending(start: Disk, d: Disk, d': Disk, c: seq<nat>, newPage: nat)
    requires Left(start, d, c, |c|, 0) && c != [] && AllocatedAfter(d, d', c[|c| - 1], newPage)
    ensures Left(start, d', c + [newPage], |c|, 0)
  {
    hide ValidDisk, HeadersInFile;
    assert (c + [newPage])[..|c|] == c[..|c|];
    forall p | 1 <= p < |start.pages| && |start.pages[p].data| == start.size && p !in c
      ensures LeftAt(start, d', c + [newPage], |c|, 0, p)
    {
      assert LeftAt(start, d, c, |c|, 0, p);
    }
  }

  /** Writing data takes no page and leaves what it does not reach. */
  lemma WriteLeaves(start: Disk, d: Disk, d': Disk, chains: Chains, owner: map<nat, nat>, head: nat, added: seq<nat>,
                    q: nat, r: nat, bs: seq<Byte>)
    requires Sound(d, chains, owner) && head in chains && q < |chains[head]| && r + |bs| <= d.size
    requires Taken(start, d, added) && Left(start, d, chains[head], q, r)
    requires DataWritten(d, d', chains[head][q], r, bs)
    ensures Taken(start, d', added)
    ensures if r + |bs| == d.size then Left(start, d', chains[head], q + 1, 0)
            else Left(start, d', chains[head], q, r + |bs|)
  {
    hide Left;
    assert ChainOf(d, chains[head], head, owner);
    LeftByWrite(start, d, d', chains[head], q, r, bs);
  }

  lemma LeftRefl(d: Disk, c: seq<nat>)
    ensures Left(d, d, c, 0, 0) && Taken(d, d, [])
  {
  }

  class PageWriter {
    const storage: PageUse
    const component: seq<nat>
    var addedPages: seq<nat>
    var state: WriterState

    // the chain being written, what has been written to it, and the disk it was written over
    ghost const start: Disk
    ghost const head: nat
    ghost var chains: Chains
    ghost var owner: map<nat, nat>
    ghost var full: seq<seq<Byte>>
    ghost var part: seq<Byte>

    ghost predicate Valid()
      reads this, storage
    {
      && storage.Valid()
      && component != []
      && Sound(storage.disk, chains, owner)
      && head in chains && chains[head] == component + addedPages
      && Holds(storage.disk, chains[head], full, part)
      && StateMatches(state, component, addedPages, |full|, |part|)
      && Taken(start, storage.disk, addedPages)
      && Left(start, storage.disk, chains[head], |full|, |part|)
    }

    /** Nothing but this writer's chain has changed, no page is lost, and every header that was in the file still is. */
    twostate predicate OthersUntouched()
      reads this, storage
    {
      && Accounted(old(storage.disk), old(chains), old(owner), storage.disk, chains, owner)
      && OthersKept(old(storage.disk), storage.disk, old(owner), head)
      && OwnersKept(old(owner), owner, head)
      && chains - {head} == old(chains) - {head}
      && (old(HeadersInFile(storage.disk)) ==> HeadersInFile(storage.disk))
    }

    /** A page that was added has been written to. */
    predicate Settled()
      reads this
    {
      state.WritingNew? ==> state.written > 0
    }

    constructor (storage: PageUse, toWrite: seq<nat>, ghost chains: Chains, ghost owner: map<nat, nat>)
      requires storage.Valid() && storage.disk.size > 0
      requires toWrite != [] && Sound(storage.disk, chains, owner)
      requires toWrite[0] in chains && chains[toWrite[0]] == toWrite
      ensures Valid() && this.storage == storage && head == toWrite[0] && component == toWrite
      ensures this.chains == chains && this.owner == owner && full == [] && part == []
      ensures state == Begin(toWrite) && addedPages == [] && start == storage.disk
    {
      this.storage := storage;
      addedPages := [];
      state := Begin(toWrite);
      start, head, component := storage.disk, toWrite[0], toWrite;
      this.chains, this.owner := chains, owner;
      full, part := [], [];
      new;
      LeftRefl(storage.disk, toWrite);
      assert ChainOf(storage.disk, toWrite, toWrite[0], owner);
      assert forall i :: 0 <= i < |toWrite| ==> LinkedAt(storage.disk, toWrite, i);
    }

    /** The page to write to next and where in it, entering the next page of the chain or adding one. */
    method EnterPage() returns (current: nat, offset: nat)
      requires Valid() && |storage.disk.pages| + 1 < ID_LIMIT
      modifies this, storage
      ensures Valid() && !state.Begin? && !state.NeedsNewAllocation?
      ensures full == old(full) && part == old(part) && offset == |part| < storage.disk.size
      ensures |full| < |chains[head]| && current == chains[head][|full|]
      ensures current < |storage.disk.pages| && offset <= |storage.disk.pages[current].data|
      ensures |storage.disk.pages| <= old(|storage.disk.pages|) + 1
      ensures OthersUntouched()
    {
      hide Sound, ValidDisk, Shows, AllocatedAfter, HeadersInFile, OthersKept, OwnersKept, Taken, Left, Accounted;
      OthersKeptRefl(storage.disk, owner, head);
      AccountedRefl(storage.disk, chains, owner);
      match state
      case Begin(toWrite) =>
        current, offset := toWrite[0], 0;
        state := WritingAllocated(0, current, toWrite[1..]);
      case WritingAllocated(written, page, _) => current, offset := page, written;
      case WritingNew(written, page) => current, offset := page, written;
      case NeedsNewAllocation(previous) =>
        ghost var before, all := storage.disk, chains[head];
        SoundDisjoint(before, chains, owner, head, |all| - 1, head, |all| - 1);
        current := storage.AllocNewAfter(previous);
        offset := 0;
        ExtendStep(before, storage.disk, chains, owner, head, full, current);
        ExtendedAccounted(before, storage.disk, chains, owner, head, previous, current);
        TakenStep(start, before, storage.disk, addedPages, previous, current);
        LeftByExtending(start, before, storage.disk, all, current);
        addedPages := addedPages + [current];
        state := WritingNew(0, current);
        chains := chains[head := all + [current]];
        owner := owner[current := head];
    }

    /** Writes as much of `buf` as fits in the current page, and leaves the page if that fills it. */
    method Write(buf: seq<Byte>) returns (n: nat)
      requires Valid() && |storage.disk.pages| + 1 < ID_LIMIT
      modifies this, storage
      ensures Valid()
      ensures n == Min(|buf|, storage.disk.size - |old(part)|) && (buf != [] ==> n > 0 && Settled())
      ensures Concat(full) + part == old(Concat(full) + part) + buf[..n]
      ensures |storage.disk.pages| <= old(|storage.disk.pages|) + 1
      ensures OthersUntouched()
    {
      hide Sound, ValidDisk, Shows, DataWritten, HeadersInFile, OthersKept, OwnersKept, Holds, StateMatches, Advanced,
           Concat, Taken, Left, Accounted;
      var current, offset := EnterPage();
      ghost var d, q := storage.disk, |full|;
      SoundDisjoint(d, chains, owner, head, q, head, q);
      var remaining := storage.geo.DataSize() - offset;
      n := Min(|buf|, remaining);
      storage.WriteData(current, offset, buf[..n]);
      WriteStep(d, storage.disk, chains, owner, head, full, part, buf[..n]);
      WriteLeaves(start, d, storage.disk, chains, owner, head, addedPages, q, offset, buf[..n]);
      OthersKeptTrans(old(storage.disk), d, storage.disk, old(owner), owner, head);
      SameAccounted(d, storage.disk, chains, owner);
      AccountedTrans(old(storage.disk), old(chains), old(owner), d, chains, owner, storage.disk, chains, owner);
      AdvancedMatches(state, component, addedPages, q, offset, n, n == remaining);
      state := Advanced(state, n, n == remaining);
      if n == remaining {
        ConcatPush(full, part + buf[..n]);
        full, part := full + [part + buf[..n]], [];
      } else {
        part := part + buf[..n];
      }
    }

    /** `write_all`: writes until nothing of `buf` is left. */
    method WriteAll(buf: seq<Byte>)
      requires Valid() && |storage.disk.pages| + |buf| + 1 < ID_LIMIT
      modifies this, storage
      ensures Valid()
      ensures Concat(full) + part == old(Concat(full) + part) + buf
      ensures old(Settled()) ==> Settled()
      ensures |storage.disk.pages| <= old(|storage.disk.pages|) + |buf|
      ensures OthersUntouched()
    {
      hide Sound, ValidDisk, Shows, HeadersInFile, OthersKept, OwnersKept, Holds, StateMatches, Taken, Left, Accounted;
      OthersKeptRefl(storage.disk, owner, head);
      AccountedRefl(storage.disk, chains, owner);
      var rest := buf;
      while rest != []
        invariant Valid() && OthersUntouched()
        invariant Concat(full) + part + rest == old(Concat(full) + part) + buf
        invariant |rest| <= |buf| && (old(Settled()) ==> Settled())
        invariant |storage.disk.pages| <= old(|storage.disk.pages|) + |buf| - |rest|
        decreases |rest|
      {
        label Before:
        var n := Write(rest);
        OthersKeptTrans(old(storage.disk), old@Before(storage.disk), storage.disk, old(owner), old@Before(owner), head);
        AccountedTrans(old(storage.disk), old(chains), old(owner),
                       old@Before(storage.disk), old@Before(chains), old@Before(owner), storage.disk, chains, owner);
        assert rest == rest[..n] + rest[n..];
        rest := rest[n..];
      }
    }
  }
}
