/**
 The cache shared by threads: a map under a readers-writer lock, whose cells are filled once, by one thread, outside
 the exclusive lock. Each step here is what one thread does between two points where another may come in.

 A value dropped from the cache is written to disk as it is dropped. A cell is filled by reading from disk, or with the
 value of a new page. The page file has a lock of its own, which a thread takes last. `written` is the map the clients
 mean: the last value written for each key, by making its page or through any handle.

 A client may give a page up. Its pages are freed when it is dropped, and its key may then be handed out again.
 */
module CacheProtocol {
  import opened Wrappers

  /**
   What the map has for a key. A cell is made empty, filled by the one thread whose closure runs, and then stays.
   `counted` says whether its size has been added to the byte count.
   */
  datatype Cell = Absent | Empty | Running(filler: nat) | Filled(size: nat, obj: nat, counted: bool)

  datatype Object<V> = Object(key: nat, value: V, alive: bool)

  /** One counted reference to an object: in use inside a call, in a client's hands, or dropped. */
  datatype Handle = Handle(obj: nat, user: User)

  datatype User = Call(thread: nat) | Client | Nobody

  datatype Lock = Shared(readers: set<nat>) | Exclusive(writer: nat)

  /**
   An eviction under way: the keys picked for it, those of them it is still to remove, the byte count as it reads it,
   where it stops early, its own handle.
   */
  datatype Eviction = Eviction(picked: set<nat>, doomed: set<nat>, total: int, goal: Option<int>, handle: Option<nat>)

  datatype Pc =
    | Outside
    | Asked(key: nat)
    | NewCalled
    | Called(key: nat)
    | Reading(key: nat)
    | Missed(key: nat)
    | Inserting(key: nat)
    | Filling(key: nat)
    | Initializing(key: nat)
    | Adding(key: nat, handle: nat)
    | Overfull(handle: nat)
    | FlushCalled
    | Evicting(work: Eviction)
    | Dropping(obj: nat, size: nat, work: Eviction)

  /**
   Keys index `cells`, `disk` and `written`; objects, handles and threads are numbered. `file` says who has the page
   file, and `creating` holds the values of new pages that have not been put into the cache yet. `retired` has the keys
   that clients have given up, and `freed` those of them whose pages have been freed. `surplus` is what has been added
   to the byte count for cells that were counted already.
   */
  datatype State<V> = State(
    lock: Lock,
    file: Option<nat>,
    creating: map<nat, V>,
    retired: set<nat>,
    freed: set<nat>,
    cells: seq<Cell>,
    cachedBytes: int,
    surplus: nat,
    maxBytes: nat,
    objects: seq<Object<V>>,
    handles: seq<Handle>,
    disk: seq<V>,
    written: seq<V>,
    pcs: seq<Pc>)

  // What a state says ----------------------------------------------------------------------------

  predicate IsFilled<V>(s: State<V>, k: nat) {
    k < |s.cells| && s.cells[k].Filled?
  }

  predicate InUse(h: Handle) {
    h.user != Nobody
  }

  /** No reference but the cache's own. */
  predicate Unheld<V>(s: State<V>, o: nat) {
    forall h :: 0 <= h < |s.handles| && InUse(s.handles[h]) ==> s.handles[h].obj != o
  }

  function Evictable<V>(s: State<V>): set<nat> {
    set k: nat | k < |s.cells| && s.cells[k].Filled? && Unheld(s, s.cells[k].obj)
  }

  predicate Reader(pc: Pc) {
    pc.Reading? || pc.Filling? || pc.Initializing? || pc.Adding?
  }

  predicate Writer(pc: Pc) {
    pc.Inserting? || pc.Evicting? || pc.Dropping?
  }

  /** The key that a thread is looking up. */
  function Wanted(pc: Pc): Option<nat> {
    match pc
    case Asked(key) => Some(key)
    case Called(key) => Some(key)
    case Reading(key) => Some(key)
    case Missed(key) => Some(key)
    case Inserting(key) => Some(key)
    case Filling(key) => Some(key)
    case Initializing(key) => Some(key)
    case Adding(key, _) => Some(key)
    case _ => None
  }

  /** What a thread needs the page file for: a new page, opening a page, writing one back. */
  predicate NeedsFile<V>(s: State<V>, pc: Pc) {
    pc.NewCalled? || (pc.Initializing? && pc.key !in s.creating) || pc.Dropping?
  }

  // The steps ------------------------------------------------------------------------------------

  datatype Step<V> =
    | CallGet(key: nat)
    | Check
    | CallNew
    | LockFile
    | Allocate(newValue: V, junk: V)
    | Reuse(freedKey: nat, newValue: V, junk: V)
    | LockToRead
    | Hit
    | Miss
    | LockToInsert
    | Insert
    | StartFill
    | FinishFill(size: nat)
    | FindFilled
    | Add
    | LockToEvict
    | CallFlush
    | LockToFlush
    | Remove(doomedKey: nat)
    | Drop
    | EndEviction
    | Write(handle: nat, value: V)
    | Clone(handle: nat)
    | Release(handle: nat)
    | GiveUp(handle: nat)

  /** When thread `t` may take a step. */
  predicate Enabled<V>(s: State<V>, t: nat, step: Step<V>) {
    && t < |s.pcs|
    && var pc := s.pcs[t];
       match step
       case CallGet(key) => pc.Outside? && key < |s.cells| && key !in s.creating && key !in s.retired
       case Check => pc.Asked? && s.file == None
       case CallNew => pc.Outside?
       case LockFile => s.file == None && NeedsFile(s, pc)
       case Allocate(_, _) => pc.NewCalled? && s.file == Some(t)
       case Reuse(key, _, _) =>
         pc.NewCalled? && s.file == Some(t) && key in s.freed && key < |s.disk| == |s.written|
       case LockToRead => pc.Called? && s.lock.Shared?
       case Hit => pc.Reading? && IsFilled(s, pc.key)
       case Miss => pc.Reading? && !IsFilled(s, pc.key)
       case LockToInsert => pc.Missed? && s.lock == Shared({})
       case Insert => pc.Inserting? && pc.key < |s.cells|
       case StartFill => pc.Filling? && pc.key < |s.cells| && s.cells[pc.key].Empty?
       case FinishFill(_) =>
         pc.Initializing? && pc.key < |s.cells| == |s.disk| && (pc.key in s.creating || s.file == Some(t))
       case FindFilled => pc.Filling? && IsFilled(s, pc.key)
       case Add => pc.Adding? && IsFilled(s, pc.key) && pc.handle < |s.handles|
       case LockToEvict => pc.Overfull? && s.lock == Shared({})
       case CallFlush => pc.Outside?
       case LockToFlush => pc.FlushCalled? && s.lock == Shared({})
       case Remove(key) => pc.Evicting? && key in pc.work.doomed && IsFilled(s, key)
       case Drop =>
         pc.Dropping? && s.file == Some(t) && pc.obj < |s.objects| && s.objects[pc.obj].key < |s.disk|
       case EndEviction =>
         pc.Evicting? && pc.work.doomed == {} && (pc.work.handle.Some? ==> pc.work.handle.value < |s.handles|)
       case Write(handle, _) => pc.Outside? && ClientHandle(s, handle)
       case Clone(handle) => pc.Outside? && ClientHandle(s, handle)
       case Release(handle) => pc.Outside? && ClientHandle(s, handle)
       case GiveUp(handle) =>
         // a client gives a page up when nobody can look it up any more
         pc.Outside? && ClientHandle(s, handle) && NobodyWants(s, s.objects[s.handles[handle].obj].key)
  }

  predicate NobodyWants<V>(s: State<V>, k: nat) {
    forall u :: 0 <= u < |s.pcs| ==> Wanted(s.pcs[u]) != Some(k)
  }

  predicate ClientHandle<V>(s: State<V>, h: nat) {
    && h < |s.handles| && s.handles[h].user == Client
    && s.handles[h].obj < |s.objects| && s.objects[s.handles[h].obj].key < |s.written|
  }

  /** What is left of an eviction when an object of some size has gone: it stops once enough has. */
  function Dropped(work: Eviction, size: nat): Eviction {
    var total := work.total - size;
    work.(doomed := if work.goal.Some? && total < work.goal.value then {} else work.doomed, total := total)
  }

  function Unlocked(lock: Lock, t: nat): Lock {
    match lock case Shared(readers) => Shared(readers - {t}) case Exclusive(_) => Shared({})
  }

  function Handed(handles: seq<Handle>, h: nat, user: User): seq<Handle>
    requires h < |handles|
  {
    handles[h := handles[h].(user := user)]
  }

  function Apply<V>(s: State<V>, t: nat, step: Step<V>): State<V>
    requires Enabled(s, t, step)
  {
    var pc := s.pcs[t];
    match step
    case CallGet(key) => s.(pcs := s.pcs[t := Asked(key)])
    case Check => s.(pcs := s.pcs[t := Called(pc.key)])
    case CallNew => s.(pcs := s.pcs[t := NewCalled])
    case LockFile => s.(file := Some(t))
    case Allocate(value, junk) =>
      // a page past the others, on which there is nothing of use yet
      s.(file := None, creating := s.creating[|s.cells| := value], cells := s.cells + [Absent],
         disk := s.disk + [junk], written := s.written + [value], pcs := s.pcs[t := Called(|s.cells|)])
    case Reuse(key, value, junk) =>
      s.(file := None, creating := s.creating[key := value], retired := s.retired - {key}, freed := s.freed - {key},
         disk := s.disk[key := junk], written := s.written[key := value], pcs := s.pcs[t := Called(key)])
    case LockToRead => s.(lock := Shared(s.lock.readers + {t}), pcs := s.pcs[t := Reading(pc.key)])
    case Hit =>
      s.(lock := Unlocked(s.lock, t), pcs := s.pcs[t := Outside],
         handles := s.handles + [Handle(s.cells[pc.key].obj, Client)])
    case Miss => s.(lock := Unlocked(s.lock, t), pcs := s.pcs[t := Missed(pc.key)])
    case LockToInsert => s.(lock := Exclusive(t), pcs := s.pcs[t := Inserting(pc.key)])
    case Insert =>
      // makes the cell if there is none, and goes on as a reader
      s.(cells := if s.cells[pc.key].Absent? then s.cells[pc.key := Empty] else s.cells,
         lock := Shared({t}), pcs := s.pcs[t := Filling(pc.key)])
    case StartFill => s.(cells := s.cells[pc.key := Running(t)], pcs := s.pcs[t := Initializing(pc.key)])
    case FinishFill(size) =>
      var value := if pc.key in s.creating then s.creating[pc.key] else s.disk[pc.key];
      s.(file := if s.file == Some(t) then None else s.file,
         creating := s.creating - {pc.key},
         cells := s.cells[pc.key := Filled(size, |s.objects|, false)],
         objects := s.objects + [Object(pc.key, value, true)],
         handles := s.handles + [Handle(|s.objects|, Call(t))],
         pcs := s.pcs[t := Adding(pc.key, |s.handles|)])
    case FindFilled =>
      s.(handles := s.handles + [Handle(s.cells[pc.key].obj, Call(t))],
         pcs := s.pcs[t := Adding(pc.key, |s.handles|)])
    case Add =>
      var full := s.cachedBytes > s.maxBytes;
      var cell := s.cells[pc.key];
      s.(cachedBytes := s.cachedBytes + cell.size,
         surplus := if cell.counted then s.surplus + cell.size else s.surplus,
         cells := s.cells[pc.key := cell.(counted := true)],
         lock := Unlocked(s.lock, t),
         handles := if full then s.handles else Handed(s.handles, pc.handle, Client),
         pcs := s.pcs[t := if full then Overfull(pc.handle) else Outside])
    case LockToEvict =>
      s.(lock := Exclusive(t),
         pcs := s.pcs[t := Evicting(Eviction(Evictable(s), Evictable(s), s.cachedBytes, Some(s.maxBytes / 2),
                                             Some(pc.handle)))])
    case CallFlush => s.(pcs := s.pcs[t := FlushCalled])
    case LockToFlush =>
      s.(lock := Exclusive(t),
         pcs := s.pcs[t := Evicting(Eviction(Evictable(s), Evictable(s), s.cachedBytes, None, None))])
    case Remove(key) =>
      s.(cells := s.cells[key := Absent],
         pcs := s.pcs[t := Dropping(s.cells[key].obj, s.cells[key].size,
                                    pc.work.(doomed := pc.work.doomed - {key}))])
    case Drop =>
      // what was given up is not written: its pages are freed
      var o := s.objects[pc.obj];
      s.(file := None,
         freed := if o.key in s.retired then s.freed + {o.key} else s.freed,
         disk := if o.key in s.retired then s.disk else s.disk[o.key := o.value],
         objects := s.objects[pc.obj := o.(alive := false)],
         cachedBytes := s.cachedBytes - pc.size,
         pcs := s.pcs[t := Evicting(Dropped(pc.work, pc.size))])
    case EndEviction =>
      s.(lock := Unlocked(s.lock, t),
         handles := if pc.work.handle.Some? then Handed(s.handles, pc.work.handle.value, Client) else s.handles,
         pcs := s.pcs[t := Outside])
    case Write(handle, value) =>
      var obj := s.handles[handle].obj;
      s.(objects := s.objects[obj := s.objects[obj].(value := value)],
         written := s.written[s.objects[obj].key := value])
    case Clone(handle) => s.(handles := s.handles + [s.handles[handle]])
    case Release(handle) => s.(handles := Handed(s.handles, handle, Nobody))
    case GiveUp(handle) => s.(retired := s.retired + {s.objects[s.handles[handle].obj].key})
  }

  // The invariant --------------------------------------------------------------------------------

  /** An object that is its key's cell's. */
  ghost predicate IsCached<V>(s: State<V>, o: nat) {
    && o < |s.objects| && s.objects[o].alive
    && IsFilled(s, s.objects[o].key) && s.cells[s.objects[o].key].obj == o
  }

  /** The object of a thread that has taken it out of the map and not yet written it to disk. */
  ghost predicate InTransit<V>(s: State<V>, o: nat) {
    && s.lock.Exclusive? && s.lock.writer < |s.pcs|
    && s.pcs[s.lock.writer].Dropping? && s.pcs[s.lock.writer].obj == o
  }

  ghost predicate OwnHandle<V>(s: State<V>, t: nat, h: nat) {
    h < |s.handles| && s.handles[h].user == Call(t)
  }

  /** What an eviction has left to do: the keys it picked are gone from the map, unless it has stopped early. */
  ghost predicate PickedOk<V>(s: State<V>, work: Eviction) {
    && (work.goal.Some? ==> work.goal.value == s.maxBytes / 2)
    && ((work.goal.Some? && work.total < work.goal.value) ||
        forall k :: k in work.picked ==> k in work.doomed || (k < |s.cells| && s.cells[k].Absent?))
  }

  /** Nothing that an eviction picked has been picked up again, and its byte count is the true one. */
  ghost predicate WorkOk<V>(s: State<V>, t: nat, work: Eviction) {
    && (forall k :: k in work.doomed ==> IsFilled(s, k) && Unheld(s, s.cells[k].obj))
    && work.total == s.cachedBytes && PickedOk(s, work)
    && (work.handle.Some? ==> OwnHandle(s, t, work.handle.value))
  }

  /** What a thread may rely on at each point. */
  ghost predicate ThreadOk<V>(s: State<V>, t: nat)
    requires t < |s.pcs|
  {
    var pc := s.pcs[t];
    && (Writer(pc) <==> s.lock == Exclusive(t))
    && (Reader(pc) <==> s.lock.Shared? && t in s.lock.readers)
    && (s.file == Some(t) ==> NeedsFile(s, pc))
    && (Wanted(pc).Some? ==> Wanted(pc).value !in s.retired)
    && match pc {
         case Asked(key) => key < |s.cells|
         case Called(key) => key < |s.cells|
         case Reading(key) => key < |s.cells|
         case Missed(key) => key < |s.cells|
         case Inserting(key) => key < |s.cells|
         case Filling(key) => key < |s.cells| && !s.cells[key].Absent?
         case Initializing(key) => key < |s.cells| && s.cells[key] == Running(t)
         case Adding(key, h) =>
           OwnHandle(s, t, h) && IsFilled(s, key) && s.handles[h].obj == s.cells[key].obj
         case Overfull(h) => OwnHandle(s, t, h)
         case Evicting(work) => WorkOk(s, t, work)
         case Dropping(o, _, work) =>
           && WorkOk(s, t, work) && o < |s.objects| && s.objects[o].alive && Unheld(s, o)
           && s.objects[o].key < |s.cells| && s.cells[s.objects[o].key].Absent?
         case _ => true
       }
  }

  ghost predicate ThreadsOk<V>(s: State<V>) {
    && (forall t :: 0 <= t < |s.pcs| ==> ThreadOk(s, t))
    && (s.lock.Exclusive? ==> s.lock.writer < |s.pcs|)
    && (s.lock.Shared? ==> forall t :: t in s.lock.readers ==> t < |s.pcs|)
    && (s.file.Some? ==> s.file.value < |s.pcs|)
  }

  /** A cell being filled has its filler at work, and a filled cell's object is the key's. */
  ghost predicate CellOk<V>(s: State<V>, k: nat)
    requires k < |s.cells|
  {
    match s.cells[k]
    case Running(t) => t < |s.pcs| && s.pcs[t] == Initializing(k)
    case Filled(_, o, counted) =>
      && IsCached(s, o) && s.objects[o].key == k
      && (!counted ==> exists t :: 0 <= t < |s.pcs| && s.pcs[t].Adding? && s.pcs[t].key == k)
    case _ => true
  }

  /** A freed key has been given up, and neither the cache nor anyone else has an object for it. */
  ghost predicate FreedOk<V>(s: State<V>, k: nat) {
    && k in s.retired && k < |s.cells| && s.cells[k].Absent?
    && forall o :: 0 <= o < |s.objects| && s.objects[o].alive ==> s.objects[o].key != k
  }

  /** Every object alive is its key's cell's, or is on its way to disk, and has the last value written for its key. */
  ghost predicate ObjectOk<V>(s: State<V>, o: nat)
    requires o < |s.objects|
  {
    s.objects[o].alive ==>
      && s.objects[o].key < |s.written|
      && (IsCached(s, o) || InTransit(s, o))
      && s.objects[o].value == s.written[s.objects[o].key]
  }

  /** A page being made has the value it was made with, no object yet, and one thread that looks it up. */
  ghost predicate NewOk<V>(s: State<V>, k: nat)
    requires k in s.creating
  {
    && k < |s.written| && s.creating[k] == s.written[k] && k !in s.retired
    && (forall o :: 0 <= o < |s.objects| && s.objects[o].alive ==> s.objects[o].key != k)
    && (forall t, u :: 0 <= t < u < |s.pcs| && Wanted(s.pcs[t]) == Some(k) ==> Wanted(s.pcs[u]) != Some(k))
  }

  /** A key with no object alive has its last value on disk, unless its page is still being made or has been freed. */
  ghost predicate DiskOk<V>(s: State<V>, k: nat)
    requires k < |s.disk| == |s.written|
  {
    || k in s.creating || k in s.freed
    || s.disk[k] == s.written[k]
    || exists o :: 0 <= o < |s.objects| && s.objects[o].alive && s.objects[o].key == k
  }

  ghost predicate DataOk<V>(s: State<V>) {
    && |s.cells| == |s.disk| == |s.written|
    && (forall k :: 0 <= k < |s.cells| ==> CellOk(s, k))
    && (forall o :: 0 <= o < |s.objects| ==> ObjectOk(s, o))
    && (forall k :: 0 <= k < |s.disk| ==> DiskOk(s, k))
    && (forall k :: k in s.creating ==> NewOk(s, k))
    && (forall k :: k in s.freed ==> FreedOk(s, k))
    && (forall k :: k in s.retired ==> k < |s.cells|)
    && (forall h :: 0 <= h < |s.handles| && InUse(s.handles[h]) ==> IsCached(s, s.handles[h].obj))
  }

  ghost function Sum(m: seq<nat>): nat {
    if m == [] then 0 else m[0] + Sum(m[1..])
  }

  lemma {:induction false} SumUpdate(m: seq<nat>, k: nat, n: nat)
    requires k < |m|
    ensures Sum(m[k := n]) == Sum(m) - m[k] + n
  {
    if k > 0 {
      SumUpdate(m[1..], k - 1, n);
      assert m[k := n][1..] == m[1..][k - 1 := n];
    } else {
      assert m[0 := n][1..] == m[1..];
    }
  }

  ghost function Weight<V>(s: State<V>, k: nat): nat {
    if IsFilled(s, k) && s.cells[k].counted then s.cells[k].size else 0
  }

  /** The sizes of the filled cells that have been counted. */
  ghost function Counted<V>(s: State<V>): (m: seq<nat>)
    ensures |m| == |s.cells|
  {
    seq(|s.cells|, k requires 0 <= k < |s.cells| => Weight(s, k))
  }

  /** The size of what is on its way to disk. */
  ghost function Transit<V>(s: State<V>): nat {
    if s.lock.Exclusive? && s.lock.writer < |s.pcs| && s.pcs[s.lock.writer].Dropping?
    then s.pcs[s.lock.writer].size else 0
  }

  /** The byte count is the size of all that is counted and has not been dropped yet, and what was added again. */
  ghost predicate BytesOk<V>(s: State<V>) {
    Sum(Counted(s)) + Transit(s) + s.surplus == s.cachedBytes
  }

  ghost predicate Inv<V>(s: State<V>) {
    ThreadsOk(s) && DataOk(s) && BytesOk(s)
  }

  // Every step keeps the invariant ---------------------------------------------------------------

  predicate OfEviction<V>(step: Step<V>) {
    step.LockToEvict? || step.LockToFlush? || step.Remove? || step.Drop? || step.EndEviction?
  }

  /** Steps that make or change cells. */
  predicate OfCells<V>(step: Step<V>) {
    step.Insert? || step.StartFill? || step.FinishFill? || step.Allocate? || step.Reuse?
  }

  /** Steps that make references inside a call. */
  predicate OfHandles<V>(step: Step<V>) {
    step.Hit? || step.FindFilled? || step.Add?
  }

  /** Steps that a client takes with a reference it has. */
  predicate ByClient<V>(step: Step<V>) {
    step.Write? || step.Clone? || step.Release? || step.GiveUp?
  }

  lemma ActorOk<V>(s: State<V>, t: nat, step: Step<V>)
    requires ThreadsOk(s) && DataOk(s) && Enabled(s, t, step) && !OfEviction(step) && !OfCells(step) && !OfHandles(step)
    ensures ThreadOk(Apply(s, t, step), t)
  {
    assert ThreadOk(s, t);
    hide NewOk, DiskOk, FreedOk, NobodyWants;
  }

  lemma ActorOkByCells<V>(s: State<V>, t: nat, step: Step<V>)
    requires ThreadsOk(s) && DataOk(s) && Enabled(s, t, step) && OfCells(step)
    ensures ThreadOk(Apply(s, t, step), t)
  {
    assert ThreadOk(s, t);
    hide NewOk, DiskOk, FreedOk, NobodyWants;
  }

  lemma ActorOkByHandles<V>(s: State<V>, t: nat, step: Step<V>)
    requires ThreadsOk(s) && DataOk(s) && Enabled(s, t, step) && OfHandles(step)
    ensures ThreadOk(Apply(s, t, step), t)
  {
    assert ThreadOk(s, t);
    hide NewOk, DiskOk, FreedOk, NobodyWants;
  }

  lemma RemovingActorOk<V>(s: State<V>, t: nat, step: Step<V>)
    requires ThreadsOk(s) && DataOk(s) && Enabled(s, t, step) && (step.Remove? || step.Drop?)
    ensures ThreadOk(Apply(s, t, step), t)
  {
    assert ThreadOk(s, t);
    if step.Remove? { assert CellOk(s, step.doomedKey); }
    hide ThreadsOk, DataOk, CellOk, NewOk, DiskOk, FreedOk, ObjectOk, NobodyWants, Evictable;
  }

  lemma EvictingActorOk<V>(s: State<V>, t: nat, step: Step<V>)
    requires ThreadsOk(s) && DataOk(s) && Enabled(s, t, step) && OfEviction(step) && !step.Remove? && !step.Drop?
    ensures ThreadOk(Apply(s, t, step), t)
  {
    assert ThreadOk(s, t);
    hide ThreadsOk, DataOk, CellOk, NewOk, DiskOk, FreedOk, ObjectOk, NobodyWants;
  }

  /** Steps of other threads break nothing a thread relies on. */
  lemma OtherThreadOk<V>(s: State<V>, t: nat, step: Step<V>, u: nat)
    requires ThreadsOk(s) && DataOk(s) && Enabled(s, t, step) && u < |s.pcs| && u != t
    requires !OfEviction(step) && !OfCells(step) && !OfHandles(step) && !ByClient(step)
    ensures ThreadOk(Apply(s, t, step), u)
  {
    assert ThreadOk(s, u) && ThreadOk(s, t);
    hide NewOk, DiskOk, FreedOk, NobodyWants;
  }

  lemma OtherThreadOkByHolder<V>(s: State<V>, t: nat, step: Step<V>, u: nat)
    requires ThreadsOk(s) && DataOk(s) && Enabled(s, t, step) && u < |s.pcs| && u != t
    requires step.Clone? || step.Release?
    ensures ThreadOk(Apply(s, t, step), u)
  {
    assert ThreadOk(s, u) && ThreadOk(s, t);
    hide NewOk, DiskOk, FreedOk, NobodyWants, CellOk, ObjectOk, ThreadsOk, Evictable;
  }

  lemma OtherThreadOkByClient<V>(s: State<V>, t: nat, step: Step<V>, u: nat)
    requires ThreadsOk(s) && DataOk(s) && Enabled(s, t, step) && u < |s.pcs| && u != t
    requires step.Write? || step.GiveUp?
    ensures ThreadOk(Apply(s, t, step), u)
  {
    assert ThreadOk(s, u) && ThreadOk(s, t);
    hide NewOk, DiskOk, FreedOk, CellOk, ObjectOk, ThreadsOk, DataOk, Evictable;
  }

  lemma OtherThreadOkByCells<V>(s: State<V>, t: nat, step: Step<V>, u: nat)
    requires ThreadsOk(s) && DataOk(s) && Enabled(s, t, step) && u < |s.pcs| && u != t && OfCells(step)
    ensures ThreadOk(Apply(s, t, step), u)
  {
    assert ThreadOk(s, u) && ThreadOk(s, t);
    hide NewOk, DiskOk, FreedOk, NobodyWants;
  }

  lemma OtherThreadOkByHandles<V>(s: State<V>, t: nat, step: Step<V>, u: nat)
    requires ThreadsOk(s) && DataOk(s) && Enabled(s, t, step) && u < |s.pcs| && u != t && OfHandles(step)
    ensures ThreadOk(Apply(s, t, step), u)
  {
    assert ThreadOk(s, u) && ThreadOk(s, t);
    hide NewOk, DiskOk, FreedOk, NobodyWants;
  }

  lemma OtherThreadOkInEviction<V>(s: State<V>, t: nat, step: Step<V>, u: nat)
    requires ThreadsOk(s) && DataOk(s) && Enabled(s, t, step) && u < |s.pcs| && u != t && OfEviction(step)
    ensures ThreadOk(Apply(s, t, step), u)
  {
    assert ThreadOk(s, u) && ThreadOk(s, t);
    hide NewOk, DiskOk, FreedOk, NobodyWants;
  }

  lemma ThreadKept<V>(s: State<V>, t: nat, step: Step<V>, u: nat)
    requires ThreadsOk(s) && DataOk(s) && Enabled(s, t, step) && u < |s.pcs|
    ensures ThreadOk(Apply(s, t, step), u)
  {
    hide ThreadsOk, DataOk, ThreadOk, Apply, Enabled;
    if u == t {
      if OfEviction(step) {
        if step.Remove? || step.Drop? { RemovingActorOk(s, t, step); } else { EvictingActorOk(s, t, step); }
      } else if OfCells(step) {
        ActorOkByCells(s, t, step);
      } else if OfHandles(step) {
        ActorOkByHandles(s, t, step);
      } else {
        ActorOk(s, t, step);
      }
    } else if OfEviction(step) {
      OtherThreadOkInEviction(s, t, step, u);
    } else if OfCells(step) {
      OtherThreadOkByCells(s, t, step, u);
    } else if OfHandles(step) {
      OtherThreadOkByHandles(s, t, step, u);
    } else if ByClient(step) {
      if step.Clone? || step.Release? {
        OtherThreadOkByHolder(s, t, step, u);
      } else {
        OtherThreadOkByClient(s, t, step, u);
      }
    } else {
      OtherThreadOk(s, t, step, u);
    }
  }

  lemma LocksKept<V>(s: State<V>, t: nat, step: Step<V>)
    requires ThreadsOk(s) && Enabled(s, t, step)
    ensures var s' := Apply(s, t, step);
            && |s'.pcs| == |s.pcs|
            && (s'.lock.Exclusive? ==> s'.lock.writer < |s'.pcs|)
            && (s'.lock.Shared? ==> forall t :: t in s'.lock.readers ==> t < |s'.pcs|)
            && (s'.file.Some? ==> s'.file.value < |s'.pcs|)
  {
    hide ThreadOk;
  }

  lemma KeepsThreads<V>(s: State<V>, t: nat, step: Step<V>)
    requires ThreadsOk(s) && DataOk(s) && Enabled(s, t, step)
    ensures ThreadsOk(Apply(s, t, step))
  {
    var s' := Apply(s, t, step);
    hide DataOk, ThreadOk, Apply, Enabled;
    LocksKept(s, t, step);
    forall u | 0 <= u < |s.pcs| ensures ThreadOk(s', u) {
      ThreadKept(s, t, step, u);
    }
  }

  /** An object cached stays cached, unless it is the one being removed. */
  lemma CachedKept<V>(s: State<V>, t: nat, step: Step<V>, o: nat)
    requires ThreadsOk(s) && DataOk(s) && Enabled(s, t, step) && IsCached(s, o)
    ensures if step.Remove? && s.objects[o].key == step.doomedKey then InTransit(Apply(s, t, step), o)
            else IsCached(Apply(s, t, step), o)
  {
    assert ThreadOk(s, t);
    hide ThreadsOk, DataOk, WorkOk, Evictable, Unheld, Wanted, NobodyWants, NeedsFile, Dropped;
  }

  /** A cell that is not counted yet still has a thread that is about to count it. */
  lemma AdderKept<V>(s: State<V>, t: nat, step: Step<V>, k: nat)
    requires Enabled(s, t, step) && k < |s.cells| && s.cells[k].Filled? && !s.cells[k].counted
    requires CellOk(s, k)
    ensures var s' := Apply(s, t, step);
            || (step.Add? && s.pcs[t].key == k)
            || exists u :: 0 <= u < |s'.pcs| && s'.pcs[u].Adding? && s'.pcs[u].key == k
  {
    var u :| 0 <= u < |s.pcs| && s.pcs[u].Adding? && s.pcs[u].key == k;
    var s' := Apply(s, t, step);
    hide Evictable, Dropped, NeedsFile, ClientHandle;
    if u != t { assert s'.pcs[u] == s.pcs[u]; }
  }

  lemma CellKeptByCells<V>(s: State<V>, t: nat, step: Step<V>, k: nat)
    requires ThreadsOk(s) && DataOk(s) && Enabled(s, t, step) && k < |Apply(s, t, step).cells| && OfCells(step)
    ensures CellOk(Apply(s, t, step), k)
  {
    assert ThreadOk(s, t) && (k < |s.cells| ==> CellOk(s, k));
    hide DataOk, Evictable, DiskOk, ObjectOk, NewOk, FreedOk, WorkOk, Unheld, Wanted, NeedsFile, ThreadsOk, Dropped;
    if k < |s.cells| && s.cells[k].Filled? && !s.cells[k].counted { AdderKept(s, t, step, k); }
    if step.FinishFill? { assert Apply(s, t, step).pcs[t].Adding?; }
  }

  lemma CellKeptByOthers<V>(s: State<V>, t: nat, step: Step<V>, k: nat)
    requires ThreadsOk(s) && DataOk(s) && Enabled(s, t, step) && k < |s.cells| && !OfCells(step)
    ensures k < |Apply(s, t, step).cells| && CellOk(Apply(s, t, step), k)
  {
    assert ThreadOk(s, t) && CellOk(s, k);
    if s.cells[k].Filled? {
      CachedKept(s, t, step, s.cells[k].obj);
      if !s.cells[k].counted { AdderKept(s, t, step, k); }
    }
    hide DataOk, Evictable, DiskOk, ObjectOk, NewOk, FreedOk, WorkOk, Unheld, Wanted, NeedsFile, ThreadsOk, Dropped;
    hide IsCached, InTransit;
    assert s.cells[k].Filled? ==> Apply(s, t, step).objects[s.cells[k].obj].key == k;
  }

  lemma CellKept<V>(s: State<V>, t: nat, step: Step<V>, k: nat)
    requires ThreadsOk(s) && DataOk(s) && Enabled(s, t, step) && k < |Apply(s, t, step).cells|
    ensures CellOk(Apply(s, t, step), k)
  {
    hide ThreadsOk, DataOk, CellOk;
    if OfCells(step) { CellKeptByCells(s, t, step, k); } else { CellKeptByOthers(s, t, step, k); }
  }

  /** At most one object is alive for a key, whether it is cached or on its way to disk. */
  lemma OneObject<V>(s: State<V>, o: nat, p: nat)
    requires ThreadsOk(s) && DataOk(s) && o < |s.objects| && p < |s.objects|
    requires s.objects[o].alive && s.objects[p].alive && s.objects[o].key == s.objects[p].key
    ensures o == p
  {
    assert ObjectOk(s, o) && ObjectOk(s, p);
    if s.lock.Exclusive? { assert ThreadOk(s, s.lock.writer); }
  }

  /** While a key's cell is being filled, no object is alive for the key. */
  lemma FillingHasNoObject<V>(s: State<V>, t: nat)
    requires ThreadsOk(s) && DataOk(s) && t < |s.pcs| && s.pcs[t].Initializing?
    ensures forall o :: 0 <= o < |s.objects| && s.objects[o].alive ==> s.objects[o].key != s.pcs[t].key
  {
    var k := s.pcs[t].key;
    assert ThreadOk(s, t);
    forall o | 0 <= o < |s.objects| && s.objects[o].alive ensures s.objects[o].key != k {
      assert ObjectOk(s, o);
    }
  }

  /** What a filler reads from disk, or the value it makes a page with, is the last value written. */
  lemma FillReadsLast<V>(s: State<V>, t: nat)
    requires ThreadsOk(s) && DataOk(s) && t < |s.pcs| && s.pcs[t].Initializing?
    ensures var k := s.pcs[t].key;
            && k < |s.disk| == |s.written|
            && s.written[k] == if k in s.creating then s.creating[k] else s.disk[k]
  {
    var k := s.pcs[t].key;
    assert ThreadOk(s, t) && DiskOk(s, k);
    FillingHasNoObject(s, t);
    if k in s.creating { assert NewOk(s, k); }
  }

  lemma FilledObjectOk<V>(s: State<V>, t: nat, step: Step<V>)
    requires ThreadsOk(s) && DataOk(s) && Enabled(s, t, step) && step.FinishFill?
    ensures ObjectOk(Apply(s, t, step), |s.objects|)
  {
    assert ThreadOk(s, t);
    FillReadsLast(s, t);
  }

  /** An object on its way to disk stays on its way until it is dropped. */
  lemma TransitKept<V>(s: State<V>, t: nat, step: Step<V>, o: nat)
    requires ThreadsOk(s) && Enabled(s, t, step) && InTransit(s, o)
    ensures step.Drop? || InTransit(Apply(s, t, step), o)
    ensures step.Drop? ==> s.pcs[t].obj == o
  {
    assert ThreadOk(s, t) && ThreadOk(s, s.lock.writer);
    hide WorkOk, IsFilled, Evictable;
  }

  lemma ValueKept<V>(s: State<V>, t: nat, step: Step<V>, o: nat)
    requires ThreadsOk(s) && DataOk(s) && Enabled(s, t, step) && o < |s.objects| && s.objects[o].alive
    requires !(step.Drop? && s.pcs[t].obj == o)
    ensures var s' := Apply(s, t, step);
            && o < |s'.objects| && s'.objects[o].alive && s'.objects[o].key == s.objects[o].key < |s'.written|
            && s'.objects[o].value == s'.written[s.objects[o].key]
  {
    assert ObjectOk(s, o);
    if step.Write? {
      var p := s.handles[step.handle].obj;
      assert IsCached(s, p);
      if s.objects[o].key == s.objects[p].key { OneObject(s, o, p); }
    }
    hide ThreadsOk, ThreadOk, CellOk, DiskOk, NewOk, Evictable, IsCached;
  }

  lemma ObjectKept<V>(s: State<V>, t: nat, step: Step<V>, o: nat)
    requires ThreadsOk(s) && DataOk(s) && Enabled(s, t, step) && o < |Apply(s, t, step).objects|
    ensures ObjectOk(Apply(s, t, step), o)
  {
    if o >= |s.objects| {
      FilledIsNew(s, t, step, o);
      FilledObjectOk(s, t, step);
    } else if step.Drop? && s.pcs[t].obj == o {
    } else if s.objects[o].alive {
      hide Apply, Enabled, ThreadsOk, IsCached, InTransit;
      assert ObjectOk(s, o);
      ValueKept(s, t, step, o);
      if IsCached(s, o) { CachedKept(s, t, step, o); } else { TransitKept(s, t, step, o); }
    } else {
      DeadKept(s, t, step, o);
    }
  }

  lemma FilledIsNew<V>(s: State<V>, t: nat, step: Step<V>, o: nat)
    requires Enabled(s, t, step) && |s.objects| <= o < |Apply(s, t, step).objects|
    ensures step.FinishFill? && o == |s.objects|
  {
  }

  lemma DeadKept<V>(s: State<V>, t: nat, step: Step<V>, o: nat)
    requires Enabled(s, t, step) && o < |s.objects| && !s.objects[o].alive
    ensures o < |Apply(s, t, step).objects| && !Apply(s, t, step).objects[o].alive
  {
  }

  /** Other steps change neither objects nor what is on disk. */
  lemma StoresSame<V>(s: State<V>, t: nat, step: Step<V>)
    requires Enabled(s, t, step) && !step.Write? && !step.Drop? && !step.FinishFill? && !step.Allocate?
    requires !step.Reuse?
    ensures var s' := Apply(s, t, step);
            && s'.objects == s.objects && s'.disk == s.disk && s'.written == s.written
            && s'.creating == s.creating && s'.freed == s.freed
  {
  }

  lemma DiskKeptByWrite<V>(s: State<V>, t: nat, step: Step<V>, k: nat)
    requires ThreadsOk(s) && DataOk(s) && Enabled(s, t, step) && k < |s.disk| && (step.Write? || step.FinishFill?)
    ensures |Apply(s, t, step).disk| == |Apply(s, t, step).written| == |s.disk| && DiskOk(Apply(s, t, step), k)
  {
    var s' := Apply(s, t, step);
    assert ThreadOk(s, t) && DiskOk(s, k);
    hide ThreadOk, ThreadsOk, CellOk, ObjectOk, NewOk;
    if step.Write? {
      assert IsCached(s, s.handles[step.handle].obj) && s'.objects[s.handles[step.handle].obj].alive;
    } else if k == s.pcs[t].key {
      assert s'.objects[|s.objects|].alive && s'.objects[|s.objects|].key == k;
    }
    if k !in s.creating && k !in s.freed && s.disk[k] != s.written[k] {
      var o :| 0 <= o < |s.objects| && s.objects[o].alive && s.objects[o].key == k;
      assert s'.objects[o].alive && s'.objects[o].key == k;
    }
  }

  lemma DiskKeptByDrop<V>(s: State<V>, t: nat, step: Step<V>, k: nat)
    requires ThreadsOk(s) && DataOk(s) && Enabled(s, t, step) && k < |s.disk| && step.Drop?
    ensures DiskOk(Apply(s, t, step), k)
  {
    var s' := Apply(s, t, step);
    assert ThreadOk(s, t) && DiskOk(s, k) && ObjectOk(s, s.pcs[t].obj);
    if k !in s.creating && k !in s.freed && s.disk[k] != s.written[k] && k != s.objects[s.pcs[t].obj].key {
      var o :| 0 <= o < |s.objects| && s.objects[o].alive && s.objects[o].key == k;
      assert s'.objects[o] == s.objects[o];
    }
  }

  lemma DiskKept<V>(s: State<V>, t: nat, step: Step<V>, k: nat)
    requires ThreadsOk(s) && DataOk(s) && Enabled(s, t, step) && k < |Apply(s, t, step).disk|
    requires |Apply(s, t, step).disk| == |Apply(s, t, step).written|
    ensures DiskOk(Apply(s, t, step), k)
  {
    hide Apply, Enabled, ThreadsOk;
    if step.Allocate? {
      if k < |s.disk| { DiskKeptByNew(s, t, step, k); } else { NewIsNew(s, t, step); }
    } else if step.Reuse? {
      DiskLength(s, t, step);
      DiskKeptByNew(s, t, step, k);
    } else if step.Write? || step.FinishFill? {
      DiskLength(s, t, step);
      DiskKeptByWrite(s, t, step, k);
    } else if step.Drop? {
      DiskLength(s, t, step);
      DiskKeptByDrop(s, t, step, k);
    } else {
      StoresSame(s, t, step);
      assert DiskOk(s, k);
    }
  }

  lemma DiskLength<V>(s: State<V>, t: nat, step: Step<V>)
    requires Enabled(s, t, step) && !step.Allocate?
    ensures |Apply(s, t, step).disk| == |s.disk|
  {
  }

  lemma NewIsNew<V>(s: State<V>, t: nat, step: Step<V>)
    requires DataOk(s) && Enabled(s, t, step) && step.Allocate?
    ensures |s.disk| in Apply(s, t, step).creating && |Apply(s, t, step).disk| == |s.disk| + 1
  {
  }

  lemma DiskKeptByNew<V>(s: State<V>, t: nat, step: Step<V>, k: nat)
    requires DataOk(s) && Enabled(s, t, step) && k < |s.disk| && (step.Allocate? || step.Reuse?)
    ensures |Apply(s, t, step).disk| == |Apply(s, t, step).written| && k < |Apply(s, t, step).disk|
    ensures DiskOk(Apply(s, t, step), k)
  {
    var s' := Apply(s, t, step);
    assert DiskOk(s, k);
    if k !in s.creating && k !in s.freed && s.disk[k] != s.written[k] {
      var o :| 0 <= o < |s.objects| && s.objects[o].alive && s.objects[o].key == k;
      assert s'.objects[o] == s.objects[o];
    }
  }

  lemma NewKept<V>(s: State<V>, t: nat, step: Step<V>, k: nat)
    requires ThreadsOk(s) && DataOk(s) && Enabled(s, t, step) && k in Apply(s, t, step).creating
    requires k in s.creating
    ensures NewOk(Apply(s, t, step), k)
  {
    var s' := Apply(s, t, step);
    assert NewOk(s, k);
    NewStays(s, t, step, k);
    forall u | 0 <= u < |s.pcs| && Wanted(s'.pcs[u]) == Some(k) ensures Wanted(s.pcs[u]) == Some(k) {
      hide Apply, Enabled, Wanted, ThreadsOk, DataOk;
      WantedBefore(s, t, step, k, u);
    }
  }

  /** Nobody else starts to look up a page that is being made. */
  lemma WantedBefore<V>(s: State<V>, t: nat, step: Step<V>, k: nat, u: nat)
    requires DataOk(s) && Enabled(s, t, step) && k in s.creating && u < |s.pcs|
    ensures u < |Apply(s, t, step).pcs|
    ensures Wanted(Apply(s, t, step).pcs[u]) == Some(k) ==> Wanted(s.pcs[u]) == Some(k)
  {
    assert NewOk(s, k);
    if step.Reuse? { assert FreedOk(s, step.freedKey); }
    hide CellOk, DiskOk, ObjectOk, IsCached, IsFilled, Evictable, DataOk, NobodyWants, Dropped, NeedsFile, ClientHandle;
  }

  lemma NewStays<V>(s: State<V>, t: nat, step: Step<V>, k: nat)
    requires ThreadsOk(s) && DataOk(s) && Enabled(s, t, step) && k in Apply(s, t, step).creating
    requires k in s.creating
    ensures var s' := Apply(s, t, step);
            && k < |s'.written| && s'.creating[k] == s'.written[k] && k !in s'.retired
            && forall o :: 0 <= o < |s'.objects| && s'.objects[o].alive ==> s'.objects[o].key != k
  {
    assert ThreadOk(s, t) && NewOk(s, k);
    hide ThreadsOk, CellOk, ObjectOk, DiskOk, Evictable, WorkOk, Wanted;
    match step
    case Reuse(key, _, _) => assert FreedOk(s, key);
    case Write(handle, _) => assert IsCached(s, s.handles[handle].obj);
    case GiveUp(handle) => assert IsCached(s, s.handles[handle].obj);
    case _ =>
  }

  lemma MadeKeyOk<V>(s: State<V>, t: nat, step: Step<V>, k: nat)
    requires ThreadsOk(s) && DataOk(s) && Enabled(s, t, step) && k in Apply(s, t, step).creating
    requires k !in s.creating
    ensures NewOk(Apply(s, t, step), k)
  {
    var s' := Apply(s, t, step);
    forall o | 0 <= o < |s.objects| && s.objects[o].alive ensures s.objects[o].key != k {
      assert ObjectOk(s, o);
      if step.Reuse? { assert FreedOk(s, k); }
    }
    forall u | 0 <= u < |s.pcs| ensures Wanted(s.pcs[u]) != Some(k) {
      assert ThreadOk(s, u);
      if step.Reuse? { assert FreedOk(s, k); }
    }
  }

  lemma FreedKept<V>(s: State<V>, t: nat, step: Step<V>, k: nat)
    requires ThreadsOk(s) && DataOk(s) && Enabled(s, t, step) && k in Apply(s, t, step).freed
    ensures FreedOk(Apply(s, t, step), k)
  {
    assert ThreadOk(s, t);
    if k in s.freed { assert FreedOk(s, k); }
    hide CellOk, DiskOk, Evictable, WorkOk, NewOk, ThreadsOk, NobodyWants, Dropped, Unheld;
    if step.Drop? && k == s.objects[s.pcs[t].obj].key {
      forall o | 0 <= o < |s.objects| && s.objects[o].alive && s.objects[o].key == k ensures o == s.pcs[t].obj {
        OneObject(s, o, s.pcs[t].obj);
      }
    }
  }

  lemma HandleKept<V>(s: State<V>, t: nat, step: Step<V>, h: nat)
    requires ThreadsOk(s) && DataOk(s) && Enabled(s, t, step) && h < |Apply(s, t, step).handles|
    requires InUse(Apply(s, t, step).handles[h])
    ensures IsCached(Apply(s, t, step), Apply(s, t, step).handles[h].obj)
  {
    hide DiskOk, NewOk, FreedOk, Wanted, NeedsFile, Evictable, ObjectOk;
    assert ThreadOk(s, t);
    if h < |s.handles| {
      assert InUse(s.handles[h]);
      CachedKept(s, t, step, s.handles[h].obj);
    } else {
      if step.Clone? { CachedKept(s, t, step, s.handles[step.handle].obj); }
      if step.Hit? || step.FindFilled? { assert CellOk(s, s.pcs[t].key); }
    }
  }

  lemma LengthsKept<V>(s: State<V>, t: nat, step: Step<V>)
    requires DataOk(s) && Enabled(s, t, step)
    ensures var s' := Apply(s, t, step);
            |s'.cells| == |s'.disk| == |s'.written| && forall k :: k in s'.retired ==> k < |s'.cells|
  {
    hide CellOk, ObjectOk, DiskOk, NewOk, FreedOk, IsCached;
  }

  lemma KeepsData<V>(s: State<V>, t: nat, step: Step<V>)
    requires ThreadsOk(s) && DataOk(s) && Enabled(s, t, step)
    ensures DataOk(Apply(s, t, step))
  {
    var s' := Apply(s, t, step);
    hide ThreadsOk, CellOk, ObjectOk, DiskOk, NewOk, FreedOk, IsCached, Apply, Enabled, Wanted;
    LengthsKept(s, t, step);
    forall k | 0 <= k < |s'.cells| ensures CellOk(s', k) { CellKept(s, t, step, k); }
    forall o | 0 <= o < |s'.objects| ensures ObjectOk(s', o) { ObjectKept(s, t, step, o); }
    forall k | 0 <= k < |s'.disk| ensures DiskOk(s', k) { DiskKept(s, t, step, k); }
    forall k | k in s'.creating ensures NewOk(s', k) {
      if k in s.creating { NewKept(s, t, step, k); } else { MadeKeyOk(s, t, step, k); }
    }
    forall k | k in s'.freed ensures FreedOk(s', k) { FreedKept(s, t, step, k); }
    forall h | 0 <= h < |s'.handles| && InUse(s'.handles[h]) ensures IsCached(s', s'.handles[h].obj) {
      HandleKept(s, t, step, h);
    }
  }

  // The byte count -------------------------------------------------------------------------------

  /** The one key whose weight a step may change. */
  ghost function KeyTouched<V>(s: State<V>, t: nat, step: Step<V>): Option<nat>
    requires Enabled(s, t, step)
  {
    match step
    case FinishFill(_) => Some(s.pcs[t].key)
    case Add => Some(s.pcs[t].key)
    case Remove(key) => Some(key)
    case _ => None
  }

  lemma WeightKept<V>(s: State<V>, t: nat, step: Step<V>, k: nat)
    requires ThreadsOk(s) && DataOk(s) && Enabled(s, t, step) && k < |s.cells| && KeyTouched(s, t, step) != Some(k)
    ensures Weight(Apply(s, t, step), k) == Weight(s, k)
  {
    assert ThreadOk(s, t);
    hide ThreadsOk, DataOk, Evictable, Dropped, NeedsFile, ClientHandle, WorkOk, Unheld;
  }

  /** How a step changes the weight of the key it touches. A cell that an eviction takes out has been counted. */
  lemma WeightMoved<V>(s: State<V>, t: nat, step: Step<V>, k: nat)
    requires ThreadsOk(s) && DataOk(s) && Enabled(s, t, step) && KeyTouched(s, t, step) == Some(k)
    ensures k < |s.cells|
    ensures step.FinishFill? ==> Weight(s, k) == Weight(Apply(s, t, step), k) == 0
    ensures step.Remove? ==> Weight(s, k) == s.cells[k].size && Weight(Apply(s, t, step), k) == 0
    ensures step.Add? ==> IsFilled(s, k) && Weight(Apply(s, t, step), k) == s.cells[k].size
    ensures step.Add? ==> Weight(s, k) == if s.cells[k].counted then s.cells[k].size else 0
  {
    assert ThreadOk(s, t);
    if step.Remove? {
      assert CellOk(s, k);
      forall u | 0 <= u < |s.pcs| ensures !s.pcs[u].Adding? { assert ThreadOk(s, u); }
    }
  }

  lemma {:induction false} SumLast(m: seq<nat>, n: nat)
    ensures Sum(m + [n]) == Sum(m) + n
  {
    if m == [] {
      assert m + [n] == [n] && [n][1..] == [];
    } else {
      SumLast(m[1..], n);
      assert (m + [n])[1..] == m[1..] + [n];
    }
  }

  lemma AbsentWeighsNothing<V>(s: State<V>, k: nat)
    requires k < |s.cells| && s.cells[k].Absent?
    ensures Weight(s, k) == 0
  {
  }

  /** A new page adds nothing to the count. */
  lemma AllocateKeepsBytes<V>(s: State<V>, t: nat, step: Step<V>)
    requires Inv(s) && Enabled(s, t, step) && step.Allocate?
    ensures BytesOk(Apply(s, t, step))
  {
    var s' := Apply(s, t, step);
    assert ThreadOk(s, t);
    hide DataOk, ThreadOk, Weight, Sum, ThreadsOk;
    forall k | 0 <= k < |s.cells| ensures Counted(s')[k] == Counted(s)[k] {
      WeightKept(s, t, step, k);
    }
    AbsentWeighsNothing(s', |s.cells|);
    SumLast(Counted(s), 0);
    assert Counted(s') == Counted(s) + [0];
  }

  /** How the count moves against what is on its way to disk and what was added again. */
  lemma CountMoved<V>(s: State<V>, t: nat, step: Step<V>)
    requires ThreadsOk(s) && Enabled(s, t, step) && !step.Allocate?
    ensures var s' := Apply(s, t, step);
            && |s'.cells| == |s.cells|
            && s'.cachedBytes - s'.surplus - Transit(s') + (if step.Remove? then s.cells[step.doomedKey].size else 0)
               == s.cachedBytes - s.surplus - Transit(s)
                  + if step.Add? && !s.cells[s.pcs[t].key].counted then s.cells[s.pcs[t].key].size else 0
  {
    assert ThreadOk(s, t);
    hide ThreadOk, IsFilled, Evictable;
  }

  lemma KeepsBytes<V>(s: State<V>, t: nat, step: Step<V>)
    requires Inv(s) && Enabled(s, t, step) && !step.Allocate?
    ensures BytesOk(Apply(s, t, step))
  {
    var s' := Apply(s, t, step);
    hide DataOk, ThreadOk, Weight, Sum, ThreadsOk, Transit, Apply, Enabled;
    CountMoved(s, t, step);
    forall k | 0 <= k < |s.cells| && KeyTouched(s, t, step) != Some(k) ensures Counted(s')[k] == Counted(s)[k] {
      WeightKept(s, t, step, k);
    }
    match KeyTouched(s, t, step)
    case None =>
      assert Counted(s') == Counted(s);
    case Some(k) =>
      WeightMoved(s, t, step, k);
      SumUpdate(Counted(s), k, Counted(s')[k]);
      assert Counted(s') == Counted(s)[k := Counted(s')[k]];
  }

  lemma Keeps<V>(s: State<V>, t: nat, step: Step<V>)
    requires Inv(s) && Enabled(s, t, step)
    ensures Inv(Apply(s, t, step))
  {
    KeepsThreads(s, t, step);
    KeepsData(s, t, step);
    if step.Allocate? { AllocateKeepsBytes(s, t, step); } else { KeepsBytes(s, t, step); }
  }

  // Over whole runs ------------------------------------------------------------------------------

  /** A cache as it is made, over a disk, with threads that have not called it yet. */
  function Start<V>(disk: seq<V>, threads: nat, maxBytes: nat): State<V> {
    State(Shared({}), None, map[], {}, {}, seq(|disk|, _ => Absent), 0, 0, maxBytes, [], [], disk, disk,
        seq(threads, _ => Outside))
  }

  type Run<V> = seq<(nat, Step<V>)>

  /** Where an interleaving of steps leads, if each step could be taken when it was. */
  function After<V>(s: State<V>, run: Run<V>): Option<State<V>>
    decreases |run|
  {
    if run == [] then Some(s)
    else if Enabled(s, run[0].0, run[0].1) then After(Apply(s, run[0].0, run[0].1), run[1..])
    else None
  }

  lemma {:induction false} ZeroSum(m: seq<nat>)
    requires forall i :: 0 <= i < |m| ==> m[i] == 0
    ensures Sum(m) == 0
  {
    if m != [] { ZeroSum(m[1..]); }
  }

  lemma StartInv<V>(disk: seq<V>, threads: nat, maxBytes: nat)
    ensures Inv(Start(disk, threads, maxBytes))
  {
    ZeroSum(Counted(Start(disk, threads, maxBytes)));
  }

  lemma {:induction false} RunKeeps<V>(s: State<V>, run: Run<V>)
    requires Inv(s) && After(s, run).Some?
    ensures Inv(After(s, run).value)
    decreases |run|
  {
    if run != [] {
      Keeps(s, run[0].0, run[0].1);
      RunKeeps(Apply(s, run[0].0, run[0].1), run[1..]);
    }
  }

  ghost predicate Reachable<V(!new)>(s: State<V>) {
    exists disk, threads, maxBytes, run :: After(Start(disk, threads, maxBytes), run) == Some(s)
  }

  lemma ReachableInv<V(!new)>(s: State<V>)
    requires Reachable(s)
    ensures Inv(s)
  {
    var disk, threads, maxBytes, run :| After(Start(disk, threads, maxBytes), run) == Some(s);
    StartInv(disk, threads, maxBytes);
    RunKeeps(Start(disk, threads, maxBytes), run);
  }

  /** In every interleaving there is at most one object for a key, in the cache, in transit or in anyone's hands. */
  lemma AtMostOneObject<V(!new)>(s: State<V>, o: nat, p: nat)
    requires Reachable(s) && o < |s.objects| && p < |s.objects|
    requires s.objects[o].alive && s.objects[p].alive && s.objects[o].key == s.objects[p].key
    ensures o == p
  {
    ReachableInv(s);
    OneObject(s, o, p);
  }

  /** In every interleaving a handle shows the last value written for its key, and it is the one the cache has. */
  lemma HandlesSeeLastWrite<V(!new)>(s: State<V>, h: nat)
    requires Reachable(s) && h < |s.handles| && InUse(s.handles[h])
    ensures var o := s.handles[h].obj;
            && o < |s.objects| && s.objects[o].alive && s.objects[o].key < |s.written| == |s.cells|
            && s.objects[o].value == s.written[s.objects[o].key]
            && s.cells[s.objects[o].key].Filled? && s.cells[s.objects[o].key].obj == o
  {
    ReachableInv(s);
    assert IsCached(s, s.handles[h].obj) && ObjectOk(s, s.handles[h].obj);
  }

  /**
   In every interleaving, a key without an object has its last value on disk, unless its page is still being made, or it
   was given up and its pages are free.
   */
  lemma NothingLost<V(!new)>(s: State<V>, k: nat)
    requires Reachable(s) && k < |s.disk|
    requires forall o :: 0 <= o < |s.objects| && s.objects[o].alive ==> s.objects[o].key != k
    ensures k < |s.written| && (k in s.creating || k in s.freed || s.disk[k] == s.written[k])
  {
    ReachableInv(s);
    assert DiskOk(s, k);
  }

  /** What an eviction removes, nobody holds, then or while it is on its way to disk. */
  lemma EvictsOnlyUnheld<V(!new)>(s: State<V>, t: nat, step: Step<V>)
    requires Reachable(s) && Enabled(s, t, step)
    ensures step.Remove? ==> Unheld(s, s.cells[step.doomedKey].obj)
    ensures step.Drop? ==> Unheld(s, s.pcs[t].obj) && s.objects[s.pcs[t].obj].alive
  {
    ReachableInv(s);
    assert ThreadOk(s, t);
  }

  /** Taking a size off the byte count, or off an eviction's reading of it, never goes below zero. */
  lemma NoUnderflow<V(!new)>(s: State<V>, t: nat)
    requires Reachable(s) && Enabled(s, t, Drop)
    ensures s.pcs[t].size <= s.cachedBytes && s.pcs[t].size <= s.pcs[t].work.total
  {
    ReachableInv(s);
    assert ThreadOk(s, t);
  }

  /** The sizes of all filled cells. */
  ghost function Sizes<V>(s: State<V>): seq<nat> {
    seq(|s.cells|, k requires 0 <= k < |s.cells| => if s.cells[k].Filled? then s.cells[k].size else 0)
  }

  /** When an eviction runs, the byte count is the size of all that is cached and what was added again, ever. */
  lemma CountIs<V(!new)>(s: State<V>, t: nat)
    requires Reachable(s) && t < |s.pcs| && s.pcs[t].Evicting?
    ensures s.cachedBytes == Sum(Sizes(s)) + s.surplus
  {
    ReachableInv(s);
    assert ThreadOk(s, t);
    forall u | 0 <= u < |s.pcs| ensures !s.pcs[u].Adding? {
      assert ThreadOk(s, u);
    }
    forall k | 0 <= k < |s.cells| ensures Counted(s)[k] == Sizes(s)[k] {
      assert CellOk(s, k);
    }
    assert Counted(s) == Sizes(s);
  }

  /**
   A call that finds the cache over its limit does not return before it has run an eviction of everything that nobody
   holds, and no other call runs one.
   */
  lemma FullCacheEvicts<V>(s: State<V>, t: nat, step: Step<V>)
    requires Enabled(s, t, step)
    ensures step.Add? ==> (Apply(s, t, step).pcs[t].Overfull? <==> s.cachedBytes > s.maxBytes)
    ensures step.Add? ==> Apply(s, t, step).pcs[t].Overfull? || Apply(s, t, step).pcs[t].Outside?
    ensures s.pcs[t].Overfull? ==> step == LockToEvict
    ensures step.LockToEvict? ==> s.pcs[t].Overfull? && Apply(s, t, step).pcs[t].Evicting?
                                  && Apply(s, t, step).pcs[t].work.picked == Evictable(s)
    ensures s.pcs[t].Evicting? && Apply(s, t, step).pcs[t].Outside? ==> step == EndEviction
  {
  }

  /**
   An eviction that ends has brought the byte count below half of what the cache may hold, or has removed everything
   that nobody held when it began, as a flush always does.
   */
  lemma EvictsEnough<V(!new)>(s: State<V>, t: nat)
    requires Reachable(s) && Enabled(s, t, EndEviction)
    ensures var work := s.pcs[t].work;
            || (work.goal.Some? && s.cachedBytes < s.maxBytes / 2)
            || forall k :: k in work.picked ==> k < |s.cells| && s.cells[k].Absent?
  {
    ReachableInv(s);
    assert ThreadOk(s, t);
  }

  /** A key is free to be handed out again only when it is out of the cache and nobody has or looks up its object. */
  lemma FreedIsGone<V(!new)>(s: State<V>, k: nat)
    requires Reachable(s) && k in s.freed
    ensures k < |s.cells| && s.cells[k].Absent?
    ensures forall o :: 0 <= o < |s.objects| && s.objects[o].alive ==> s.objects[o].key != k
    ensures forall h :: 0 <= h < |s.handles| && InUse(s.handles[h]) ==>
              s.handles[h].obj < |s.objects| && s.objects[s.handles[h].obj].key != k
    ensures forall t :: 0 <= t < |s.pcs| ==> Wanted(s.pcs[t]) != Some(k)
  {
    ReachableInv(s);
    assert FreedOk(s, k);
    forall h | 0 <= h < |s.handles| && InUse(s.handles[h])
      ensures s.handles[h].obj < |s.objects| && s.objects[s.handles[h].obj].key != k
    {
      assert IsCached(s, s.handles[h].obj);
    }
    forall t | 0 <= t < |s.pcs| ensures Wanted(s.pcs[t]) != Some(k) {
      assert ThreadOk(s, t);
    }
  }

  /**
   The call that makes a page never finds the page in the cache, also where its key was freed before and is handed out
   again: nobody else looks it up, and where its cell is not filled yet the call's own closure fills it.
   */
  lemma NewPageInserts<V(!new)>(s: State<V>, t: nat)
    requires Reachable(s) && t < |s.pcs| && Wanted(s.pcs[t]).Some? && Wanted(s.pcs[t]).value in s.creating
    ensures !Enabled(s, t, Hit) && !Enabled(s, t, FindFilled)
    ensures s.pcs[t].Filling? ==> Enabled(s, t, StartFill)
    ensures forall u :: 0 <= u < |s.pcs| && u != t ==> Wanted(s.pcs[u]) != Wanted(s.pcs[t])
  {
    ReachableInv(s);
    var k := Wanted(s.pcs[t]).value;
    assert ThreadOk(s, t) && NewOk(s, k) && CellOk(s, k);
    hide Inv, NewOk, FreedOk, Evictable, Unheld, WorkOk, Reachable;
    assert !IsFilled(s, k);
  }

  /** The next step for a thread that waits for the page file or has it. */
  lemma WithFile<V(!new, 00)>(s: State<V>, u: nat) returns (w: nat, step: Step<V>)
    requires Inv(s) && u < |s.pcs| && (s.pcs[u].Asked? || NeedsFile(s, s.pcs[u]))
    ensures w < |s.pcs| && !s.pcs[w].Outside? && Enabled(s, w, step)
  {
    if s.file == None {
      w, step := u, if s.pcs[u].Asked? then Check else LockFile;
    } else {
      w := s.file.value;
      assert ThreadOk(s, w);
      match s.pcs[w]
      case NewCalled =>
        var v: V :| true;
        step := Allocate(v, v);
      case Initializing(_) => step := FinishFill(0);
      case Dropping(o, _, _) =>
        assert ObjectOk(s, o);
        step := Drop;
    }
  }

  /** The next step of a thread inside a call that holds a lock, or that waits for a lock nobody holds. */
  lemma GoesOn<V(!new)>(s: State<V>, u: nat) returns (step: Step<V>)
    requires Inv(s) && u < |s.pcs| && !s.pcs[u].Outside? && !s.pcs[u].Filling?
    requires !s.pcs[u].Asked? && !NeedsFile(s, s.pcs[u])
    requires Reader(s.pcs[u]) || Writer(s.pcs[u]) || s.lock == Shared({})
    ensures Enabled(s, u, step)
  {
    hide Inv, Unheld;
    ThreadsFollowInv(s, u);
    match s.pcs[u]
    case Called(_) => step := LockToRead;
    case Reading(key) => step := if IsFilled(s, key) then Hit else Miss;
    case Missed(_) => step := LockToInsert;
    case Inserting(_) => step := Insert;
    case Initializing(_) => step := FinishFill(0);
    case Adding(_, _) => step := Add;
    case Overfull(_) => step := LockToEvict;
    case FlushCalled => step := LockToFlush;
    case Evicting(work) =>
      if work.doomed == {} {
        step := EndEviction;
      } else {
        var k :| k in work.doomed;
        step := Remove(k);
      }
  }

  /** While some thread is inside a call, some thread inside a call can go on: the locks cannot deadlock. */
  lemma NoDeadlock<V(!new, 00)>(s: State<V>, t: nat) returns (u: nat, step: Step<V>)
    requires Reachable(s) && t < |s.pcs| && !s.pcs[t].Outside?
    ensures u < |s.pcs| && !s.pcs[u].Outside? && Enabled(s, u, step)
  {
    ReachableInv(s);
    hide Inv, WorkOk, CellOk, DataOk, Enabled, OwnHandle, NeedsFile;
    u := t;
    if s.lock.Exclusive? {
      u := s.lock.writer;
    } else if s.lock.readers != {} {
      var r :| r in s.lock.readers;
      u := r;
    }
    ThreadsFollowInv(s, u);
    if s.pcs[u].Filling? {
      u, step := FillingGoesOn(s, u);
    } else if s.pcs[u].Asked? || NeedsFile(s, s.pcs[u]) {
      u, step := WithFile(s, u);
    } else {
      step := GoesOn(s, u);
    }
  }

  lemma ThreadsFollowInv<V>(s: State<V>, u: nat)
    requires Inv(s)
    ensures s.lock.Exclusive? ==> s.lock.writer < |s.pcs|
    ensures s.lock.Shared? ==> forall r :: r in s.lock.readers ==> r < |s.pcs|
    ensures u < |s.pcs| ==> ThreadOk(s, u)
    ensures |s.cells| == |s.disk|
  {
  }

  lemma FillingGoesOn<V(!new, 00)>(s: State<V>, r: nat) returns (u: nat, step: Step<V>)
    requires Inv(s) && r < |s.pcs| && s.pcs[r].Filling?
    ensures u < |s.pcs| && !s.pcs[u].Outside? && Enabled(s, u, step)
  {
    assert ThreadOk(s, r) && CellOk(s, s.pcs[r].key);
    match s.cells[s.pcs[r].key]
    case Running(filler) =>
      assert ThreadOk(s, filler);
      if NeedsFile(s, s.pcs[filler]) {
        u, step := WithFile(s, filler);
      } else {
        u, step := filler, FinishFill(0);
      }
    case Empty => u, step := r, StartFill;
    case Filled(_, _, _) => u, step := r, FindFilled;
  }

  // The byte count is not exact ------------------------------------------------------------------

  lemma {:induction false} AfterStep<V>(s0: State<V>, run: Run<V>, t: nat, step: Step<V>)
    requires After(s0, run).Some? && Enabled(After(s0, run).value, t, step)
    ensures After(s0, run + [(t, step)]) == Some(Apply(After(s0, run).value, t, step))
    decreases |run|
  {
    hide Enabled, Apply;
    var more := run + [(t, step)];
    if run == [] {
      assert more[1..] == [];
    } else {
      assert more[0] == run[0] && more[1..] == run[1..] + [(t, step)];
      AfterStep(Apply(s0, run[0].0, run[0].1), run[1..], t, step);
    }
  }

  lemma ReachableStep<V(!new)>(s: State<V>, t: nat, step: Step<V>)
    requires Reachable(s) && Enabled(s, t, step)
    ensures Reachable(Apply(s, t, step))
  {
    hide Enabled, Apply;
    var disk, threads, maxBytes, run :| After(Start(disk, threads, maxBytes), run) == Some(s);
    AfterStep(Start(disk, threads, maxBytes), run, t, step);
  }

  /** One of two threads asks for a key that is not in the cache, and finds that it is not. */
  lemma AsksAndMisses<V(!new)>(s: State<V>, t: nat) returns (s': State<V>)
    requires Reachable(s) && t < |s.pcs| && s.pcs[t].Outside? && s.lock == Shared({}) && s.file == None
    requires 0 < |s.cells| && !IsFilled(s, 0) && 0 !in s.creating && 0 !in s.retired
    ensures Reachable(s') && s' == s.(pcs := s.pcs[t := Missed(0)])
  {
    hide Reachable;
    ReachableStep(s, t, CallGet(0));
    var s1 := Apply(s, t, CallGet(0));
    ReachableStep(s1, t, Check);
    var s2 := Apply(s1, t, Check);
    ReachableStep(s2, t, LockToRead);
    var s3 := Apply(s2, t, LockToRead);
    ReachableStep(s3, t, Miss);
    s' := Apply(s3, t, Miss);
  }

  /** A thread that has missed a key makes its cell. */
  lemma MakesCell<V(!new)>(s: State<V>, t: nat) returns (s': State<V>)
    requires Reachable(s) && t < |s.pcs| && s.pcs[t] == Missed(0) && s.lock == Shared({})
    requires |s.cells| == 1 && s.cells[0] == Absent
    ensures Reachable(s')
    ensures s' == s.(lock := Shared({t}), cells := [Running(t)], pcs := s.pcs[t := Initializing(0)])
  {
    hide Reachable;
    ReachableStep(s, t, LockToInsert);
    var s1 := Apply(s, t, LockToInsert);
    ReachableStep(s1, t, Insert);
    var s2 := Apply(s1, t, Insert);
    ReachableStep(s2, t, StartFill);
    s' := Apply(s2, t, StartFill);
  }

  /** It fills the cell and adds the size. */
  lemma FillsAndAdds<V(!new)>(s: State<V>, t: nat, size: nat) returns (s': State<V>)
    requires Reachable(s) && t < |s.pcs| && s.pcs[t] == Initializing(0) && s.lock == Shared({t}) && s.file == None
    requires |s.cells| == |s.disk| == 1 && s.cells[0] == Running(t) && s.creating == map[]
    requires s.cachedBytes <= s.maxBytes
    ensures Reachable(s')
    ensures s' == s.(cells := [Filled(size, |s.objects|, true)], cachedBytes := s.cachedBytes + size,
                     objects := s.objects + [Object(0, s.disk[0], true)],
                     handles := s.handles + [Handle(|s.objects|, Client)],
                     lock := Shared({}), pcs := s.pcs[t := Outside])
  {
    hide Reachable;
    ReachableStep(s, t, LockFile);
    var s1 := Apply(s, t, LockFile);
    ReachableStep(s1, t, FinishFill(size));
    var s2 := Apply(s1, t, FinishFill(size));
    ReachableStep(s2, t, Add);
    s' := Apply(s2, t, Add);
    assert s'.creating == s.creating && s'.pcs == s.pcs[t := Outside] && s'.lock == Shared({});
    assert s'.handles == s.handles + [Handle(|s.objects|, Client)];
  }

  /** A thread that has missed a key comes to its cell when that is filled. */
  lemma FindsFilled<V(!new)>(s: State<V>, t: nat) returns (s': State<V>)
    requires Reachable(s) && t < |s.pcs| && s.pcs[t] == Missed(0) && s.lock == Shared({}) && s.file == None
    requires |s.cells| == 1 && s.cells[0].Filled?
    ensures Reachable(s') && s'.pcs == s.pcs[t := Adding(0, |s.handles|)] && |s'.handles| == |s.handles| + 1
    ensures s'.cells == s.cells && s'.cachedBytes == s.cachedBytes && s'.maxBytes == s.maxBytes
    ensures s'.surplus == s.surplus
  {
    hide Reachable;
    ReachableStep(s, t, LockToInsert);
    var s1 := Apply(s, t, LockToInsert);
    ReachableStep(s1, t, Insert);
    var s2 := Apply(s1, t, Insert);
    ReachableStep(s2, t, FindFilled);
    s' := Apply(s2, t, FindFilled);
  }

  /** It adds the size once more. */
  lemma AddsAgain<V(!new)>(s: State<V>, t: nat) returns (s': State<V>)
    requires Reachable(s) && t < |s.pcs| && s.pcs[t] == Missed(0) && s.lock == Shared({}) && s.file == None
    requires |s.cells| == 1 && s.cells[0].Filled? && s.cells[0].counted && s.cachedBytes <= s.maxBytes
    ensures Reachable(s') && s'.cells == s.cells && s'.cachedBytes == s.cachedBytes + s.cells[0].size
    ensures s'.surplus == s.surplus + s.cells[0].size
  {
    hide Reachable;
    var s1 := FindsFilled(s, t);
    ReachableStep(s1, t, Add);
    s' := Apply(s1, t, Add);
  }

  /** Two threads that miss the same key at the same time both add its size: the count is twice what is cached. */
  lemma CountExceeds<V(!new)>(v: V, size: nat) returns (s: State<V>)
    ensures Reachable(s) && s.cells == [Filled(size, 0, true)] && s.cachedBytes == 2 * size && s.surplus == size
  {
    hide Apply, Enabled, Reachable;
    s := Start([v], 2, size);
    StartReachable([v], 2, size);
    s := AsksAndMisses(s, 0);
    s := AsksAndMisses(s, 1);
    s := MakesCell(s, 0);
    s := FillsAndAdds(s, 0, size);
    s := AddsAgain(s, 1);
  }

  // A key is handed out again --------------------------------------------------------------------

  /** The client of the one object gives it up, drops its handle and starts a flush. */
  lemma GivesUp<V(!new)>(s: State<V>, size: nat) returns (s': State<V>)
    requires Reachable(s) && s.pcs == [Outside] && s.lock == Shared({}) && s.file == None && |s.written| == 1
    requires |s.objects| == 1 && s.objects[0].key == 0 && s.handles == [Handle(0, Client)]
    requires s.cells == [Filled(size, 0, true)] && s.cachedBytes == size
    ensures Reachable(s')
    ensures s' == s.(retired := s.retired + {0}, handles := [Handle(0, Nobody)], lock := Exclusive(0),
                     pcs := [Evicting(Eviction({0}, {0}, size, None, None))])
  {
    hide Reachable;
    ReachableStep(s, 0, GiveUp(0));
    var s1 := Apply(s, 0, GiveUp(0));
    ReachableStep(s1, 0, Release(0));
    var s2 := Apply(s1, 0, Release(0));
    ReachableStep(s2, 0, CallFlush);
    var s3 := Apply(s2, 0, CallFlush);
    ReachableStep(s3, 0, LockToFlush);
    s' := Apply(s3, 0, LockToFlush);
    assert Evictable(s3) == {0};
  }

  /** The flush drops the object, which frees its pages. */
  lemma DropsFreed<V(!new)>(s: State<V>, size: nat) returns (s': State<V>)
    requires Reachable(s) && s.lock == Exclusive(0) && s.file == None && |s.disk| == 1 && 0 in s.retired
    requires s.pcs == [Evicting(Eviction({0}, {0}, size, None, None))]
    requires |s.objects| == 1 && s.objects[0].key == 0 && s.cells == [Filled(size, 0, true)]
    requires s.cachedBytes == size
    ensures Reachable(s') && s'.pcs == [Outside] && s'.lock == Shared({}) && s'.file == None && s'.cachedBytes == 0
    ensures s'.creating == s.creating && s'.freed == s.freed + {0} && s'.cells == [Absent]
    ensures s'.disk == s.disk && s'.written == s.written
  {
    hide Reachable;
    ReachableStep(s, 0, Remove(0));
    var s1 := Apply(s, 0, Remove(0));
    ReachableStep(s1, 0, LockFile);
    var s2 := Apply(s1, 0, LockFile);
    ReachableStep(s2, 0, Drop);
    var s3 := Apply(s2, 0, Drop);
    ReachableStep(s3, 0, EndEviction);
    s' := Apply(s3, 0, EndEviction);
  }

  /** A key that was given up comes back with another value, which its old one does not show through. */
  lemma KeyComesBack<V(!new)>(v: V, w: V, size: nat) returns (s: State<V>)
    ensures Reachable(s) && s.creating == map[0 := w] && s.written == [w] && s.pcs == [Called(0)]
    ensures s.cells == [Absent] && s.freed == {} && s.cachedBytes == 0
  {
    hide Apply, Enabled, Reachable;
    s := Start([v], 1, size);
    StartReachable([v], 1, size);
    s := AsksAndMisses(s, 0);
    s := MakesCell(s, 0);
    s := FillsAndAdds(s, 0, size);
    s := GivesUp(s, size);
    s := DropsFreed(s, size);
    s := Reuses(s, v, w);
  }

  lemma Reuses<V(!new)>(s: State<V>, junk: V, w: V) returns (s': State<V>)
    requires Reachable(s) && s.pcs == [Outside] && s.file == None && s.freed == {0} && |s.disk| == |s.written| == 1
    requires s.creating == map[]
    ensures Reachable(s') && s'.creating == map[0 := w] && s'.written == [w] && s'.pcs == [Called(0)]
    ensures s'.cells == s.cells && s'.freed == {} && s'.cachedBytes == s.cachedBytes
  {
    hide Reachable;
    ReachableStep(s, 0, CallNew);
    var s1 := Apply(s, 0, CallNew);
    ReachableStep(s1, 0, LockFile);
    var s2 := Apply(s1, 0, LockFile);
    ReachableStep(s2, 0, Reuse(0, w, junk));
    s' := Apply(s2, 0, Reuse(0, w, junk));
  }

  lemma StartReachable<V(!new)>(disk: seq<V>, threads: nat, maxBytes: nat)
    ensures Reachable(Start(disk, threads, maxBytes))
  {
    assert After(Start(disk, threads, maxBytes), []) == Some(Start(disk, threads, maxBytes));
  }
}
