/** Sessions of the block cache (rtos/fs/dcache.c) with any number of blocks held at once: locks, reads, writes,
    unlocks, flushes and purges in any order, over a disk whose transfers fail at will. */
module DiskCacheSessions {
  import opened IndexLists
  import opened HashedLists
  import opened DiskCaches
  import opened DiskCacheCode

  datatype Op =
    | Lock(key: Key)
    | Read(i: int)
    | Write(i: int, b: Block)
    | Unlock(i: int, now: nat)
    | Flush
    | Purge(device: int, cont: bool)

  /** An operation on an entry that is not held, or not held alone where it must be, is refused, and so is a lock that
      finds no room and a purge of a device in use. */
  datatype Answer =
    | Refused
    | Locked(i: int)
    | Contents(key: Key, b: Block)
    | Written(key: Key)
    | Unlocked
    | Flushed(ret: int)
    | Purged(ret: int)

  datatype Expected = Known(b: Block) | Lost

  /** A plain disk: a sector holds what was last written to it.  What is in `losses` was lost by the operation at that
      place. */
  function Plain(first: Block, ops: seq<Op>, answers: seq<Answer>, losses: seq<set<Key>>, n: nat, key: Key): Expected
    requires n <= |ops| && n <= |answers| == |losses|
  {
    if n == 0 then Known(first)
    else if answers[n - 1] == Written(key) && ops[n - 1].Write? then Known(ops[n - 1].b)
    else if key in losses[n - 1] then Lost
    else Plain(first, ops, answers, losses, n - 1, key)
  }

  lemma {:induction false} PlainPrefix(first: Block, ops: seq<Op>, answers: seq<Answer>, losses: seq<set<Key>>,
                                       a: Answer, lost: set<Key>, n: nat, key: Key)
    requires n <= |ops| && n <= |answers| == |losses|
    ensures Plain(first, ops, answers + [a], losses + [lost], n, key) == Plain(first, ops, answers, losses, n, key)
  {
    if n > 0 {
      PlainPrefix(first, ops, answers, losses, a, lost, n - 1, key);
    }
  }

  predicate Held(st: State, i: int) {
    0 <= i < |st.entries| && st.entries[i].used > 0
  }

  lemma HeldIsCached(st: State, disk: map<Key, Block>, i: int)
    requires Inv(st, disk) && Held(st, i)
    ensures Cached(st, i)
  {
    assert EntryOk(st, i);
  }

  // ---------- counting what is held ----------

  function Uses(e: Entry): nat {
    if e.used > 0 then e.used else 0
  }

  /** The references to all entries together. */
  function References(entries: seq<Entry>): nat {
    if entries == [] then 0 else Uses(entries[0]) + References(entries[1..])
  }

  /** The entries that are on no list. */
  function LostEntries(place: seq<Place>): nat {
    if place == [] then 0 else (if place[0] == Out then 1 else 0) + LostEntries(place[1..])
  }

  lemma {:induction false} ReferencesSame(entries: seq<Entry>, entries': seq<Entry>)
    requires |entries'| == |entries| && forall j :: 0 <= j < |entries| ==> Uses(entries'[j]) == Uses(entries[j])
    ensures References(entries') == References(entries)
  {
    if entries != [] {
      assert Uses(entries'[0]) == Uses(entries[0]);
      ReferencesSame(entries[1..], entries'[1..]);
    }
  }

  /** Only entry i has another number of references. */
  lemma {:induction false} ReferencesMove(entries: seq<Entry>, entries': seq<Entry>, i: nat)
    requires |entries'| == |entries| && i < |entries|
    requires forall j :: 0 <= j < |entries| && j != i ==> Uses(entries'[j]) == Uses(entries[j])
    ensures References(entries') == References(entries) - Uses(entries[i]) + Uses(entries'[i])
  {
    if i == 0 {
      ReferencesSame(entries[1..], entries'[1..]);
    } else {
      ReferencesMove(entries[1..], entries'[1..], i - 1);
    }
  }

  /** Entries that are lost stay lost. */
  lemma {:induction false} LostEntriesGrow(place: seq<Place>, place': seq<Place>)
    requires |place'| == |place| && forall j :: 0 <= j < |place| && place[j] == Out ==> place'[j] == Out
    ensures LostEntries(place') >= LostEntries(place)
  {
    if place != [] {
      assert place[0] == Out ==> place'[0] == Out;
      LostEntriesGrow(place[1..], place'[1..]);
    }
  }

  /** With every entry in use or lost there are as many references and lost entries as entries. */
  lemma {:induction false} FullCounted(entries: seq<Entry>, place: seq<Place>)
    requires |place| == |entries| && forall j :: 0 <= j < |entries| ==> place[j] == Out || Uses(entries[j]) > 0
    ensures References(entries) + LostEntries(place) >= |entries|
  {
    if entries != [] {
      assert place[0] == Out || Uses(entries[0]) > 0;
      FullCounted(entries[1..], place[1..]);
    }
  }

  lemma NoRoomIsFull(st: State, disk: map<Key, Block>)
    requires Inv(st, disk) && st.lists.free == [] && forall j :: !Idle(st, j)
    ensures References(st.entries) + LostEntries(st.lists.place) >= |st.entries|
  {
    forall j | 0 <= j < |st.entries| ensures st.lists.place[j] == Out || Uses(st.entries[j]) > 0 {
      assert EntryOk(st, j) && st.lists.Placed(j) && !Idle(st, j);
    }
    FullCounted(st.entries, st.lists.place);
  }

  /** Locks answered with an entry, less unlocks. */
  function Outstanding(answers: seq<Answer>): int {
    if answers == [] then 0
    else Outstanding(answers[..|answers| - 1]) + Count(answers[|answers| - 1])
  }

  function Count(a: Answer): int {
    match a
    case Locked(_) => 1
    case Unlocked => -1
    case _ => 0
  }

  /** Every stamp is before the bound from which the eviction scan starts. */
  ghost predicate Timed(st: State) {
    forall j :: 0 <= j < |st.entries| ==> st.entries[j].time < NEVER
  }

  predicate Timely(op: Op) {
    op.Unlock? ==> op.now < NEVER
  }

  predicate AllTimely(ops: seq<Op>) {
    forall op :: op in ops ==> Timely(op)
  }

  /** A refused lock has found no room. */
  ghost predicate RefusedLock(op: Op, a: Answer) {
    op.Lock? && a == Refused
  }

  // ---------- one operation ----------

  /** Whether some block of the device is held. */
  method InUse(c: DiskCache, device: int) returns (r: bool)
    requires c.Valid()
    ensures r <==> !c.Unused(device)
  {
    r := false;
    for j := 0 to c.dcache.Length
      invariant !r && forall k :: 0 <= k < j && Cached(c.Abs(), k) && c.dcache[k].key.device == device ==>
                  c.dcache[k].used == 0
    {
      assert EntryOk(c.Abs(), j);
      if c.dcache[j].used > 0 && c.dcache[j].key.device == device { return true; }
    }
  }

  /** What an operation does to the content of a sector. */
  ghost predicate Effect(op: Op, a: Answer, lost: set<Key>, was: Block, now: Block, key: Key) {
    if a == Written(key) && op.Write? then now == op.b else now == was || key in lost
  }

  /** Only a purge that goes on after errors loses anything: the blocks of its device whose own write-back failed. */
  ghost predicate Loses(op: Op, a: Answer, lost: set<Key>, was: multiset<Key>, failed: multiset<Key>) {
    && (forall key :: key in lost <==> op.Purge? && op.cont && a.Purged? && failed[key] > was[key])
    && OnlyPurgeLoses(op, a, lost)
  }

  predicate OnlyPurgeLoses(op: Op, a: Answer, lost: set<Key>) {
    lost != {} ==>
      && op.Purge? && op.cont && a.Purged? && a.ret != 0
      && forall key :: key in lost ==> key.device == op.device
  }

  /** When an operation is carried out, and what it answers. */
  ghost predicate Answers(op: Op, a: Answer, st: State, disk: map<Key, Block>, st': State) {
    match op
    case Lock(key) => a == Refused || (a.Locked? && Holds(st', a.i, key) && Held(st', a.i))
    case Read(i) =>
      if Held(st, i) then a == Contents(st.entries[i].key, View(st, disk, st.entries[i].key)) else a == Refused
    case Write(i, _) => if Held(st, i) && st.entries[i].used == 1 then a == Written(st.entries[i].key) else a == Refused
    case Unlock(i, now) =>
      if Held(st, i) then
        a == Unlocked
        && st' == WithEntry(st, i, st.entries[i].(used := st.entries[i].used - 1, time := now))
      else a == Refused
    case Flush => a.Flushed?
    case Purge(device, _) =>
      if exists j :: Cached(st, j) && st.entries[j].key.device == device && st.entries[j].used != 0 then a == Refused
      else a.Purged?
  }

  /** A flush or a purge reports an error exactly when a transfer has failed in it. */
  predicate Honest(a: Answer, failures: int) {
    match a
    case Flushed(ret) => ret == if failures == 0 then 0 else -1
    case Purged(ret) => ret == if failures == 0 then 0 else -1
    case _ => true
  }

  /** Nothing of a device stays in the cache when a purge of it runs to its end. */
  ghost predicate Emptied(op: Op, a: Answer, st: State) {
    op.Purge? && a.Purged? && (a.ret == 0 || op.cont) ==>
      forall j :: Cached(st, j) ==> st.entries[j].key.device != op.device
  }

  /** What else it does: references follow the answer, an entry that is held keeps its key, stamps stay below the bound,
      lost entries stay lost. */
  ghost predicate Keeps(op: Op, a: Answer, st: State, st': State) {
    && |st'.entries| == |st.entries| == |st.lists.place| == |st'.lists.place|
    && References(st'.entries) == References(st.entries) + Count(a)
    && (forall j :: Held(st', j) && a != Locked(j) ==> Held(st, j) && st'.entries[j].key == st.entries[j].key)
    && (Timed(st) && Timely(op) ==> Timed(st'))
    && forall j :: 0 <= j < |st.lists.place| && st.lists.place[j] == Out ==> st'.lists.place[j] == Out
  }

  ghost predicate Done(op: Op, a: Answer, lost: set<Key>, st: State, disk: map<Key, Block>, st': State,
                       disk': map<Key, Block>)
  {
    && Answers(op, a, st, disk, st') && Keeps(op, a, st, st')
    && forall key :: Effect(op, a, lost, View(st, disk, key), View(st', disk', key), key)
  }

  /** A lock changes no other entry, but that it may free one. */
  lemma LockKeeps(st: State, disk: map<Key, Block>, st': State, key: Key, i: int)
    requires Inv(st, disk) && |st'.entries| == |st.entries| == |st'.lists.place|
    requires forall j :: 0 <= j < |st.entries| && j != i ==>
               st'.entries[j] == st.entries[j] || st'.entries[j].used == -1
    requires forall j :: 0 <= j < |st.entries| && j != i && st.entries[j].used > 0 ==> st'.entries[j] == st.entries[j]
    requires forall j :: 0 <= j < |st.entries| ==> st'.entries[j].time == st.entries[j].time
    requires forall j :: 0 <= j < |st.entries| && st.lists.place[j] == Out ==> st'.lists.place[j] == Out
    requires i != NIL ==> 0 <= i < |st.entries| && Uses(st'.entries[i]) == Uses(st.entries[i]) + 1
    ensures Keeps(Lock(key), if i == NIL then Refused else Locked(i), st, st')
  {
    if i == NIL {
      ReferencesSame(st.entries, st'.entries);
    } else {
      ReferencesMove(st.entries, st'.entries, i);
    }
  }

  method LockOne(c: DiskCache, key: Key) returns (a: Answer)
    requires c.Valid()
    modifies c`freeindex, c`lists, c.next, c.prev, c.dcache, c.dhash, c.disk
    ensures c.Valid() && c.disk.failures >= old(c.disk.failures)
    ensures Done(Lock(key), a, {}, old(c.Abs()), old(c.disk.sectors), c.Abs(), c.disk.sectors)
    ensures a == Refused && Timed(old(c.Abs())) && c.disk.failures == old(c.disk.failures) ==>
              References(old(c.Abs()).entries) + LostEntries(old(c.lists.place)) >= c.dcache.Length
  {
    ghost var st, disk, failures := c.Abs(), c.disk.sectors, c.disk.failures;
    var i := c.GenLock(key);
    a := if i == NIL then Refused else Locked(i);
    if i == NIL && Timed(st) && c.disk.failures == failures {
      assert Stamped(st);
      NoRoomIsFull(st, disk);
    }
    if i != NIL {
      if h :| Holds(st, h, key) {
        assert EntryOk(st, h);
      }
    }
    LockKeeps(st, disk, c.Abs(), key, i);
  }

  /** One entry changes and keeps its key. */
  lemma EntryKeeps(op: Op, a: Answer, st: State, i: int, e: Entry)
    requires |st.lists.place| == |st.entries| && Held(st, i) && !a.Locked?
    requires e.key == st.entries[i].key && Uses(e) == Uses(st.entries[i]) + Count(a)
    requires Timely(op) && st.entries[i].time < NEVER ==> e.time < NEVER
    ensures Keeps(op, a, st, WithEntry(st, i, e))
  {
    ReferencesMove(st.entries, WithEntry(st, i, e).entries, i);
  }

  method ReadOne(c: DiskCache, i: int) returns (a: Answer)
    requires c.Valid()
    ensures Done(Read(i), a, {}, c.Abs(), c.disk.sectors, c.Abs(), c.disk.sectors)
  {
    a := Refused;
    if 0 <= i < c.dcache.Length && c.dcache[i].used > 0 {
      HeldIsCached(c.Abs(), c.disk.sectors, i);
      ViewCached(c.Abs(), c.disk.sectors, i);
      a := Contents(c.dcache[i].key, c.dcache[i].buffer);
    }
  }

  method WriteOne(c: DiskCache, i: int, b: Block) returns (a: Answer)
    requires c.Valid()
    modifies c.dcache
    ensures c.Valid()
    ensures Done(Write(i, b), a, {}, old(c.Abs()), old(c.disk.sectors), c.Abs(), c.disk.sectors)
  {
    ghost var st, disk := c.Abs(), c.disk.sectors;
    a := Refused;
    if 0 <= i < c.dcache.Length && c.dcache[i].used == 1 {
      HeldIsCached(st, disk, i);
      c.WriteBlock(i, b);
      a := Written(c.dcache[i].key);
      assert forall key :: c.Content(key) == View(c.Abs(), c.disk.sectors, key);
      assert forall key :: old(c.Content(key)) == View(st, disk, key);
      EntryKeeps(Write(i, b), a, st, i, c.dcache[i]);
    }
  }

  method UnlockOne(c: DiskCache, i: int, now: nat) returns (a: Answer)
    requires c.Valid()
    modifies c.dcache
    ensures c.Valid()
    ensures Done(Unlock(i, now), a, {}, old(c.Abs()), old(c.disk.sectors), c.Abs(), c.disk.sectors)
  {
    ghost var st := c.Abs();
    a := Refused;
    if 0 <= i < c.dcache.Length && c.dcache[i].used > 0 {
      HeldIsCached(st, c.disk.sectors, i);
      c.GenUnlock(i, now);
      a := Unlocked;
      EntryKeeps(Unlock(i, now), a, st, i, c.dcache[i]);
    }
  }

  /** The disk has every sector whose write did not fail as the users of the cache see it. */
  ghost predicate OnDisk(st: State, disk: map<Key, Block>, was: multiset<Key>, failed: multiset<Key>) {
    forall key :: failed[key] == was[key] ==> Sector(disk, key) == View(st, disk, key)
  }

  method FlushAll(c: DiskCache) returns (a: Answer)
    requires c.Valid()
    modifies c.dcache, c.disk
    ensures c.Valid() && c.disk.failures >= old(c.disk.failures)
    ensures Done(Flush, a, {}, old(c.Abs()), old(c.disk.sectors), c.Abs(), c.disk.sectors)
    ensures Honest(a, c.disk.failures - old(c.disk.failures))
    ensures OnDisk(c.Abs(), c.disk.sectors, old(c.disk.failed), c.disk.failed)
    ensures FlushFailures(old(c.Abs()), old(c.disk.failed), c.Abs(), c.disk.failed)
    ensures a == Flushed(0) ==> c.disk.failed == old(c.disk.failed)
  {
    ghost var st, disk := c.Abs(), c.disk.sectors;
    var ret := c.Flush();
    a := Flushed(ret);
    assert forall key :: old(c.Content(key)) == View(st, disk, key);
    forall j | 0 <= j < |st.entries|
      ensures Uses(c.Abs().entries[j]) == Uses(st.entries[j]) && c.Abs().entries[j].time == st.entries[j].time
    {
      assert c.dcache[j] == st.entries[j] || c.dcache[j] == st.entries[j].(dirty := false);
    }
    ReferencesSame(st.entries, c.Abs().entries);
  }

  ghost function LostKeys(was: multiset<Key>, failed: multiset<Key>, cont: bool): (lost: set<Key>)
    ensures forall key :: key in lost <==> cont && failed[key] > was[key]
  {
    if cont then set key | key in failed - was else {}
  }

  /** A purge of a device of which nothing is held.  What is lost is what was dirty and could not be written back. */
  method PurgeIdle(c: DiskCache, device: int, cont: bool) returns (ret: int)
    requires c.Valid() && c.Unused(device)
    modifies c`lists, c.next, c.prev, c.dcache, c.dhash, c.disk
    ensures c.Valid() && c.disk.failures >= old(c.disk.failures)
    ensures Keeps(Purge(device, cont), Purged(ret), old(c.Abs()), c.Abs())
    ensures Honest(Purged(ret), c.disk.failures - old(c.disk.failures))
    ensures Emptied(Purge(device, cont), Purged(ret), c.Abs())
    ensures forall key :: key in LostKeys(old(c.disk.failed), c.disk.failed, cont) ==>
              && ret != 0 && key.device == device && DiskCache.WasDirty(old(c.Abs()), device, key)
              && NotCached(c.Abs(), key)
    ensures forall key ::
              View(c.Abs(), c.disk.sectors, key) == View(old(c.Abs()), old(c.disk.sectors), key)
              || key in LostKeys(old(c.disk.failed), c.disk.failed, cont)
  {
    ghost var st, disk, failed := c.Abs(), c.disk.sectors, c.disk.failed;
    ret := c.PurgeDevice(device, cont);
    assert c.Abs().entries == st.entries;
    assert forall key :: c.Content(key) == View(c.Abs(), c.disk.sectors, key);
    assert forall key :: old(c.Content(key)) == View(st, disk, key);
  }

  method PurgeOne(c: DiskCache, device: int, cont: bool) returns (a: Answer, ghost lost: set<Key>)
    requires c.Valid()
    modifies c`lists, c.next, c.prev, c.dcache, c.dhash, c.disk
    ensures c.Valid() && c.disk.failures >= old(c.disk.failures)
    ensures Done(Purge(device, cont), a, lost, old(c.Abs()), old(c.disk.sectors), c.Abs(), c.disk.sectors)
    ensures Loses(Purge(device, cont), a, lost, old(c.disk.failed), c.disk.failed)
    ensures Honest(a, c.disk.failures - old(c.disk.failures)) && Emptied(Purge(device, cont), a, c.Abs())
    ensures forall key :: key in lost ==>
              DiskCache.WasDirty(old(c.Abs()), device, key) && NotCached(c.Abs(), key)
  {
    ghost var failed := c.disk.failed;
    a, lost := Refused, {};
    var busy := InUse(c, device);
    if !busy {
      var ret := PurgeIdle(c, device, cont);
      a, lost := Purged(ret), LostKeys(failed, c.disk.failed, cont);
    }
  }

  method Execute(c: DiskCache, op: Op) returns (a: Answer, ghost lost: set<Key>)
    requires c.Valid()
    modifies c`freeindex, c`lists, c.next, c.prev, c.dcache, c.dhash, c.disk
    ensures c.Valid() && c.disk.failures >= old(c.disk.failures)
    ensures Done(op, a, lost, old(c.Abs()), old(c.disk.sectors), c.Abs(), c.disk.sectors)
    ensures Loses(op, a, lost, old(c.disk.failed), c.disk.failed)
    ensures Honest(a, c.disk.failures - old(c.disk.failures)) && Emptied(op, a, c.Abs())
    ensures op == Flush ==> OnDisk(c.Abs(), c.disk.sectors, old(c.disk.failed), c.disk.failed)
    ensures op == Flush ==> FlushFailures(old(c.Abs()), old(c.disk.failed), c.Abs(), c.disk.failed)
    ensures a == Flushed(0) ==> c.disk.failed == old(c.disk.failed)
    ensures RefusedLock(op, a) && Timed(old(c.Abs())) && c.disk.failures == old(c.disk.failures) ==>
              References(old(c.Abs()).entries) + LostEntries(old(c.lists.place)) >= c.dcache.Length
  {
    lost := {};
    match op {
      case Lock(key) => a := LockOne(c, key);
      case Read(i) => a := ReadOne(c, i);
      case Write(i, b) => a := WriteOne(c, i, b);
      case Unlock(i, now) => a := UnlockOne(c, i, now);
      case Flush => a := FlushAll(c);
      case Purge(device, cont) => a, lost := PurgeOne(c, device, cont);
    }
  }

  // ---------- runs ----------

  /** Everything read is what a plain disk would hold, and so is what cache and disk show in the end. */
  ghost predicate AsPlain(st: State, disk: map<Key, Block>, ops: seq<Op>, answers: seq<Answer>, losses: seq<set<Key>>) {
    && |losses| == |answers| <= |ops|
    && forall i :: 0 <= i < |answers| && answers[i].Contents? ==>
         var e := Plain(View(st, disk, answers[i].key), ops, answers, losses, i, answers[i].key);
         e == Lost || e == Known(answers[i].b)
  }

  ghost predicate ShowsPlain(st: State, disk: map<Key, Block>, st': State, disk': map<Key, Block>,
                             ops: seq<Op>, answers: seq<Answer>, losses: seq<set<Key>>) {
    && |losses| == |answers| <= |ops|
    && forall key ::
         var e := Plain(View(st, disk, key), ops, answers, losses, |answers|, key);
         e == Lost || e == Known(View(st', disk', key))
  }

  lemma OneMore(st: State, disk: map<Key, Block>, st1: State, disk1: map<Key, Block>, st2: State,
                disk2: map<Key, Block>, ops: seq<Op>, answers: seq<Answer>, losses: seq<set<Key>>, a: Answer,
                lost: set<Key>)
    requires |losses| == |answers| < |ops|
    requires AsPlain(st, disk, ops, answers, losses) && ShowsPlain(st, disk, st1, disk1, ops, answers, losses)
    requires a.Contents? ==> a.b == View(st1, disk1, a.key)
    requires forall key :: Effect(ops[|answers|], a, lost, View(st1, disk1, key), View(st2, disk2, key), key)
    ensures AsPlain(st, disk, ops, answers + [a], losses + [lost])
    ensures ShowsPlain(st, disk, st2, disk2, ops, answers + [a], losses + [lost])
  {
    forall first, i, key | 0 <= i <= |answers|
      ensures Plain(first, ops, answers + [a], losses + [lost], i, key) == Plain(first, ops, answers, losses, i, key)
    {
      PlainPrefix(first, ops, answers, losses, a, lost, i, key);
    }
    forall key
      ensures var e := Plain(View(st, disk, key), ops, answers + [a], losses + [lost], |answers| + 1, key);
              e == Lost || e == Known(View(st2, disk2, key))
    {
      assert Effect(ops[|answers|], a, lost, View(st1, disk1, key), View(st2, disk2, key), key);
    }
  }

  /** Only purges that go on after errors lose anything, and only of their device. */
  ghost predicate OnlyPurgesLose(ops: seq<Op>, answers: seq<Answer>, losses: seq<set<Key>>) {
    && |losses| == |answers| <= |ops|
    && forall i :: 0 <= i < |answers| ==> OnlyPurgeLoses(ops[i], answers[i], losses[i])
  }

  datatype Holder = Nobody | For(key: Key)

  /** The key for which entry i was locked last. */
  function LockedFor(ops: seq<Op>, answers: seq<Answer>, n: nat, i: int): Holder
    requires n <= |ops| && n <= |answers|
  {
    if n == 0 then Nobody
    else if ops[n - 1].Lock? && answers[n - 1] == Locked(i) then For(ops[n - 1].key)
    else LockedFor(ops, answers, n - 1, i)
  }

  lemma {:induction false} LockedForPrefix(ops: seq<Op>, answers: seq<Answer>, a: Answer, n: nat, i: int)
    requires n <= |ops| && n <= |answers|
    ensures LockedFor(ops, answers + [a], n, i) == LockedFor(ops, answers, n, i)
  {
    if n > 0 {
      LockedForPrefix(ops, answers, a, n - 1, i);
    }
  }

  /** An entry that is held has the key for which it was locked. */
  ghost predicate KeysFollow(st: State, ops: seq<Op>, answers: seq<Answer>)
    requires |answers| <= |ops|
  {
    forall i :: Held(st, i) ==> LockedFor(ops, answers, |answers|, i) in {Nobody, For(st.entries[i].key)}
  }

  /** What was read and written through an entry is the block for which it was locked. */
  ghost predicate ServesItsKey(ops: seq<Op>, answers: seq<Answer>) {
    && |answers| <= |ops|
    && forall n :: 0 <= n < |answers| ==>
         && (ops[n].Read? && answers[n].Contents? ==>
               LockedFor(ops, answers, n, ops[n].i) in {Nobody, For(answers[n].key)})
         && (ops[n].Write? && answers[n].Written? ==>
               LockedFor(ops, answers, n, ops[n].i) in {Nobody, For(answers[n].key)})
  }

  lemma OneMoreKey(st: State, disk: map<Key, Block>, st': State, disk': map<Key, Block>, ops: seq<Op>,
                   answers: seq<Answer>, a: Answer, lost: set<Key>)
    requires |answers| < |ops| && KeysFollow(st, ops, answers) && ServesItsKey(ops, answers)
    requires Done(ops[|answers|], a, lost, st, disk, st', disk')
    ensures KeysFollow(st', ops, answers + [a]) && ServesItsKey(ops, answers + [a])
  {
    forall n, i | 0 <= n <= |answers|
      ensures LockedFor(ops, answers + [a], n, i) == LockedFor(ops, answers, n, i)
    {
      LockedForPrefix(ops, answers, a, n, i);
    }
    assert ops[|answers|].Lock? <== a.Locked?;
  }

  /** A lock was refused only when at least as many locks were outstanding as there are entries that are not lost. */
  ghost predicate RefusedWhenFull(held: nat, lost: nat, size: nat, ops: seq<Op>, answers: seq<Answer>) {
    && |answers| <= |ops|
    && forall i :: 0 <= i < |answers| && RefusedLock(ops[i], answers[i]) ==>
         held + Outstanding(answers[..i]) + lost >= size
  }

  lemma OneMoreRefused(held: nat, lost: nat, lost': nat, size: nat, ops: seq<Op>, answers: seq<Answer>, a: Answer)
    requires |answers| < |ops| && RefusedWhenFull(held, lost, size, ops, answers) && lost' >= lost
    requires RefusedLock(ops[|answers|], a) ==> held + Outstanding(answers) + lost >= size
    ensures RefusedWhenFull(held, lost', size, ops, answers + [a])
    ensures Outstanding(answers + [a]) == Outstanding(answers) + Count(a)
  {
    assert (answers + [a])[..|answers|] == answers;
    forall i | 0 <= i <= |answers| && RefusedLock(ops[i], (answers + [a])[i])
      ensures held + Outstanding((answers + [a])[..i]) + lost' >= size
    {
      assert (answers + [a])[..i] == answers[..i];
      assert answers[..|answers|] == answers;
    }
  }

  /** What a session has come to. */
  ghost predicate Went(st0: State, disk0: map<Key, Block>, st: State, disk: map<Key, Block>, ops: seq<Op>,
                       answers: seq<Answer>, losses: seq<set<Key>>)
  {
    && |st.lists.place| == |st0.lists.place| == |st.entries|
    && AsPlain(st0, disk0, ops, answers, losses) && ShowsPlain(st0, disk0, st, disk, ops, answers, losses)
    && OnlyPurgesLose(ops, answers, losses)
    && KeysFollow(st, ops, answers) && ServesItsKey(ops, answers)
    && References(st.entries) == References(st0.entries) + Outstanding(answers)
    && forall j :: 0 <= j < |st0.lists.place| && st0.lists.place[j] == Out ==> st.lists.place[j] == Out
  }

  lemma GoesOn(st0: State, disk0: map<Key, Block>, st: State, disk: map<Key, Block>, st': State,
               disk': map<Key, Block>, ops: seq<Op>, answers: seq<Answer>, losses: seq<set<Key>>, a: Answer,
               lost: set<Key>)
    requires Went(st0, disk0, st, disk, ops, answers, losses) && |answers| < |ops|
    requires Done(ops[|answers|], a, lost, st, disk, st', disk') && OnlyPurgeLoses(ops[|answers|], a, lost)
    ensures Went(st0, disk0, st', disk', ops, answers + [a], losses + [lost])
    ensures LostEntries(st'.lists.place) >= LostEntries(st.lists.place)
  {
    OneMore(st0, disk0, st, disk, st', disk', ops, answers, losses, a, lost);
    OneMoreKey(st, disk, st', disk', ops, answers, a, lost);
    LostEntriesGrow(st.lists.place, st'.lists.place);
    assert (answers + [a])[..|answers|] == answers;
  }

  function Sum(faults: seq<nat>): nat {
    if faults == [] then 0 else Sum(faults[..|faults| - 1]) + faults[|faults| - 1]
  }

  /** Each flush and each purge has reported an error exactly when one of the transfers that failed was its own. */
  ghost predicate AllHonest(answers: seq<Answer>, faults: seq<nat>) {
    |faults| == |answers| && forall i :: 0 <= i < |answers| ==> Honest(answers[i], faults[i])
  }

  /** Any sequence of operations, from any state of the cache: what is read and what is there in the end are what a
      plain disk would hold, but for `losses`, which only purges that go on after errors have; a block is read and
      written under the key it was locked for; with `faults` the failed transfers of each operation, a flush or a purge
      reports an error exactly when it has some; and an entry that a purge has left on no list is on none at the end, so
      it is never used again.  Without failing transfers, and with stamps below the bound, a lock is refused only when
      at least as many locks are outstanding as there are entries not lost by a purge, so one block at a time is never
      refused. */
  method Session(c: DiskCache, ops: seq<Op>)
    returns (answers: seq<Answer>, ghost losses: seq<set<Key>>, ghost faults: seq<nat>)
    requires c.Valid()
    modifies c`freeindex, c`lists, c.next, c.prev, c.dcache, c.dhash, c.disk
    ensures c.Valid() && |answers| == |ops| && c.disk.failures >= old(c.disk.failures)
    ensures AsPlain(old(c.Abs()), old(c.disk.sectors), ops, answers, losses)
    ensures ShowsPlain(old(c.Abs()), old(c.disk.sectors), c.Abs(), c.disk.sectors, ops, answers, losses)
    ensures OnlyPurgesLose(ops, answers, losses)
    ensures ServesItsKey(ops, answers)
    ensures AllHonest(answers, faults) && c.disk.failures == old(c.disk.failures) + Sum(faults)
    ensures forall j :: 0 <= j < c.dcache.Length && old(c.lists.place[j]) == Out ==> c.lists.place[j] == Out
    ensures References(c.Abs().entries) == References(old(c.Abs()).entries) + Outstanding(answers)
    ensures c.disk.failures == old(c.disk.failures) && Timed(old(c.Abs())) && AllTimely(ops) ==>
              RefusedWhenFull(References(old(c.Abs()).entries), LostEntries(c.lists.place), c.dcache.Length, ops,
                              answers)
  {
    answers, losses, faults := [], [], [];
    ghost var st0, disk0, failures0 := c.Abs(), c.disk.sectors, c.disk.failures;
    ghost var timely := Timed(st0) && AllTimely(ops);
    while |answers| < |ops|
      invariant c.Valid() && c.disk.failures >= failures0
      invariant Went(st0, disk0, c.Abs(), c.disk.sectors, ops, answers, losses)
      invariant AllHonest(answers, faults) && c.disk.failures == failures0 + Sum(faults)
      invariant timely ==> Timed(c.Abs())
      invariant timely && c.disk.failures == failures0 ==>
                  RefusedWhenFull(References(st0.entries), LostEntries(c.lists.place), c.dcache.Length, ops,
                                  answers)
    {
      ghost var st, disk, failures := c.Abs(), c.disk.sectors, c.disk.failures;
      var a;
      ghost var lost;
      a, lost := Execute(c, ops[|answers|]);
      GoesOn(st0, disk0, st, disk, c.Abs(), c.disk.sectors, ops, answers, losses, a, lost);
      if timely && c.disk.failures == failures0 {
        OneMoreRefused(References(st0.entries), LostEntries(st.lists.place), LostEntries(c.lists.place),
                       c.dcache.Length, ops, answers, a);
      }
      ghost var now := faults + [c.disk.failures - failures];
      assert now[..|faults|] == faults;
      answers, losses, faults := answers + [a], losses + [lost], now;
    }
  }
}
