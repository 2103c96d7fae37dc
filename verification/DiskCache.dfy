/** The disk block cache (rtos/fs/dcache.c) as one thread sees it: cache entries on hash buckets and a free
    list, in front of a disk whose reads and writes may fail.  The code is in DiskCacheCode; this module
    says what its list operations compute and what they keep. */
module DiskCaches {
  import opened IndexLists
  import opened HashedLists

  type Block = seq<int>

  datatype Key = Key(device: int, lsector: int)

  function Bucket(key: Key): int {
    HashFun(key.device, key.lsector)
  }

  datatype Entry = Entry(key: Key, hash: int, used: int, dirty: bool, ready: bool, time: nat, buffer: Block)

  datatype State = State(entries: seq<Entry>, lists: Lists)

  ghost predicate ListsOk(st: State) {
    |st.lists.place| == |st.entries| && st.lists.Ok()
  }

  predicate Cached(st: State, i: int) {
    0 <= i < |st.entries| == |st.lists.place| && st.lists.place[i].InBucket?
  }

  predicate Holds(st: State, i: int, key: Key) {
    Cached(st, i) && st.entries[i].key == key
  }

  /** The reference count is -1 exactly on the free list; a cached entry is ready and sits in the bucket of its
      key, whose number it also stores. */
  predicate EntryOk(st: State, i: int)
    requires 0 <= i < |st.entries| == |st.lists.place|
  {
    match st.lists.place[i]
    case OnFree => st.entries[i].used == -1
    case Out => st.entries[i].used == 0
    case InBucket(h) =>
      0 <= h < MAXHASH && st.entries[i].used >= 0 && st.entries[i].ready
      && st.entries[i].hash == h == Bucket(st.entries[i].key)
  }

  /** No key is cached twice. */
  ghost predicate Unique(st: State) {
    forall i, j :: Cached(st, i) && Cached(st, j) && st.entries[i].key == st.entries[j].key ==> i == j
  }

  function Sector(disk: map<Key, Block>, key: Key): Block {
    if key in disk then disk[key] else []
  }

  /** An entry that is not dirty is what the disk holds. */
  ghost predicate Clean(st: State, disk: map<Key, Block>) {
    forall i :: Cached(st, i) && !st.entries[i].dirty ==> st.entries[i].buffer == Sector(disk, st.entries[i].key)
  }

  ghost predicate Inv(st: State, disk: map<Key, Block>) {
    && ListsOk(st) && Unique(st) && Clean(st, disk)
    && forall i :: 0 <= i < |st.entries| ==> EntryOk(st, i)
  }

  /** The content of a sector as the users of the cache see it: that of the cached buffer if there is one,
      that of the disk otherwise. */
  ghost function View(st: State, disk: map<Key, Block>, key: Key): Block {
    if i :| Holds(st, i, key) then st.entries[i].buffer else Sector(disk, key)
  }

  ghost predicate SameView(st: State, disk: map<Key, Block>, st': State, disk': map<Key, Block>) {
    forall key :: View(st', disk', key) == View(st, disk, key)
  }

  // ---------- the list operations ----------

  function TakeFree(st: State): State
    requires st.lists.free != [] && InRange(st.lists.free, |st.entries|) && |st.lists.place| == |st.entries|
  {
    var i := st.lists.free[0];
    State(st.entries[i := st.entries[i].(used := 0)], st.lists.TakeFree())
  }

  function PutFree(st: State, i: int): State
    requires 0 <= i < |st.entries| == |st.lists.place|
  {
    State(st.entries[i := st.entries[i].(used := -1)], st.lists.PutFree(i))
  }

  function Insert(st: State, i: int): State
    requires 0 <= i < |st.entries| == |st.lists.place| && |st.lists.buckets| == MAXHASH
  {
    var h := Bucket(st.entries[i].key);
    State(st.entries[i := st.entries[i].(hash := h)], st.lists.Insert(i, h))
  }

  function Remove(st: State, i: int): State
    requires 0 <= i < |st.entries| == |st.lists.place|
    requires 0 <= st.entries[i].hash < |st.lists.buckets|
  {
    st.(lists := st.lists.Remove(i, st.entries[i].hash))
  }

  // ---------- the view ----------

  lemma ViewCached(st: State, disk: map<Key, Block>, i: int)
    requires Unique(st) && Cached(st, i)
    ensures View(st, disk, st.entries[i].key) == st.entries[i].buffer
  {
    assert Holds(st, i, st.entries[i].key);
  }

  // ---------- a flush ----------

  /** A flush that has tried the entries of `done`: each of those is clean, unless it was dirty and its own write
      failed, once; no other write failed, and the other entries are as they were. */
  ghost predicate Tried(first: State, was: multiset<Key>, entries: seq<Entry>, failed: multiset<Key>, done: set<int>) {
    && |entries| == |first.entries|
    && (forall j :: 0 <= j < |entries| ==>
          entries[j] == first.entries[j] || entries[j] == first.entries[j].(dirty := false))
    && (forall j :: Cached(first, j) && j !in done ==> entries[j] == first.entries[j])
    && (forall j :: Cached(first, j) ==>
          failed[first.entries[j].key]
          == was[first.entries[j].key] + if j in done && entries[j].dirty then 1 else 0)
    && (forall key :: failed[key] != was[key] ==> exists j :: Holds(first, j, key) && first.entries[j].dirty)
  }

  ghost predicate Flushing(first: State, disk0: map<Key, Block>, was: multiset<Key>, st: State, disk: map<Key, Block>,
                           failed: multiset<Key>, done: set<int>) {
    && Unique(first) && st.lists == first.lists && SameView(first, disk0, st, disk)
    && Tried(first, was, st.entries, failed, done)
  }

  /** One more entry is tried. */
  lemma TriedOneMore(first: State, was: multiset<Key>, entries: seq<Entry>, failed: multiset<Key>, done: set<int>,
                     i: int, entries': seq<Entry>, failed': multiset<Key>)
    requires Unique(first) && Tried(first, was, entries, failed, done) && Cached(first, i) && i !in done
    requires || (entries' == entries[i := entries[i].(dirty := false)] && failed' == failed)
             || (entries' == entries
                 && failed' == if entries[i].dirty then failed + multiset{entries[i].key} else failed)
    ensures Tried(first, was, entries', failed', done + {i})
  {
    assert Holds(first, i, first.entries[i].key);
    forall j | Cached(first, j)
      ensures failed'[first.entries[j].key]
           == was[first.entries[j].key] + if j in done + {i} && entries'[j].dirty then 1 else 0
    {
      assert j != i ==> first.entries[j].key != first.entries[i].key;
    }
  }

  /** Exactly the cached blocks whose own write failed are dirty, each write failed once, and only writes of blocks that
      were cached and dirty. */
  ghost predicate FlushFailures(first: State, was: multiset<Key>, st: State, failed: multiset<Key>) {
    && |st.entries| == |first.entries| && st.lists == first.lists
    && (forall j :: Cached(st, j) ==>
          st.entries[j].key == first.entries[j].key
          && failed[st.entries[j].key] == was[st.entries[j].key] + if st.entries[j].dirty then 1 else 0)
    && (forall key :: failed[key] != was[key] ==> exists j :: Holds(first, j, key) && first.entries[j].dirty)
  }

  lemma TriedAll(first: State, disk0: map<Key, Block>, was: multiset<Key>, st: State, disk: map<Key, Block>,
                 failed: multiset<Key>, done: set<int>)
    requires Flushing(first, disk0, was, st, disk, failed, done) && Unique(st) && Clean(st, disk)
    requires |st.lists.place| == |st.entries| && forall j :: Cached(first, j) ==> j in done
    ensures FlushFailures(first, was, st, failed)
    ensures forall key :: failed[key] == was[key] ==> Sector(disk, key) == View(first, disk0, key)
  {
    forall key | failed[key] == was[key] ensures Sector(disk, key) == View(st, disk, key) {
      if j :| Holds(st, j, key) {
        assert Cached(first, j) && Holds(first, j, key);
        ViewCached(st, disk, j);
      }
    }
  }

  /** Entries may come and go, and the disk may change, as long as each key is backed by the same content. */
  lemma ViewKept(st: State, disk: map<Key, Block>, st': State, disk': map<Key, Block>, i: int)
    requires Unique(st) && Unique(st')
    requires forall j :: j != i ==> (Cached(st', j) <==> Cached(st, j))
    requires forall j :: j != i && Cached(st, j) ==>
               st'.entries[j].key == st.entries[j].key && st'.entries[j].buffer == st.entries[j].buffer
    requires forall key :: !Holds(st, i, key) && !Holds(st', i, key) ==> Sector(disk', key) == Sector(disk, key)
    requires Cached(st', i) ==> st'.entries[i].buffer == View(st, disk, st'.entries[i].key)
    requires Cached(st, i) && !Holds(st', i, st.entries[i].key) ==>
               st.entries[i].buffer == Sector(disk', st.entries[i].key)
    requires Cached(st', i) && !Holds(st, i, st'.entries[i].key) ==>
               forall j :: !Holds(st, j, st'.entries[i].key)
    ensures SameView(st, disk, st', disk')
  {
    forall key ensures View(st', disk', key) == View(st, disk, key) {
      if Holds(st', i, key) {
        ViewCached(st', disk', i);
      } else if Holds(st, i, key) {
        ViewCached(st, disk, i);
        forall j ensures !Holds(st', j, key) {
          assert j != i && Holds(st', j, key) ==> Holds(st, j, key);
        }
      } else if j :| Holds(st, j, key) {
        ViewCached(st, disk, j);
        ViewCached(st', disk', j);
      } else {
        forall j ensures !Holds(st', j, key) {
          assert j != i && Holds(st', j, key) ==> Holds(st, j, key);
        }
      }
    }
  }

  /** The disk may have changed at one key only. */
  ghost predicate OnlyAt(disk: map<Key, Block>, disk': map<Key, Block>, key: Key) {
    forall k :: k != key ==> Sector(disk', k) == Sector(disk, k)
  }

  ghost predicate NotCached(st: State, key: Key) {
    forall j :: !Holds(st, j, key)
  }

  function WithEntry(st: State, i: int, e: Entry): State
    requires 0 <= i < |st.entries|
  {
    st.(entries := st.entries[i := e])
  }

  // ---------- steps that keep the invariant and the view ----------

  /** The sector behind a cached block may change, and the entry's count, stamp and dirty flag, as long as the
      flag is only cleared when disk and buffer agree. */
  lemma TouchKeeps(st: State, disk: map<Key, Block>, disk': map<Key, Block>, i: int, e: Entry)
    requires Inv(st, disk) && Cached(st, i) && OnlyAt(disk, disk', st.entries[i].key)
    requires e.key == st.entries[i].key && e.hash == st.entries[i].hash && e.buffer == st.entries[i].buffer
    requires e.ready && e.used >= 0 && (!e.dirty ==> e.buffer == Sector(disk', e.key))
    ensures Inv(WithEntry(st, i, e), disk')
    ensures SameView(st, disk, WithEntry(st, i, e), disk')
  {
    var st' := WithEntry(st, i, e);
    assert EntryOk(st, i);
    forall j | 0 <= j < |st.entries| ensures EntryOk(st', j) {
      assert EntryOk(st, j);
    }
    assert Unique(st') by {
      forall j, k | Cached(st', j) && Cached(st', k) && st'.entries[j].key == st'.entries[k].key ensures j == k {
        assert Cached(st, j) && Cached(st, k) && st.entries[j].key == st.entries[k].key;
      }
    }
    assert Clean(st', disk') by {
      forall j | Cached(st', j) && !st'.entries[j].dirty
        ensures st'.entries[j].buffer == Sector(disk', st'.entries[j].key)
      {
        assert Cached(st, j) && Cached(st, i);
      }
    }
    ViewCached(st, disk, i);
    ViewKept(st, disk, st', disk', i);
  }

  /** New content for a cached block: the view changes at its key and nowhere else. */
  lemma WriteChanges(st: State, disk: map<Key, Block>, i: int, b: Block)
    requires Inv(st, disk) && Cached(st, i)
    ensures var st' := WithEntry(st, i, st.entries[i].(buffer := b, dirty := true));
            && Inv(st', disk)
            && View(st', disk, st.entries[i].key) == b
            && forall key :: key != st.entries[i].key ==> View(st', disk, key) == View(st, disk, key)
  {
    var st' := WithEntry(st, i, st.entries[i].(buffer := b, dirty := true));
    forall j | 0 <= j < |st.entries| ensures EntryOk(st', j) {
      assert EntryOk(st, j);
    }
    assert forall j :: Cached(st', j) <==> Cached(st, j);
    assert Unique(st') && Clean(st', disk);
    ViewCached(st', disk, i);
    forall key | key != st.entries[i].key ensures View(st', disk, key) == View(st, disk, key) {
      assert forall j :: Holds(st', j, key) <==> Holds(st, j, key);
      if j :| Holds(st, j, key) {
        ViewCached(st, disk, j);
        ViewCached(st', disk, j);
      }
    }
  }

  /** Taking a block out of its bucket: no other key is affected. */
  lemma DropKeeps(st: State, disk: map<Key, Block>, disk': map<Key, Block>, i: int, e: Entry)
    requires Inv(st, disk) && Cached(st, i) && OnlyAt(disk, disk', st.entries[i].key)
    requires e.hash == st.entries[i].hash && e.used == 0
    ensures 0 <= e.hash < MAXHASH && st.lists.place[i] == InBucket(e.hash)
    ensures var st' := Remove(WithEntry(st, i, e), i);
            && Inv(st', disk')
            && (forall key :: key != st.entries[i].key ==> View(st', disk', key) == View(st, disk, key))
            && View(st', disk', st.entries[i].key) == Sector(disk', st.entries[i].key)
  {
    assert EntryOk(st, i);
    var st1 := WithEntry(st, i, e);
    var st' := Remove(st1, i);
    RemoveOk(st.lists, i, e.hash);
    forall j | 0 <= j < |st.entries| ensures EntryOk(st', j) {
      assert EntryOk(st, j);
    }
    assert forall j :: Cached(st', j) <==> j != i && Cached(st, j);
    assert Unique(st') && Clean(st', disk');
    forall key | key != st.entries[i].key ensures View(st', disk', key) == View(st, disk, key) {
      assert forall j :: Holds(st', j, key) <==> Holds(st, j, key);
      if j :| Holds(st, j, key) {
        ViewCached(st, disk, j);
        ViewCached(st', disk', j);
      }
    }
  }

  /** When the disk has the content of the block, eviction is not noticed at all. */
  lemma EvictKeeps(st: State, disk: map<Key, Block>, disk': map<Key, Block>, i: int, e: Entry)
    requires Inv(st, disk) && Cached(st, i) && OnlyAt(disk, disk', st.entries[i].key)
    requires Sector(disk', st.entries[i].key) == st.entries[i].buffer
    requires e.hash == st.entries[i].hash && e.used == 0
    ensures 0 <= e.hash < MAXHASH && st.lists.place[i] == InBucket(e.hash)
    ensures Inv(Remove(WithEntry(st, i, e), i), disk')
    ensures SameView(st, disk, Remove(WithEntry(st, i, e), i), disk')
  {
    DropKeeps(st, disk, disk', i, e);
    ViewCached(st, disk, i);
  }

  /** Filling an entry that is on no list with a block that is not cached, as the disk has it. */
  lemma FillKeeps(st: State, disk: map<Key, Block>, i: int, e: Entry)
    requires Inv(st, disk) && 0 <= i < |st.entries| && st.lists.place[i] == Out && NotCached(st, e.key)
    requires e.used >= 0 && e.ready && !e.dirty && e.buffer == Sector(disk, e.key)
    ensures Inv(Insert(WithEntry(st, i, e), i), disk)
    ensures SameView(st, disk, Insert(WithEntry(st, i, e), i), disk)
  {
    var st1 := WithEntry(st, i, e);
    var st' := Insert(st1, i);
    InsertOk(st.lists, i, Bucket(e.key));
    forall j | 0 <= j < |st.entries| ensures EntryOk(st', j) {
      assert EntryOk(st, j);
    }
    assert forall j :: Cached(st', j) <==> j == i || Cached(st, j);
    assert Unique(st') by {
      forall j, k | Cached(st', j) && Cached(st', k) && st'.entries[j].key == st'.entries[k].key ensures j == k {
        assert !Holds(st, j, e.key) && !Holds(st, k, e.key);
      }
    }
    assert Clean(st', disk);
    ViewKept(st, disk, st', disk, i);
  }

  /** An entry on no list moves to or from the free list. */
  lemma PutFreeKeeps(st: State, disk: map<Key, Block>, i: int)
    requires Inv(st, disk) && 0 <= i < |st.entries| && st.lists.place[i] == Out
    ensures Inv(PutFree(st, i), disk) && SameView(st, disk, PutFree(st, i), disk)
  {
    var st' := PutFree(st, i);
    PutFreeOk(st.lists, i);
    forall j | 0 <= j < |st.entries| ensures EntryOk(st', j) {
      assert EntryOk(st, j);
    }
    assert forall j :: Cached(st', j) <==> Cached(st, j);
    assert Unique(st') && Clean(st', disk);
    ViewKept(st, disk, st', disk, i);
  }

  lemma TakeFreeKeeps(st: State, disk: map<Key, Block>)
    requires Inv(st, disk) && st.lists.free != []
    ensures Inv(TakeFree(st), disk) && SameView(st, disk, TakeFree(st), disk)
  {
    var st' := TakeFree(st);
    TakeFreeOk(st.lists);
    assert st.lists.Placed(st.lists.free[0]);
    forall j | 0 <= j < |st.entries| ensures EntryOk(st', j) {
      assert EntryOk(st, j);
    }
    assert forall j :: Cached(st', j) <==> Cached(st, j);
    assert Unique(st') && Clean(st', disk);
    ViewKept(st, disk, st', disk, st.lists.free[0]);
  }

  /** What is written over an entry on no list does not matter, as long as it is not in use. */
  lemma ScribbleKeeps(st: State, disk: map<Key, Block>, i: int, e: Entry)
    requires Inv(st, disk) && 0 <= i < |st.entries| && st.lists.place[i] == Out && e.used == 0
    ensures Inv(WithEntry(st, i, e), disk) && SameView(st, disk, WithEntry(st, i, e), disk)
  {
    var st' := WithEntry(st, i, e);
    forall j | 0 <= j < |st.entries| ensures EntryOk(st', j) {
      assert EntryOk(st, j);
    }
    assert forall j :: Cached(st', j) <==> Cached(st, j);
    assert Unique(st') && Clean(st', disk);
    ViewKept(st, disk, st', disk, i);
  }

  /** A read that fails: the entry goes from its bucket to the free list, whatever was written over its key, since
      removal goes by the stored bucket number. */
  lemma FailedFillKeeps(st: State, disk: map<Key, Block>, i: int, e: Entry, left: Entry)
    requires Inv(st, disk) && 0 <= i < |st.entries| && st.lists.place[i] == Out
    requires left.hash == Bucket(e.key) && left.used == 0
    ensures var filled := WithEntry(Insert(WithEntry(st, i, e), i), i, left);
            && ListsOk(filled) && filled.lists.place[i] == InBucket(left.hash)
            && Remove(filled, i) == WithEntry(st, i, left)
    ensures Inv(PutFree(WithEntry(st, i, left), i), disk)
    ensures SameView(st, disk, PutFree(WithEntry(st, i, left), i), disk)
  {
    InsertOk(st.lists, i, left.hash);
    RemoveUndoesInsert(st.lists, i, left.hash);
    ScribbleKeeps(st, disk, i, left);
    PutFreeKeeps(WithEntry(st, i, left), disk, i);
  }

  // ---------- the entry to evict ----------

  const NEVER: nat := 0xffff_ffff

  predicate Idle(st: State, i: int) {
    Cached(st, i) && st.entries[i].used == 0
  }

  /** Every stamp is before the bound from which the scan starts. */
  ghost predicate Stamped(st: State) {
    forall i :: Idle(st, i) ==> st.entries[i].time < NEVER
  }

  /** The oldest clean idle entry if there is a clean one, else the oldest idle one, else none. */
  ghost predicate Victim(st: State, ind: int) {
    if ind == NIL then forall j :: !Idle(st, j)
    else
      && Idle(st, ind)
      && forall j :: Idle(st, j) ==>
           if st.entries[ind].dirty
           then st.entries[j].dirty && st.entries[ind].time <= st.entries[j].time
           else st.entries[j].dirty || st.entries[ind].time <= st.entries[j].time
  }

  /** One round of the inner loop of the scan. */
  function ScanStep(st: State, i: int, flag: bool, ind: int, t: nat): (bool, int, nat)
    requires 0 <= i < |st.entries| && (ind != NIL ==> 0 <= ind < |st.entries|)
  {
    var e := st.entries[i];
    if e.used != 0 then (flag, ind, t)
    else if !e.dirty then
      if e.time < t || (ind != NIL && st.entries[ind].dirty) then (false, i, e.time) else (false, ind, t)
    else if flag && e.time < t then (flag, i, e.time)
    else (flag, ind, t)
  }

  /** The variables of the scan after the entries xs. */
  function Scan(st: State, xs: seq<int>): (r: (bool, int, nat))
    requires InRange(xs, |st.entries|)
    ensures r.1 == NIL || r.1 in xs
  {
    if xs == [] then (true, NIL, NEVER)
    else
      var n := |xs| - 1;
      var (flag, ind, t) := Scan(st, xs[..n]);
      ScanStep(st, xs[n], flag, ind, t)
  }

  /** The order of the scan: bucket by bucket. */
  function Order(st: State, k: int): (xs: seq<int>)
    requires 0 <= k <= MAXHASH == |st.lists.buckets|
  {
    if k == 0 then [] else Order(st, k - 1) + st.lists.buckets[k - 1]
  }

  /** The entries before position p of bucket k. */
  function Before(st: State, k: int, p: int): (xs: seq<int>)
    requires 0 <= k < MAXHASH == |st.lists.buckets| && 0 <= p <= |st.lists.buckets[k]|
  {
    Order(st, k) + st.lists.buckets[k][..p]
  }

  lemma {:induction false} OrderMembers(st: State, k: int, j: int)
    requires ListsOk(st) && 0 <= k <= MAXHASH
    ensures InRange(Order(st, k), |st.entries|)
    ensures j in Order(st, k) <==> Cached(st, j) && 0 <= st.lists.place[j].h < k
  {
    if k > 0 {
      OrderMembers(st, k - 1, j);
      if j in st.lists.buckets[k - 1] || Cached(st, j) {
        assert st.lists.Placed(j);
      }
    }
  }

  lemma WholeOrder(st: State, j: int)
    requires ListsOk(st) && forall i :: 0 <= i < |st.entries| ==> EntryOk(st, i)
    ensures InRange(Order(st, MAXHASH), |st.entries|)
    ensures j in Order(st, MAXHASH) <==> Cached(st, j)
  {
    OrderMembers(st, MAXHASH, j);
    if Cached(st, j) {
      assert EntryOk(st, j);
    }
  }

  /** The scan of the entries xs has ended with these values. */
  ghost predicate Scanned(st: State, xs: seq<int>, flag: bool, ind: int, t: nat) {
    InRange(xs, |st.entries|) && Scan(st, xs) == (flag, ind, t)
  }

  lemma WholeBefore(st: State, k: int)
    requires ListsOk(st) && 0 <= k < MAXHASH
    ensures Before(st, k, 0) == Order(st, k) && Before(st, k, |st.lists.buckets[k]|) == Order(st, k + 1)
  {
    var b := st.lists.buckets[k];
    assert b[..|b|] == b;
  }

  lemma ScannedOneMore(st: State, k: int, p: int, flag: bool, ind: int, t: nat)
    requires ListsOk(st) && 0 <= k < MAXHASH && 0 <= p < |st.lists.buckets[k]|
    requires Scanned(st, Before(st, k, p), flag, ind, t)
    ensures 0 <= st.lists.buckets[k][p] < |st.entries| && (ind != NIL ==> 0 <= ind < |st.entries|)
    ensures var (flag', ind', t') := ScanStep(st, st.lists.buckets[k][p], flag, ind, t);
            Scanned(st, Before(st, k, p + 1), flag', ind', t')
  {
    var xs := Before(st, k, p + 1);
    assert xs[..|xs| - 1] == Before(st, k, p);
  }

  /** What the three variables say about the idle entries among xs. */
  ghost predicate Best(st: State, xs: seq<int>, flag: bool, ind: int, t: nat) {
    && (flag <==> forall j :: Idle(st, j) && j in xs ==> st.entries[j].dirty)
    && (ind == NIL ==> t == NEVER && forall j :: Idle(st, j) ==> j !in xs)
    && (ind != NIL ==>
          && Idle(st, ind) && ind in xs && t == st.entries[ind].time && st.entries[ind].dirty == flag
          && forall j :: Idle(st, j) && j in xs && (st.entries[j].dirty ==> flag) ==> t <= st.entries[j].time)
  }

  lemma {:induction false} ScanIsBest(st: State, xs: seq<int>)
    requires Stamped(st) && InRange(xs, |st.entries|) && forall j :: j in xs ==> Cached(st, j)
    ensures Best(st, xs, Scan(st, xs).0, Scan(st, xs).1, Scan(st, xs).2)
  {
    if xs != [] {
      var n := |xs| - 1;
      ScanIsBest(st, xs[..n]);
      assert forall j :: j in xs <==> j in xs[..n] || j == xs[n];
    }
  }

  /** With stamps below the bound the scan finds the victim. */
  lemma ScanFindsVictim(st: State)
    requires ListsOk(st) && Stamped(st) && forall i :: 0 <= i < |st.entries| ==> EntryOk(st, i)
    ensures InRange(Order(st, MAXHASH), |st.entries|) && Victim(st, Scan(st, Order(st, MAXHASH)).1)
  {
    forall j ensures j in Order(st, MAXHASH) <==> Cached(st, j) {
      WholeOrder(st, j);
    }
    OrderMembers(st, MAXHASH, 0);
    ScanIsBest(st, Order(st, MAXHASH));
  }

  /** Each idle entry of xs is stamped with the bound, or is dirty and comes after a clean one. */
  ghost predicate Overlooked(st: State, xs: seq<int>) {
    forall p :: 0 <= p < |xs| && Idle(st, xs[p]) && st.entries[xs[p]].time < NEVER ==>
      st.entries[xs[p]].dirty && exists q :: 0 <= q < p && Idle(st, xs[q]) && !st.entries[xs[q]].dirty
  }

  ghost predicate AllDirty(st: State, xs: seq<int>) {
    forall q :: 0 <= q < |xs| && Idle(st, xs[q]) ==> st.entries[xs[q]].dirty
  }

  lemma OverlookedOneMore(st: State, xs: seq<int>, i: int)
    ensures AllDirty(st, xs + [i]) <==> AllDirty(st, xs) && (Idle(st, i) ==> st.entries[i].dirty)
    ensures Overlooked(st, xs + [i]) <==>
              Overlooked(st, xs) &&
              (Idle(st, i) && st.entries[i].time < NEVER ==> st.entries[i].dirty && !AllDirty(st, xs))
  {
    var ys := xs + [i];
    assert ys[|xs|] == i && forall q :: 0 <= q < |xs| ==> ys[q] == xs[q];
    if Overlooked(st, ys) {
      forall p | 0 <= p < |xs| && Idle(st, xs[p]) && st.entries[xs[p]].time < NEVER
        ensures st.entries[xs[p]].dirty && exists q :: 0 <= q < p && Idle(st, xs[q]) && !st.entries[xs[q]].dirty
      {
        assert ys[p] == xs[p];
        var q :| 0 <= q < p && Idle(st, ys[q]) && !st.entries[ys[q]].dirty;
        assert ys[q] == xs[q];
      }
    }
  }

  /** What the three variables say about finding nothing. */
  ghost predicate Finds(st: State, xs: seq<int>, flag: bool, ind: int, t: nat) {
    && (ind == NIL <==> Overlooked(st, xs))
    && (ind == NIL ==> t == NEVER && (flag <==> AllDirty(st, xs)))
  }

  lemma FindsOneMore(st: State, xs: seq<int>, i: int, flag: bool, ind: int, t: nat)
    requires Cached(st, i) && (ind != NIL ==> 0 <= ind < |st.entries|) && Finds(st, xs, flag, ind, t)
    ensures var (flag', ind', t') := ScanStep(st, i, flag, ind, t); Finds(st, xs + [i], flag', ind', t')
  {
    OverlookedOneMore(st, xs, i);
  }

  /** The scan finds nothing exactly when every idle entry is overlooked. */
  lemma {:induction false} ScanFailsExactly(st: State, xs: seq<int>)
    requires InRange(xs, |st.entries|) && forall j :: j in xs ==> Cached(st, j)
    ensures Finds(st, xs, Scan(st, xs).0, Scan(st, xs).1, Scan(st, xs).2)
    ensures Scan(st, xs).1 == NIL <==> Overlooked(st, xs)
  {
    if xs != [] {
      var n := |xs| - 1;
      ScanFailsExactly(st, xs[..n]);
      var (flag, ind, t) := Scan(st, xs[..n]);
      FindsOneMore(st, xs[..n], xs[n], flag, ind, t);
      assert xs == xs[..n] + [xs[n]];
    }
  }

  lemma {:induction false} ScanIdle(st: State, xs: seq<int>)
    requires InRange(xs, |st.entries|) && forall j :: j in xs ==> Cached(st, j)
    ensures Scan(st, xs).1 == NIL || Idle(st, Scan(st, xs).1)
  {
    if xs != [] {
      ScanIdle(st, xs[..|xs| - 1]);
      assert xs[|xs| - 1] in xs;
    }
  }

  /** All of this about the whole scan. */
  lemma ScanMeans(st: State)
    requires ListsOk(st) && forall i :: 0 <= i < |st.entries| ==> EntryOk(st, i)
    ensures InRange(Order(st, MAXHASH), |st.entries|)
    ensures var ind := Scan(st, Order(st, MAXHASH)).1;
            && (ind == NIL || Idle(st, ind))
            && (ind == NIL <==> Overlooked(st, Order(st, MAXHASH)))
            && (Stamped(st) ==> Victim(st, ind))
  {
    OrderMembers(st, MAXHASH, 0);
    forall j | j in Order(st, MAXHASH) ensures Cached(st, j) {
      WholeOrder(st, j);
    }
    ScanIdle(st, Order(st, MAXHASH));
    ScanFailsExactly(st, Order(st, MAXHASH));
    if Stamped(st) {
      ScanFindsVictim(st);
    }
  }

  /** A cache with one clean idle entry, stamped with the bound, in which the scan finds nothing. */
  lemma BlindToNever() returns (st: State, disk: map<Key, Block>)
    ensures Inv(st, disk) && Idle(st, 0) && !st.entries[0].dirty
    ensures InRange(Order(st, MAXHASH), |st.entries|) && Scan(st, Order(st, MAXHASH)).1 == NIL
  {
    disk := map[];
    var e := Entry(Key(1, 0), 0, 0, false, true, NEVER, []);
    InitialInv(1, disk);
    TakeFreeKeeps(Initial(1), disk);
    var empty := TakeFree(Initial(1));
    assert Initial(1).lists.free == [0];
    assert empty.lists.place == [Out];
    FillKeeps(empty, disk, 0, e);
    st := Insert(WithEntry(empty, 0, e), 0);
    assert |st.entries| == 1 && st.entries[0].time == NEVER;
    forall j ensures j in Order(st, MAXHASH) ==> Cached(st, j) {
      WholeOrder(st, j);
    }
    WholeOrder(st, 0);
    ScanFailsExactly(st, Order(st, MAXHASH));
  }

  // ---------- the empty cache ----------

  function Initial(size: nat): State {
    State(seq(size, _ => Entry(Key(0, 0), 0, -1, false, false, 0, [])), AllFree(size))
  }

  lemma InitialInv(size: nat, disk: map<Key, Block>)
    ensures Inv(Initial(size), disk) && forall i :: !Cached(Initial(size), i)
  {
    AllFreeOk(size);
  }
}
