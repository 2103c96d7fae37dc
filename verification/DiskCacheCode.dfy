/** The code of the disk block cache (rtos/fs/dcache.c) run by one thread: nothing here waits for another
    thread, so the counters of blocked threads stay at zero and are left out. */
module DiskCacheCode {
  import opened IndexLists
  import opened DiskCaches
  import opened HashedLists

  const NULLDEV: int := 0

  /** What the device does with a request: serve it, or fail and leave something behind. */
  datatype Outcome = Served | Failed(left: Block)

  /** A disk whose transfers may fail.  A failed write may leave anything in its sector, a failed read anything in
      the buffer.  The outcomes to come are arbitrary; when they are used up every request is served. */
  class Disk {
    var sectors: map<Key, Block>
    var outcomes: seq<Outcome>
    // all transfers that failed, and the writes among them by sector
    ghost var failures: nat
    ghost var failed: multiset<Key>

    constructor (sectors: map<Key, Block>, outcomes: seq<Outcome>)
      ensures this.sectors == sectors && this.outcomes == outcomes && failures == 0 && failed == multiset{}
    {
      this.sectors, this.outcomes, failures, failed := sectors, outcomes, 0, multiset{};
    }

    method Next() returns (o: Outcome)
      modifies `outcomes, `failures
      ensures failures == if o.Failed? then old(failures) + 1 else old(failures)
    {
      if outcomes == [] {
        o := Served;
      } else {
        o, outcomes := outcomes[0], outcomes[1..];
      }
      if o.Failed? {
        failures := failures + 1;
      }
    }

    method Write(key: Key, b: Block) returns (ok: bool)
      modifies this
      ensures OnlyAt(old(sectors), sectors, key)
      ensures ok ==> Sector(sectors, key) == b
      ensures failures == if ok then old(failures) else old(failures) + 1
      ensures failed == if ok then old(failed) else old(failed) + multiset{key}
    {
      var o := Next();
      ok := o.Served?;
      if !ok {
        failed := failed + multiset{key};
      }
      sectors := sectors[key := if ok then b else o.left];
    }

    method Read(key: Key) returns (ok: bool, b: Block)
      modifies `outcomes, `failures
      ensures ok ==> b == Sector(sectors, key)
      ensures failures == if ok then old(failures) else old(failures) + 1
    {
      var o := Next();
      ok := o.Served?;
      b := if ok then Sector(sectors, key) else o.left;
    }
  }

  class DiskCache {
    const next: array<int>
    const prev: array<int>
    const dcache: array<Entry>
    const dhash: array<int>
    var freeindex: int
    const disk: Disk

    ghost var lists: Lists

    ghost function Abs(): State
      reads this, dcache
    {
      State(dcache[..], lists)
    }

    /** The tables spell out disjoint lists. */
    ghost predicate Linked()
      reads this, next, prev, dcache, dhash
    {
      && next != prev && next != dhash && prev != dhash
      && ListsOk(Abs())
      && Spelled(next[..], prev[..], freeindex, dhash[..], lists)
    }

    ghost predicate Valid()
      reads this, next, prev, dcache, dhash, disk
    {
      Linked() && Inv(Abs(), disk.sectors)
    }

    /** The content of a sector for the users of the cache. */
    ghost function Content(key: Key): Block
      reads this, dcache, disk
    {
      View(Abs(), disk.sectors, key)
    }

    /** dcache_init: all entries on the free list. */
    constructor (size: nat, disk: Disk)
      ensures Valid() && this.disk == disk && Abs() == Initial(size)
      ensures fresh(next) && fresh(prev) && fresh(dcache) && fresh(dhash)
    {
      next := new int[size](i => if i + 1 < size then i + 1 else NIL);
      prev := new int[size](_ => NIL);
      dcache := new Entry[size](_ => Entry(Key(NULLDEV, 0), 0, -1, false, false, 0, []));
      dhash := new int[MAXHASH](_ => NIL);
      freeindex := if size > 0 then 0 else NIL;
      this.disk := disk;
      lists := AllFree(size);
      new;
      InitialInv(size, disk.sectors);
      AllFreeSpelled(next[..], prev[..], dhash[..]);
      assert Abs() == Initial(size);
    }

    // ---------- the lists ----------

    method GetDcache() returns (ret: int)
      requires Linked() && forall i :: 0 <= i < dcache.Length ==> EntryOk(Abs(), i)
      modifies `freeindex, `lists, dcache
      ensures Linked()
      ensures old(lists.free) == [] ==> ret == NIL && Abs() == old(Abs())
      ensures old(lists.free) != [] ==> ret == old(lists.free[0]) && Abs() == TakeFree(old(Abs()))
    {
      ret := freeindex;
      if ret != NIL {
        TakeFreeOk(lists);
        TakeFreeSpelled(next[..], prev[..], freeindex, dhash[..], lists);
        freeindex := next[ret];
        assert lists.Placed(ret) && EntryOk(Abs(), ret);
        assert dcache[ret].used == -1;
        dcache[ret] := dcache[ret].(used := 0);
        lists := lists.TakeFree();
        assert Abs() == TakeFree(old(Abs()));
      }
    }

    method FreeDcache(index: int)
      requires Linked() && 0 <= index < dcache.Length && lists.place[index] == Out && dcache[index].used == 0
      modifies `freeindex, `lists, next, dcache
      ensures Linked() && Abs() == PutFree(old(Abs()), index)
    {
      PutFreeOk(lists, index);
      PutFreeSpelled(next[..], prev[..], freeindex, dhash[..], lists, index);
      dcache[index] := dcache[index].(used := -1);
      next[index] := freeindex;
      freeindex := index;
      lists := lists.PutFree(index);
      assert Abs() == PutFree(old(Abs()), index);
    }

    method InsertDcache(index: int)
      requires Linked() && 0 <= index < dcache.Length && lists.place[index] == Out && dcache[index].used == 1
      modifies `lists, next, prev, dcache, dhash
      ensures Linked() && Abs() == Insert(old(Abs()), index)
    {
      var h := Bucket(dcache[index].key);
      InsertOk(lists, index, h);
      InsertSpelled(next[..], prev[..], freeindex, dhash[..], lists, index, h);
      prev[index] := NIL;
      dcache[index] := dcache[index].(hash := h);
      next[index] := dhash[h];
      if dhash[h] != NIL {
        prev[dhash[h]] := index;
      }
      dhash[h] := index;
      lists := lists.Insert(index, h);
      assert Abs() == Insert(old(Abs()), index);
    }

    method RemoveDcache(index: int)
      requires Linked() && 0 <= index < dcache.Length && dcache[index].used == 0
      requires 0 <= dcache[index].hash < MAXHASH && lists.place[index] == InBucket(dcache[index].hash)
      modifies `lists, next, prev, dhash
      ensures Linked() && Abs() == Remove(old(Abs()), index)
    {
      ghost var h := dcache[index].hash;
      RemoveOk(lists, index, h);
      RemoveSpelled(next[..], prev[..], freeindex, dhash[..], lists, index, h);
      if prev[index] != NIL {
        next[prev[index]] := next[index];
      } else {
        dhash[dcache[index].hash] := next[index];
      }
      if next[index] != NIL {
        prev[next[index]] := prev[index];
      }
      lists := lists.Remove(index, h);
      assert Abs() == Remove(old(Abs()), index);
    }

    // ---------- eviction ----------

    /** One entry of the scan of __purge_dcache. */
    method ScanEntry(i: int, flag0: bool, ind0: int, t0: nat) returns (flag: bool, ind: int, t: nat)
      requires 0 <= i < dcache.Length && (ind0 != NIL ==> 0 <= ind0 < dcache.Length)
      ensures flag == ScanStep(Abs(), i, flag0, ind0, t0).0
      ensures ind == ScanStep(Abs(), i, flag0, ind0, t0).1
      ensures t == ScanStep(Abs(), i, flag0, ind0, t0).2
    {
      flag, ind, t := flag0, ind0, t0;
      if dcache[i].used == 0 {
        if !dcache[i].dirty {
          flag := false;
          if dcache[i].time < t || (ind != NIL && dcache[ind].dirty) {
            ind, t := i, dcache[i].time;
          }
        } else if flag {
          if dcache[i].time < t {
            ind, t := i, dcache[i].time;
          }
        }
      }
    }

    /** The inner loop of the scan, over the entries of bucket k. */
    method ScanBucket(k: int, flag0: bool, ind0: int, t0: nat) returns (flag: bool, ind: int, t: nat)
      requires Linked() && 0 <= k < MAXHASH && Scanned(Abs(), Order(Abs(), k), flag0, ind0, t0)
      ensures Scanned(Abs(), Order(Abs(), k + 1), flag, ind, t)
    {
      ghost var st, b, p := Abs(), lists.buckets[k], 0;
      WholeBefore(st, k);
      flag, ind, t := flag0, ind0, t0;
      var i := dhash[k];
      while i != NIL
        invariant 0 <= p <= |b| && i == At(b, p) && Scanned(st, Before(st, k, p), flag, ind, t)
        decreases |b| - p
      {
        ScannedOneMore(st, k, p, flag, ind, t);
        assert next[..][b[p]] == At(b, p + 1);
        flag, ind, t := ScanEntry(i, flag, ind, t);
        i := next[i];
        p := p + 1;
      }
    }

    /** The scan of __purge_dcache for an entry to evict.  It finds none exactly when every idle entry is overlooked;
        with stamps below the bound it finds the victim. */
    method FindVictim() returns (ind: int)
      requires Valid()
      ensures ind == NIL || Idle(Abs(), ind)
      ensures ind == NIL <==> Overlooked(Abs(), Order(Abs(), MAXHASH))
      ensures Stamped(Abs()) ==> Victim(Abs(), ind)
    {
      var flag, t := true, NEVER;
      ind := NIL;
      var k := 0;
      while k < MAXHASH
        invariant 0 <= k <= MAXHASH && Scanned(Abs(), Order(Abs(), k), flag, ind, t)
      {
        flag, ind, t := ScanBucket(k, flag, ind, t);
        k := k + 1;
      }
      ScanMeans(Abs());
    }

    /** The write-back of a dirty victim. */
    method WriteBack(ind: int) returns (ok: bool)
      requires Valid() && Idle(Abs(), ind) && dcache[ind].dirty
      modifies dcache, disk
      ensures Linked() && disk.failures == if ok then old(disk.failures) else old(disk.failures) + 1
      ensures !ok ==> Valid() && Abs() == old(Abs()) && SameView(old(Abs()), old(disk.sectors), Abs(), disk.sectors)
      ensures ok ==> Abs() == WithEntry(old(Abs()), ind, dcache[ind])
      ensures ok ==> dcache[ind].hash == old(dcache[ind].hash) && dcache[ind].used == 0
      ensures ok ==> dcache[ind].time == old(dcache[ind].time)
      ensures OnlyAt(old(disk.sectors), disk.sectors, old(dcache[ind].key))
      ensures ok ==> Sector(disk.sectors, old(dcache[ind].key)) == old(dcache[ind].buffer)
    {
      ghost var st, before, e := Abs(), disk.sectors, dcache[ind];
      dcache[ind] := dcache[ind].(used := dcache[ind].used + 1, ready := false);
      ok := disk.Write(dcache[ind].key, dcache[ind].buffer);
      if !ok {
        dcache[ind] := dcache[ind].(used := dcache[ind].used - 1, ready := true);
        assert EntryOk(st, ind);
        TouchKeeps(st, before, disk.sectors, ind, e);
        assert Abs() == st == WithEntry(st, ind, e);
        return;
      }
      dcache[ind] := dcache[ind].(key := Key(NULLDEV, dcache[ind].key.lsector));
      dcache[ind] := dcache[ind].(used := dcache[ind].used - 1);
      assert Abs() == WithEntry(st, ind, dcache[ind]);
    }

    /** __purge_dcache: take an idle entry out of its bucket, writing it back first when it is dirty. */
    method PurgeDcache() returns (ind: int)
      requires Valid()
      modifies `lists, next, prev, dcache, dhash, disk
      ensures Valid() && SameView(old(Abs()), old(disk.sectors), Abs(), disk.sectors)
      ensures lists.free == old(lists.free) && disk.failures >= old(disk.failures)
      ensures ind != NIL ==> Idle(old(Abs()), ind) && lists.place == old(lists.place)[ind := Out]
      ensures ind != NIL ==> forall j :: 0 <= j < dcache.Length && j != ind ==> dcache[j] == old(dcache[j])
      ensures ind != NIL ==> dcache[ind].time == old(dcache[ind].time)
      ensures ind != NIL && Stamped(old(Abs())) ==> Victim(old(Abs()), ind)
      ensures ind == NIL ==> Abs() == old(Abs())
      ensures ind == NIL && disk.failures == old(disk.failures) <==>
                Overlooked(old(Abs()), Order(old(Abs()), MAXHASH))
      ensures ind == NIL && Stamped(old(Abs())) && disk.failures == old(disk.failures) ==>
                forall j :: !Idle(old(Abs()), j)
    {
      ind := FindVictim();
      if ind != NIL {
        ghost var st, before := Abs(), disk.sectors;
        if dcache[ind].dirty {
          var ok := WriteBack(ind);
          if !ok { return NIL; }
        }
        assert Abs() == WithEntry(st, ind, dcache[ind]);
        EvictKeeps(st, before, disk.sectors, ind, dcache[ind]);
        RemoveDcache(ind);
      }
    }

    /** __catch_dcache: the head of the free list, or else an evicted entry. */
    method CatchDcache() returns (ind: int)
      requires Valid()
      modifies `freeindex, `lists, next, prev, dcache, dhash, disk
      ensures old(lists.free) != [] ==>
                ind == old(lists.free[0]) && Abs() == TakeFree(old(Abs())) && disk.sectors == old(disk.sectors)
      ensures ind != NIL && old(lists.free) == [] && Stamped(old(Abs())) ==> Victim(old(Abs()), ind)
      ensures Valid() && SameView(old(Abs()), old(disk.sectors), Abs(), disk.sectors)
      ensures disk.failures >= old(disk.failures)
      ensures ind != NIL ==>
                && 0 <= ind < dcache.Length && old(lists.place[ind]) != Out && old(dcache[ind]).used <= 0
                && dcache[ind].time == old(dcache[ind].time)
                && lists.place == old(lists.place)[ind := Out]
                && forall j :: 0 <= j < dcache.Length && j != ind ==> dcache[j] == old(dcache[j])
      ensures ind == NIL ==> Abs() == old(Abs())
      ensures ind == NIL && disk.failures == old(disk.failures) <==>
                old(lists.free) == [] && Overlooked(old(Abs()), Order(old(Abs()), MAXHASH))
      ensures ind == NIL && Stamped(old(Abs())) && disk.failures == old(disk.failures) ==>
                old(lists.free) == [] && forall j :: !Idle(old(Abs()), j)
    {
      if lists.free != [] {
        assert EntryOk(Abs(), lists.free[0]) && lists.Placed(lists.free[0]);
        TakeFreeKeeps(Abs(), disk.sectors);
      }
      ind := GetDcache();
      if ind == NIL {
        ind := PurgeDcache();
      }
    }

    // ---------- locking and unlocking ----------

    /** The walk of dcache_genlock along a bucket. */
    method Find(key: Key) returns (i: int)
      requires Valid()
      ensures i == NIL ==> NotCached(Abs(), key)
      ensures i != NIL ==> Holds(Abs(), i, key)
    {
      ghost var st, b, p := Abs(), lists.buckets[Bucket(key)], 0;
      i := dhash[Bucket(key)];
      while i != NIL
        invariant 0 <= p <= |b| && i == At(b, p)
        invariant forall q :: 0 <= q < p ==> st.entries[b[q]].key != key
        decreases |b| - p
      {
        assert i in b && lists.Placed(i) && next[..][b[p]] == At(b, p + 1);
        if dcache[i].key == key { return; }
        i := next[i];
        p := p + 1;
      }
      forall j ensures !Holds(st, j, key) {
        if Cached(st, j) {
          assert EntryOk(st, j) && lists.Placed(j);
        }
      }
    }

    /** The second stage of dcache_genlock: enter the block, then read it; on an error take it out again. */
    method Fill(i: int, key: Key) returns (ok: bool)
      requires Valid() && 0 <= i < dcache.Length && lists.place[i] == Out && NotCached(Abs(), key)
      modifies `freeindex, `lists, next, prev, dcache, dhash, disk`outcomes, disk`failures
      ensures Valid() && SameView(old(Abs()), disk.sectors, Abs(), disk.sectors)
      ensures disk.failures == if ok then old(disk.failures) else old(disk.failures) + 1
      ensures ok ==> Holds(Abs(), i, key) && dcache[i].used == 1 && !dcache[i].dirty
      ensures !ok ==> lists.free == [i] + old(lists.free) && lists.buckets == old(lists.buckets)
      ensures lists.place[i] != Out && (!ok ==> dcache[i].used == -1) && dcache[i].time == old(dcache[i].time)
      ensures forall j :: 0 <= j < dcache.Length && j != i ==>
                dcache[j] == old(dcache[j]) && lists.place[j] == old(lists.place[j])
    {
      ghost var st := Abs();
      dcache[i] := dcache[i].(used := 1, dirty := false, key := key, ready := false);
      ghost var e := dcache[i];
      assert Abs() == WithEntry(st, i, e);
      InsertDcache(i);
      var block;
      ok, block := disk.Read(key);
      if ok {
        dcache[i] := dcache[i].(ready := true, buffer := block);
        FillKeeps(st, disk.sectors, i, e.(ready := true, buffer := block));
        assert Abs() == Insert(WithEntry(st, i, e.(ready := true, buffer := block)), i);
      } else {
        dcache[i] := dcache[i].(key := Key(NULLDEV, key.lsector), buffer := block);
        dcache[i] := dcache[i].(used := dcache[i].used - 1);
        ghost var left := dcache[i];
        FailedFillKeeps(st, disk.sectors, i, e, left);
        assert Abs() == WithEntry(Insert(WithEntry(st, i, e), i), i, left);
        RemoveDcache(i);
        FreeDcache(i);
      }
    }

    /** One reference more on a cached entry. */
    method Hit(i: int)
      requires Valid() && Cached(Abs(), i)
      modifies dcache
      ensures Valid() && SameView(old(Abs()), disk.sectors, Abs(), disk.sectors)
      ensures old(dcache[i]).used >= 0
      ensures Abs() == WithEntry(old(Abs()), i, old(dcache[i]).(used := old(dcache[i]).used + 1))
    {
      ghost var st := Abs();
      assert EntryOk(st, i);
      dcache[i] := dcache[i].(used := dcache[i].used + 1);
      TouchKeeps(st, disk.sectors, disk.sectors, i, dcache[i]);
      assert Abs() == WithEntry(st, i, dcache[i]);
    }

    /** The part of dcache_genlock for a block that is not cached. */
    method Fetch(key: Key) returns (ret: int)
      requires Valid() && NotCached(Abs(), key)
      modifies `freeindex, `lists, next, prev, dcache, dhash, disk
      ensures Valid() && SameView(old(Abs()), old(disk.sectors), Abs(), disk.sectors)
      ensures disk.failures >= old(disk.failures)
      ensures ret != NIL ==> Holds(Abs(), ret, key) && dcache[ret].used == 1 && old(dcache[ret].used) <= 0
      ensures forall j :: 0 <= j < dcache.Length && j != ret ==> dcache[j] == old(dcache[j]) || dcache[j].used == -1
      ensures forall j :: 0 <= j < dcache.Length ==> dcache[j].time == old(dcache[j].time)
      ensures forall j :: 0 <= j < dcache.Length && j != ret && old(dcache[j]).used > 0 ==>
                dcache[j] == old(dcache[j]) && lists.place[j] == old(lists.place[j])
      ensures forall j :: 0 <= j < dcache.Length ==> (lists.place[j] == Out <==> old(lists.place[j]) == Out)
      ensures ret == NIL && disk.failures == old(disk.failures) <==>
                old(lists.free) == [] && Overlooked(old(Abs()), Order(old(Abs()), MAXHASH))
      ensures ret == NIL && Stamped(old(Abs())) ==>
                disk.failures > old(disk.failures) || (old(lists.free) == [] && forall j :: !Idle(old(Abs()), j))
    {
      ghost var st := Abs();
      var i := CatchDcache();
      if i == NIL { return NIL; }
      assert NotCached(Abs(), key) by {
        forall j ensures !Holds(Abs(), j, key) {
          assert !Holds(st, j, key);
        }
      }
      var ok := Fill(i, key);
      return if ok then i else NIL;
    }

    /** dcache_genlock: no content changes; the entry returned is that of the block and has its content.  A block
        that is cached costs no transfer.  Without a failed transfer nothing is returned exactly when the block is
        not cached and every entry is in use or overlooked; below the bound on stamps none is overlooked. */
    method GenLock(key: Key) returns (ret: int)
      requires Valid()
      modifies `freeindex, `lists, next, prev, dcache, dhash, disk
      ensures Valid() && SameView(old(Abs()), old(disk.sectors), Abs(), disk.sectors)
      ensures disk.failures >= old(disk.failures)
      ensures ret != NIL ==> Holds(Abs(), ret, key) && dcache[ret].used > 0
      ensures ret != NIL && NotCached(old(Abs()), key) ==> dcache[ret].used == 1 && old(dcache[ret].used) <= 0
      ensures forall j :: 0 <= j < dcache.Length && j != ret ==> dcache[j] == old(dcache[j]) || dcache[j].used == -1
      ensures forall j :: 0 <= j < dcache.Length ==> dcache[j].time == old(dcache[j].time)
      ensures ret != NIL ==> dcache[ret].buffer == View(old(Abs()), old(disk.sectors), key)
      ensures forall i :: Holds(old(Abs()), i, key) ==>
                && ret == i && disk.failures == old(disk.failures) && disk.sectors == old(disk.sectors)
                && Abs() == WithEntry(old(Abs()), i, old(dcache[i]).(used := old(dcache[i]).used + 1))
      ensures forall j :: 0 <= j < dcache.Length && j != ret && old(dcache[j]).used > 0 ==>
                dcache[j] == old(dcache[j]) && lists.place[j] == old(lists.place[j])
      ensures forall j :: 0 <= j < dcache.Length ==> (lists.place[j] == Out <==> old(lists.place[j]) == Out)
      ensures ret == NIL && disk.failures == old(disk.failures) <==>
                && NotCached(old(Abs()), key)
                && old(lists.free) == [] && Overlooked(old(Abs()), Order(old(Abs()), MAXHASH))
      ensures ret == NIL && Stamped(old(Abs())) ==>
                disk.failures > old(disk.failures) || (old(lists.free) == [] && forall j :: !Idle(old(Abs()), j))
    {
      ghost var st := Abs();
      ret := Find(key);
      if ret != NIL {
        ViewCached(st, disk.sectors, ret);
        Hit(ret);
      } else {
        ret := Fetch(key);
        if ret != NIL {
          ViewCached(Abs(), disk.sectors, ret);
        }
      }
    }

    method GenUnlock(i: int, now: nat)
      requires Valid() && Cached(Abs(), i) && dcache[i].used > 0
      modifies dcache
      ensures Valid() && SameView(old(Abs()), disk.sectors, Abs(), disk.sectors)
      ensures Abs() == WithEntry(old(Abs()), i, old(dcache[i]).(used := old(dcache[i]).used - 1, time := now))
    {
      ghost var st := Abs();
      assert EntryOk(st, i);
      dcache[i] := dcache[i].(used := dcache[i].used - 1);
      dcache[i] := dcache[i].(time := now);
      TouchKeeps(st, disk.sectors, disk.sectors, i, dcache[i]);
      assert Abs() == WithEntry(st, i, dcache[i]);
    }

    /** The holder of a block changes its buffer and then calls dcache_dirty. */
    method WriteBlock(i: int, b: Block)
      requires Valid() && Cached(Abs(), i) && dcache[i].used == 1
      modifies dcache
      ensures Valid() && Abs() == WithEntry(old(Abs()), i, old(dcache[i]).(buffer := b, dirty := true))
      ensures Content(dcache[i].key) == b
      ensures forall key :: key != dcache[i].key ==> Content(key) == old(Content(key))
    {
      ghost var st := Abs();
      WriteChanges(st, disk.sectors, i, b);
      dcache[i] := dcache[i].(buffer := b);
      dcache[i] := dcache[i].(dirty := true);
      assert Abs() == WithEntry(st, i, dcache[i]);
    }

    // ---------- flushing ----------

    /** The entries are the same but for dirty flags that have been cleared. */
    ghost predicate OnlyCleaned(was: seq<Entry>)
      reads dcache
    {
      && |was| == dcache.Length
      && forall j :: 0 <= j < |was| ==> dcache[j] == was[j] || dcache[j] == was[j].(dirty := false)
    }

    /** Write one dirty entry back. */
    method FlushEntry(i: int) returns (ok: bool)
      requires Valid() && Cached(Abs(), i) && dcache[i].dirty
      modifies dcache, disk
      ensures Valid() && SameView(old(Abs()), old(disk.sectors), Abs(), disk.sectors)
      ensures disk.failures == if ok then old(disk.failures) else old(disk.failures) + 1
      ensures disk.failed == if ok then old(disk.failed) else old(disk.failed) + multiset{dcache[i].key}
      ensures Abs() == if ok then WithEntry(old(Abs()), i, old(dcache[i]).(dirty := false)) else old(Abs())
    {
      ghost var st, before := Abs(), disk.sectors;
      assert EntryOk(st, i);
      dcache[i] := dcache[i].(used := dcache[i].used + 1);
      ok := disk.Write(dcache[i].key, dcache[i].buffer);
      dcache[i] := dcache[i].(used := dcache[i].used - 1);
      if ok {
        dcache[i] := dcache[i].(dirty := false);
      }
      TouchKeeps(st, before, disk.sectors, i, dcache[i]);
      assert Abs() == WithEntry(st, i, dcache[i]);
    }

    /** The entry i, if it is dirty. */
    method FlushNext(i: int, ghost first: State, ghost disk0: map<Key, Block>, ghost was: multiset<Key>,
                     ghost done: set<int>) returns (ok: bool)
      requires Valid() && Flushing(first, disk0, was, Abs(), disk.sectors, disk.failed, done)
      requires Cached(Abs(), i) && i !in done
      modifies dcache, disk
      ensures Valid() && Flushing(first, disk0, was, Abs(), disk.sectors, disk.failed, done + {i})
      ensures disk.failures == if ok then old(disk.failures) else old(disk.failures) + 1
      ensures ok ==> disk.failed == old(disk.failed)
    {
      ghost var entries, failed := dcache[..], disk.failed;
      ok := true;
      if dcache[i].dirty {
        ok := FlushEntry(i);
      }
      TriedOneMore(first, was, entries, failed, done, i, dcache[..], disk.failed);
    }

    /** A step along bucket k. */
    lemma BucketStep(k: int, p: nat)
      requires Valid() && 0 <= k < MAXHASH && p < |lists.buckets[k]|
      ensures var b := lists.buckets[k];
              && Cached(Abs(), b[p]) && lists.place[b[p]] == InBucket(k) && next[b[p]] == At(b, p + 1)
              && b[p] !in b[..p] && b[..p + 1] == b[..p] + [b[p]]
    {
      var b := lists.buckets[k];
      assert b[p] in b && lists.Placed(b[p]) && next[..][b[p]] == At(b, p + 1);
    }

    method FlushBucket(k: int, ghost first: State, ghost disk0: map<Key, Block>, ghost was: multiset<Key>,
                       ghost done: set<int>) returns (ret: int, ghost tried: set<int>)
      requires Valid() && Flushing(first, disk0, was, Abs(), disk.sectors, disk.failed, done)
      requires 0 <= k < MAXHASH && forall x :: x in lists.buckets[k] ==> x !in done
      modifies dcache, disk
      ensures Valid() && Flushing(first, disk0, was, Abs(), disk.sectors, disk.failed, tried)
      ensures forall x :: x in tried <==> x in done || x in lists.buckets[k]
      ensures disk.failures >= old(disk.failures) && (ret == 0 ==> disk.failed == old(disk.failed))
      ensures ret == if disk.failures == old(disk.failures) then 0 else -1
    {
      ghost var b, p := lists.buckets[k], 0;
      ret, tried := 0, done;
      var i := dhash[k];
      while i != NIL
        invariant Valid() && Flushing(first, disk0, was, Abs(), disk.sectors, disk.failed, tried)
        invariant 0 <= p <= |b| && i == At(b, p)
        invariant forall x :: x in tried <==> x in done || x in b[..p]
        invariant disk.failures >= old(disk.failures) && (ret == 0 ==> disk.failed == old(disk.failed))
        invariant ret == if disk.failures == old(disk.failures) then 0 else -1
        decreases |b| - p
      {
        BucketStep(k, p);
        var ok := FlushNext(i, first, disk0, was, tried);
        if !ok {
          ret := -1;
        }
        p, tried := p + 1, tried + {i};
        i := next[i];
      }
      assert b[..p] == b;
    }

    lemma BucketMembers(k: int)
      requires Linked() && 0 <= k < MAXHASH
      ensures forall x :: x in lists.buckets[k] <==> 0 <= x < dcache.Length && lists.place[x] == InBucket(k)
    {
      forall x ensures x in lists.buckets[k] <==> 0 <= x < dcache.Length && lists.place[x] == InBucket(k) {
        assert 0 <= x < dcache.Length ==> lists.Placed(x);
      }
    }

    /** The entries of the buckets before k. */
    ghost predicate Visited(done: set<int>, k: int)
      reads this
    {
      forall i :: i in done <==> 0 <= i < |lists.place| && lists.place[i].InBucket? && lists.place[i].h < k
    }

    lemma VisitedEnds(done: set<int>)
      requires Valid()
      ensures Visited({}, 0)
      ensures Visited(done, MAXHASH) ==> forall j :: Cached(Abs(), j) ==> j in done
    {
      forall i | 0 <= i < dcache.Length && lists.place[i].InBucket? ensures 0 <= lists.place[i].h < MAXHASH {
        assert EntryOk(Abs(), i);
      }
    }

    /** One round of dcache_flush. */
    method FlushRound(k: int, ghost first: State, ghost disk0: map<Key, Block>, ghost was: multiset<Key>,
                      ghost done: set<int>) returns (ret: int, ghost tried: set<int>)
      requires Valid() && Flushing(first, disk0, was, Abs(), disk.sectors, disk.failed, done)
      requires 0 <= k < MAXHASH && Visited(done, k)
      modifies dcache, disk
      ensures Valid() && Flushing(first, disk0, was, Abs(), disk.sectors, disk.failed, tried) && Visited(tried, k + 1)
      ensures disk.failures >= old(disk.failures) && (ret == 0 ==> disk.failed == old(disk.failed))
      ensures ret == if disk.failures == old(disk.failures) then 0 else -1
    {
      BucketMembers(k);
      ret, tried := FlushBucket(k, first, disk0, was, done);
    }

    /** The loop of dcache_flush over the buckets. */
    method FlushTable(ghost first: State, ghost disk0: map<Key, Block>, ghost was: multiset<Key>)
      returns (ret: int, ghost done: set<int>)
      requires Valid() && Flushing(first, disk0, was, Abs(), disk.sectors, disk.failed, {})
      modifies dcache, disk
      ensures Valid() && Flushing(first, disk0, was, Abs(), disk.sectors, disk.failed, done) && Visited(done, MAXHASH)
      ensures disk.failures >= old(disk.failures) && (ret == 0 ==> disk.failed == old(disk.failed))
      ensures ret == if disk.failures == old(disk.failures) then 0 else -1
    {
      ret, done := 0, {};
      VisitedEnds(done);
      var k := 0;
      while k < MAXHASH
        invariant 0 <= k <= MAXHASH && Valid() && Visited(done, k)
        invariant Flushing(first, disk0, was, Abs(), disk.sectors, disk.failed, done)
        invariant disk.failures >= old(disk.failures) && (ret == 0 ==> disk.failed == old(disk.failed))
        invariant ret == if disk.failures == old(disk.failures) then 0 else -1
      {
        var res;
        res, done := FlushRound(k, first, disk0, was, done);
        if res != 0 {
          ret := -1;
        }
        k := k + 1;
      }
    }

    /** dcache_flush: no content changes, and the disk has all of it but the dirty blocks whose own write failed.  These
        stay dirty, every other block is clean, and no block is tried twice. */
    method Flush() returns (ret: int)
      requires Valid()
      modifies dcache, disk
      ensures Valid() && SameView(old(Abs()), old(disk.sectors), Abs(), disk.sectors)
      ensures OnlyCleaned(old(dcache[..])) && disk.failures >= old(disk.failures)
      ensures ret == if disk.failures == old(disk.failures) then 0 else -1
      ensures forall key :: disk.failed[key] == old(disk.failed[key]) ==> Sector(disk.sectors, key) == old(Content(key))
      ensures FlushFailures(old(Abs()), old(disk.failed), Abs(), disk.failed)
      ensures ret == 0 ==> disk.failed == old(disk.failed)
    {
      ghost var first, disk0, was, done := Abs(), disk.sectors, disk.failed, {};
      ret, done := FlushTable(first, disk0, was);
      VisitedEnds(done);
      TriedAll(first, disk0, was, Abs(), disk.sectors, disk.failed, done);
    }

    // ---------- purging a device ----------

    static ghost predicate WasDirty(first: State, dev: int, key: Key) {
      key.device == dev && exists i :: Holds(first, i, key) && first.entries[i].dirty
    }

    /** Every block of `dev` is idle: the code waits until it is. */
    ghost predicate Unused(dev: int)
      reads this, dcache
    {
      forall j :: Cached(Abs(), j) && dcache[j].key.device == dev ==> dcache[j].used == 0
    }

    /** Every block is as before, unless the purge goes on after errors and the write-back of the block itself
        failed. */
    twostate predicate Preserved(cont: bool)
      reads this, dcache, disk
    {
      forall key: Key :: !cont || disk.failed[key] == old(disk.failed[key]) ==> Content(key) == old(Content(key))
    }

    /** Writes have failed for blocks of `dev` only that were cached and dirty. */
    twostate predicate FailedDirty(first: State, dev: int)
      reads disk
    {
      && (disk.failures == old(disk.failures) ==> disk.failed == old(disk.failed))
      && forall key: Key ::
           disk.failed[key] == old(disk.failed[key])
           || (disk.failed[key] > old(disk.failed[key]) && WasDirty(first, dev, key))
    }

    /** Nothing but entries of `dev` has left the cache. */
    ghost predicate OnlyDropped(was: State, dev: int)
      reads this, dcache
    {
      && dcache[..] == was.entries && lists.free == was.lists.free && |lists.place| == |was.lists.place|
      && forall j :: 0 <= j < |was.lists.place| ==>
           lists.place[j] == was.lists.place[j]
           || (lists.place[j] == Out && was.lists.place[j].InBucket?
               && j < dcache.Length && dcache[j].key.device == dev)
    }

    /** Drop one block of the device: the entry leaves its bucket and goes to no list. */
    method PurgeEntry(i: int, dev: int, cont: bool, ghost first: State) returns (ok: bool, dropped: bool)
      requires Valid() && Cached(Abs(), i) && dcache[i].key.device == dev && Unused(dev) && OnlyDropped(first, dev)
      modifies `lists, next, prev, dcache, dhash, disk
      ensures Valid() && Preserved(cont) && FailedDirty(first, dev) && Unused(dev) && OnlyDropped(first, dev)
      ensures ok <==> disk.failures == old(disk.failures)
      ensures disk.failures >= old(disk.failures)
      ensures dropped <==> ok || cont
      ensures dcache[..] == old(dcache[..])
      ensures 0 <= dcache[i].hash < MAXHASH == |lists.buckets| && old(lists.place[i]) == InBucket(dcache[i].hash)
      ensures dropped ==>
                lists.buckets == old(lists.buckets)[dcache[i].hash := Without(old(lists.buckets)[dcache[i].hash], i)]
    {
      ghost var st, before, e := Abs(), disk.sectors, dcache[i];
      assert EntryOk(st, i);
      ok := true;
      if dcache[i].dirty {
        dcache[i] := dcache[i].(used := dcache[i].used + 1);
        ok := disk.Write(dcache[i].key, dcache[i].buffer);
        dcache[i] := dcache[i].(used := dcache[i].used - 1);
      }
      assert Abs() == st == WithEntry(st, i, e);
      assert e.dirty ==> Holds(first, i, e.key) && WasDirty(first, dev, e.key);
      ViewCached(st, before, i);
      if !ok && !cont {
        TouchKeeps(st, before, disk.sectors, i, e);
        return false, false;
      }
      DropKeeps(st, before, disk.sectors, i, e);
      RemoveDcache(i);
      dropped := true;
    }

    /** A step along bucket k, of which `kept` is behind and `rest` ahead. */
    lemma Step(k: int, kept: seq<int>, rest: seq<int>)
      requires Valid() && 0 <= k < MAXHASH && lists.buckets[k] == kept + rest && rest != []
      ensures Cached(Abs(), rest[0]) && lists.place[rest[0]] == InBucket(k)
      ensures dcache[rest[0]].hash == k && next[rest[0]] == At(rest, 1)
      ensures Without(lists.buckets[k], rest[0]) == kept + rest[1..]
      ensures lists.buckets[k] == (kept + [rest[0]]) + rest[1..]
    {
      Walk(next[..], prev[..], freeindex, dhash[..], lists, k, kept, rest);
      assert EntryOk(Abs(), rest[0]);
    }

    /** Bucket k during the purge: `kept` is behind and holds no block of `dev`, `rest` is ahead. */
    ghost predicate Going(first: State, dev: int, k: int, kept: seq<int>, rest: seq<int>)
      requires 0 <= k < MAXHASH
      reads this, dcache
    {
      && OnlyDropped(first, dev) && Unused(dev) && |lists.buckets| == MAXHASH
      && lists.buckets[k] == kept + rest && InRange(rest, dcache.Length)
      && forall x :: x in kept ==> 0 <= x < |first.entries| && first.entries[x].key.device != dev
    }

    /** One round: the entry ahead is purged or kept. */
    method PurgeNext(i: int, k: int, dev: int, cont: bool, ghost first: State, ghost kept: seq<int>,
                     ghost rest: seq<int>)
      returns (ok: bool, going: bool, ghost kept': seq<int>)
      requires Valid() && 0 <= k < MAXHASH && rest != [] && i == rest[0] && Going(first, dev, k, kept, rest)
      modifies `lists, next, prev, dcache, dhash, disk
      ensures Valid() && Preserved(cont) && FailedDirty(first, dev) && Unused(dev) && OnlyDropped(first, dev)
      ensures ok <==> disk.failures == old(disk.failures)
      ensures disk.failures >= old(disk.failures)
      ensures going <==> ok || cont
      ensures going ==> Going(first, dev, k, kept', rest[1..])
    {
      Step(k, kept, rest);
      if dcache[i].key.device == dev {
        ok, going := PurgeEntry(i, dev, cont, first);
        kept' := kept;
      } else {
        ok, going, kept' := true, true, kept + [i];
      }
    }

    /** What is cached and dirty was so before, as long as entries have only been dropped. */
    lemma WasDirtyBefore(first: State, dev: int, key: Key)
      requires OnlyDropped(first, dev) && Linked() && |first.lists.place| == |first.entries|
      requires WasDirty(Abs(), dev, key)
      ensures WasDirty(first, dev, key)
    {
      var i :| Holds(Abs(), i, key) && dcache[i].dirty;
      assert Holds(first, i, key) && first.entries[i].dirty;
    }

    method PurgeBucket(k: int, dev: int, cont: bool) returns (ok: bool, finished: bool)
      requires Valid() && Unused(dev) && 0 <= k < MAXHASH
      modifies `lists, next, prev, dcache, dhash, disk
      ensures Valid() && Unused(dev) && Preserved(cont) && FailedDirty(old(Abs()), dev) && OnlyDropped(old(Abs()), dev)
      ensures ok <==> disk.failures == old(disk.failures)
      ensures disk.failures >= old(disk.failures)
      ensures finished <==> ok || cont
      ensures finished ==>
                forall j :: 0 <= j < dcache.Length && lists.place[j] == InBucket(k) ==> dcache[j].key.device != dev
    {
      ghost var first, kept, rest := Abs(), [], lists.buckets[k];
      ok := true;
      var i := dhash[k];
      while i != NIL
        invariant Valid() && Preserved(cont) && FailedDirty(first, dev)
        invariant Going(first, dev, k, kept, rest) && i == At(rest, 0)
        invariant ok <==> disk.failures == old(disk.failures)
        invariant disk.failures >= old(disk.failures) && (ok || cont)
        decreases |rest|
      {
        Step(k, kept, rest);
        var inext := next[i];
        var written, going;
        written, going, kept := PurgeNext(i, k, dev, cont, first, kept, rest);
        ok := ok && written;
        if !going { return ok, false; }
        rest := rest[1..];
        i := inext;
      }
      finished := true;
      assert rest == [] && kept == lists.buckets[k];
      forall j | 0 <= j < dcache.Length && lists.place[j] == InBucket(k) ensures dcache[j].key.device != dev {
        assert lists.Placed(j) && j in kept;
      }
    }

    /** dcache_purgedevice, once nothing uses the device: no block of it stays cached, unless a write failed and the
        caller wanted to stop then.  No content is lost but that of dirty blocks whose own write-back failed, and only
        if the caller wanted to go on.  The entries purged end on no list: neither on a bucket nor on the free list. */
    method PurgeDevice(dev: int, cont: bool) returns (ret: int)
      requires Valid() && Unused(dev)
      modifies `lists, next, prev, dcache, dhash, disk
      ensures Valid() && Preserved(cont) && FailedDirty(old(Abs()), dev) && OnlyDropped(old(Abs()), dev)
      ensures disk.failures >= old(disk.failures)
      ensures ret == if disk.failures == old(disk.failures) then 0 else -1
      ensures ret == 0 || cont ==> forall j :: Cached(Abs(), j) ==> dcache[j].key.device != dev
    {
      ghost var first := Abs();
      ret := 0;
      var k := 0;
      forall j | 0 <= j < dcache.Length && lists.place[j].InBucket? ensures lists.place[j].h >= 0 {
        assert EntryOk(Abs(), j);
      }
      while k < MAXHASH
        invariant 0 <= k <= MAXHASH && Valid() && Unused(dev) && Preserved(cont)
        invariant FailedDirty(first, dev) && OnlyDropped(first, dev)
        invariant ret == if disk.failures == old(disk.failures) then 0 else -1
        invariant disk.failures >= old(disk.failures) && (ret == 0 || cont)
        invariant forall j :: 0 <= j < dcache.Length && lists.place[j].InBucket? && lists.place[j].h < k ==>
                    dcache[j].key.device != dev
      {
        forall key | WasDirty(Abs(), dev, key) ensures WasDirty(first, dev, key) {
          WasDirtyBefore(first, dev, key);
        }
        var ok, finished := PurgeBucket(k, dev, cont);
        if !ok {
          ret := -1;
        }
        if !finished { return -1; }
        k := k + 1;
      }
      forall j | Cached(Abs(), j) ensures dcache[j].key.device != dev {
        assert EntryOk(Abs(), j);
      }
    }
  }
}
