/** The inode cache (rtos/fs/inode.c) as a map from (device, inode number) to slots.  Every operation here runs under
    hashmutex from beginning to end. */
module InodeCaches {
  import opened IndexLists
  import opened HashedLists

  datatype Key = Key(device: int, number: int)

  datatype Inode = Inode(key: Key, hash: int, dlink: int, dirty: bool)

  /** `held` is a history variable: how often each inode was found, less how often it was given back. */
  datatype State = State(inodes: seq<Inode>, lists: Lists, held: map<Key, nat>)

  function Bucket(key: Key): int {
    HashFun(key.device, key.number)
  }

  function Held(st: State, key: Key): nat {
    if key in st.held then st.held[key] else 0
  }

  predicate Cached(st: State, i: int) {
    0 <= i < |st.inodes| == |st.lists.place| && st.lists.place[i].InBucket?
  }

  predicate Holds(st: State, i: int, key: Key) {
    Cached(st, i) && st.inodes[i].key == key
  }

  ghost predicate NotCached(st: State, key: Key) {
    forall i :: !Holds(st, i, key)
  }

  /** The link count of a cached slot is the number of references its inode has; any other slot has no links. */
  ghost predicate SlotOk(st: State, i: int)
    requires 0 <= i < |st.inodes| == |st.lists.place|
  {
    match st.lists.place[i]
    case InBucket(h) =>
      0 <= h < MAXHASH && st.inodes[i].hash == h == Bucket(st.inodes[i].key)
      && st.inodes[i].dlink == Held(st, st.inodes[i].key)
    case _ => st.inodes[i].dlink == 0
  }

  /** A slot on no list stays on none. */
  ghost predicate OutStays(st: State, st': State) {
    && |st'.lists.place| == |st.lists.place|
    && forall j :: 0 <= j < |st.lists.place| && st.lists.place[j] == Out ==> st'.lists.place[j] == Out
  }

  ghost predicate Inv(st: State) {
    && |st.lists.place| == |st.inodes| && st.lists.Ok()
    && (forall i :: 0 <= i < |st.inodes| ==> SlotOk(st, i))
    && (forall i, j :: Cached(st, i) && Cached(st, j) && st.inodes[i].key == st.inodes[j].key ==> i == j)
    && (forall key :: Held(st, key) > 0 ==> !NotCached(st, key))
  }

  /** No slot has become dirty or clean. */
  predicate SameDirty(st: State, st': State) {
    |st'.inodes| == |st.inodes| && forall i :: 0 <= i < |st.inodes| ==> st'.inodes[i].dirty == st.inodes[i].dirty
  }

  /** An inode with references keeps its slot. */
  ghost predicate Kept(st: State, st': State) {
    forall i, key :: Holds(st, i, key) && Held(st, key) > 0 && Held(st', key) > 0 ==> Holds(st', i, key)
  }

  /** Two inodes that are referenced at the same time have one slot each, and not the same. */
  lemma SlotsAreAMap(st: State, key: Key, key': Key) returns (i: int, j: int)
    requires Inv(st) && Held(st, key) > 0 && Held(st, key') > 0
    ensures Holds(st, i, key) && Holds(st, j, key') && (i == j <==> key == key')
    ensures forall k :: Holds(st, k, key) <==> k == i
  {
    assert !NotCached(st, key) && !NotCached(st, key');
    i :| Holds(st, i, key);
    j :| Holds(st, j, key');
  }

  function WithLinks(st: State, i: int, dlink: nat): State
    requires 0 <= i < |st.inodes|
  {
    st.(inodes := st.inodes[i := st.inodes[i].(dlink := dlink)], held := st.held[st.inodes[i].key := dlink])
  }

  /** A reference more or less on a cached inode. */
  lemma WithLinksKeeps(st: State, i: int, dlink: nat)
    requires Inv(st) && Cached(st, i)
    ensures Inv(WithLinks(st, i, dlink)) && Kept(st, WithLinks(st, i, dlink))
  {
    var st' := WithLinks(st, i, dlink);
    forall j | 0 <= j < |st.inodes| ensures SlotOk(st', j) {
      assert SlotOk(st, j);
      assert j != i && Cached(st, j) ==> st.inodes[j].key != st.inodes[i].key;
    }
    assert forall j, key :: Holds(st', j, key) <==> Holds(st, j, key);
    forall key | Held(st', key) > 0 ensures !NotCached(st', key) {
      if key == st.inodes[i].key {
        assert Holds(st', i, key);
      } else {
        assert Held(st, key) > 0 && !NotCached(st, key);
      }
    }
  }

  lemma DirtyKeeps(st: State, st': State, i: int)
    requires Inv(st) && 0 <= i < |st.inodes| && st' == st.(inodes := st.inodes[i := st.inodes[i].(dirty := true)])
    ensures Inv(st') && Kept(st, st')
  {
    forall j | 0 <= j < |st.inodes| ensures SlotOk(st', j) {
      assert SlotOk(st, j);
    }
    assert forall j, key :: Holds(st', j, key) <==> Holds(st, j, key);
    forall key | Held(st', key) > 0 ensures !NotCached(st', key) {
      assert !NotCached(st, key);
      var j :| Holds(st, j, key);
      assert Holds(st', j, key);
    }
  }

  function Drop(st: State, i: int): State
    requires 0 <= i < |st.inodes| == |st.lists.place| && 0 <= st.inodes[i].hash < |st.lists.buckets|
  {
    st.(lists := st.lists.Remove(i, st.inodes[i].hash))
  }

  /** Taking an inode without references out of its bucket. */
  lemma DropKeeps(st: State, i: int)
    requires Inv(st) && Cached(st, i) && Held(st, st.inodes[i].key) == 0
    ensures 0 <= st.inodes[i].hash < MAXHASH && st.lists.place[i] == InBucket(st.inodes[i].hash)
    ensures Inv(Drop(st, i)) && Kept(st, Drop(st, i))
    ensures NotCached(Drop(st, i), st.inodes[i].key)
  {
    assert SlotOk(st, i);
    var st' := Drop(st, i);
    RemoveOk(st.lists, i, st.inodes[i].hash);
    forall j | 0 <= j < |st.inodes| ensures SlotOk(st', j) {
      assert SlotOk(st, j);
    }
    assert forall j, key :: Holds(st', j, key) <==> j != i && Holds(st, j, key);
    forall key | Held(st', key) > 0 ensures !NotCached(st', key) {
      assert !NotCached(st, key);
      var j :| Holds(st, j, key);
      assert Holds(st', j, key);
    }
  }

  function Enter(st: State, i: int, key: Key): State
    requires 0 <= i < |st.inodes| == |st.lists.place| && |st.lists.buckets| == MAXHASH
  {
    State(st.inodes[i := Inode(key, Bucket(key), 1, st.inodes[i].dirty)], st.lists.Insert(i, Bucket(key)),
          st.held[key := 1])
  }

  /** Entering an inode that is not cached, with its first reference. */
  lemma EnterKeeps(st: State, i: int, key: Key)
    requires Inv(st) && 0 <= i < |st.inodes| && st.lists.place[i] == Out && NotCached(st, key)
    ensures Held(st, key) == 0
    ensures Inv(Enter(st, i, key)) && Kept(st, Enter(st, i, key)) && Holds(Enter(st, i, key), i, key)
  {
    var st' := Enter(st, i, key);
    InsertOk(st.lists, i, Bucket(key));
    forall j | 0 <= j < |st.inodes| ensures SlotOk(st', j) {
      assert SlotOk(st, j) && !Holds(st, j, key);
    }
    assert forall j, k :: Holds(st', j, k) <==> (j == i && k == key) || (j != i && Holds(st, j, k));
    forall j, k | Cached(st', j) && Cached(st', k) && st'.inodes[j].key == st'.inodes[k].key ensures j == k {
      assert !Holds(st, j, key) && !Holds(st, k, key);
    }
    forall k | Held(st', k) > 0 ensures !NotCached(st', k) {
      if k == key {
        assert Holds(st', i, key);
      } else {
        assert Held(st, k) > 0 && !NotCached(st, k);
        var j :| Holds(st, j, k);
        assert Holds(st', j, k);
      }
    }
  }

  /** Moving a slot between the free list and nowhere. */
  lemma OtherListsKeep(st: State, st': State, i: int)
    requires Inv(st) && st'.inodes == st.inodes && st'.held == st.held && st'.lists.Ok()
    requires |st'.lists.place| == |st.lists.place| && 0 <= i < |st.lists.place|
    requires !st.lists.place[i].InBucket? && !st'.lists.place[i].InBucket?
    requires forall j :: 0 <= j < |st.lists.place| && j != i ==> st'.lists.place[j] == st.lists.place[j]
    ensures Inv(st') && Kept(st, st') && forall j, key :: Holds(st', j, key) <==> Holds(st, j, key)
  {
    forall j | 0 <= j < |st.inodes| ensures SlotOk(st', j) {
      assert SlotOk(st, j);
    }
    assert forall j, key :: Holds(st', j, key) <==> Holds(st, j, key);
    forall key | Held(st', key) > 0 ensures !NotCached(st', key) {
      assert !NotCached(st, key);
      var j :| Holds(st, j, key);
      assert Holds(st', j, key);
    }
  }

  function Initial(size: nat): State {
    State(seq(size, _ => Inode(Key(0, 0), 0, 0, false)), AllFree(size), map[])
  }

  lemma InitialInv(size: nat)
    ensures Inv(Initial(size))
  {
    AllFreeOk(size);
  }

  // ---------- the code ----------

  class InodeCache {
    const next: array<int>
    const prev: array<int>
    const ino: array<Inode>
    const ihash: array<int>
    var freeinode: int

    ghost var lists: Lists
    ghost var held: map<Key, nat>

    ghost function Abs(): State
      reads this, ino
    {
      State(ino[..], lists, held)
    }

    ghost predicate Valid()
      reads this, next, prev, ino, ihash
    {
      && next != prev && next != ihash && prev != ihash
      && Inv(Abs()) && Spelled(next[..], prev[..], freeinode, ihash[..], lists)
    }

    constructor (size: nat)
      ensures Valid() && Abs() == Initial(size)
      ensures fresh(next) && fresh(prev) && fresh(ino) && fresh(ihash)
    {
      next := new int[size](i => if i + 1 < size then i + 1 else NIL);
      prev := new int[size](_ => NIL);
      ino := new Inode[size](_ => Inode(Key(0, 0), 0, 0, false));
      ihash := new int[MAXHASH](_ => NIL);
      freeinode := if size > 0 then 0 else NIL;
      lists, held := AllFree(size), map[];
      new;
      InitialInv(size);
      AllFreeSpelled(next[..], prev[..], ihash[..]);
      assert Abs() == Initial(size);
    }

    method GetInode() returns (ptr: int)
      requires Valid()
      modifies `freeinode, `lists
      ensures Valid() && Kept(old(Abs()), Abs())
      ensures old(lists).free == [] ==> ptr == NIL && Abs() == old(Abs())
      ensures old(lists).free != [] ==>
                ptr == old(lists).free[0] && Abs() == old(Abs()).(lists := old(lists).TakeFree())
      ensures ptr != NIL ==> 0 <= ptr < ino.Length && lists.place[ptr] == Out && old(lists).place[ptr] == OnFree
      ensures OutStays(old(Abs()), Abs())
      ensures forall j, key :: Holds(Abs(), j, key) <==> Holds(old(Abs()), j, key)
    {
      ptr := freeinode;
      if freeinode != NIL {
        ghost var st := Abs();
        TakeFreeOk(lists);
        TakeFreeSpelled(next[..], prev[..], freeinode, ihash[..], lists);
        assert lists.Placed(freeinode);
        freeinode := next[freeinode];
        lists := lists.TakeFree();
        OtherListsKeep(st, Abs(), ptr);
      }
    }

    method FreeInode(ptr: int)
      requires Valid() && 0 <= ptr < ino.Length && lists.place[ptr] == Out
      modifies `freeinode, `lists, next
      ensures Valid() && Kept(old(Abs()), Abs())
      ensures Abs() == old(Abs()).(lists := old(lists).PutFree(ptr))
    {
      ghost var st := Abs();
      PutFreeOk(lists, ptr);
      PutFreeSpelled(next[..], prev[..], freeinode, ihash[..], lists, ptr);
      next[ptr] := freeinode;
      freeinode := ptr;
      lists := lists.PutFree(ptr);
      OtherListsKeep(st, Abs(), ptr);
    }

    /** __insert_inode, for the key that find_inode has just stored; `key` is not cached. */
    method InsertInode(ptr: int, key: Key)
      requires Valid() && 0 <= ptr < ino.Length && lists.place[ptr] == Out && NotCached(Abs(), key)
      modifies `lists, `held, next, prev, ino, ihash
      ensures Valid() && Kept(old(Abs()), Abs())
      ensures Abs() == Enter(old(Abs()), ptr, key) && Holds(Abs(), ptr, key) && old(Held(Abs(), key)) == 0
    {
      ghost var st := Abs();
      EnterKeeps(st, ptr, key);
      ino[ptr] := ino[ptr].(key := key);
      var h := Bucket(ino[ptr].key);
      InsertSpelled(next[..], prev[..], freeinode, ihash[..], lists, ptr, h);
      ino[ptr] := ino[ptr].(hash := h);
      prev[ptr] := NIL;
      next[ptr] := ihash[h];
      if ihash[h] != NIL {
        prev[ihash[h]] := ptr;
      }
      ihash[h] := ptr;
      ino[ptr] := ino[ptr].(dlink := 1);
      lists, held := lists.Insert(ptr, h), held[key := 1];
      assert Abs() == Enter(st, ptr, key);
    }

    method RemoveInode(ptr: int)
      requires Valid() && Cached(Abs(), ptr) && Held(Abs(), ino[ptr].key) == 0
      modifies `lists, next, prev, ihash
      ensures Valid() && Kept(old(Abs()), Abs())
      ensures old(lists).place[ptr] == InBucket(ino[ptr].hash) && 0 <= ino[ptr].hash < MAXHASH == |old(lists).buckets|
      ensures Abs() == Drop(old(Abs()), ptr) && NotCached(Abs(), ino[ptr].key)
    {
      ghost var st := Abs();
      DropKeeps(st, ptr);
      RemoveSpelled(next[..], prev[..], freeinode, ihash[..], lists, ptr, ino[ptr].hash);
      if next[ptr] != NIL {
        prev[next[ptr]] := prev[ptr];
      }
      if prev[ptr] != NIL {
        next[prev[ptr]] := next[ptr];
      } else {
        ihash[ino[ptr].hash] := next[ptr];
      }
      lists := lists.Remove(ptr, ino[ptr].hash);
      assert Abs() == Drop(st, ptr);
    }

    /** The scan of a bucket for an inode without references. */
    method FindUnused(k: int) returns (ptr: int)
      requires Valid() && 0 <= k < MAXHASH
      ensures ptr != NIL ==> Cached(Abs(), ptr) && ino[ptr].dlink == 0
      ensures ptr == NIL ==> forall x :: x in lists.buckets[k] ==> 0 <= x < ino.Length && ino[x].dlink != 0
    {
      ghost var b, p := lists.buckets[k], 0;
      ptr := ihash[k];
      while ptr != NIL
        invariant 0 <= p <= |b| && ptr == At(b, p)
        invariant forall q :: 0 <= q < p ==> 0 <= b[q] < ino.Length && ino[b[q]].dlink != 0
        decreases |b| - p
      {
        assert ptr in b && lists.Placed(ptr) && next[..][b[p]] == At(b, p + 1);
        if ino[ptr].dlink == 0 { return; }
        ptr := next[ptr];
        p := p + 1;
      }
    }

    /** __purge_inode: recycle an inode without references; there is none only if all cached ones are in use. */
    method PurgeInode() returns (ptr: int)
      requires Valid()
      modifies `lists, next, prev, ihash
      ensures Valid() && Kept(old(Abs()), Abs()) && ino[..] == old(ino[..]) && held == old(held)
      ensures ptr == NIL ==> Abs() == old(Abs())
      ensures OutStays(old(Abs()), Abs())
      ensures ptr == NIL ==> forall i :: Cached(Abs(), i) ==> ino[i].dlink > 0
      ensures ptr != NIL ==> 0 <= ptr < ino.Length && lists.place[ptr] == Out
      ensures ptr != NIL ==> Cached(old(Abs()), ptr) && ino[ptr].dlink == 0
      ensures ptr != NIL ==> forall j, key :: Holds(Abs(), j, key) <==> j != ptr && Holds(old(Abs()), j, key)
    {
      var i := 0;
      ptr := NIL;
      forall j | Cached(Abs(), j) ensures lists.place[j].h >= 0 {
        assert SlotOk(Abs(), j);
      }
      while i < MAXHASH && ptr == NIL
        invariant 0 <= i <= MAXHASH && Valid() && Abs() == old(Abs())
        invariant ptr == NIL ==> forall j :: Cached(Abs(), j) && lists.place[j].h < i ==> ino[j].dlink != 0
        invariant ptr != NIL ==> Cached(Abs(), ptr) && ino[ptr].dlink == 0
      {
        ptr := FindUnused(i);
        if ptr == NIL {
          forall j | Cached(Abs(), j) && lists.place[j].h == i ensures ino[j].dlink != 0 {
            assert lists.Placed(j);
          }
        }
        i := i + 1;
      }
      if ptr != NIL {
        assert SlotOk(Abs(), ptr);
        RemoveInode(ptr);
      } else {
        forall j | Cached(Abs(), j) ensures ino[j].dlink > 0 {
          assert SlotOk(Abs(), j);
        }
      }
    }

    /** The search of find_inode. */
    method Search(key: Key) returns (ptr: int)
      requires Valid()
      ensures ptr == NIL ==> NotCached(Abs(), key)
      ensures ptr != NIL ==> Holds(Abs(), ptr, key)
    {
      ghost var st, b, p := Abs(), lists.buckets[Bucket(key)], 0;
      ptr := ihash[Bucket(key)];
      while ptr != NIL
        invariant 0 <= p <= |b| && ptr == At(b, p)
        invariant forall q :: 0 <= q < p ==> st.inodes[b[q]].key != key
        decreases |b| - p
      {
        assert ptr in b && lists.Placed(ptr) && next[..][b[p]] == At(b, p + 1);
        if ino[ptr].key == key { return; }
        ptr := next[ptr];
        p := p + 1;
      }
      forall j ensures !Holds(st, j, key) {
        if Cached(st, j) {
          assert SlotOk(st, j) && lists.Placed(j);
        }
      }
    }

    /** One reference more on a cached inode. */
    method AddLink(ptr: int)
      requires Valid() && Cached(Abs(), ptr)
      modifies `held, ino
      ensures Valid() && Kept(old(Abs()), Abs())
      ensures Abs() == WithLinks(old(Abs()), ptr, old(Held(Abs(), ino[ptr].key)) + 1)
    {
      ghost var st := Abs();
      assert SlotOk(st, ptr);
      WithLinksKeeps(st, ptr, ino[ptr].dlink + 1);
      ino[ptr] := ino[ptr].(dlink := ino[ptr].dlink + 1);
      held := held[ino[ptr].key := ino[ptr].dlink];
      assert Abs() == WithLinks(st, ptr, ino[ptr].dlink);
    }

    /** find_inode: the slot of the inode, with one reference more; a cached inode keeps its slot, an inode in use is
        never recycled, and only when no slot is free and every cached inode is in use is there no slot. */
    method FindInode(key: Key) returns (ptr: int)
      requires Valid()
      modifies `freeinode, `lists, `held, next, prev, ino, ihash
      ensures Valid() && Kept(old(Abs()), Abs())
      ensures ptr != NIL ==> Holds(Abs(), ptr, key) && held == old(held)[key := old(Held(Abs(), key)) + 1]
      ensures forall i :: Holds(old(Abs()), i, key) ==> ptr == i
      ensures ptr == NIL ==> Abs() == old(Abs())
      ensures ptr != NIL && NotCached(old(Abs()), key) ==>
                if old(lists).free != [] then ptr == old(lists).free[0]
                else Cached(old(Abs()), ptr) && old(ino[ptr].dlink) == 0
      ensures OutStays(old(Abs()), Abs()) && SameDirty(old(Abs()), Abs())
      ensures ptr == NIL <==>
                old(lists).free == [] && (forall i :: Cached(old(Abs()), i) ==> old(ino[i].dlink) > 0)
                && NotCached(old(Abs()), key)
    {
      ghost var st := Abs();
      ptr := Search(key);
      if ptr != NIL {
        AddLink(ptr);
      } else {
        ptr := GetInode();
        if ptr == NIL {
          ptr := PurgeInode();
        }
        if ptr != NIL {
          assert NotCached(Abs(), key);
          InsertInode(ptr, key);
        }
      }
    }

    method UnlockInode(ptr: int)
      requires Valid() && Cached(Abs(), ptr) && ino[ptr].dlink > 0
      modifies `held, ino
      ensures Valid() && Kept(old(Abs()), Abs())
      ensures old(Held(Abs(), ino[ptr].key)) > 0 && OutStays(old(Abs()), Abs())
      ensures Abs() == WithLinks(old(Abs()), ptr, old(Held(Abs(), ino[ptr].key)) - 1)
      ensures ino[..] == old(ino[..])[ptr := old(ino[ptr]).(dlink := old(ino[ptr].dlink) - 1)] && lists == old(lists)
    {
      ghost var st := Abs();
      assert SlotOk(st, ptr);
      WithLinksKeeps(st, ptr, ino[ptr].dlink - 1);
      ino[ptr] := ino[ptr].(dlink := ino[ptr].dlink - 1);
      held := held[ino[ptr].key := ino[ptr].dlink];
      assert Abs() == WithLinks(st, ptr, ino[ptr].dlink);
    }

    /** A holder marks the inode as changed, as do_utime does. */
    method MarkDirty(ptr: int)
      requires Valid() && Cached(Abs(), ptr)
      modifies ino
      ensures Valid() && Kept(old(Abs()), Abs())
      ensures Abs() == old(Abs()).(inodes := old(ino[..])[ptr := old(ino[ptr]).(dirty := true)])
    {
      ghost var st := Abs();
      ino[ptr] := ino[ptr].(dirty := true);
      DirtyKeeps(st, Abs(), ptr);
    }

    /** destroy_inode, with the outcome of writing the inode back: it needs the only reference.  The slot ends on no
        list, neither in a bucket nor on the free list. */
    method DestroyInode(ptr: int, written: bool) returns (ret: int)
      requires Valid() && Cached(Abs(), ptr) && ino[ptr].dlink > 0
      modifies `lists, `held, next, prev, ino, ihash
      ensures Valid() && Kept(old(Abs()), Abs())
      ensures ret == if old(ino[ptr]).dlink == 1 && (old(ino[ptr]).dirty ==> written) then 0 else -1
      ensures ret != 0 ==> Abs() == old(Abs())
      ensures OutStays(old(Abs()), Abs()) && SameDirty(old(Abs()), Abs())
      ensures ret == 0 ==>
                NotCached(Abs(), old(ino[ptr]).key) && lists.place[ptr] == Out && lists.free == old(lists).free
      ensures ret == 0 ==> held == old(held)[old(ino[ptr]).key := 0]
    {
      if ino[ptr].dlink != 1 { return -1; }
      if ino[ptr].dirty {
        if !written { return -1; }
      }
      ghost var st := Abs();
      WithLinksKeeps(st, ptr, 0);
      ino[ptr] := ino[ptr].(dlink := ino[ptr].dlink - 1);
      held := held[ino[ptr].key := 0];
      assert Abs() == WithLinks(st, ptr, 0);
      RemoveInode(ptr);
      return 0;
    }
  }
}
