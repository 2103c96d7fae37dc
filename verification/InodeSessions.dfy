/** Sessions of the inode cache (rtos/fs/inode.c): inodes are found, changed, given back and destroyed in any order. */
module InodeSessions {
  import opened IndexLists
  import opened HashedLists
  import opened InodeCaches

  datatype Op =
    | Find(key: Key)
    | Modify(ptr: int)
    | Unlock(ptr: int)
    | Destroy(ptr: int, written: bool)

  /** What an operation has done.  An inode without references cannot be changed, given back or destroyed. */
  datatype Step =
    | Found(key: Key, ptr: int)
    | NoSlot(key: Key)
    | Modified(key: Key)
    | Unlocked(key: Key)
    | Destroyed(key: Key, ptr: int)
    | Kept
    | Refused

  function Delta(a: Step, key: Key): int {
    if a == Refused || a == Kept || a.NoSlot? || a.Modified? || a.key != key then 0
    else if a.Found? then 1
    else -1
  }

  /** The references to an inode as its users count them. */
  function References(trace: seq<Step>, key: Key): int {
    if trace == [] then 0
    else References(trace[..|trace| - 1], key) + Delta(trace[|trace| - 1], key)
  }

  function ReferencesAt(st0: State, trace: seq<Step>, n: nat, key: Key): int
    requires n <= |trace|
  {
    Held(st0, key) + References(trace[..n], key)
  }

  lemma ReferencesOneMore(st0: State, trace: seq<Step>, a: Step, n: nat, key: Key)
    requires n <= |trace|
    ensures ReferencesAt(st0, trace + [a], n, key) == ReferencesAt(st0, trace, n, key)
    ensures ReferencesAt(st0, trace + [a], |trace| + 1, key) ==
              ReferencesAt(st0, trace, |trace|, key) + Delta(a, key)
  {
    assert (trace + [a])[..n] == trace[..n];
    assert (trace + [a])[..|trace| + 1] == trace + [a];
    assert (trace + [a])[..|trace|] == trace[..|trace|] == trace;
  }

  /** From step i on the inode has been referenced. */
  ghost predicate ReferencedSince(st0: State, trace: seq<Step>, i: nat, n: nat, key: Key)
    requires n <= |trace|
  {
    forall c :: i < c <= n ==> ReferencesAt(st0, trace, c, key) > 0
  }

  /** As long as an inode is referenced it is found in the same slot. */
  ghost predicate SameSlot(st0: State, trace: seq<Step>) {
    forall i, j :: 0 <= i < j < |trace| && trace[i].Found? && trace[j].Found? && trace[j].key == trace[i].key
                   && ReferencedSince(st0, trace, i, j, trace[i].key) ==>
      trace[j].ptr == trace[i].ptr
  }

  /** A slot whose inode has been destroyed is not handed out again. */
  ghost predicate NeverReused(trace: seq<Step>) {
    forall i, j :: 0 <= i < j < |trace| && trace[i].Destroyed? && trace[j].Found? ==> trace[j].ptr != trace[i].ptr
  }

  /** The references are those in the trace. */
  ghost predicate Counted(st0: State, st: State, trace: seq<Step>) {
    forall key :: Held(st, key) == ReferencesAt(st0, trace, |trace|, key)
  }

  /** Where the inodes of the trace are now. */
  ghost predicate Tracked(st0: State, st: State, trace: seq<Step>) {
    && (forall i :: 0 <= i < |trace| && trace[i].Found?
                    && ReferencedSince(st0, trace, i, |trace|, trace[i].key) ==>
          Holds(st, trace[i].ptr, trace[i].key))
    && (forall i :: 0 <= i < |trace| && trace[i].Destroyed? ==>
          0 <= trace[i].ptr < |st.lists.place| && st.lists.place[trace[i].ptr].Out?)
  }

  /** What a step does to the cache. */
  ghost predicate Effect(st: State, st': State, op: Op, a: Step) {
    && InodeCaches.Kept(st, st') && OutStays(st, st') && |st'.inodes| == |st.inodes|
    && (forall i :: 0 <= i < |st.inodes| ==>
          st'.inodes[i].dirty == (st.inodes[i].dirty || (op == Modify(i) && a.Modified?)))
    && (forall key :: Held(st', key) == Held(st, key) + Delta(a, key))
    && (a.Found? ==> Holds(st', a.ptr, a.key) && forall i :: Holds(st, i, a.key) ==> i == a.ptr)
    && (a.Destroyed? ==> 0 <= a.ptr < |st'.lists.place| && st'.lists.place[a.ptr].Out?)
  }

  lemma TraceOneMore(st0: State, trace: seq<Step>, a: Step)
    ensures forall n, key :: 0 <= n <= |trace| ==>
              ReferencesAt(st0, trace + [a], n, key) == ReferencesAt(st0, trace, n, key)
    ensures forall key ::
              ReferencesAt(st0, trace + [a], |trace| + 1, key) ==
              ReferencesAt(st0, trace, |trace|, key) + Delta(a, key)
    ensures forall i, n, key :: 0 <= i && 0 <= n <= |trace| ==>
              (ReferencedSince(st0, trace + [a], i, n, key) <==> ReferencedSince(st0, trace, i, n, key))
  {
    forall n, key | 0 <= n <= |trace|
      ensures ReferencesAt(st0, trace + [a], n, key) == ReferencesAt(st0, trace, n, key)
    {
      ReferencesOneMore(st0, trace, a, n, key);
    }
    forall key {
      ReferencesOneMore(st0, trace, a, 0, key);
    }
  }

  lemma OneMoreCounted(st0: State, st: State, st': State, trace: seq<Step>, op: Op, a: Step)
    requires Counted(st0, st, trace) && Effect(st, st', op, a)
    ensures Counted(st0, st', trace + [a])
  {
    TraceOneMore(st0, trace, a);
  }

  /** A referenced inode stays where it is, and is found there. */
  lemma OneMoreTracked(st0: State, st: State, st': State, trace: seq<Step>, op: Op, a: Step)
    requires Counted(st0, st, trace) && Tracked(st0, st, trace) && Effect(st, st', op, a)
    ensures Tracked(st0, st', trace + [a])
  {
    var longer := trace + [a];
    TraceOneMore(st0, trace, a);
    OneMoreCounted(st0, st, st', trace, op, a);
    forall i | 0 <= i < |trace| && longer[i].Found?
               && ReferencedSince(st0, longer, i, |longer|, longer[i].key)
      ensures Holds(st', longer[i].ptr, longer[i].key)
    {
      assert ReferencesAt(st0, longer, |trace|, longer[i].key) > 0;
      assert ReferencesAt(st0, longer, |longer|, longer[i].key) > 0;
      assert ReferencedSince(st0, longer, i, |trace|, longer[i].key);
    }
  }

  lemma OneMoreSlots(st0: State, st: State, st': State, trace: seq<Step>, op: Op, a: Step)
    requires Tracked(st0, st, trace) && Effect(st, st', op, a)
    requires SameSlot(st0, trace) && NeverReused(trace)
    ensures SameSlot(st0, trace + [a]) && NeverReused(trace + [a])
  {
    TraceOneMore(st0, trace, a);
  }

  // ---------- what is answered ----------

  ghost predicate Referenced(st: State, ptr: int) {
    Cached(st, ptr) && Held(st, st.inodes[ptr].key) > 0
  }

  lemma LinksMean(st: State, ptr: int)
    requires Inv(st) && 0 <= ptr < |st.inodes|
    ensures st.inodes[ptr].dlink > 0 <==> Referenced(st, ptr)
  {
    assert SlotOk(st, ptr);
  }

  /** No slot is free and every cached inode has references. */
  ghost predicate AllInUse(st: State) {
    st.lists.free == [] && forall i :: Cached(st, i) ==> st.inodes[i].dlink > 0
  }

  /** What an operation answers in a state of the cache. */
  ghost predicate Answers(op: Op, a: Step, st: State) {
    match op
    case Find(key) =>
      if AllInUse(st) && NotCached(st, key) then a == NoSlot(key) else a.Found? && a.key == key
    case Modify(ptr) => a == if Referenced(st, ptr) then Modified(st.inodes[ptr].key) else Refused
    case Unlock(ptr) => a == if Referenced(st, ptr) then Unlocked(st.inodes[ptr].key) else Refused
    case Destroy(ptr, written) =>
      a == if !Referenced(st, ptr) then Refused
           else if Held(st, st.inodes[ptr].key) == 1 && (st.inodes[ptr].dirty ==> written) then
             Destroyed(st.inodes[ptr].key, ptr)
           else Kept
  }

  method FindOne(c: InodeCache, key: Key) returns (a: Step)
    requires c.Valid()
    modifies c`freeinode, c`lists, c`held, c.next, c.prev, c.ino, c.ihash
    ensures c.Valid() && Effect(old(c.Abs()), c.Abs(), Find(key), a) && Answers(Find(key), a, old(c.Abs()))
  {
    var ptr := c.FindInode(key);
    a := if ptr == NIL then NoSlot(key) else Found(key, ptr);
  }

  method Change(c: InodeCache, ptr: int) returns (a: Step)
    requires c.Valid() && Referenced(c.Abs(), ptr)
    modifies c.ino
    ensures c.Valid() && Effect(old(c.Abs()), c.Abs(), Modify(ptr), a) && Answers(Modify(ptr), a, old(c.Abs()))
  {
    a := Modified(c.ino[ptr].key);
    c.MarkDirty(ptr);
  }

  method GiveBack(c: InodeCache, ptr: int) returns (a: Step)
    requires c.Valid() && Referenced(c.Abs(), ptr)
    modifies c`held, c.ino
    ensures c.Valid() && Effect(old(c.Abs()), c.Abs(), Unlock(ptr), a) && Answers(Unlock(ptr), a, old(c.Abs()))
  {
    LinksMean(c.Abs(), ptr);
    a := Unlocked(c.ino[ptr].key);
    c.UnlockInode(ptr);
  }

  /** An inode is destroyed unless it has another reference or cannot be written back. */
  method TakeDown(c: InodeCache, ptr: int, written: bool) returns (a: Step)
    requires c.Valid() && Referenced(c.Abs(), ptr)
    modifies c`lists, c`held, c.next, c.prev, c.ino, c.ihash
    ensures c.Valid() && Effect(old(c.Abs()), c.Abs(), Destroy(ptr, written), a)
    ensures Answers(Destroy(ptr, written), a, old(c.Abs()))
  {
    LinksMean(c.Abs(), ptr);
    assert SlotOk(c.Abs(), ptr);
    var key := c.ino[ptr].key;
    var ret := c.DestroyInode(ptr, written);
    a := if ret == 0 then Destroyed(key, ptr) else Kept;
  }

  method InUse(c: InodeCache, ptr: int) returns (r: bool)
    requires c.Valid()
    ensures r <==> Referenced(c.Abs(), ptr)
  {
    r := false;
    if 0 <= ptr < c.ino.Length {
      LinksMean(c.Abs(), ptr);
      r := c.ino[ptr].dlink > 0;
    }
  }

  method Execute(c: InodeCache, op: Op) returns (a: Step)
    requires c.Valid()
    modifies c`freeinode, c`lists, c`held, c.next, c.prev, c.ino, c.ihash
    ensures c.Valid() && Effect(old(c.Abs()), c.Abs(), op, a) && Answers(op, a, old(c.Abs()))
  {
    a := Refused;
    match op {
      case Find(key) => a := FindOne(c, key);
      case Modify(ptr) =>
        var inUse := InUse(c, ptr);
        if inUse { a := Change(c, ptr); }
      case Unlock(ptr) =>
        var inUse := InUse(c, ptr);
        if inUse { a := GiveBack(c, ptr); }
      case Destroy(ptr, written) =>
        var inUse := InUse(c, ptr);
        if inUse { a := TakeDown(c, ptr, written); }
    }
  }

  // ---------- what was answered ----------

  /** The slot was dirty from the start or its inode has been changed since. */
  predicate Changed(st0: State, ops: seq<Op>, trace: seq<Step>, n: nat, ptr: int)
    requires n <= |ops| && n <= |trace|
  {
    || (0 <= ptr < |st0.inodes| && st0.inodes[ptr].dirty)
    || exists m :: 0 <= m < n && ops[m] == Modify(ptr) && trace[m].Modified?
  }

  /** What an operation must answer on the slot ptr of a referenced inode. */
  ghost predicate RightAnswer(st0: State, ops: seq<Op>, trace: seq<Step>, n: nat, ptr: int, key: Key, a: Step)
    requires n < |ops| && n <= |trace|
  {
    match ops[n]
    case Find(k) => k == key ==> a == Found(key, ptr)
    case Modify(p) => p == ptr ==> a == Modified(key)
    case Unlock(p) => p == ptr ==> a == Unlocked(key)
    case Destroy(p, written) =>
      p == ptr ==>
        a == if ReferencesAt(st0, trace, n, key) == 1 && (Changed(st0, ops, trace, n, ptr) ==> written) then
               Destroyed(key, ptr)
             else Kept
  }

  /** Whoever has found an inode, and while it is referenced, gets the right answers for its slot. */
  ghost predicate AllRight(st0: State, ops: seq<Op>, trace: seq<Step>) {
    && |trace| <= |ops|
    && forall i, n :: 0 <= i < n < |trace| && trace[i].Found? && ReferencedSince(st0, trace, i, n, trace[i].key) ==>
         RightAnswer(st0, ops, trace, n, trace[i].ptr, trace[i].key, trace[n])
  }

  /** The dirty flags are those of the trace. */
  ghost predicate Flagged(st0: State, st: State, ops: seq<Op>, trace: seq<Step>) {
    && |st.inodes| == |st0.inodes| && |trace| <= |ops|
    && forall j :: 0 <= j < |st.inodes| ==> st.inodes[j].dirty == Changed(st0, ops, trace, |trace|, j)
  }

  lemma OneMoreChanged(st0: State, ops: seq<Op>, trace: seq<Step>, a: Step, n: nat, ptr: int)
    requires n <= |trace| < |ops|
    ensures Changed(st0, ops, trace + [a], n, ptr) == Changed(st0, ops, trace, n, ptr)
    ensures Changed(st0, ops, trace + [a], |trace| + 1, ptr)
         == (Changed(st0, ops, trace, |trace|, ptr) || (ops[|trace|] == Modify(ptr) && a.Modified?))
  {
    assert forall m :: 0 <= m < |trace| ==> (trace + [a])[m] == trace[m];
    assert (trace + [a])[|trace|] == a;
    if Changed(st0, ops, trace, |trace|, ptr) && !(0 <= ptr < |st0.inodes| && st0.inodes[ptr].dirty) {
      var m :| 0 <= m < |trace| && ops[m] == Modify(ptr) && trace[m].Modified?;
      assert (trace + [a])[m].Modified?;
    }
    if Changed(st0, ops, trace, n, ptr) && !(0 <= ptr < |st0.inodes| && st0.inodes[ptr].dirty) {
      var m :| 0 <= m < n && ops[m] == Modify(ptr) && trace[m].Modified?;
      assert (trace + [a])[m].Modified?;
    }
  }

  lemma OneMoreFlagged(st0: State, st: State, st': State, ops: seq<Op>, trace: seq<Step>, a: Step)
    requires Flagged(st0, st, ops, trace) && |trace| < |ops| && Effect(st, st', ops[|trace|], a)
    ensures Flagged(st0, st', ops, trace + [a])
  {
    forall j | 0 <= j < |st'.inodes|
      ensures st'.inodes[j].dirty == Changed(st0, ops, trace + [a], |trace| + 1, j)
    {
      OneMoreChanged(st0, ops, trace, a, 0, j);
    }
  }

  lemma RightNow(st0: State, st: State, ops: seq<Op>, trace: seq<Step>, a: Step, i: int)
    requires Inv(st) && Counted(st0, st, trace) && Tracked(st0, st, trace) && Flagged(st0, st, ops, trace)
    requires |trace| < |ops| && Answers(ops[|trace|], a, st)
    requires ops[|trace|].Find? && a.Found? ==> forall j :: Holds(st, j, a.key) ==> j == a.ptr
    requires 0 <= i < |trace| && trace[i].Found? && ReferencedSince(st0, trace, i, |trace|, trace[i].key)
    ensures RightAnswer(st0, ops, trace, |trace|, trace[i].ptr, trace[i].key, a)
  {
    assert Holds(st, trace[i].ptr, trace[i].key) && Held(st, trace[i].key) > 0;
    assert Referenced(st, trace[i].ptr);
  }

  lemma OneMoreRight(st0: State, st: State, ops: seq<Op>, trace: seq<Step>, a: Step)
    requires AllRight(st0, ops, trace) && |trace| < |ops|
    requires forall i :: 0 <= i < |trace| && trace[i].Found?
                         && ReferencedSince(st0, trace, i, |trace|, trace[i].key) ==>
               RightAnswer(st0, ops, trace, |trace|, trace[i].ptr, trace[i].key, a)
    ensures AllRight(st0, ops, trace + [a])
  {
    var longer := trace + [a];
    TraceOneMore(st0, trace, a);
    forall i, n | 0 <= i < n < |longer| && longer[i].Found? && ReferencedSince(st0, longer, i, n, longer[i].key)
      ensures RightAnswer(st0, ops, longer, n, longer[i].ptr, longer[i].key, longer[n])
    {
      OneMoreChanged(st0, ops, trace, a, n, longer[i].ptr);
      assert longer[i] == trace[i] && ReferencedSince(st0, trace, i, n, trace[i].key);
      assert RightAnswer(st0, ops, trace, n, trace[i].ptr, trace[i].key, longer[n]);
      assert ReferencesAt(st0, longer, n, trace[i].key) == ReferencesAt(st0, trace, n, trace[i].key);
    }
  }

  datatype Owner = Lost | For(key: Key)

  /** Every slot belongs to an inode with references, each to another one, or is lost. */
  ghost predicate Full(st0: State, trace: seq<Step>, n: nat, place: seq<Place>, owners: seq<Owner>)
    requires n <= |trace|
  {
    && |owners| == |place|
    && (forall i :: 0 <= i < |owners| ==>
          if owners[i].Lost? then place[i].Out? else ReferencesAt(st0, trace, n, owners[i].key) > 0)
    && (forall i, j :: 0 <= i < j < |owners| && owners[i].For? && owners[j].For? ==> owners[i].key != owners[j].key)
  }

  /** A find has got no slot only when there was none. */
  ghost predicate NoSlotWhenFull(st0: State, trace: seq<Step>, place: seq<Place>) {
    forall n :: 0 <= n < |trace| && trace[n].NoSlot? ==>
      ReferencesAt(st0, trace, n, trace[n].key) == 0 && exists owners :: Full(st0, trace, n, place, owners)
  }

  lemma FullNow(st0: State, st: State, trace: seq<Step>)
    requires Inv(st) && Counted(st0, st, trace) && AllInUse(st)
    ensures exists owners :: Full(st0, trace, |trace|, st.lists.place, owners)
  {
    var owners := seq(|st.inodes|, i requires 0 <= i < |st.inodes| =>
      if Cached(st, i) then For(st.inodes[i].key) else Lost);
    forall i | 0 <= i < |owners|
      ensures if owners[i].Lost? then st.lists.place[i].Out? else ReferencesAt(st0, trace, |trace|, owners[i].key) > 0
    {
      assert SlotOk(st, i) && st.lists.Placed(i);
    }
    assert Full(st0, trace, |trace|, st.lists.place, owners);
  }

  lemma OneMoreFull(st0: State, st: State, st': State, trace: seq<Step>, op: Op, a: Step)
    requires Inv(st) && Counted(st0, st, trace) && NoSlotWhenFull(st0, trace, st.lists.place)
    requires Effect(st, st', op, a) && Answers(op, a, st)
    ensures NoSlotWhenFull(st0, trace + [a], st'.lists.place)
  {
    var longer := trace + [a];
    TraceOneMore(st0, trace, a);
    forall n | 0 <= n < |longer| && longer[n].NoSlot?
      ensures ReferencesAt(st0, longer, n, longer[n].key) == 0
      ensures exists owners :: Full(st0, longer, n, st'.lists.place, owners)
    {
      if n == |trace| {
        assert ReferencesAt(st0, trace, n, a.key) == Held(st, a.key);
        FullNow(st0, st, trace);
      } else {
        assert ReferencesAt(st0, trace, n, trace[n].key) == 0;
      }
      var owners :| Full(st0, trace, n, st.lists.place, owners);
      assert Full(st0, longer, n, st'.lists.place, owners);
    }
  }

  /** What a session has come to. */
  ghost predicate Went(st0: State, st: State, ops: seq<Op>, trace: seq<Step>) {
    && Counted(st0, st, trace) && Tracked(st0, st, trace) && Flagged(st0, st, ops, trace)
    && SameSlot(st0, trace) && NeverReused(trace) && AllRight(st0, ops, trace)
    && NoSlotWhenFull(st0, trace, st.lists.place)
    && forall n :: 0 <= n < |trace| && ops[n].Find? ==> trace[n].Found? || trace[n].NoSlot?
  }

  lemma GoesOn(st0: State, st: State, st': State, ops: seq<Op>, trace: seq<Step>, a: Step)
    requires Inv(st) && Went(st0, st, ops, trace) && |trace| < |ops|
    requires Effect(st, st', ops[|trace|], a) && Answers(ops[|trace|], a, st)
    ensures Went(st0, st', ops, trace + [a])
  {
    var op := ops[|trace|];
    OneMoreCounted(st0, st, st', trace, op, a);
    OneMoreTracked(st0, st, st', trace, op, a);
    OneMoreFlagged(st0, st, st', ops, trace, a);
    OneMoreSlots(st0, st, st', trace, op, a);
    forall i | 0 <= i < |trace| && trace[i].Found? && ReferencedSince(st0, trace, i, |trace|, trace[i].key)
      ensures RightAnswer(st0, ops, trace, |trace|, trace[i].ptr, trace[i].key, a)
    {
      RightNow(st0, st, ops, trace, a, i);
    }
    OneMoreRight(st0, st, ops, trace, a);
    OneMoreFull(st0, st, st', trace, op, a);
  }

  /** Any sequence of operations, from any state of the cache: references are counted right; a referenced inode is
      always found in the same slot, and what is answered for that slot is right, in particular a destroy works exactly
      for the only reference to an inode that is unchanged or can be written back; a find gets no slot only when every
      slot belongs to an inode with references or is lost; and the slot of a destroyed inode is lost: it is never handed
      out again. */
  method Session(c: InodeCache, ops: seq<Op>) returns (trace: seq<Step>)
    requires c.Valid()
    modifies c`freeinode, c`lists, c`held, c.next, c.prev, c.ino, c.ihash
    ensures c.Valid() && |trace| == |ops|
    ensures Counted(old(c.Abs()), c.Abs(), trace)
    ensures SameSlot(old(c.Abs()), trace) && NeverReused(trace)
    ensures AllRight(old(c.Abs()), ops, trace)
    ensures NoSlotWhenFull(old(c.Abs()), trace, c.lists.place)
    ensures forall n :: 0 <= n < |ops| && ops[n].Find? ==> trace[n].Found? || trace[n].NoSlot?
  {
    trace := [];
    ghost var st0 := c.Abs();
    while |trace| < |ops|
      invariant c.Valid() && Went(st0, c.Abs(), ops, trace)
    {
      ghost var st := c.Abs();
      var a := Execute(c, ops[|trace|]);
      GoesOn(st0, st, c.Abs(), ops, trace, a);
      trace := trace + [a];
    }
  }
}
