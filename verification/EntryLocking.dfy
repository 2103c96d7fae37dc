/** A block-cache entry together with its own readers/writer lock (rtos/fs/dcache.c, rtos/fs/rwlock.c): the holders of
    EntryHandshake take the lock before they use the buffer, and give it back in the section that drops their
    reference.

    After the read of a miss the lock is taken with the mutex of the cache held.  That section is one step here:
    FillerIsAlone says that meanwhile no other thread can do anything without the mutex. */
module EntryLocking {
  import opened Machines
  import H = EntryHandshake
  import L = RwLocks

  datatype System = System(shake: H.System, lock: L.System)

  datatype Event =
    | Shake(thread: nat, op: H.Op)            // a step that does not concern the lock
    | Filled(thread: nat, side: L.Side)       // the section after a read that worked
    | Ask(thread: nat, side: L.Side)
    | Get(thread: nat, side: L.Side)
    | Release(thread: nat, side: L.Side)
    | Dirty(thread: nat)

  function ShakeEvent(e: Event): H.Event {
    match e
    case Shake(t, op) => H.Event(t, op)
    case Filled(t, _) => H.Event(t, H.ReadDone)
    case Release(t, _) => H.Event(t, H.Unlock)
    case _ => H.Event(e.thread, H.MarkDirty)
  }

  predicate Enabled(s: System, e: Event) {
    match e
    case Shake(t, op) => op != H.Unlock && op != H.ReadDone && op != H.MarkDirty && H.Enabled(s.shake, H.Event(t, op))
    case Filled(t, side) =>
      && H.Enabled(s.shake, ShakeEvent(e)) && L.Enabled(s.lock, L.Event(t, L.Enter(side)))
      && L.Enabled(L.Apply(s.lock, L.Event(t, L.Enter(side))), L.Event(t, L.Pass(side)))
    case Ask(t, side) =>
      t < |s.shake.at| && s.shake.at[t] == H.Holding && L.Enabled(s.lock, L.Event(t, L.Enter(side)))
    case Get(t, side) => L.Enabled(s.lock, L.Event(t, L.Pass(side)))
    case Release(t, side) => H.Enabled(s.shake, ShakeEvent(e)) && L.Enabled(s.lock, L.Event(t, L.Leave(side)))
    case Dirty(t) => H.Enabled(s.shake, ShakeEvent(e)) && t < |s.lock.at| && s.lock.at[t] == L.Inside(L.Writers)
  }

  function Apply(s: System, e: Event): System {
    match e
    case Shake(t, op) => s.(shake := H.Apply(s.shake, ShakeEvent(e)))
    case Filled(t, side) =>
      System(H.Apply(s.shake, ShakeEvent(e)),
             L.Apply(L.Apply(s.lock, L.Event(t, L.Enter(side))), L.Event(t, L.Pass(side))))
    case Ask(t, side) => s.(lock := L.Apply(s.lock, L.Event(t, L.Enter(side))))
    case Get(t, side) => s.(lock := L.Apply(s.lock, L.Event(t, L.Pass(side))))
    case Release(t, side) =>
      System(H.Apply(s.shake, ShakeEvent(e)), L.Apply(s.lock, L.Event(t, L.Leave(side))))
    case Dirty(t) => s.(shake := H.Apply(s.shake, ShakeEvent(e)))
  }

  const PROTOCOL := Machine((s: System, e: Event) => Enabled(s, e), (s: System, e: Event) => Apply(s, e))

  function Initial(threads: nat): System {
    System(H.Initial(threads), L.Initial(threads))
  }

  /** Whoever waits for the lock or has it holds a reference to the ready entry. */
  ghost predicate Coupled(s: System) {
    && |s.lock.at| == |s.shake.at|
    && forall t :: 0 <= t < |s.lock.at| && s.lock.at[t] != L.Outside ==> s.shake.at[t] == H.Holding
  }

  ghost predicate Inv(s: System) {
    H.Inv(s.shake) && L.Inv(s.lock) && Coupled(s)
  }

  lemma ShakeInv(s: System, e: Event)
    requires H.Inv(s.shake) && Enabled(s, e)
    ensures H.Inv(Apply(s, e).shake)
  {
    if !e.Ask? && !e.Get? {
      H.InvStep(s.shake, ShakeEvent(e));
    }
  }

  lemma LockInv(s: System, e: Event)
    requires L.Inv(s.lock) && Enabled(s, e)
    ensures L.Inv(Apply(s, e).lock)
  {
    match e
    case Filled(t, side) =>
      L.InvStep(s.lock, L.Event(t, L.Enter(side)));
      L.InvStep(L.Apply(s.lock, L.Event(t, L.Enter(side))), L.Event(t, L.Pass(side)));
    case Ask(t, side) => L.InvStep(s.lock, L.Event(t, L.Enter(side)));
    case Get(t, side) => L.InvStep(s.lock, L.Event(t, L.Pass(side)));
    case Release(t, side) => L.InvStep(s.lock, L.Event(t, L.Leave(side)));
    case _ =>
  }

  /** The phases after a step: the only thread that moves is that of the event. */
  lemma Phases(s: System, e: Event)
    requires Enabled(s, e) && |s.lock.at| == |s.shake.at|
    ensures e.thread < |s.shake.at| == |Apply(s, e).shake.at| == |Apply(s, e).lock.at|
    ensures forall t :: 0 <= t < |s.shake.at| && t != e.thread ==>
              Apply(s, e).shake.at[t] == s.shake.at[t] && Apply(s, e).lock.at[t] == s.lock.at[t]
    ensures Apply(s, e).lock.at[e.thread] == L.Outside || Apply(s, e).shake.at[e.thread] == H.Holding
            || (e.Shake? && Apply(s, e).lock.at[e.thread] == s.lock.at[e.thread]
                && s.shake.at[e.thread] == H.From(e.op) != H.Holding)
            || (e.Get? && s.lock.at[e.thread] != L.Outside
                && Apply(s, e).shake.at[e.thread] == s.shake.at[e.thread])
  {
  }

  lemma CoupledStep(s: System, e: Event)
    requires Coupled(s) && Enabled(s, e)
    ensures Coupled(Apply(s, e))
  {
    Phases(s, e);
  }

  ghost const INV := (s: System) => Inv(s)

  lemma EveryStepKeepsInv()
    ensures PROTOCOL.Keeps(INV)
  {
    forall s, e | Inv(s) && Enabled(s, e)
      ensures Inv(Apply(s, e))
    {
      ShakeInv(s, e);
      LockInv(s, e);
      CoupledStep(s, e);
    }
  }

  const FIRST := (threads: nat) => Initial(threads)

  /** The states any number of threads can reach. */
  ghost predicate Reachable(s: System) {
    PROTOCOL.Reaches(FIRST, s)
  }

  lemma TogetherInv(shake: H.System, lock: L.System)
    requires H.Inv(shake) && L.Inv(lock) && Coupled(System(shake, lock))
    ensures Inv(System(shake, lock))
  {
  }

  lemma InitialCoupled(threads: nat)
    ensures Coupled(Initial(threads))
  {
    var s := Initial(threads);
    assert forall t :: 0 <= t < |s.lock.at| ==> s.lock.at[t] == L.Outside;
  }

  lemma InitialInv(threads: nat)
    ensures Inv(Initial(threads))
  {
    H.InitialInv(threads);
    L.InitialInv(threads);
    InitialCoupled(threads);
    TogetherInv(H.Initial(threads), L.Initial(threads));
  }

  lemma ReachableInv(s: System)
    requires Reachable(s)
    ensures Inv(s)
  {
    forall threads: nat ensures Inv(FIRST(threads)) {
      InitialInv(threads);
    }
    EveryStepKeepsInv();
    PROTOCOL.ReachesInv(INV, FIRST, s);
  }

  // ---------- who may touch the buffer ----------

  /** The threads that read or write the buffer or the disk behind it. */
  predicate Transfers(p: H.Phase) {
    p == H.Filling || p == H.Writing
  }

  lemma Counted(s: H.System, t: nat)
    requires t < |s.at| && s.at[t] != H.Away
    ensures H.Count(s.at).Of(s.at[t]) > 0
  {
    H.CountMove(s.at, t, H.Away);
  }

  lemma NobodyHolds(s: H.System, t: nat, u: nat)
    requires H.Inv(s) && t < |s.at| && u < |s.at| && Transfers(s.at[t])
    ensures s.at[u] != H.Holding
  {
    Counted(s, t);
    assert multiset(s.at)[H.Holding] == 0 && s.at[u] in s.at;
  }

  lemma OneTransfer(s: H.System, t: nat, u: nat)
    requires H.Inv(s) && t < |s.at| && u < |s.at| && Transfers(s.at[t]) && u != t
    ensures !Transfers(s.at[u])
  {
    var rest := s.at[t := H.Away];
    H.CountMove(s.at, t, H.Away);
    assert multiset(rest)[H.Filling] == 0 && multiset(rest)[H.Writing] == 0;
    assert rest[u] == s.at[u] && rest[u] in rest;
  }

  /** A transfer runs only while nobody has the lock, waits for it or is about to ask. */
  lemma TransferExcludes(s: System, t: nat, u: nat)
    requires Reachable(s) && t < |s.shake.at| && u < |s.shake.at| && Transfers(s.shake.at[t])
    ensures |s.lock.at| == |s.shake.at| && s.lock.at[u] == L.Outside && s.shake.at[u] != H.Holding
    ensures u != t ==> !Transfers(s.shake.at[u])
  {
    ReachableInv(s);
    NobodyHolds(s.shake, t, u);
    if u != t {
      OneTransfer(s.shake, t, u);
    }
  }

  /** A user of the buffer has the ready entry under its key. */
  lemma UserHasEntry(s: System, u: nat)
    requires Reachable(s) && u < |s.lock.at| && s.lock.at[u] != L.Outside
    ensures s.shake.entry.listed && s.shake.entry.ready && s.shake.entry.keyed
  {
    ReachableInv(s);
    Counted(s.shake, u);
  }

  /** A writer of the buffer excludes every other user of it and every transfer, and what it writes to is the ready
      entry under its key. */
  lemma WriterIsAlone(s: System, w: nat, t: nat)
    requires Reachable(s) && w < |s.lock.at| && s.lock.at[w] == L.Inside(L.Writers)
    requires t < |s.lock.at| && t != w
    ensures |s.shake.at| == |s.lock.at| && !s.lock.at[t].Inside? && !Transfers(s.shake.at[t])
    ensures s.shake.entry.listed && s.shake.entry.ready && s.shake.entry.keyed
  {
    ReachableInv(s);
    L.InsideExcludes(s.lock, w, t);
    UserHasEntry(s, w);
    if Transfers(s.shake.at[t]) {
      TransferExcludes(s, t, w);
    }
  }

  // ---------- taking the lock under the mutex ----------

  lemma UnusedLock(lock: L.System)
    requires L.Inv(lock) && forall t :: 0 <= t < |lock.at| ==> lock.at[t] == L.Outside
    ensures lock.lock == L.UNUSED
  {
    forall side ensures L.Number(lock, L.Inside(side)) == 0 && L.Number(lock, L.Waiting(side)) == 0 {
      AllAlike(lock.at, L.Outside, L.Inside(side));
      AllAlike(lock.at, L.Outside, L.Waiting(side));
    }
    assert L.Balanced(lock, L.Readers) && L.Balanced(lock, L.Writers);
  }

  /** While a thread reads the block, the lock is unused, and every other thread is away or queued for `ready`
      without a token. */
  lemma FillerIsAlone(s: System, t: nat, u: nat)
    requires Reachable(s) && t < |s.shake.at| && u < |s.shake.at| && s.shake.at[t] == H.Filling
    ensures s.lock.lock == L.UNUSED && s.shake.entry.sync == 0
    ensures u != t ==> s.shake.at[u] == H.Away || s.shake.at[u] == H.SyncWait
  {
    ReachableInv(s);
    Counted(s.shake, t);
    forall v | 0 <= v < |s.lock.at| ensures s.lock.at[v] == L.Outside {
      TransferExcludes(s, t, v);
    }
    UnusedLock(s.lock);
    if u != t && s.shake.at[u] != H.Away {
      var rest := s.shake.at[t := H.Away];
      H.CountMove(s.shake.at, t, H.Away);
      Counted(s.shake.(at := rest), u);
    }
  }

  lemma UnusedAdmits(lock: L.System, t: nat, side: L.Side)
    requires lock.lock == L.UNUSED && t < |lock.at| && lock.at[t] == L.Outside
    ensures L.Enabled(lock, L.Event(t, L.Enter(side)))
    ensures var asked := L.Apply(lock, L.Event(t, L.Enter(side)));
            && L.Enabled(asked, L.Event(t, L.Pass(side)))
            && L.Apply(asked, L.Event(t, L.Pass(side))).at == lock.at[t := L.Inside(side)]
  {
  }

  /** So the lock that is taken under the mutex after the read never blocks, for reading or writing: neither the
      monitor section nor the semaphore wait. */
  lemma LockUnderMutexNeverBlocks(s: System, t: nat, side: L.Side)
    requires Reachable(s) && t < |s.shake.at| && s.shake.at[t] == H.Filling
    ensures s.lock.lock.Admits(side) && Enabled(s, Filled(t, side))
    ensures Apply(s, Filled(t, side)).lock.at == s.lock.at[t := L.Inside(side)]
  {
    FillerIsAlone(s, t, t);
    TransferExcludes(s, t, t);
    UnusedAdmits(s.lock, t, side);
  }

  // ---------- the assertion of dcache_dirty ----------

  ghost predicate Alone(at: seq<H.Phase>, w: nat) {
    forall t: nat :: t < |at| && t != w ==> at[t] == H.Away
  }

  ghost predicate Nobody(at: seq<H.Phase>) {
    forall u: nat :: u < |at| ==> at[u] == H.Away
  }

  lemma NobodyElse(at: seq<H.Phase>, w: nat)
    requires w < |at|
    ensures Nobody(at[w := H.Away]) <==> Alone(at, w)
  {
    var rest := at[w := H.Away];
    if Nobody(rest) {
      forall t: nat | t < |at| && t != w ensures at[t] == H.Away {
        assert rest[t] == H.Away;
      }
    }
  }

  lemma NobodyTotal(at: seq<H.Phase>)
    ensures H.Count(at).Total() == 0 <==> Nobody(at)
  {
    H.NobodyCounted(at);
  }

  lemma MinusOne(n: H.Population)
    requires n.holding > 0
    ensures n.Minus(H.Holding).Plus(H.Away).Total() == n.Total() - 1
  {
  }

  lemma UsersCounted(s: H.System, w: nat)
    requires H.Inv(s) && w < |s.at| && s.at[w] == H.Holding
    ensures s.entry.used == H.Count(s.at[w := H.Away]).Total() + 1
  {
    H.CountMove(s.at, w, H.Away);
    MinusOne(H.Count(s.at));
  }

  /** The assertion that the entry has one user holds for a writer exactly when no other thread refers to it. */
  lemma DirtyAssertedExactly(s: System, w: nat)
    requires Reachable(s) && w < |s.lock.at| && s.lock.at[w] == L.Inside(L.Writers)
    ensures s.shake.entry.used == 1 <==> Alone(s.shake.at, w)
  {
    ReachableInv(s);
    UsersCounted(s.shake, w);
    NobodyElse(s.shake.at, w);
    NobodyTotal(s.shake.at[w := H.Away]);
  }

  /** A thread that finds the block, and goes on to ask for the lock, makes the assertion fail for the writer. */
  lemma FinderBreaksAssertion(s: System, w: nat, t: nat)
    requires Reachable(s) && w < |s.lock.at| && s.lock.at[w] == L.Inside(L.Writers)
    requires t < |s.shake.at| && s.shake.at[t] == H.Away
    ensures Enabled(s, Shake(t, H.Hit)) && Enabled(Apply(s, Shake(t, H.Hit)), Dirty(w))
    ensures Apply(s, Shake(t, H.Hit)).shake.entry.used > 1
  {
    ReachableInv(s);
    Counted(s.shake, w);
  }

  lemma ClaimStep(s: System, t: nat)
    requires Reachable(s) && t < |s.shake.at| && s.shake.at[t] == H.Away && !s.shake.entry.listed
    ensures var s' := Apply(s, Shake(t, H.Claim));
            Reachable(s') && s'.shake.at == s.shake.at[t := H.Filling] && s'.lock == s.lock
  {
    PROTOCOL.ReachesNext(FIRST, s, Shake(t, H.Claim));
  }

  lemma FillStep(s: System, t: nat, side: L.Side)
    requires Reachable(s) && t < |s.shake.at| == |s.lock.at| && s.shake.at[t] == H.Filling
    ensures var s' := Apply(s, Filled(t, side));
            Reachable(s') && s'.shake.at == s.shake.at[t := H.Holding] && s'.lock.at == s.lock.at[t := L.Inside(side)]
  {
    LockUnderMutexNeverBlocks(s, t, side);
    PROTOCOL.ReachesNext(FIRST, s, Filled(t, side));
  }

  /** A thread that claims the entry to write to it, and fills it. */
  lemma ClaimsAndFills() returns (s: System)
    ensures Reachable(s) && |s.lock.at| == |s.shake.at| == 2
    ensures s.lock.at[0] == L.Inside(L.Writers) && s.shake.at[1] == H.Away
  {
    PROTOCOL.ReachesFirst(FIRST, 2);
    ClaimStep(Initial(2), 0);
    var claimed := Apply(Initial(2), Shake(0, H.Claim));
    FillStep(claimed, 0, L.Writers);
    s := Apply(claimed, Filled(0, L.Writers));
  }

  /** This can happen: one thread has filled the entry and writes, another finds it. */
  lemma DirtyAssertionCanFail() returns (s: System)
    ensures Reachable(s) && Enabled(s, Dirty(0)) && s.shake.entry.used > 1
  {
    var s0 := ClaimsAndFills();
    FinderBreaksAssertion(s0, 0, 1);
    PROTOCOL.ReachesNext(FIRST, s0, Shake(1, H.Hit));
    s := Apply(s0, Shake(1, H.Hit));
  }

  // ---------- what was written is saved ----------

  /** The step hands the entry to a new key or frees it. */
  ghost predicate Recycles(s: System, e: Event) {
    !Apply(s, e).shake.entry.listed || (e.Shake? && H.To(s.shake.entry, e.op) == H.Filling)
  }

  ghost predicate RecycledIn(s: System, es: seq<Event>)
    decreases |es|
  {
    es != [] && (Recycles(s, es[0]) || RecycledIn(Apply(s, es[0]), es[1..]))
  }

  ghost predicate WrittenIn(es: seq<Event>) {
    exists e :: e in es && e.Shake? && e.op == H.WriteDone
  }

  ghost predicate Unsaved(s: System) {
    H.Unsaved(s.shake.entry, H.Count(s.shake.at))
  }

  lemma UnsavedStep(s: System, e: Event)
    requires H.Inv(s.shake) && Enabled(s, e) && Unsaved(s) && !(e.Shake? && e.op == H.WriteDone)
    ensures !Recycles(s, e) && Unsaved(Apply(s, e))
  {
    if !e.Ask? && !e.Get? {
      var h := ShakeEvent(e);
      H.CountMove(s.shake.at, e.thread, H.To(s.shake.entry, h.op));
      H.UnsavedStep(s.shake.entry, H.Count(s.shake.at), h.op);
    }
  }

  lemma {:induction false} UnsavedUntilWritten(s: System, es: seq<Event>)
    requires H.Inv(s.shake) && Unsaved(s) && PROTOCOL.Feasible(s, es) && !WrittenIn(es)
    ensures !RecycledIn(s, es)
    decreases |es|
  {
    if es != [] {
      assert es[0] in es;
      UnsavedStep(s, es[0]);
      ShakeInv(s, es[0]);
      UnsavedUntilWritten(Apply(s, es[0]), es[1..]);
    }
  }

  lemma MarkedUnsaved(s: System, w: nat)
    requires H.Inv(s.shake) && Enabled(s, Dirty(w))
    ensures Unsaved(Apply(s, Dirty(w)))
  {
    H.CountMove(s.shake.at, w, H.Holding);
    H.MarkedUnsaved(s.shake.entry, H.Count(s.shake.at));
  }

  /** What a writer has written under the lock is not thrown away: whatever all threads do afterwards, the entry is
      refilled or freed only once a write-back has succeeded, be it in that very step. */
  lemma WrittenBeforeRecycled(s: System, w: nat, es: seq<Event>)
    requires Reachable(s) && Enabled(s, Dirty(w))
    requires PROTOCOL.Feasible(Apply(s, Dirty(w)), es) && RecycledIn(Apply(s, Dirty(w)), es)
    ensures WrittenIn(es)
  {
    ReachableInv(s);
    ShakeInv(s, Dirty(w));
    MarkedUnsaved(s, w);
    if !WrittenIn(es) {
      UnsavedUntilWritten(Apply(s, Dirty(w)), es);
    }
  }

  // ---------- nobody waits for ever ----------

  /** Steps of the threads that refer to the entry. */
  predicate Draining(e: Event) {
    !e.Dirty? && (e.Shake? ==> H.From(e.op) != H.Away)
  }

  ghost predicate CanDrain(s: System) {
    exists e :: Draining(e) && Enabled(s, e)
  }

  /** A thread that holds the entry is about to lock, or somebody waiting for the lock or having it can move. */
  lemma HolderMoves(s: System, u: nat)
    requires Inv(s) && u < |s.shake.at| && s.shake.at[u] == H.Holding
    ensures CanDrain(s)
  {
    if s.lock.at[u] == L.Outside {
      assert Draining(Ask(u, L.Readers)) && Enabled(s, Ask(u, L.Readers));
    } else {
      L.Progress(s.lock);
      var e :| L.Draining(e) && L.Enabled(s.lock, e);
      var mine := if e.op.Pass? then Get(e.thread, e.op.side) else Release(e.thread, e.op.side);
      assert Draining(mine) && Enabled(s, mine);
    }
  }

  lemma MovableMoves(s: H.System)
    requires H.Inv(s) && H.Count(s.at).Total() > 0
    ensures exists u: nat :: u < |s.at| && s.at[u] != H.Away && H.Enabled(s, H.Event(u, H.Move(s.at[u])))
  {
    var p := H.Movable(s.entry, H.Count(s.at));
    var u := H.CountWitness(s.at, p);
    assert H.Enabled(s, H.Event(u, H.Move(s.at[u])));
  }

  lemma ThreadMoves(s: System, u: nat)
    requires Reachable(s) && u < |s.shake.at| && s.shake.at[u] != H.Away
    requires H.Enabled(s.shake, H.Event(u, H.Move(s.shake.at[u])))
    ensures CanDrain(s)
  {
    var p := s.shake.at[u];
    if p == H.Holding {
      ReachableInv(s);
      HolderMoves(s, u);
    } else if p == H.Filling {
      LockUnderMutexNeverBlocks(s, u, L.Readers);
      assert Draining(Filled(u, L.Readers));
    } else {
      assert Draining(Shake(u, H.Move(p))) && Enabled(s, Shake(u, H.Move(p)));
    }
  }

  lemma DrainersRefer(s: System, e: Event)
    requires Coupled(s) && Draining(e) && Enabled(s, e)
    ensures e.thread < |s.shake.at| && s.shake.at[e.thread] != H.Away
  {
  }

  /** The two protocols together never get stuck: whenever some thread refers to the entry, some such thread can
      move. */
  lemma Progress(s: System)
    requires Reachable(s)
    ensures CanDrain(s) <==> exists t: nat :: t < |s.shake.at| && s.shake.at[t] != H.Away
  {
    ReachableInv(s);
    H.NobodyCounted(s.shake.at);
    if H.Count(s.shake.at).Total() > 0 {
      MovableMoves(s.shake);
      var u: nat :| u < |s.shake.at| && s.shake.at[u] != H.Away
                    && H.Enabled(s.shake, H.Event(u, H.Move(s.shake.at[u])));
      ThreadMoves(s, u);
    } else if CanDrain(s) {
      var e :| Draining(e) && Enabled(s, e);
      DrainersRefer(s, e);
    }
  }

  function Weight(p: L.Phase): nat {
    match p
    case Outside => 3
    case Waiting(_) => 2
    case Inside(_) => 1
  }

  function LockWork(at: seq<L.Phase>): nat {
    if at == [] then 0 else Weight(at[0]) + LockWork(at[1..])
  }

  function ShakeWork(shake: H.System): nat {
    H.Work(H.Count(shake.at))
  }

  function Work(s: System): nat {
    3 * ShakeWork(s.shake) + LockWork(s.lock.at)
  }

  const WORK := (s: System) => Work(s)
  const DRAINING := (e: Event) => Draining(e)

  lemma {:induction false} LockWorkMoves(at: seq<L.Phase>, t: nat, p: L.Phase)
    requires t < |at|
    ensures LockWork(at[t := p]) == LockWork(at) - Weight(at[t]) + Weight(p)
  {
    if t == 0 {
      assert at[t := p][1..] == at[1..];
    } else {
      LockWorkMoves(at[1..], t - 1, p);
      assert at[t := p][1..] == at[1..][t - 1 := p];
    }
  }

  lemma LockWorkStep(lock: L.System, e: L.Event)
    requires L.Enabled(lock, e) && !e.op.TryEnter?
    ensures LockWork(L.Apply(lock, e).at) == LockWork(lock.at) + (if e.op.Leave? then 2 else -1)
  {
    LockWorkMoves(lock.at, e.thread, L.Apply(lock, e).at[e.thread]);
  }

  lemma ShakeWorkStep(s: H.System, e: H.Event)
    requires H.Enabled(s, e) && H.Draining(e)
    ensures ShakeWork(H.Apply(s, e)) < ShakeWork(s)
  {
    H.CountMove(s.at, e.thread, H.To(s.entry, e.op));
    H.WorkDecreases(s.entry, H.Count(s.at), e.op);
  }

  lemma WorkDecreases(s: System, e: Event)
    requires Enabled(s, e) && Draining(e)
    ensures Work(Apply(s, e)) < Work(s)
  {
    if !e.Ask? && !e.Get? {
      ShakeWorkStep(s.shake, ShakeEvent(e));
    }
    match e
    case Filled(t, side) =>
      LockWorkStep(s.lock, L.Event(t, L.Enter(side)));
      LockWorkStep(L.Apply(s.lock, L.Event(t, L.Enter(side))), L.Event(t, L.Pass(side)));
    case Ask(t, side) => LockWorkStep(s.lock, L.Event(t, L.Enter(side)));
    case Get(t, side) => LockWorkStep(s.lock, L.Event(t, L.Pass(side)));
    case Release(t, side) => LockWorkStep(s.lock, L.Event(t, L.Leave(side)));
    case _ =>
  }

  lemma EveryDrainStepWorks()
    ensures PROTOCOL.Drains(INV, DRAINING, WORK)
  {
    forall s, e | Inv(s) && Enabled(s, e) && Draining(e)
      ensures WORK(Apply(s, e)) < WORK(s)
    {
      WorkDecreases(s, e);
    }
  }

  /** Without new calls every thread gets its lock, gives it back and leaves: a run has at most Work steps, and when it
      cannot go on (Progress) nobody refers to the entry any more. */
  lemma EverybodyLeaves(s: System, es: seq<Event>)
    requires Reachable(s) && PROTOCOL.Feasible(s, es) && forall e :: e in es ==> Draining(e)
    ensures |es| + Work(PROTOCOL.Run(s, es)) <= Work(s)
    ensures !CanDrain(PROTOCOL.Run(s, es)) ==>
              forall t: nat :: t < |PROTOCOL.Run(s, es).shake.at| ==> PROTOCOL.Run(s, es).shake.at[t] == H.Away
  {
    ReachableInv(s);
    EveryStepKeepsInv();
    EveryDrainStepWorks();
    PROTOCOL.Bounded(INV, DRAINING, WORK, s, es);
    assert WORK(s) == Work(s) && WORK(PROTOCOL.Run(s, es)) == Work(PROTOCOL.Run(s, es));
    PROTOCOL.ReachesRun(FIRST, s, es);
    Progress(PROTOCOL.Run(s, es));
  }
}
