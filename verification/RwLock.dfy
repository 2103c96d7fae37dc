/** The readers/writer lock of rtos/fs/rwlock.c: a monitor that counts active and blocked
    callers, plus one counting semaphore per side through which the lock is handed over.

    Class RwLock is the code.  The lock is then run by any number of threads as a transition
    system whose steps are the mutex-protected sections (one step each) and the semaphore waits.
    Semaphore tokens are anonymous: any waiting thread of a side may take any token of that side. */
module RwLocks {
  import opened Machines

  datatype Side = Readers | Writers

  datatype Lock = Lock(activeReaders: nat, activeWriters: nat, blockedReaders: nat, blockedWriters: nat,
                       readTokens: nat, writeTokens: nat)
  {
    function Active(side: Side): nat { if side.Readers? then activeReaders else activeWriters }
    function Blocked(side: Side): nat { if side.Readers? then blockedReaders else blockedWriters }
    function Tokens(side: Side): nat { if side.Readers? then readTokens else writeTokens }

    /** The guard of the lock and try-lock sections. */
    predicate Admits(side: Side) {
      activeWriters == 0 && (if side.Readers? then blockedWriters == 0 else activeReaders == 0)
    }

    function Admit(side: Side): Lock {
      if side.Readers? then this.(activeReaders := activeReaders + 1, readTokens := readTokens + 1)
      else this.(activeWriters := 1, writeTokens := writeTokens + 1)
    }

    function Enter(side: Side): Lock {
      if Admits(side) then Admit(side)
      else if side.Readers? then this.(blockedReaders := blockedReaders + 1)
      else this.(blockedWriters := blockedWriters + 1)
    }

    function TakeToken(side: Side): Lock
      requires Tokens(side) > 0
    {
      if side.Readers? then this.(readTokens := readTokens - 1) else this.(writeTokens := writeTokens - 1)
    }

    function GrantWriter(): Lock
      requires blockedWriters > 0
    {
      this.(activeWriters := 1, blockedWriters := blockedWriters - 1, writeTokens := writeTokens + 1)
    }

    function LeaveRead(): Lock
      requires activeReaders > 0
    {
      var l := this.(activeReaders := activeReaders - 1);
      if l.activeReaders == 0 && blockedWriters > 0 then l.GrantWriter() else l
    }

    /** All blocked readers in one batch, or else one blocked writer. */
    function LeaveWrite(): Lock {
      var l := this.(activeWriters := 0);
      if blockedReaders > 0 then
        l.(blockedReaders := 0, activeReaders := activeReaders + blockedReaders,
           readTokens := readTokens + blockedReaders)
      else if blockedWriters > 0 then l.GrantWriter()
      else l
    }

    function Leave(side: Side): Lock
      requires side.Readers? ==> activeReaders > 0
    {
      if side.Readers? then LeaveRead() else LeaveWrite()
    }
  }

  const UNUSED := Lock(0, 0, 0, 0, 0, 0)

  /** The code.  Each method is one mutex section; the semaphore wait that follows it in the
      lock functions is Wait. */
  class RwLock {
    var activeReaders: nat
    var activeWriters: nat
    var blockedReaders: nat
    var blockedWriters: nat
    var readersSemaphore: nat
    var writersSemaphore: nat

    function State(): Lock
      reads this
    {
      Lock(activeReaders, activeWriters, blockedReaders, blockedWriters, readersSemaphore, writersSemaphore)
    }

    constructor ()
      ensures State() == UNUSED
    {
      activeReaders, activeWriters, blockedReaders, blockedWriters := 0, 0, 0, 0;
      readersSemaphore, writersSemaphore := 0, 0;
    }

    method Signal(side: Side)
      modifies this`readersSemaphore, this`writersSemaphore
      ensures readersSemaphore == old(readersSemaphore) + (if side.Readers? then 1 else 0)
      ensures writersSemaphore == old(writersSemaphore) + (if side.Writers? then 1 else 0)
    {
      if side.Readers? { readersSemaphore := readersSemaphore + 1; }
      else { writersSemaphore := writersSemaphore + 1; }
    }

    /** The semaphore wait, at the moment it succeeds. */
    method Wait(side: Side)
      requires State().Tokens(side) > 0
      modifies this
      ensures State() == old(State()).TakeToken(side)
    {
      if side.Readers? { readersSemaphore := readersSemaphore - 1; }
      else { writersSemaphore := writersSemaphore - 1; }
    }

    method RdLock()
      modifies this
      ensures State() == old(State()).Enter(Readers)
    {
      if activeWriters == 0 && blockedWriters == 0 {
        activeReaders := activeReaders + 1;
        Signal(Readers);
      } else {
        blockedReaders := blockedReaders + 1;
      }
    }

    method TryRdLock() returns (ret: int)
      modifies this
      ensures ret == if old(State()).Admits(Readers) then 0 else -1
      ensures State() == if ret == 0 then old(State()).Admit(Readers) else old(State())
    {
      ret := 0;
      if activeWriters == 0 && blockedWriters == 0 {
        activeReaders := activeReaders + 1;
        Signal(Readers);
      } else {
        ret := -1;
      }
    }

    method WrLock()
      modifies this
      ensures State() == old(State()).Enter(Writers)
    {
      if activeReaders == 0 && activeWriters == 0 {
        activeWriters := 1;
        Signal(Writers);
      } else {
        blockedWriters := blockedWriters + 1;
      }
    }

    method TryWrLock() returns (ret: int)
      modifies this
      ensures ret == if old(State()).Admits(Writers) then 0 else -1
      ensures State() == if ret == 0 then old(State()).Admit(Writers) else old(State())
    {
      ret := 0;
      if activeReaders == 0 && activeWriters == 0 {
        activeWriters := 1;
        Signal(Writers);
      } else {
        ret := -1;
      }
    }

    method RdUnlock()
      requires activeReaders > 0
      modifies this
      ensures State() == old(State()).LeaveRead()
    {
      activeReaders := activeReaders - 1;
      if activeReaders == 0 && blockedWriters > 0 {
        activeWriters := 1;
        blockedWriters := blockedWriters - 1;
        Signal(Writers);
      }
    }

    method WrUnlock()
      modifies this
      ensures State() == old(State()).LeaveWrite()
    {
      activeWriters := 0;
      if blockedReaders > 0 {
        blockedReaders := blockedReaders - 1;
        activeReaders := activeReaders + 1;
        Signal(Readers);
        while blockedReaders != 0
          invariant activeWriters == 0 && blockedWriters == old(blockedWriters)
          invariant writersSemaphore == old(writersSemaphore)
          invariant blockedReaders <= old(blockedReaders)
          invariant activeReaders + blockedReaders == old(activeReaders) + old(blockedReaders)
          invariant readersSemaphore + blockedReaders == old(readersSemaphore) + old(blockedReaders)
          decreases blockedReaders
        {
          blockedReaders := blockedReaders - 1;
          activeReaders := activeReaders + 1;
          Signal(Readers);
        }
      } else if blockedWriters > 0 {
        activeWriters := 1;
        blockedWriters := blockedWriters - 1;
        Signal(Writers);
      }
    }
  }

  // ---------- any number of threads ----------

  /** Where a thread is: outside, between its mutex section and the end of its semaphore wait,
      or holding the lock. */
  datatype Phase = Outside | Waiting(side: Side) | Inside(side: Side)

  datatype System = System(lock: Lock, at: seq<Phase>)

  datatype Op = Enter(side: Side) | TryEnter(side: Side) | Pass(side: Side) | Leave(side: Side)

  datatype Event = Event(thread: nat, op: Op)

  function Initial(threads: nat): System {
    System(UNUSED, seq(threads, _ => Outside))
  }

  predicate Enabled(s: System, e: Event) {
    && e.thread < |s.at|
    && match e.op
       case Enter(_) => s.at[e.thread] == Outside
       case TryEnter(_) => s.at[e.thread] == Outside
       case Pass(side) => s.at[e.thread] == Waiting(side) && s.lock.Tokens(side) > 0
       case Leave(side) => s.at[e.thread] == Inside(side) && (side.Readers? ==> s.lock.activeReaders > 0)
  }

  function Apply(s: System, e: Event): System {
    if !Enabled(s, e) then s
    else
      match e.op
      case Enter(side) => System(s.lock.Enter(side), s.at[e.thread := Waiting(side)])
      case TryEnter(side) =>
        if s.lock.Admits(side) then System(s.lock.Admit(side), s.at[e.thread := Waiting(side)]) else s
      case Pass(side) => System(s.lock.TakeToken(side), s.at[e.thread := Inside(side)])
      case Leave(side) => System(s.lock.Leave(side), s.at[e.thread := Outside])
  }

  const PROTOCOL := Machine((s: System, e: Event) => Enabled(s, e), (s: System, e: Event) => Apply(s, e))

  function Number(s: System, p: Phase): nat {
    multiset(s.at)[p]
  }

  /** Threads inside plus unconsumed tokens make up the active count, threads waiting are the
      blocked ones plus those a token is meant for. */
  ghost predicate Balanced(s: System, side: Side) {
    && Number(s, Inside(side)) + s.lock.Tokens(side) == s.lock.Active(side)
    && Number(s, Waiting(side)) == s.lock.Blocked(side) + s.lock.Tokens(side)
  }

  /** The invariant, in counts because tokens are anonymous. */
  ghost predicate Inv(s: System) {
    && s.lock.activeWriters <= 1
    && (s.lock.activeWriters == 1 ==> s.lock.activeReaders == 0)
    && Balanced(s, Readers) && Balanced(s, Writers)
    && (s.lock.blockedReaders > 0 ==> s.lock.activeWriters == 1 || s.lock.blockedWriters > 0)
    && (s.lock.blockedWriters > 0 ==> s.lock.activeReaders > 0 || s.lock.activeWriters == 1)
  }

  lemma InitialInv(threads: nat)
    ensures Inv(Initial(threads))
  {
    forall side
      ensures Number(Initial(threads), Inside(side)) == 0 && Number(Initial(threads), Waiting(side)) == 0
    {
      AllAlike(Initial(threads).at, Outside, Inside(side));
      AllAlike(Initial(threads).at, Outside, Waiting(side));
    }
  }

  /** The lock side of a step, given the populations before it. */
  lemma EnterInv(s: System, t: nat, side: Side)
    requires Inv(s) && t < |s.at| && s.at[t] == Outside
    ensures Inv(System(s.lock.Enter(side), s.at[t := Waiting(side)]))
  {
    MovedAll(s.at, t, Waiting(side));
  }

  lemma PassInv(s: System, t: nat, side: Side)
    requires Inv(s) && t < |s.at| && s.at[t] == Waiting(side) && s.lock.Tokens(side) > 0
    ensures Inv(System(s.lock.TakeToken(side), s.at[t := Inside(side)]))
  {
    MovedAll(s.at, t, Inside(side));
  }

  lemma LeaveInv(s: System, t: nat, side: Side)
    requires Inv(s) && t < |s.at| && s.at[t] == Inside(side)
    ensures s.lock.Active(side) > 0
    ensures Inv(System(s.lock.Leave(side), s.at[t := Outside]))
  {
    MovedAll(s.at, t, Outside);
    assert s.at[t] in s.at;
  }

  /** Every step of every thread keeps the invariant. */
  lemma InvStep(s: System, e: Event)
    requires Inv(s) && Enabled(s, e)
    ensures Inv(Apply(s, e))
  {
    match e.op
    case Enter(side) => EnterInv(s, e.thread, side);
    case TryEnter(side) => if s.lock.Admits(side) { EnterInv(s, e.thread, side); }
    case Pass(side) => PassInv(s, e.thread, side);
    case Leave(side) => LeaveInv(s, e.thread, side);
  }

  ghost const INV := (s: System) => Inv(s)

  lemma EveryStepKeepsInv()
    ensures PROTOCOL.Keeps(INV)
  {
    forall s, e | Inv(s) && Enabled(s, e)
      ensures Inv(Apply(s, e))
    {
      InvStep(s, e);
    }
  }

  lemma RunInv(s: System, es: seq<Event>)
    requires Inv(s) && PROTOCOL.Feasible(s, es)
    ensures Inv(PROTOCOL.Run(s, es))
  {
    EveryStepKeepsInv();
    PROTOCOL.Invariant(INV, s, es);
  }

  const FIRST := (threads: nat) => Initial(threads)

  /** The states any number of threads can reach. */
  ghost predicate Reachable(s: System) {
    PROTOCOL.Reaches(FIRST, s)
  }

  /** The invariant holds in every reachable state. */
  lemma ReachableInv(s: System)
    requires Reachable(s)
    ensures Inv(s)
  {
    forall threads: nat ensures Inv(FIRST(threads)) {
      InitialInv(threads);
    }
    EveryStepKeepsInv();
    PROTOCOL.ReachesInv(INV, FIRST, s);
  }

  // ---------- mutual exclusion ----------

  lemma Present(at: seq<Phase>, p: Phase) returns (t: nat)
    requires multiset(at)[p] > 0
    ensures t < |at| && at[t] == p
  {
    assert p in at;
    t :| t < |at| && at[t] == p;
  }

  /** If t is in phase p and p is populated at least twice, somebody else is in p, and conversely. */
  lemma SomebodyElse(at: seq<Phase>, t: nat)
    requires t < |at| && at[t] != Outside
    ensures multiset(at)[at[t]] >= 2 <==> exists u: nat :: u < |at| && u != t && at[u] == at[t]
  {
    var p := at[t];
    var rest := at[t := Outside];
    Moved(at, t, Outside, p);
    if multiset(at)[p] >= 2 {
      var u := Present(rest, p);
      assert u != t && at[u] == p;
    }
    if u: nat :| u < |at| && u != t && at[u] == p {
      assert rest[u] == p;
      assert p in rest;
    }
  }

  lemma InsideExcludes(s: System, w: nat, t: nat)
    requires Inv(s) && w < |s.at| && t < |s.at| && t != w
    requires s.at[w] == Inside(Writers)
    ensures !s.at[t].Inside?
  {
    assert s.at[w] in s.at && s.at[t] in s.at;
    SomebodyElse(s.at, w);
  }

  /** In every run of any number of threads, a writer inside excludes everyone else. */
  lemma WriterExcludes(s: System, w: nat, t: nat)
    requires Reachable(s) && w < |s.at| && t < |s.at| && t != w
    requires s.at[w] == Inside(Writers)
    ensures !s.at[t].Inside?
  {
    ReachableInv(s);
    InsideExcludes(s, w, t);
  }

  // ---------- no lost wakeup ----------

  predicate Draining(e: Event) {
    e.op.Pass? || e.op.Leave?
  }

  ghost predicate CanDrain(s: System) {
    exists e :: Draining(e) && Enabled(s, e)
  }

  function Work(s: System): nat {
    2 * (Number(s, Waiting(Readers)) + Number(s, Waiting(Writers)))
    + Number(s, Inside(Readers)) + Number(s, Inside(Writers))
  }

  /** A state reached with somebody waiting holds a token he may use, or somebody inside who will
      hand one over; and with nobody active, nobody is blocked or waiting. */
  lemma NoLostWakeup(s: System)
    requires Inv(s)
    ensures Number(s, Waiting(Readers)) + Number(s, Waiting(Writers)) > 0 ==>
              || (s.lock.readTokens > 0 && Number(s, Waiting(Readers)) > 0)
              || (s.lock.writeTokens > 0 && Number(s, Waiting(Writers)) > 0)
              || Number(s, Inside(Readers)) + Number(s, Inside(Writers)) > 0
    ensures s.lock.activeReaders == 0 && s.lock.activeWriters == 0 ==> Work(s) == 0
  {
  }

  /** Some waiting or holding thread can always move, unless there is none. */
  lemma Progress(s: System)
    requires Inv(s)
    ensures CanDrain(s) <==> exists t: nat :: t < |s.at| && s.at[t] != Outside
  {
    if t: nat :| t < |s.at| && s.at[t] != Outside {
      assert s.at[t] in s.at && Number(s, s.at[t]) > 0;
      assert s.at[t].side == Readers || s.at[t].side == Writers;
      NoLostWakeup(s);
      var p := if Number(s, Inside(Readers)) > 0 then Inside(Readers)
               else if Number(s, Inside(Writers)) > 0 then Inside(Writers)
               else if s.lock.readTokens > 0 then Waiting(Readers) else Waiting(Writers);
      var u := Present(s.at, p);
      var e := Event(u, if p.Inside? then Leave(p.side) else Pass(p.side));
      assert Draining(e) && Enabled(s, e);
    }
  }

  lemma WorkDecreases(s: System, e: Event)
    requires Enabled(s, e) && Draining(e)
    ensures Work(Apply(s, e)) == Work(s) - 1
  {
    MovedAll(s.at, e.thread, Apply(s, e).at[e.thread]);
  }

  const DRAINING := (e: Event) => Draining(e)
  const WORK := (s: System) => Work(s)

  lemma EveryDrainStepWorks()
    ensures PROTOCOL.Drains(INV, DRAINING, WORK)
  {
    forall s, e | Inv(s) && Enabled(s, e) && Draining(e)
      ensures Work(Apply(s, e)) < Work(s)
    {
      WorkDecreases(s, e);
    }
  }

  /** Once no new calls arrive, every waiting thread gets in and out: each step uses up work, so a run
      has at most Work steps, and when it cannot go on (Progress) everybody is outside. */
  lemma EverybodyIsServed(s: System, es: seq<Event>)
    requires Inv(s) && PROTOCOL.Feasible(s, es) && forall e :: e in es ==> Draining(e)
    ensures |es| + Work(PROTOCOL.Run(s, es)) <= Work(s)
    ensures !CanDrain(PROTOCOL.Run(s, es)) ==>
              forall t: nat :: t < |PROTOCOL.Run(s, es).at| ==> PROTOCOL.Run(s, es).at[t] == Outside
  {
    EveryStepKeepsInv();
    EveryDrainStepWorks();
    PROTOCOL.Bounded(INV, DRAINING, WORK, s, es);
    Progress(PROTOCOL.Run(s, es));
  }

  // ---------- fairness between the sides ----------

  /** While a writer is queued, readers are admitted only by a departing writer, and then all
      those blocked, in one batch that leaves none behind. */
  lemma QueuedWriterStopsReaders(s: System, e: Event)
    requires Inv(s) && Enabled(s, e) && s.lock.blockedWriters > 0
    requires Apply(s, e).lock.activeReaders > s.lock.activeReaders
    ensures e.op == Leave(Writers)
    ensures Apply(s, e).lock.activeReaders == s.lock.blockedReaders && Apply(s, e).lock.blockedReaders == 0
  {
    if e.op == Leave(Writers) {
      LeaveInv(s, e.thread, Writers);
    }
  }

  /** A step grants the lock to a side when it adds tokens of that side. */
  predicate Grants(s: System, e: Event, side: Side) {
    Apply(s, e).lock.Tokens(side) > s.lock.Tokens(side)
  }

  /** Number of steps of the run that grant the lock to the side. */
  function GrantsIn(s: System, es: seq<Event>, side: Side): nat
    decreases |es|
  {
    if es == [] then 0
    else (if Grants(s, es[0], side) then 1 else 0) + GrantsIn(Apply(s, es[0]), es[1..], side)
  }

  /** Somebody of the side is blocked in every state of the run. */
  ghost predicate BlockedThroughout(s: System, es: seq<Event>, side: Side)
    decreases |es|
  {
    s.lock.Blocked(side) > 0 && (es == [] || BlockedThroughout(Apply(s, es[0]), es[1..], side))
  }

  /** At most one writer is admitted while a reader is blocked: the number of grants is exactly
      the change of active_writers, which only a batch release could undo. */
  lemma {:induction false} OneWriterBeforeABlockedReader(s: System, es: seq<Event>)
    requires Inv(s) && PROTOCOL.Feasible(s, es) && BlockedThroughout(s, es, Readers)
    ensures GrantsIn(s, es, Writers) == PROTOCOL.Run(s, es).lock.activeWriters - s.lock.activeWriters
    ensures GrantsIn(s, es, Writers) <= 1
    decreases |es|
  {
    RunInv(s, es);
    if es != [] {
      InvStep(s, es[0]);
      OneWriterBeforeABlockedReader(Apply(s, es[0]), es[1..]);
    }
  }

  lemma BatchStep(s: System, e: Event)
    requires Inv(s) && Enabled(s, e) && s.lock.blockedWriters > 0 && !Grants(s, e, Writers)
    ensures (if Grants(s, e, Readers) then 1 else 0) == s.lock.activeWriters - Apply(s, e).lock.activeWriters
  {
    if e.op.Leave? {
      LeaveInv(s, e.thread, e.op.side);
    }
  }

  /** At most one batch of readers is admitted while a writer stays queued and none is admitted. */
  lemma {:induction false} OneBatchBeforeABlockedWriter(s: System, es: seq<Event>)
    requires Inv(s) && PROTOCOL.Feasible(s, es) && BlockedThroughout(s, es, Writers) && GrantsIn(s, es, Writers) == 0
    ensures GrantsIn(s, es, Readers) == s.lock.activeWriters - PROTOCOL.Run(s, es).lock.activeWriters
    ensures GrantsIn(s, es, Readers) <= 1
    decreases |es|
  {
    RunInv(s, es);
    if es != [] {
      InvStep(s, es[0]);
      BatchStep(s, es[0]);
      OneBatchBeforeABlockedWriter(Apply(s, es[0]), es[1..]);
    }
  }

  // ---------- a successful try-lock may wait ----------

  ghost predicate PassesByOthers(es: seq<Event>, t: nat, side: Side) {
    forall i :: 0 <= i < |es| ==> es[i].op == Pass(side) && es[i].thread != t
  }

  /** Between its mutex section and its semaphore wait, other waiting threads can use up every
      token that thread t could take. */
  ghost predicate CanBeOvertaken(s: System, t: nat, side: Side) {
    exists es :: PassesByOthers(es, t, side) && PROTOCOL.Feasible(s, es) && PROTOCOL.Run(s, es).lock.Tokens(side) == 0
  }

  lemma {:induction false} OthersPassing(s: System, es: seq<Event>, t: nat, side: Side)
    requires PROTOCOL.Feasible(s, es) && PassesByOthers(es, t, side) && t < |s.at|
    ensures t < |PROTOCOL.Run(s, es).at| && PROTOCOL.Run(s, es).at[t] == s.at[t]
    ensures PROTOCOL.Run(s, es).lock.Blocked(side) == s.lock.Blocked(side)
    decreases |es|
  {
    if es != [] {
      OthersPassing(Apply(s, es[0]), es[1..], t, side);
    }
  }

  lemma {:induction false} StealTokens(s: System, t: nat, side: Side) returns (es: seq<Event>)
    requires Inv(s) && t < |s.at| && s.at[t] == Waiting(side) && s.lock.Blocked(side) > 0
    ensures PassesByOthers(es, t, side) && PROTOCOL.Feasible(s, es) && PROTOCOL.Run(s, es).lock.Tokens(side) == 0
    decreases s.lock.Tokens(side)
  {
    if s.lock.Tokens(side) == 0 {
      es := [];
    } else {
      SomebodyElse(s.at, t);
      var u: nat :| u < |s.at| && u != t && s.at[u] == Waiting(side);
      var e := Event(u, Pass(side));
      InvStep(s, e);
      var rest := StealTokens(Apply(s, e), t, side);
      es := [e] + rest;
      assert es[1..] == rest;
    }
  }

  /** A thread between its section and its wait, try-lock or not, can be left waiting exactly when
      another caller of its side is blocked at that moment. */
  lemma OvertakenExactly(s: System, t: nat, side: Side)
    requires Inv(s) && t < |s.at| && s.at[t] == Waiting(side)
    ensures CanBeOvertaken(s, t, side) <==> s.lock.Blocked(side) > 0
  {
    if es :| PassesByOthers(es, t, side) && PROTOCOL.Feasible(s, es) && PROTOCOL.Run(s, es).lock.Tokens(side) == 0 {
      OthersPassing(s, es, t, side);
      RunInv(s, es);
      assert PROTOCOL.Run(s, es).at[t] in PROTOCOL.Run(s, es).at;
    }
    if s.lock.Blocked(side) > 0 {
      var es := StealTokens(s, t, side);
    }
  }

  /** A try-lock that succeeds finds nobody of its side blocked, and as many tokens as waiters. */
  lemma TryLockSucceeds(s: System, e: Event)
    requires Inv(s) && Enabled(s, e) && e.op.TryEnter? && s.lock.Admits(e.op.side)
    ensures Apply(s, e).lock.Tokens(e.op.side) == Number(Apply(s, e), Waiting(e.op.side)) > 0
    ensures !CanBeOvertaken(Apply(s, e), e.thread, e.op.side)
  {
    InvStep(s, e);
    OvertakenExactly(Apply(s, e), e.thread, e.op.side);
  }

  /** Yet a successful try-lock may have to wait: thread 0 try-locks for reading and succeeds,
      thread 1 queues as a writer, thread 2 queues as a reader and takes thread 0's token. */
  lemma TryLockMayWait()
    ensures var es := [Event(0, TryEnter(Readers)), Event(1, Enter(Writers)), Event(2, Enter(Readers)),
                       Event(2, Pass(Readers))];
            && Initial(3).lock.Admits(Readers)
            && PROTOCOL.Feasible(Initial(3), es)
            && PROTOCOL.Run(Initial(3), es).at[0] == Waiting(Readers)
            && PROTOCOL.Run(Initial(3), es).lock.readTokens == 0
  {
    var s0 := Initial(3);
    var s1 := Apply(s0, Event(0, TryEnter(Readers)));
    var s2 := Apply(s1, Event(1, Enter(Writers)));
    var s3 := Apply(s2, Event(2, Enter(Readers)));
    var s4 := Apply(s3, Event(2, Pass(Readers)));
    assert PROTOCOL.Feasible(s4, []) && PROTOCOL.Run(s4, []) == s4;
    PROTOCOL.Cons(s3, Event(2, Pass(Readers)), []);
    PROTOCOL.Cons(s2, Event(2, Enter(Readers)), [Event(2, Pass(Readers))]);
    PROTOCOL.Cons(s1, Event(1, Enter(Writers)), [Event(2, Enter(Readers)), Event(2, Pass(Readers))]);
    PROTOCOL.Cons(s0, Event(0, TryEnter(Readers)),
                 [Event(1, Enter(Writers)), Event(2, Enter(Readers)), Event(2, Pass(Readers))]);
  }
}
