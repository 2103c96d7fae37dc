/** One entry of the disk cache (rtos/fs/dcache.c) under any number of concurrent calls of
    dcache_genlock, dcache_genunlock and the eviction inside genlock.

    A call drops the cache mutex around disk transfers and around three kinds of wait: a thread
    that hits an entry being filled or written back waits for `sync`; a thread that evicts a dirty
    entry waits for `esync` until everybody it woke up has noticed the failure.  Class CacheEntry is
    the code of the mutex-protected sections.  The transition system below runs them, one step per
    section, one step per semaphore wait, and one step for the unprotected test of `ready`. */
module EntryHandshake {
  import opened Machines

  /** `listed`: on a hash bucket rather than on the free list.  `keyed`: its device is not NULLDEV, so
      that a search can find it.  `signals` is a history variable: how often `esync` was signalled
      since the present error synchronisation was requested. */
  datatype Entry = Entry(listed: bool, keyed: bool, used: int, ready: bool, dirty: bool,
                         numblocked: nat, sync: nat, esync: nat, esyncreq: bool, signals: nat)
  {
    /** Wake everybody waiting for `ready`. */
    function WakeAll(): Entry {
      this.(sync := sync + numblocked, numblocked := 0)
    }

    /** Claimed for a new key: the caller goes on to read the block. */
    function Fill(): Entry {
      this.(listed := true, keyed := true, used := 1, ready := false, dirty := false,
            numblocked := 0, esyncreq := false)
    }

    function Free(): Entry {
      this.(listed := false, used := -1)
    }

    function Hit(): Entry {
      if ready then this.(used := used + 1) else this.(used := used + 1, numblocked := numblocked + 1)
    }

    /** A woken thread that found the entry not ready gives up its reference. */
    function GiveUp(): Entry {
      var e := this.(used := used - 1);
      if esyncreq then
        if e.used == 1 then e.(esync := esync + 1, signals := signals + 1) else e
      else if e.used == 0 then e.Free()
      else e
    }

    function ReadDone(): Entry {
      this.(ready := true).WakeAll()
    }

    function ReadFailed(): Entry {
      var e := WakeAll().(keyed := false, used := used - 1);
      if e.used == 0 then e.Free() else e
    }

    function StartWriteBack(): Entry {
      this.(used := used + 1, ready := false)
    }

    function WriteFailed(): Entry {
      this.(used := used - 1, ready := true).WakeAll()
    }

    /** The write-back worked but somebody was woken up: wait for them. */
    function RequestErrorSync(): Entry {
      WakeAll().(keyed := false, esyncreq := true, signals := 0)
    }

    function Drop(): Entry {
      this.(used := used - 1)
    }
  }

  const UNUSED := Entry(false, false, -1, false, false, 0, 0, 0, false, 0)

  class CacheEntry {
    var listed: bool
    var keyed: bool
    var used: int
    var ready: bool
    var dirty: bool
    var numblocked: nat
    var sync: nat
    var esync: nat
    var esyncreq: bool
    ghost var signals: nat

    ghost function State(): Entry
      reads this
    {
      Entry(listed, keyed, used, ready, dirty, numblocked, sync, esync, esyncreq, signals)
    }

    constructor ()
      ensures State() == UNUSED
    {
      listed, keyed, used, ready, dirty := false, false, -1, false, false;
      numblocked, sync, esync, esyncreq, signals := 0, 0, 0, false, 0;
    }

    /** The signalling loop shared by both ends of a transfer. */
    method WakeAll()
      modifies this`sync, this`numblocked
      ensures State() == old(State()).WakeAll()
    {
      while numblocked > 0
        invariant sync + numblocked == old(sync) + old(numblocked)
      {
        sync := sync + 1;
        numblocked := numblocked - 1;
      }
    }

    method Fill()
      modifies this
      ensures State() == old(State()).Fill()
    {
      used := 1;
      dirty := false;
      keyed := true;
      ready := false;
      numblocked := 0;
      esyncreq := false;
      listed := true;
    }

    /** The section of a search that finds the entry. */
    method Hit() returns (wait: bool)
      modifies this
      ensures State() == old(State()).Hit() && wait == !ready
    {
      used := used + 1;
      if !ready {
        numblocked := numblocked + 1;
      }
      wait := !ready;
    }

    method GiveUp()
      modifies this
      ensures State() == old(State()).GiveUp()
    {
      used := used - 1;
      if esyncreq {
        if used == 1 {
          esync := esync + 1;
          signals := signals + 1;
        }
      } else if used == 0 {
        listed := false;
        used := -1;
      }
    }

    /** After the disk read of a miss. */
    method FinishRead(res: int)
      modifies this
      ensures State() == if res == 0 then old(State()).ReadDone() else old(State()).ReadFailed()
    {
      if res == 0 {
        ready := true;
      }
      WakeAll();
      if res != 0 {
        keyed := false;
        used := used - 1;
        if used == 0 {
          listed := false;
          used := -1;
        }
      }
    }

    method StartWriteBack()
      modifies this
      ensures State() == old(State()).StartWriteBack()
    {
      used := used + 1;
      ready := false;
    }

    /** After the disk write of an eviction; `mustSync` tells the evicting thread to wait for the
        threads it woke. */
    method FinishWriteBack(res: int) returns (mustSync: bool)
      modifies this
      ensures mustSync == (res == 0 && old(numblocked) > 0)
      ensures res != 0 ==> State() == old(State()).WriteFailed()
      ensures mustSync ==> State() == old(State()).RequestErrorSync()
      ensures res == 0 && !mustSync ==> State() == old(State()).(keyed := false)
    {
      if res != 0 {
        used := used - 1;
        ready := true;
      }
      var flag := numblocked > 0;
      WakeAll();
      if res != 0 {
        return false;
      }
      keyed := false;
      if flag {
        esyncreq := true;
        signals := 0;
      }
      mustSync := flag;
    }

    method Drop()
      modifies this
      ensures State() == old(State()).Drop()
    {
      used := used - 1;
    }
  }

  // ---------- any number of threads ----------

  datatype Phase =
    | Away
    | SyncWait    // hit an entry that was not ready, waits for `sync`
    | Woken       // has its token, has not looked at `ready` yet
    | Failing     // saw `ready` unset, about to take the mutex
    | Holding     // got the entry, to be released by genunlock
    | Filling     // reads the block for the key it just entered
    | Writing     // evicts the entry, writing it back
    | ErrorWait   // evicts the entry, waits for `esync`
    | ErrorDone   // evicts the entry, has its `esync` token

  datatype System = System(entry: Entry, at: seq<Phase>)

  datatype Op =
    | Claim | EvictClean | EvictDirty | Hit | MarkDirty
    | PassSync | TestReady | GiveUp | Unlock
    | ReadDone | ReadFailed | WriteDone | WriteFailed | PassError | Refill

  datatype Event = Event(thread: nat, op: Op)

  /** The phase in which an operation is possible. */
  function From(op: Op): Phase {
    match op
    case Claim => Away
    case EvictClean => Away
    case EvictDirty => Away
    case Hit => Away
    case MarkDirty => Holding
    case PassSync => SyncWait
    case TestReady => Woken
    case GiveUp => Failing
    case Unlock => Holding
    case ReadDone => Filling
    case ReadFailed => Filling
    case WriteDone => Writing
    case WriteFailed => Writing
    case PassError => ErrorWait
    case Refill => ErrorDone
  }

  predicate Guard(e: Entry, op: Op) {
    match op
    case Claim => !e.listed
    case EvictClean => e.listed && e.used == 0 && !e.dirty
    case EvictDirty => e.listed && e.used == 0 && e.dirty
    case Hit => e.listed && e.keyed
    case PassSync => e.sync > 0
    case PassError => e.esync > 0
    case _ => true
  }

  predicate Enabled(s: System, e: Event) {
    e.thread < |s.at| && s.at[e.thread] == From(e.op) && Guard(s.entry, e.op)
  }

  function To(e: Entry, op: Op): Phase {
    match op
    case Claim => Filling
    case EvictClean => Filling
    case EvictDirty => Writing
    case Hit => if e.ready then Holding else SyncWait
    case MarkDirty => Holding
    case PassSync => Woken
    case TestReady => if e.ready then Holding else Failing
    case GiveUp => Away
    case Unlock => Away
    case ReadDone => Holding
    case ReadFailed => Away
    case WriteDone => if e.numblocked > 0 then ErrorWait else Filling
    case WriteFailed => Away
    case PassError => ErrorDone
    case Refill => Filling
  }

  function After(e: Entry, op: Op): Entry
    requires Guard(e, op)
  {
    match op
    case Claim => e.Fill()
    case EvictClean => e.Fill()
    case EvictDirty => e.StartWriteBack()
    case Hit => e.Hit()
    case MarkDirty => e.(dirty := true)
    case PassSync => e.(sync := e.sync - 1)
    case TestReady => e
    case GiveUp => e.GiveUp()
    case Unlock => e.Drop()
    case ReadDone => e.ReadDone()
    case ReadFailed => e.ReadFailed()
    case WriteDone => if e.numblocked > 0 then e.RequestErrorSync() else e.(keyed := false).Drop().Fill()
    case WriteFailed => e.WriteFailed()
    case PassError => e.(esync := e.esync - 1)
    case Refill => e.Drop().Fill()
  }

  function Apply(s: System, e: Event): System {
    if Enabled(s, e) then System(After(s.entry, e.op), s.at[e.thread := To(s.entry, e.op)]) else s
  }

  const PROTOCOL := Machine((s: System, e: Event) => Enabled(s, e), (s: System, e: Event) => Apply(s, e))

  function Initial(threads: nat): System {
    System(UNUSED, seq(threads, _ => Away))
  }

  // ---------- population counts ----------

  datatype Population = Population(syncWait: nat, woken: nat, failing: nat, holding: nat,
                                   filling: nat, writing: nat, errorWait: nat, errorDone: nat)
  {
    /** The threads that refer to the entry. */
    function Total(): nat {
      syncWait + woken + failing + holding + filling + writing + errorWait + errorDone
    }

    function Of(p: Phase): nat {
      match p
      case Away => 0
      case SyncWait => syncWait
      case Woken => woken
      case Failing => failing
      case Holding => holding
      case Filling => filling
      case Writing => writing
      case ErrorWait => errorWait
      case ErrorDone => errorDone
    }

    function Plus(p: Phase): Population {
      match p
      case Away => this
      case SyncWait => this.(syncWait := syncWait + 1)
      case Woken => this.(woken := woken + 1)
      case Failing => this.(failing := failing + 1)
      case Holding => this.(holding := holding + 1)
      case Filling => this.(filling := filling + 1)
      case Writing => this.(writing := writing + 1)
      case ErrorWait => this.(errorWait := errorWait + 1)
      case ErrorDone => this.(errorDone := errorDone + 1)
    }

    function Minus(p: Phase): Population
      requires p == Away || Of(p) > 0
    {
      match p
      case Away => this
      case SyncWait => this.(syncWait := syncWait - 1)
      case Woken => this.(woken := woken - 1)
      case Failing => this.(failing := failing - 1)
      case Holding => this.(holding := holding - 1)
      case Filling => this.(filling := filling - 1)
      case Writing => this.(writing := writing - 1)
      case ErrorWait => this.(errorWait := errorWait - 1)
      case ErrorDone => this.(errorDone := errorDone - 1)
    }
  }

  function Count(at: seq<Phase>): Population {
    var m := multiset(at);
    Population(m[SyncWait], m[Woken], m[Failing], m[Holding], m[Filling], m[Writing], m[ErrorWait], m[ErrorDone])
  }

  lemma CountOf(at: seq<Phase>, p: Phase)
    requires p != Away
    ensures Count(at).Of(p) == multiset(at)[p]
  {
  }

  /** Moving one thread moves one unit between two phases. */
  lemma CountMove(at: seq<Phase>, t: nat, p: Phase)
    requires t < |at|
    ensures at[t] == Away || Count(at).Of(at[t]) > 0
    ensures Count(at[t := p]) == Count(at).Minus(at[t]).Plus(p)
  {
    Moved(at, t, p, at[t]);
    if at[t] != Away {
      CountOf(at, at[t]);
    }
    forall q: Phase | q != Away
      ensures Count(at[t := p]).Of(q) == Count(at).Minus(at[t]).Plus(p).Of(q)
    {
      Moved(at, t, p, q);
      PlusMinusOf(Count(at), at[t], p, q);
      CountOf(at, q);
      CountOf(at[t := p], q);
    }
    SamePopulation(Count(at[t := p]), Count(at).Minus(at[t]).Plus(p));
  }

  lemma PlusMinusOf(n: Population, from: Phase, to: Phase, q: Phase)
    requires from == Away || n.Of(from) > 0
    ensures q != Away ==>
              n.Minus(from).Plus(to).Of(q) == n.Of(q) - (if q == from then 1 else 0) + (if q == to then 1 else 0)
  {
    MinusOf(n, from, q);
    PlusOf(n.Minus(from), to, q);
  }

  lemma MinusOf(n: Population, from: Phase, q: Phase)
    requires from == Away || n.Of(from) > 0
    ensures n.Minus(from).Of(q) == n.Of(q) - (if q == from && q != Away then 1 else 0)
  {
  }

  lemma PlusOf(n: Population, to: Phase, q: Phase)
    ensures n.Plus(to).Of(q) == n.Of(q) + (if q == to && q != Away then 1 else 0)
  {
  }

  lemma SamePopulation(n: Population, n': Population)
    requires forall q: Phase :: q != Away ==> n.Of(q) == n'.Of(q)
    ensures n == n'
  {
    assert n.Of(SyncWait) == n'.Of(SyncWait) && n.Of(Woken) == n'.Of(Woken);
    assert n.Of(Failing) == n'.Of(Failing) && n.Of(Holding) == n'.Of(Holding);
    assert n.Of(Filling) == n'.Of(Filling) && n.Of(Writing) == n'.Of(Writing);
    assert n.Of(ErrorWait) == n'.Of(ErrorWait) && n.Of(ErrorDone) == n'.Of(ErrorDone);
  }

  lemma CountWitness(at: seq<Phase>, p: Phase) returns (t: nat)
    requires p != Away && Count(at).Of(p) > 0
    ensures t < |at| && at[t] == p
  {
    CountOf(at, p);
    assert p in at;
    t :| t < |at| && at[t] == p;
  }

  /** Nobody refers to the entry exactly when the total is 0. */
  lemma NobodyCounted(at: seq<Phase>)
    ensures Count(at).Total() == 0 <==> forall u: nat :: u < |at| ==> at[u] == Away
  {
    if u: nat :| u < |at| && at[u] != Away {
      assert at[u] in multiset(at);
      CountOf(at, at[u]);
      TotalBounds(Count(at), at[u]);
    }
    if Count(at).Total() > 0 {
      var p := SomePhase(Count(at));
      var u := CountWitness(at, p);
    }
  }

  lemma TotalBounds(n: Population, p: Phase)
    ensures n.Of(p) <= n.Total()
  {
  }

  lemma SomePhase(n: Population) returns (p: Phase)
    requires n.Total() > 0
    ensures p != Away && n.Of(p) > 0
  {
    p := if n.syncWait > 0 then SyncWait else if n.woken > 0 then Woken else if n.failing > 0 then Failing
         else if n.holding > 0 then Holding else if n.filling > 0 then Filling
         else if n.writing > 0 then Writing else if n.errorWait > 0 then ErrorWait else ErrorDone;
  }

  // ---------- the invariant ----------

  /** Over the entry and the population alone. */
  ghost predicate Consistent(e: Entry, n: Population) {
    && e.numblocked + e.sync == n.syncWait
    && n.filling + n.writing + n.errorWait + n.errorDone <= 1
    && (if e.listed then e.used == n.Total() else e.used == -1 && n.Total() == 0)
    && (e.ready ==> e.keyed && n.filling + n.writing + n.errorWait + n.errorDone + n.failing == 0 && e.numblocked == 0)
    && (e.listed && e.used == 0 ==> e.ready)
    && (n.holding > 0 ==> e.ready)
    // a transfer is under way: nobody else got past the queue
    && (n.filling + n.writing == 1 ==> e.keyed && !e.ready && e.sync == 0 && n.woken + n.failing == 0)
    // a transfer has failed or the entry is being evicted: everybody is on the way out
    && (e.listed && !e.ready && n.filling + n.writing == 0 ==> !e.keyed && e.numblocked == 0)
    && (e.esync <= n.errorWait)
    && (n.errorWait == 1 ==> e.signals == e.esync && (e.esync == 1 <==> n.syncWait + n.woken + n.failing == 0))
    && (n.errorDone == 1 ==> e.signals == 1 && n.syncWait + n.woken + n.failing == 0)
    && (e.esyncreq <==> n.errorWait + n.errorDone == 1)
  }

  ghost predicate Inv(s: System) {
    Consistent(s.entry, Count(s.at))
  }

  /** The entry and population after one step, and the consistency it must keep. */
  ghost predicate Keeps(e: Entry, n: Population, op: Op) {
    && Consistent(e, n) && Guard(e, op) && (From(op) == Away || n.Of(From(op)) > 0)
    ==> Consistent(After(e, op), n.Minus(From(op)).Plus(To(e, op)))
  }

  lemma ArrivalsKeep(e: Entry, n: Population)
    ensures Keeps(e, n, Claim)
    ensures Keeps(e, n, EvictClean)
    ensures Keeps(e, n, EvictDirty)
  {
  }

  lemma HitKeeps(e: Entry, n: Population)
    ensures Keeps(e, n, Hit)
  {
  }

  lemma UsersKeep(e: Entry, n: Population)
    ensures Keeps(e, n, MarkDirty)
    ensures Keeps(e, n, Unlock)
  {
  }

  lemma WokenKeep(e: Entry, n: Population)
    ensures Keeps(e, n, PassSync)
    ensures Keeps(e, n, TestReady)
  {
  }

  lemma GiveUpKeeps(e: Entry, n: Population)
    ensures Keeps(e, n, GiveUp)
  {
  }

  lemma ReadsKeep(e: Entry, n: Population)
    ensures Keeps(e, n, ReadDone)
    ensures Keeps(e, n, ReadFailed)
  {
  }

  lemma WriteFailedKeeps(e: Entry, n: Population)
    ensures Keeps(e, n, WriteFailed)
  {
  }

  lemma WriteDoneKeeps(e: Entry, n: Population)
    ensures Keeps(e, n, WriteDone)
  {
  }

  lemma PassErrorKeeps(e: Entry, n: Population)
    ensures Keeps(e, n, PassError)
  {
  }

  lemma RefillKeeps(e: Entry, n: Population)
    ensures Keeps(e, n, Refill)
  {
    if Consistent(e, n) && n.errorDone > 0 {
      assert n.errorDone == 1 && e.used == n.Total() == 1;
    }
  }

  lemma ConsistentStep(e: Entry, n: Population, op: Op)
    requires Consistent(e, n) && Guard(e, op)
    requires From(op) == Away || n.Of(From(op)) > 0
    ensures Consistent(After(e, op), n.Minus(From(op)).Plus(To(e, op)))
  {
    match op
    case Claim => ArrivalsKeep(e, n);
    case EvictClean => ArrivalsKeep(e, n);
    case EvictDirty => ArrivalsKeep(e, n);
    case Hit => HitKeeps(e, n);
    case MarkDirty => UsersKeep(e, n);
    case PassSync => WokenKeep(e, n);
    case TestReady => WokenKeep(e, n);
    case GiveUp => GiveUpKeeps(e, n);
    case Unlock => UsersKeep(e, n);
    case ReadDone => ReadsKeep(e, n);
    case ReadFailed => ReadsKeep(e, n);
    case WriteDone => WriteDoneKeeps(e, n);
    case WriteFailed => WriteFailedKeeps(e, n);
    case PassError => PassErrorKeeps(e, n);
    case Refill => RefillKeeps(e, n);
  }

  lemma InvStep(s: System, e: Event)
    requires Inv(s) && Enabled(s, e)
    ensures Inv(Apply(s, e))
  {
    CountMove(s.at, e.thread, To(s.entry, e.op));
    ConsistentStep(s.entry, Count(s.at), e.op);
  }

  lemma InitialInv(threads: nat)
    ensures Inv(Initial(threads))
  {
    var at := Initial(threads).at;
    forall p: Phase | p != Away ensures Count(at).Of(p) == NOBODY.Of(p) {
      AllAlike(at, Away, p);
      CountOf(at, p);
    }
    SamePopulation(Count(at), NOBODY);
  }

  const FIRST := (threads: nat) => Initial(threads)

  /** The states any number of threads can reach. */
  ghost predicate Reachable(s: System) {
    PROTOCOL.Reaches(FIRST, s)
  }

  /** The invariant holds in every reachable state. */
  lemma ReachableInv(s: System)
    requires Reachable(s)
    ensures Inv(s)
  {
    forall threads: nat ensures Inv(FIRST(threads)) {
      InitialInv(threads);
    }
    EveryStepKeepsInv();
    PROTOCOL.ReachesInv(INV, FIRST, s);
  }

  ghost const INV := (s: System) => Inv(s)

  lemma EveryStepKeepsInv()
    ensures PROTOCOL.Keeps(INV)
  {
    forall s, e | Inv(s) && Enabled(s, e)
      ensures Inv(Apply(s, e))
    {
      InvStep(s, e);
    }
  }

  // ---------- what it means ----------

  /** In every run: `used` is the number of threads that refer to a listed entry, -1 on the free
      list; threads queued for `ready` are exactly those to be signalled plus those signalled; and a
      holder always has a ready entry under its key. */
  lemma ReferencesCounted(s: System)
    requires Reachable(s)
    ensures && s.entry.used == (if s.entry.listed then Count(s.at).Total() else -1)
            && multiset(s.at)[SyncWait] == s.entry.numblocked + s.entry.sync
            && (Holding in s.at ==> s.entry.listed && s.entry.ready && s.entry.keyed)
  {
    ReachableInv(s);
    if Holding in s.at {
      CountOf(s.at, Holding);
    }
  }

  /** The assertions written in the code, at the section that makes each of them. */
  predicate Asserted(e: Entry, op: Op) {
    match op
    case Claim => e.used == -1
    case EvictClean => e.used == 0
    case EvictDirty => e.used + 1 == 1
    case Hit => e.used >= 0
    case GiveUp => e.used > 0
    case Unlock => e.used > 0
    case ReadDone => e.used > 0 && !e.ready
    case ReadFailed => e.used > 0 && !e.ready
    case WriteDone => e.numblocked > 0 || e.used - 1 == 0
    case Refill => e.used - 1 == 0
    case _ => true
  }

  /** No assertion of the code ever fails. */
  lemma AssertionsHold(s: System, e: Event)
    requires Reachable(s) && Enabled(s, e)
    ensures Asserted(s.entry, e.op)
  {
    ReachableInv(s);
    CountMove(s.at, e.thread, Away);
    AssertedHere(s.entry, Count(s.at), e.op);
  }

  lemma AssertedHere(e: Entry, n: Population, op: Op)
    requires Consistent(e, n) && Guard(e, op) && (From(op) == Away || n.Of(From(op)) > 0)
    ensures Asserted(e, op)
  {
  }

  /** The steps that hand the entry to a new key or put it on the free list. */
  predicate Recycles(s: System, e: Event)
    requires Enabled(s, e)
  {
    !Apply(s, e).entry.listed || Apply(s, e).at[e.thread] == Filling
  }

  /** The entry is refilled or freed only when no other thread still refers to it. */
  lemma RecycledOnlyWhenUnreferenced(s: System, e: Event, t: nat)
    requires Reachable(s) && Enabled(s, e) && Recycles(s, e) && t < |s.at| && t != e.thread
    ensures s.at[t] == Away
  {
    ReachableInv(s);
    var rest := s.at[e.thread := Away];
    CountMove(s.at, e.thread, Away);
    RecycledAlone(s.entry, Count(s.at), e.op);
    NobodyCounted(rest);
    assert rest[t] == s.at[t];
  }

  lemma RecycledAlone(e: Entry, n: Population, op: Op)
    requires Consistent(e, n) && Guard(e, op) && (From(op) == Away || n.Of(From(op)) > 0)
    requires !After(e, op).listed || To(e, op) == Filling
    ensures n.Minus(From(op)).Total() == 0
  {
  }

  /** `esync` is signalled exactly once per error synchronisation, by the last woken thread: the step
      that signals is the first to do so and leaves only the evicting thread, and when the evicting
      thread goes on there has been one signal and no token is left over. */
  lemma ErrorSyncSignalledOnce(s: System, e: Event)
    requires Reachable(s) && Enabled(s, e)
    ensures After(s.entry, e.op).signals > s.entry.signals ==>
              && e.op == GiveUp && After(s.entry, e.op).signals == 1
              && Count(Apply(s, e).at) == NOBODY.(errorWait := 1)
    ensures e.op == PassError ==> s.entry.signals == 1 && s.entry.esync == 1
    ensures e.op == Refill ==> s.entry.signals == 1 && s.entry.esync == 0
  {
    ReachableInv(s);
    CountMove(s.at, e.thread, To(s.entry, e.op));
    SignalledOnce(s.entry, Count(s.at), e.op);
  }

  lemma SignalledOnce(e: Entry, n: Population, op: Op)
    requires Consistent(e, n) && Guard(e, op) && (From(op) == Away || n.Of(From(op)) > 0)
    ensures After(e, op).signals > e.signals ==>
              && op == GiveUp && After(e, op).signals == 1
              && n.Minus(From(op)).Plus(To(e, op)) == NOBODY.(errorWait := 1)
    ensures op == PassError ==> e.signals == 1 && e.esync == 1
    ensures op == Refill ==> e.signals == 1 && e.esync == 0
  {
  }

  const NOBODY := Population(0, 0, 0, 0, 0, 0, 0, 0)

  // ---------- what was written is saved ----------

  /** The entry has been marked dirty and not been written back since. */
  ghost predicate Unsaved(e: Entry, n: Population) {
    e.listed && e.dirty && (e.ready || n.writing > 0)
  }

  lemma UnsavedStep(e: Entry, n: Population, op: Op)
    requires Consistent(e, n) && Guard(e, op) && (From(op) == Away || n.Of(From(op)) > 0)
    requires Unsaved(e, n) && op != WriteDone
    ensures After(e, op).listed && To(e, op) != Filling
    ensures Unsaved(After(e, op), n.Minus(From(op)).Plus(To(e, op)))
  {
  }

  /** Some step of the run hands the entry to a new key or frees it. */
  ghost predicate RecycledIn(s: System, es: seq<Event>)
    requires PROTOCOL.Feasible(s, es)
    decreases |es|
  {
    es != [] && (Recycles(s, es[0]) || RecycledIn(Apply(s, es[0]), es[1..]))
  }

  ghost predicate WrittenIn(es: seq<Event>) {
    exists e :: e in es && e.op == WriteDone
  }

  lemma {:induction false} UnsavedUntilWritten(s: System, es: seq<Event>)
    requires Inv(s) && Unsaved(s.entry, Count(s.at)) && PROTOCOL.Feasible(s, es) && !WrittenIn(es)
    ensures !RecycledIn(s, es)
    decreases |es|
  {
    if es != [] {
      assert es[0] in es;
      CountMove(s.at, es[0].thread, To(s.entry, es[0].op));
      UnsavedStep(s.entry, Count(s.at), es[0].op);
      InvStep(s, es[0]);
      UnsavedUntilWritten(Apply(s, es[0]), es[1..]);
    }
  }

  lemma MarkedUnsaved(e: Entry, n: Population)
    requires Consistent(e, n) && n.holding > 0
    ensures Unsaved(After(e, MarkDirty), n.Minus(Holding).Plus(Holding))
  {
  }

  /** What is written to an entry is not thrown away: in every run that follows a MarkDirty, the entry is refilled or
      freed only once a write-back has succeeded, be it in that very step. */
  lemma WrittenBeforeRecycled(s: System, t: nat, es: seq<Event>)
    requires Reachable(s) && Enabled(s, Event(t, MarkDirty))
    requires PROTOCOL.Feasible(Apply(s, Event(t, MarkDirty)), es) && RecycledIn(Apply(s, Event(t, MarkDirty)), es)
    ensures WrittenIn(es)
  {
    ReachableInv(s);
    InvStep(s, Event(t, MarkDirty));
    CountMove(s.at, t, Holding);
    MarkedUnsaved(s.entry, Count(s.at));
    if !WrittenIn(es) {
      UnsavedUntilWritten(Apply(s, Event(t, MarkDirty)), es);
    }
  }

  lemma CleanStep(e: Entry, op: Op)
    requires !e.dirty && Guard(e, op) && op != MarkDirty
    ensures !After(e, op).dirty && op != EvictDirty
  {
  }

  lemma {:induction false} CleanUntilMarked(s: System, es: seq<Event>)
    requires !s.entry.dirty && PROTOCOL.Feasible(s, es) && forall e :: e in es ==> e.op != MarkDirty
    ensures forall e :: e in es ==> e.op != EvictDirty
    decreases |es|
  {
    if es != [] {
      assert es[0] in es;
      CleanStep(s.entry, es[0].op);
      CleanUntilMarked(Apply(s, es[0]), es[1..]);
    }
  }

  /** And only what was written to is written back: after a refill nothing is evicted as dirty unless it has been marked
      since. */
  lemma WrittenBackOnlyIfMarked(s: System, e: Event, es: seq<Event>)
    requires Enabled(s, e) && Apply(s, e).at[e.thread] == Filling
    requires PROTOCOL.Feasible(Apply(s, e), es) && exists f :: f in es && f.op == EvictDirty
    ensures exists f :: f in es && f.op == MarkDirty
  {
    if forall f :: f in es ==> f.op != MarkDirty {
      CleanUntilMarked(Apply(s, e), es);
    }
  }

  // ---------- what is used has been read ----------

  /** No block has been read since the entry was given its key. */
  ghost predicate Unread(e: Entry, n: Population) {
    n.writing == 0 && n.holding == 0 && (e.listed ==> !e.ready)
  }

  lemma UnreadStep(e: Entry, n: Population, op: Op)
    requires Consistent(e, n) && Guard(e, op) && (From(op) == Away || n.Of(From(op)) > 0)
    requires Unread(e, n) || To(e, op) == Filling
    requires op != ReadDone
    ensures Unread(After(e, op), n.Minus(From(op)).Plus(To(e, op)))
  {
  }

  lemma UnreadApply(s: System, e: Event)
    requires Inv(s) && Enabled(s, e) && e.op != ReadDone
    requires Unread(s.entry, Count(s.at)) || To(s.entry, e.op) == Filling
    ensures Unread(Apply(s, e).entry, Count(Apply(s, e).at))
  {
    CountMove(s.at, e.thread, To(s.entry, e.op));
    UnreadStep(s.entry, Count(s.at), e.op);
  }

  ghost const UNREAD := (s: System) => Inv(s) && Unread(s.entry, Count(s.at))
  const READS := (e: Event) => e.op == ReadDone

  lemma UnreadUntilRead()
    ensures PROTOCOL.KeepsBut(UNREAD, READS)
  {
    forall s, e | UNREAD(s) && Enabled(s, e) && e.op != ReadDone
      ensures UNREAD(Apply(s, e))
    {
      InvStep(s, e);
      UnreadApply(s, e);
    }
  }

  /** Nobody gets a block that has not been read: in every run that follows the step in which a thread takes the entry
      for a key, somebody holds the entry only once a read has succeeded. */
  lemma ReadBeforeUse(s: System, e: Event, es: seq<Event>, t: nat)
    requires Reachable(s) && Enabled(s, e) && To(s.entry, e.op) == Filling
    requires PROTOCOL.Feasible(Apply(s, e), es)
    requires t < |PROTOCOL.Run(Apply(s, e), es).at| && PROTOCOL.Run(Apply(s, e), es).at[t] == Holding
    ensures exists f :: f in es && f.op == ReadDone
  {
    ReachableInv(s);
    InvStep(s, e);
    UnreadApply(s, e);
    if forall f :: f in es ==> f.op != ReadDone {
      UnreadUntilRead();
      PROTOCOL.InvariantBut(UNREAD, READS, Apply(s, e), es);
      CountMove(PROTOCOL.Run(Apply(s, e), es).at, t, Away);
    }
  }

  // ---------- nobody waits for ever ----------

  /** Steps other than the arrival of a new call. */
  predicate Draining(e: Event) {
    From(e.op) != Away && e.op != MarkDirty
  }

  ghost predicate CanDrain(s: System) {
    exists e :: Draining(e) && Enabled(s, e)
  }

  function Work(n: Population): nat {
    n.failing + n.holding + 2 * (n.woken + n.filling) + 3 * (n.syncWait + n.errorDone)
    + 4 * n.errorWait + 5 * n.writing
  }

  /** The phase of a thread that can move. */
  function Movable(e: Entry, n: Population): Phase {
    if n.woken > 0 then Woken else if n.failing > 0 then Failing
    else if n.holding > 0 then Holding else if n.filling > 0 then Filling
    else if n.writing > 0 then Writing else if n.errorDone > 0 then ErrorDone
    else if e.sync > 0 then SyncWait else ErrorWait
  }

  function Move(p: Phase): Op {
    match p
    case Woken => TestReady
    case Failing => GiveUp
    case Holding => Unlock
    case Filling => ReadDone
    case Writing => WriteDone
    case ErrorDone => Refill
    case SyncWait => PassSync
    case ErrorWait => PassError
    case Away => Claim
  }

  lemma SomebodyCanMove(s: System)
    requires Inv(s)
    ensures CanDrain(s) <==> exists t: nat :: t < |s.at| && s.at[t] != Away
  {
    NobodyCounted(s.at);
    if Count(s.at).Total() > 0 {
      var p := Movable(s.entry, Count(s.at));
      var u := CountWitness(s.at, p);
      var e := Event(u, Move(p));
      assert Draining(e) && Enabled(s, e);
    }
  }

  /** The handshake never gets stuck: whenever some thread is in it, some thread in it can move. */
  lemma Progress(s: System)
    requires Reachable(s)
    ensures CanDrain(s) <==> exists t: nat :: t < |s.at| && s.at[t] != Away
  {
    ReachableInv(s);
    SomebodyCanMove(s);
  }

  lemma WorkDecreases(e: Entry, n: Population, op: Op)
    requires n.Of(From(op)) > 0 && From(op) != Away && op != MarkDirty
    ensures Work(n.Minus(From(op)).Plus(To(e, op))) < Work(n)
  {
  }

  const DRAINING := (e: Event) => Draining(e)
  const WORK := (s: System) => Work(Count(s.at))

  lemma EveryDrainStepWorks()
    ensures PROTOCOL.Drains(INV, DRAINING, WORK)
  {
    forall s, e | Inv(s) && Enabled(s, e) && Draining(e)
      ensures WORK(Apply(s, e)) < WORK(s)
    {
      CountMove(s.at, e.thread, To(s.entry, e.op));
      WorkDecreases(s.entry, Count(s.at), e.op);
    }
  }

  /** Without new arrivals every thread leaves the handshake, whatever the disk does: a run has at
      most Work steps, and when it cannot go on (Progress) nobody is left in it. */
  lemma EverybodyLeaves(s: System, es: seq<Event>)
    requires Reachable(s) && PROTOCOL.Feasible(s, es) && forall e :: e in es ==> Draining(e)
    ensures |es| + WORK(PROTOCOL.Run(s, es)) <= WORK(s)
    ensures !CanDrain(PROTOCOL.Run(s, es)) ==>
              forall t: nat :: t < |PROTOCOL.Run(s, es).at| ==> PROTOCOL.Run(s, es).at[t] == Away
  {
    ReachableInv(s);
    EveryStepKeepsInv();
    EveryDrainStepWorks();
    PROTOCOL.Bounded(INV, DRAINING, WORK, s, es);
    PROTOCOL.ReachesRun(FIRST, s, es);
    Progress(PROTOCOL.Run(s, es));
  }
}
