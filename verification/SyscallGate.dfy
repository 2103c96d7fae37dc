/** The gate in front of the file system calls (rtos/fs/fs.h): calls count themselves in and out, and the shutdown
    closes the gate and waits for the last one to leave.

    Class SyscallGate is the code.  The gate is then run by any number of threads and one shutdown, in steps cut by
    fssysmutex: the signal of the last leaver comes after its mutex section, as a step of its own. */
module SyscallGates {
  import opened Machines

  datatype Stage = Starting | Open | Closed

  datatype Gate = Gate(stage: Stage, counter: int, sync: nat)
  {
    function Enter(): Gate {
      if stage != Open then this else this.(counter := counter + 1)
    }

    function Release(): Gate {
      this.(counter := counter - 1)
    }

    function Reacquire(): Gate {
      if stage == Closed then this else this.(counter := counter + 1)
    }

    /** The thread that leaves last through a closed gate has to signal. */
    predicate LastLeaves() {
      stage == Closed && counter == 1
    }

    function Signal(): Gate {
      this.(sync := sync + 1)
    }
  }

  /** The code, one method for each section under the mutex. */
  class SyscallGate {
    var fssysstate: int
    var fssyscounter: int
    var fssyssync: nat

    ghost predicate Valid()
      reads this
    {
      -1 <= fssysstate <= 1
    }

    function State(): Gate
      reads this
    {
      Gate(if fssysstate == -1 then Starting else if fssysstate == 0 then Open else Closed, fssyscounter, fssyssync)
    }

    constructor ()
      ensures Valid() && State() == Gate(Starting, 0, 0)
    {
      fssysstate, fssyscounter, fssyssync := -1, 0, 0;
    }

    method CallToFs() returns (ret: int)
      requires Valid()
      modifies this
      ensures Valid() && State() == old(State()).Enter()
      ensures ret == if old(fssysstate) == 0 then 0 else -1
      ensures fssyscounter == if ret == 0 then old(fssyscounter) + 1 else old(fssyscounter)
      ensures fssysstate == old(fssysstate) && fssyssync == old(fssyssync)
    {
      if fssysstate != 0 { return -1; }
      fssyscounter := fssyscounter + 1;
      return 0;
    }

    method ReleaseSysCall()
      requires Valid()
      modifies this
      ensures Valid() && State() == old(State()).Release()
    {
      fssyscounter := fssyscounter - 1;
    }

    method ReacquireSysCall() returns (ret: int)
      requires Valid()
      modifies this
      ensures Valid() && State() == old(State()).Reacquire()
      ensures ret == if old(fssysstate) == 1 then -1 else 0
      ensures fssyscounter == if ret == 0 then old(fssyscounter) + 1 else old(fssyscounter)
      ensures fssysstate == old(fssysstate) && fssyssync == old(fssyssync)
    {
      ret := 0;
      if fssysstate == 1 {
        ret := -1;
      } else {
        fssyscounter := fssyscounter + 1;
      }
    }

    /** The mutex section of __return_from_fs; when it returns true the caller signals next. */
    method ReturnFromFs() returns (signal: bool)
      requires Valid()
      modifies this
      ensures Valid() && State() == old(State()).Release()
      ensures signal == old(State()).LastLeaves()
      ensures signal <==> fssysstate == 1 && fssyscounter == 0
    {
      fssyscounter := fssyscounter - 1;
      if fssysstate == 1 {
        if fssyscounter == 0 { return true; }
      }
      return false;
    }

    method SignalSync()
      requires Valid()
      modifies `fssyssync
      ensures Valid() && State() == old(State()).Signal()
    {
      fssyssync := fssyssync + 1;
    }

    /** The mutex section of block_all_fs_calls; when it returns true the shutdown waits next. */
    method BlockAllFsCalls() returns (wait: bool)
      requires Valid()
      modifies this
      ensures Valid() && State() == old(State()).(stage := Closed)
      ensures wait <==> old(State()).counter > 0
    {
      fssysstate := 1;
      wait := fssyscounter > 0;
    }
  }

  // ---------- any number of threads and one shutdown ----------

  /** A released call is waiting for input; it has counted itself out and will try to count itself in again. */
  datatype Phase = Outside | InCall | Released | Signalling

  datatype Shutdown = Idle | Waiting | Finished | GaveUp

  /** `signals` counts the signals sent; `last` tells how the call left that emptied the closed gate. */
  datatype Leaver = Nobody | ByReturn | ByRelease

  datatype System = System(gate: Gate, at: seq<Phase>, shutdown: Shutdown, signals: nat, last: Leaver)

  datatype Event =
    | Permit
    | Call(t: nat)
    | Release(t: nat)
    | Reacquire(t: nat)
    | Return(t: nat)
    | Signal(t: nat)
    | Block
    | Poll
    | TimeOut

  function Initial(threads: nat): System {
    System(Gate(Starting, 0, 0), seq(threads, _ => Outside), Idle, 0, Nobody)
  }

  predicate At(s: System, t: nat, p: Phase) {
    t < |s.at| && s.at[t] == p
  }

  /** permit_all_fs_calls and block_all_fs_calls are called once each, in this order. */
  predicate Enabled(s: System, e: Event) {
    match e
    case Permit => s.gate.stage == Starting
    case Call(t) => At(s, t, Outside)
    case Release(t) => At(s, t, InCall)
    case Reacquire(t) => At(s, t, Released)
    case Return(t) => At(s, t, InCall)
    case Signal(t) => At(s, t, Signalling)
    case Block => s.shutdown == Idle && s.gate.stage == Open
    case Poll => s.shutdown == Waiting && s.gate.sync > 0
    case TimeOut => s.shutdown == Waiting
  }

  function Apply(s: System, e: Event): System {
    if !Enabled(s, e) then s
    else
      match e
      case Permit => s.(gate := s.gate.(stage := Open))
      case Call(t) =>
        s.(gate := s.gate.Enter(), at := s.at[t := if s.gate.stage == Open then InCall else Outside])
      case Release(t) =>
        s.(gate := s.gate.Release(), at := s.at[t := Released],
           last := if s.gate.LastLeaves() then ByRelease else s.last)
      case Reacquire(t) =>
        s.(gate := s.gate.Reacquire(), at := s.at[t := if s.gate.stage == Closed then Outside else InCall])
      case Return(t) =>
        s.(gate := s.gate.Release(), at := s.at[t := if s.gate.LastLeaves() then Signalling else Outside],
           last := if s.gate.LastLeaves() then ByReturn else s.last)
      case Signal(t) => s.(gate := s.gate.Signal(), at := s.at[t := Outside], signals := s.signals + 1)
      case Block =>
        s.(gate := s.gate.(stage := Closed), shutdown := if s.gate.counter > 0 then Waiting else Finished)
      case Poll => s.(gate := s.gate.(sync := s.gate.sync - 1), shutdown := Finished)
      case TimeOut => s.(shutdown := GaveUp)
  }

  const PROTOCOL := Machine((s: System, e: Event) => Enabled(s, e), (s: System, e: Event) => Apply(s, e))

  function Number(s: System, p: Phase): nat {
    multiset(s.at)[p]
  }

  /** The tokens, the signals sent and about to be sent account for a return that emptied the closed gate. */
  ghost predicate Inv(s: System) {
    && s.gate.counter == Number(s, InCall)
    && (s.gate.stage == Starting ==> s.gate.counter == 0 && Number(s, Released) == 0)
    && s.signals + Number(s, Signalling) == (if s.last == ByReturn then 1 else 0)
    && s.gate.sync + (if s.shutdown == Finished && s.last != Nobody then 1 else 0) >= s.signals
    && s.gate.sync <= s.signals
    && (s.last != Nobody ==> s.gate.stage == Closed && s.gate.counter == 0 && s.shutdown != Idle)
    && (s.shutdown == Idle <==> s.gate.stage != Closed)
    && (s.shutdown == Waiting && s.gate.counter == 0 ==> s.last != Nobody)
    && (s.shutdown == Finished ==> s.gate.counter == 0 && s.last != ByRelease)
    && (s.shutdown == Waiting ==> s.gate.sync == s.signals)
  }

  lemma CallInv(s: System, t: nat)
    requires Inv(s) && Enabled(s, Call(t))
    ensures Inv(Apply(s, Call(t)))
  {
    if s.gate.stage == Open {
      MovedAll(s.at, t, InCall);
    } else {
      assert s.at[t := Outside] == s.at;
    }
  }

  lemma ReturnInv(s: System, t: nat)
    requires Inv(s) && Enabled(s, Return(t))
    ensures Inv(Apply(s, Return(t)))
  {
    MovedAll(s.at, t, if s.gate.LastLeaves() then Signalling else Outside);
  }

  lemma InvStep(s: System, e: Event)
    requires Inv(s) && Enabled(s, e)
    ensures Inv(Apply(s, e))
  {
    match e
    case Permit =>
    case Call(t) => CallInv(s, t);
    case Release(t) => MovedAll(s.at, t, Released);
    case Reacquire(t) => MovedAll(s.at, t, if s.gate.stage == Closed then Outside else InCall);
    case Return(t) => ReturnInv(s, t);
    case Signal(t) => MovedAll(s.at, t, Outside);
    case Block =>
    case Poll =>
    case TimeOut =>
  }

  ghost const INV := (s: System) => Inv(s)

  lemma ReachableInv(threads: nat, es: seq<Event>)
    requires PROTOCOL.Feasible(Initial(threads), es)
    ensures Inv(PROTOCOL.Run(Initial(threads), es))
  {
    AllAlike(Initial(threads).at, Outside, InCall);
    AllAlike(Initial(threads).at, Outside, Released);
    AllAlike(Initial(threads).at, Outside, Signalling);
    forall s, e | INV(s) && PROTOCOL.enabled(s, e) ensures INV(PROTOCOL.apply(s, e)) {
      InvStep(s, e);
    }
    PROTOCOL.Invariant(INV, Initial(threads), es);
  }

  /** The counter is the number of calls in progress that are not released; the last leaver signals at most once; and
      a shutdown that has finished without a timeout leaves no call in progress behind a closed gate. */
  lemma CountsCalls(threads: nat, es: seq<Event>)
    requires PROTOCOL.Feasible(Initial(threads), es)
    ensures var s := PROTOCOL.Run(Initial(threads), es);
            && s.gate.counter == Number(s, InCall)
            && s.signals <= 1
            && (s.shutdown == Finished ==> s.gate.stage == Closed && Number(s, InCall) == 0)
  {
    ReachableInv(threads, es);
  }

  /** Before the gate is opened for the first time nobody is inside. */
  lemma NobodyBeforeTheStart(threads: nat, es: seq<Event>)
    requires PROTOCOL.Feasible(Initial(threads), es)
    ensures var s := PROTOCOL.Run(Initial(threads), es);
            s.gate.stage == Starting ==> s.gate.counter == 0 && forall t: nat :: t < |s.at| ==> s.at[t] == Outside
  {
    ReachableInv(threads, es);
    var s := PROTOCOL.Run(Initial(threads), es);
    forall t: nat | s.gate.stage == Starting && t < |s.at| ensures s.at[t] == Outside {
      assert s.at[t] in multiset(s.at);
    }
  }

  // ---------- a closed gate ----------

  /** Once the gate is closed the calls in progress only get fewer. */
  lemma ClosedStep(s: System, e: Event)
    requires Inv(s) && Enabled(s, e) && s.gate.stage == Closed
    ensures Apply(s, e).gate.stage == Closed && Apply(s, e).gate.counter <= s.gate.counter
    ensures forall t: nat :: At(Apply(s, e), t, InCall) ==> At(s, t, InCall)
  {
  }

  lemma {:induction false} ClosedForEver(s: System, es: seq<Event>)
    requires Inv(s) && PROTOCOL.Feasible(s, es) && s.gate.stage == Closed
    ensures var s' := PROTOCOL.Run(s, es);
            s'.gate.stage == Closed && s'.gate.counter <= s.gate.counter
            && forall t: nat :: At(s', t, InCall) ==> At(s, t, InCall)
    decreases |es|
  {
    if es != [] {
      InvStep(s, es[0]);
      ClosedStep(s, es[0]);
      ClosedForEver(Apply(s, es[0]), es[1..]);
    }
  }

  /** After a shutdown that did not time out, no call is ever in progress again. */
  lemma NoCallAfterShutdown(s: System, es: seq<Event>)
    requires Inv(s) && PROTOCOL.Feasible(s, es) && s.shutdown == Finished
    ensures forall t: nat :: !At(PROTOCOL.Run(s, es), t, InCall)
  {
    ClosedForEver(s, es);
    forall t: nat ensures !At(s, t, InCall) {
      if t < |s.at| {
        assert s.at[t] in s.at;
      }
    }
  }

  // ---------- the wakeup of the shutdown ----------

  /** The shutdown can finish, now or after the signal under way. */
  ghost predicate Awaited(s: System) {
    s.gate.sync > 0 || Number(s, Signalling) > 0
  }

  /** A shutdown waiting in front of an empty gate is going to be woken exactly when the last call left through
      __return_from_fs, and has lost its wakeup exactly when it left through release_sys_call. */
  lemma WokenExactly(s: System)
    requires Inv(s) && s.shutdown == Waiting && s.gate.counter == 0
    ensures Awaited(s) <==> s.last == ByReturn
    ensures !Awaited(s) <==> s.last == ByRelease
  {
  }

  /** A wakeup that is not lost needs at most the signal under way and one more poll. */
  lemma Wakes(s: System) returns (es: seq<Event>)
    requires Inv(s) && s.shutdown == Waiting && Awaited(s)
    ensures |es| <= 2 && PROTOCOL.Feasible(s, es) && PROTOCOL.Run(s, es).shutdown == Finished
  {
    if s.gate.sync > 0 {
      es := [Poll];
      PROTOCOL.Cons(s, Poll, []);
    } else {
      assert Signalling in multiset(s.at);
      var t :| 0 <= t < |s.at| && s.at[t] == Signalling;
      var s1 := Apply(s, Signal(t));
      PROTOCOL.Cons(s1, Poll, []);
      PROTOCOL.Cons(s, Signal(t), [Poll]);
      es := [Signal(t)] + [Poll];
    }
  }

  /** A lost wakeup stays lost: the shutdown ends by its timeout or not at all. */
  lemma {:induction false} LostForEver(s: System, es: seq<Event>)
    requires Inv(s) && s.shutdown == Waiting && s.gate.counter == 0 && s.last == ByRelease
    requires PROTOCOL.Feasible(s, es)
    ensures PROTOCOL.Run(s, es).shutdown == if TimeOut in es then GaveUp else Waiting
    decreases |es|
  {
    if es != [] {
      InvStep(s, es[0]);
      assert es == [es[0]] + es[1..];
      var s1 := Apply(s, es[0]);
      if es[0] == TimeOut {
        GaveUpForEver(s1, es[1..]);
      } else {
        assert s1.last == ByRelease && s1.shutdown == Waiting;
        LostForEver(s1, es[1..]);
      }
    }
  }

  lemma {:induction false} GaveUpForEver(s: System, es: seq<Event>)
    requires Inv(s) && s.shutdown == GaveUp && PROTOCOL.Feasible(s, es)
    ensures PROTOCOL.Run(s, es).shutdown == GaveUp
    decreases |es|
  {
    if es != [] {
      InvStep(s, es[0]);
      GaveUpForEver(Apply(s, es[0]), es[1..]);
    }
  }

  /** It does happen: a call waits for input while the gate closes. */
  lemma WakeupCanBeLost()
    ensures var es := [Permit, Call(0), Block, Release(0)];
            && PROTOCOL.Feasible(Initial(1), es)
            && var s := PROTOCOL.Run(Initial(1), es);
               s.shutdown == Waiting && s.gate.counter == 0 && !Awaited(s)
  {
    var s0 := Initial(1);
    assert s0.at == [Outside];
    var s1 := Apply(s0, Permit);
    var s2 := Apply(s1, Call(0));
    var s3 := Apply(s2, Block);
    var s4 := Apply(s3, Release(0));
    assert s4.at == [Released];
    PROTOCOL.Cons(s3, Release(0), []);
    PROTOCOL.Cons(s2, Block, [Release(0)]);
    PROTOCOL.Cons(s1, Call(0), [Block, Release(0)]);
    PROTOCOL.Cons(s0, Permit, [Call(0), Block, Release(0)]);
    assert [Permit] + ([Call(0)] + ([Block] + [Release(0)])) == [Permit, Call(0), Block, Release(0)];
  }
}
