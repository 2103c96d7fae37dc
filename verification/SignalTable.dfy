/** Queued signals (rtos/kernel/signal.c) and per-process timers (rtos/kernel/time.c) share one table of
    signal entries.  An entry is on the free list, queued for one signal, or set aside for a timer; a
    timer that fires pushes its own entry on the free list so that the queueing routine pops it.

    A signal set is modelled as the set of its members.  The value a signal carries, its code and the
    sending task make up its Info. */
module SignalTables {
  import opened IndexLists
  import opened Machines

  datatype Code = SI_USER | SI_QUEUE | SI_TIMER

  datatype Info = Info(signo: int, code: Code, value: int, task: int)

  datatype Handler = Default | Ignore | Error | Function

  datatype Action = Action(siginfo: bool, handler: Handler, mask: set<int>)

  datatype Answer = OK | EINVAL | EAGAIN

  datatype Notify = SIGEV_SIGNAL | SIGEV_THREAD | SIGEV_NONE

  const DELAYTIMER_MAX: nat := 32

  /** `missed` is a history variable: the fires since the last post that found it still pending. */
  datatype Timer = Timer(used: bool, notify: Notify, signo: int, value: int, entry: int, overrun: nat,
                         missed: nat)
  {
    /** The timer owns a signal entry. */
    predicate Owns() {
      used && notify == SIGEV_SIGNAL
    }
  }

  datatype Flags = Flags(usedForTimer: bool, posted: bool)

  datatype Place = OnFree | Queued(signo: int) | WithTimer

  /** `place` and `holder` record where each entry is and which timer, if any, owns it; they are
      bookkeeping for the invariant and no operation depends on them. */
  datatype State = State(free: seq<int>, queues: seq<seq<int>>, flags: seq<Flags>, infos: seq<Info>,
                         pending: set<int>, timers: seq<Timer>, place: seq<Place>, holder: seq<int>)

  // ---------- the invariant ----------

  ghost predicate Shape(st: State) {
    && |st.flags| == |st.infos| == |st.place| == |st.holder|
    && InRange(st.free, |st.flags|) && Distinct(st.free)
    && (forall s :: 0 <= s < |st.queues| ==> InRange(st.queues[s], |st.flags|) && Distinct(st.queues[s]))
  }

  /** Entry i is on the list its place names, and on no other. */
  ghost predicate Placed(st: State, i: int)
    requires Shape(st) && 0 <= i < |st.flags|
  {
    && (i in st.free <==> st.place[i] == OnFree)
    && (forall s :: 0 <= s < |st.queues| ==> (i in st.queues[s] <==> st.place[i] == Queued(s)))
  }

  /** The lists are disjoint: all that the linking and unlinking of entries relies on. */
  ghost predicate ListsOk(st: State) {
    Shape(st) && forall i :: 0 <= i < |st.flags| ==> Placed(st, i)
  }

  /** The flags of entry i say whether a timer owns it and has posted it. */
  ghost predicate EntryOk(st: State, i: int)
    requires Shape(st) && 0 <= i < |st.flags|
  {
    && (st.flags[i].usedForTimer <==> st.holder[i] != NIL)
    && (st.holder[i] != NIL ==>
          0 <= st.holder[i] < |st.timers| && st.timers[st.holder[i]].Owns() && st.timers[st.holder[i]].entry == i)
    && match st.place[i]
       case OnFree => st.flags[i] == Flags(false, false)
       case WithTimer => st.flags[i] == Flags(true, false)
       case Queued(s) =>
         0 <= s < |st.queues| && st.infos[i].signo == s && st.flags[i].posted == st.flags[i].usedForTimer
  }

  /** The overrun count is the number of missed fires, up to its limit. */
  predicate Saturated(timer: Timer) {
    timer.overrun == if timer.missed < DELAYTIMER_MAX then timer.missed else DELAYTIMER_MAX
  }

  ghost predicate TimerOk(st: State, t: int)
    requires Shape(st) && 0 <= t < |st.timers|
  {
    && (st.timers[t].Owns() ==> 0 <= st.timers[t].entry < |st.flags| && st.holder[st.timers[t].entry] == t)
    && Saturated(st.timers[t])
  }

  ghost predicate Inv(st: State) {
    && ListsOk(st)
    && (forall i :: 0 <= i < |st.flags| ==> EntryOk(st, i))
    && (forall t :: 0 <= t < |st.timers| ==> TimerOk(st, t))
    && (forall s :: 0 <= s < |st.queues| && st.queues[s] != [] ==> s in st.pending)
  }

  // ---------- what the operations compute ----------

  predicate Ignored(actions: seq<Action>, signo: int)
    requires 0 <= signo < |actions|
  {
    !actions[signo].siginfo && actions[signo].handler == Ignore
  }

  /** The guards of sigqueue_internal in front of the free-list test. */
  predicate Accepts(st: State, actions: seq<Action>, signo: int)
    requires |actions| == |st.queues|
  {
    && 0 < signo < |st.queues|
    && !Ignored(actions, signo)
    && (actions[signo].siginfo || signo !in st.pending)
  }

  function Enqueue(st: State, info: Info): State
    requires st.free != [] && InRange(st.free, |st.infos|) && |st.infos| == |st.place|
    requires 0 <= info.signo < |st.queues|
  {
    var i, s := st.free[0], info.signo;
    st.(free := st.free[1..], queues := st.queues[s := st.queues[s] + [i]], infos := st.infos[i := info],
        pending := st.pending + {s}, place := st.place[i := Queued(s)])
  }

  function SigQueue(st: State, actions: seq<Action>, info: Info): (State, Answer)
    requires |actions| == |st.queues| && InRange(st.free, |st.infos|) && |st.infos| == |st.place|
  {
    if info.signo == 0 then (st, OK)
    else if info.signo < 0 || info.signo >= |st.queues| then (st, EINVAL)
    else if !Accepts(st, actions, info.signo) then (st, OK)
    else if st.free == [] then (st, EAGAIN)
    else (Enqueue(st, info), OK)
  }

  /** What happens to an entry taken off a queue: a timer gets it back, others go to the free list. */
  function Recycle(st: State, i: int): State
    requires 0 <= i < |st.flags| == |st.place|
  {
    if st.flags[i].usedForTimer then
      st.(flags := st.flags[i := st.flags[i].(posted := false)], place := st.place[i := WithTimer])
    else
      st.(free := [i] + st.free, place := st.place[i := OnFree])
  }

  function Dequeue(st: State, s: int): State
    requires 0 <= s < |st.queues| && st.queues[s] != []
    requires 0 <= st.queues[s][0] < |st.flags| == |st.place|
  {
    var rest := st.queues[s][1..];
    Recycle(st.(queues := st.queues[s := rest], pending := if rest == [] then st.pending - {s} else st.pending),
            st.queues[s][0])
  }

  function CreateTimer(st: State, t: int, notify: Notify, signo: int, value: int): State
    requires 0 <= t < |st.timers| && st.free != []
    requires 0 <= st.free[0] < |st.flags| == |st.place| == |st.holder|
  {
    var i := st.free[0];
    if notify != SIGEV_SIGNAL then
      st.(timers := st.timers[t := Timer(true, notify, signo, value, st.timers[t].entry, 0, 0)])
    else
      st.(timers := st.timers[t := Timer(true, notify, signo, value, i, 0, 0)], free := st.free[1..],
          flags := st.flags[i := st.flags[i].(usedForTimer := true)],
          place := st.place[i := WithTimer], holder := st.holder[i := t])
  }

  function DeleteTimer(st: State, t: int): State
    requires 0 <= t < |st.timers|
    requires st.timers[t].Owns() ==> 0 <= st.timers[t].entry < |st.flags| == |st.place| == |st.holder|
  {
    var i := st.timers[t].entry;
    var st' := st.(timers := st.timers[t := st.timers[t].(used := false)]);
    if !st.timers[t].Owns() then st'
    else
      var st'' := st'.(flags := st.flags[i := Flags(false, false)], holder := st.holder[i := NIL]);
      if st.flags[i].posted then st''
      else st''.(free := [i] + st.free, place := st.place[i := OnFree])
  }

  /** A timer whose entry is not pending: push the entry, queue the signal, mark it posted. */
  function Post(st: State, actions: seq<Action>, t: int, task: int): State
    requires |actions| == |st.queues| && 0 <= t < |st.timers|
    requires InRange(st.free, |st.infos|) && |st.infos| == |st.place| == |st.flags|
    requires 0 <= st.timers[t].entry < |st.flags|
  {
    var timer := st.timers[t];
    var i := timer.entry;
    var st1 := st.(timers := st.timers[t := timer.(overrun := 0, missed := 0)],
                   free := [i] + st.free, place := st.place[i := OnFree]);
    var st2 := SigQueue(st1, actions, Info(timer.signo, SI_TIMER, timer.value, task)).0;
    st2.(flags := st2.flags[i := st2.flags[i].(posted := true)])
  }

  /** timer_timerfire, apart from rearming, which Clocks covers. */
  function Fire(st: State, actions: seq<Action>, t: int, task: int): State
    requires |actions| == |st.queues| && 0 <= t < |st.timers|
    requires InRange(st.free, |st.infos|) && |st.infos| == |st.place| == |st.flags|
    requires st.timers[t].notify == SIGEV_SIGNAL ==> 0 <= st.timers[t].entry < |st.flags|
  {
    var timer := st.timers[t];
    if timer.notify != SIGEV_SIGNAL then st
    else if st.flags[timer.entry].posted then
      var overrun := if timer.overrun != DELAYTIMER_MAX then timer.overrun + 1 else timer.overrun;
      st.(timers := st.timers[t := timer.(overrun := overrun, missed := timer.missed + 1)])
    else Post(st, actions, t, task)
  }

  // ---------- every operation keeps the lists disjoint ----------

  lemma SameLists(st: State, st': State)
    requires ListsOk(st) && st'.free == st.free && st'.queues == st.queues && st'.place == st.place
    requires |st'.flags| == |st.flags| && |st'.infos| == |st.infos| && |st'.holder| == |st.holder|
    ensures ListsOk(st')
  {
    forall j | 0 <= j < |st.flags| ensures Placed(st', j) {
      assert Placed(st, j);
    }
  }

  lemma PushLists(st: State, i: int)
    requires ListsOk(st) && 0 <= i < |st.flags| && st.place[i] == WithTimer
    ensures ListsOk(st.(free := [i] + st.free, place := st.place[i := OnFree]))
  {
    var st' := st.(free := [i] + st.free, place := st.place[i := OnFree]);
    assert Placed(st, i);
    forall j | 0 <= j < |st.flags| ensures Placed(st', j) {
      assert Placed(st, j);
    }
  }

  lemma EnqueueLists(st: State, info: Info)
    requires ListsOk(st) && st.free != [] && 0 <= info.signo < |st.queues|
    ensures ListsOk(Enqueue(st, info))
  {
    var st' := Enqueue(st, info);
    HeadAndTail(st.free, st.free[0]);
    assert Placed(st, st.free[0]);
    forall j | 0 <= j < |st.flags| ensures Placed(st', j) {
      assert Placed(st, j);
      HeadAndTail(st.free, j);
    }
  }

  lemma SigQueueLists(st: State, actions: seq<Action>, info: Info)
    requires ListsOk(st) && |actions| == |st.queues|
    ensures ListsOk(SigQueue(st, actions, info).0)
  {
    if Accepts(st, actions, info.signo) && st.free != [] {
      EnqueueLists(st, info);
    }
  }

  lemma DequeueLists(st: State, s: int)
    requires ListsOk(st) && 0 <= s < |st.queues| && st.queues[s] != []
    ensures ListsOk(Dequeue(st, s))
  {
    var st' := Dequeue(st, s);
    HeadAndTail(st.queues[s], st.queues[s][0]);
    assert Placed(st, st.queues[s][0]);
    forall j | 0 <= j < |st.flags| ensures Placed(st', j) {
      assert Placed(st, j);
      HeadAndTail(st.queues[s], j);
    }
  }

  lemma CreateTimerLists(st: State, t: int, notify: Notify, signo: int, value: int)
    requires ListsOk(st) && 0 <= t < |st.timers| && st.free != []
    ensures ListsOk(CreateTimer(st, t, notify, signo, value))
  {
    var st' := CreateTimer(st, t, notify, signo, value);
    HeadAndTail(st.free, st.free[0]);
    assert Placed(st, st.free[0]);
    forall j | 0 <= j < |st.flags| ensures Placed(st', j) {
      assert Placed(st, j);
      HeadAndTail(st.free, j);
    }
  }

  lemma PostLists(st: State, actions: seq<Action>, t: int, task: int)
    requires ListsOk(st) && |actions| == |st.queues| && 0 <= t < |st.timers|
    requires 0 <= st.timers[t].entry < |st.flags| && st.place[st.timers[t].entry] == WithTimer
    ensures ListsOk(Post(st, actions, t, task))
  {
    var timer := st.timers[t];
    var st1 := st.(timers := st.timers[t := timer.(overrun := 0, missed := 0)],
                   free := [timer.entry] + st.free, place := st.place[timer.entry := OnFree]);
    PushLists(st, timer.entry);
    SameLists(st.(free := [timer.entry] + st.free, place := st.place[timer.entry := OnFree]), st1);
    SigQueueLists(st1, actions, Info(timer.signo, SI_TIMER, timer.value, task));
    var st2 := SigQueue(st1, actions, Info(timer.signo, SI_TIMER, timer.value, task)).0;
    SameLists(st2, Post(st, actions, t, task));
  }

  // ---------- every operation keeps the invariant ----------

  lemma EnqueueInv(st: State, info: Info)
    requires Inv(st) && st.free != [] && 0 <= info.signo < |st.queues|
    ensures Inv(Enqueue(st, info))
  {
    var st' := Enqueue(st, info);
    EnqueueLists(st, info);
    assert EntryOk(st, st.free[0]) && Placed(st, st.free[0]);
    forall j | 0 <= j < |st.flags| ensures EntryOk(st', j) {
      assert EntryOk(st, j);
    }
    forall t | 0 <= t < |st.timers| ensures TimerOk(st', t) {
      assert TimerOk(st, t);
    }
  }

  lemma SigQueueInv(st: State, actions: seq<Action>, info: Info)
    requires Inv(st) && |actions| == |st.queues|
    ensures Inv(SigQueue(st, actions, info).0)
  {
    if Accepts(st, actions, info.signo) && st.free != [] {
      EnqueueInv(st, info);
    }
  }

  lemma DequeueInv(st: State, s: int)
    requires Inv(st) && 0 <= s < |st.queues| && st.queues[s] != []
    ensures Inv(Dequeue(st, s))
  {
    var st' := Dequeue(st, s);
    DequeueLists(st, s);
    assert EntryOk(st, st.queues[s][0]) && Placed(st, st.queues[s][0]);
    forall j | 0 <= j < |st.flags| ensures EntryOk(st', j) {
      assert EntryOk(st, j);
    }
    forall t | 0 <= t < |st.timers| ensures TimerOk(st', t) {
      assert TimerOk(st, t);
    }
  }

  lemma CreateTimerInv(st: State, t: int, notify: Notify, signo: int, value: int)
    requires Inv(st) && 0 <= t < |st.timers| && !st.timers[t].used && st.free != []
    ensures Inv(CreateTimer(st, t, notify, signo, value))
  {
    var st' := CreateTimer(st, t, notify, signo, value);
    CreateTimerLists(st, t, notify, signo, value);
    assert EntryOk(st, st.free[0]) && Placed(st, st.free[0]);
    forall j | 0 <= j < |st.flags| ensures EntryOk(st', j) {
      assert EntryOk(st, j);
    }
    forall u | 0 <= u < |st.timers| ensures TimerOk(st', u) {
      assert TimerOk(st, u);
    }
  }

  /** Deleting a timer gives back an entry that is not pending at once, a pending one on delivery. */
  lemma DeleteTimerInv(st: State, t: int)
    requires Inv(st) && 0 <= t < |st.timers| && st.timers[t].used
    ensures st.timers[t].Owns() ==> 0 <= st.timers[t].entry < |st.flags|
    ensures Inv(DeleteTimer(st, t))
  {
    assert TimerOk(st, t);
    var st' := DeleteTimer(st, t);
    var i := st.timers[t].entry;
    if st.timers[t].Owns() {
      assert EntryOk(st, i) && Placed(st, i);
      if !st.flags[i].posted {
        PushLists(st, i);
        SameLists(st.(free := [i] + st.free, place := st.place[i := OnFree]), st');
      } else {
        SameLists(st, st');
      }
    } else {
      SameLists(st, st');
    }
    forall j | 0 <= j < |st.flags| ensures EntryOk(st', j) {
      assert EntryOk(st, j);
    }
    forall u | 0 <= u < |st.timers| ensures TimerOk(st', u) {
      assert TimerOk(st, u);
    }
  }

  lemma PostInv(st: State, actions: seq<Action>, t: int, task: int)
    requires Inv(st) && |actions| == |st.queues| && 0 <= t < |st.timers| && st.timers[t].Owns()
    requires 0 <= st.timers[t].entry < |st.flags| && !st.flags[st.timers[t].entry].posted
    requires Accepts(st, actions, st.timers[t].signo)
    ensures Inv(Post(st, actions, t, task))
    ensures Post(st, actions, t, task).free == st.free
    ensures Post(st, actions, t, task).queues
         == st.queues[st.timers[t].signo := st.queues[st.timers[t].signo] + [st.timers[t].entry]]
  {
    var i := st.timers[t].entry;
    var st' := Post(st, actions, t, task);
    assert TimerOk(st, t) && EntryOk(st, i);
    PostLists(st, actions, t, task);
    assert ([i] + st.free)[1..] == st.free;
    forall j | 0 <= j < |st.flags| ensures EntryOk(st', j) {
      assert EntryOk(st, j);
    }
    forall u | 0 <= u < |st.timers| ensures TimerOk(st', u) {
      assert TimerOk(st, u);
    }
  }

  /** A fire of a signalling timer keeps the books exactly when its entry is pending already, or the
      signal passes the guards of the queueing routine: it is a valid number other than 0, not
      ignored, and queued with its information or not pending yet. */
  lemma FireKeepsExactly(st: State, actions: seq<Action>, t: int, task: int)
    requires Inv(st) && |actions| == |st.queues| && 0 <= t < |st.timers| && st.timers[t].Owns()
    ensures 0 <= st.timers[t].entry < |st.flags|
    ensures Inv(Fire(st, actions, t, task)) <==>
              st.flags[st.timers[t].entry].posted || Accepts(st, actions, st.timers[t].signo)
  {
    assert TimerOk(st, t);
    var i := st.timers[t].entry;
    var st' := Fire(st, actions, t, task);
    assert EntryOk(st, i);
    if st.flags[i].posted {
      SameLists(st, st');
      forall j | 0 <= j < |st.flags| ensures EntryOk(st', j) {
        assert EntryOk(st, j);
      }
      forall u | 0 <= u < |st.timers| ensures TimerOk(st', u) {
        assert TimerOk(st, u);
      }
    } else if Accepts(st, actions, st.timers[t].signo) {
      PostInv(st, actions, t, task);
    } else {
      PostLists(st, actions, t, task);
      assert st'.free[0] == i && st'.flags[i].posted;
      assert !EntryOk(st', i);
    }
  }

  /** Posting queues exactly the timer's own entry, behind those already queued, and leaves the free list as
      it was: it cannot fail for lack of entries. */
  lemma PostUsesOwnEntry(st: State, actions: seq<Action>, t: int, task: int)
    requires Inv(st) && |actions| == |st.queues| && 0 <= t < |st.timers| && st.timers[t].Owns()
    requires 0 <= st.timers[t].entry < |st.flags| && !st.flags[st.timers[t].entry].posted
    requires Accepts(st, actions, st.timers[t].signo)
    ensures var st' := Fire(st, actions, t, task);
            var timer := st.timers[t];
            && st'.free == st.free
            && st'.queues == st.queues[timer.signo := st.queues[timer.signo] + [timer.entry]]
            && st'.flags[timer.entry].posted && st'.timers[t].overrun == 0
  {
    PostInv(st, actions, t, task);
  }

  /** Otherwise the entry stays on the free list although the timer counts it as posted, and the next timer
      created gets the same entry. */
  lemma RefusedPostLeaksEntry(st: State, actions: seq<Action>, t: int, task: int, u: int, signo: int, value: int)
    requires Inv(st) && |actions| == |st.queues| && 0 <= t < |st.timers| && st.timers[t].Owns()
    requires 0 <= st.timers[t].entry < |st.flags| && !st.flags[st.timers[t].entry].posted
    requires !Accepts(st, actions, st.timers[t].signo)
    requires 0 <= u < |st.timers| && u != t
    ensures var fired := Fire(st, actions, t, task);
            var both := CreateTimer(fired, u, SIGEV_SIGNAL, signo, value);
            both.timers[t].Owns() && both.timers[u].Owns() && both.timers[t].entry == both.timers[u].entry
  {
  }

  // ---------- conservation over whole runs ----------

  /** How often entry i occurs on the queues, respectively as the un-posted reservation of a live timer. */
  ghost function OnQueues(queues: seq<seq<int>>, i: int): nat {
    if queues == [] then 0
    else OnQueues(queues[..|queues| - 1], i) + multiset(queues[|queues| - 1])[i]
  }

  ghost function SetAside(timers: seq<Timer>, flags: seq<Flags>, i: int): nat
    requires 0 <= i < |flags|
  {
    if timers == [] then 0
    else
      var last := timers[|timers| - 1];
      SetAside(timers[..|timers| - 1], flags, i)
      + (if last.Owns() && last.entry == i && !flags[i].posted then 1 else 0)
  }

  lemma {:induction false} OnOneQueue(st: State, k: nat, i: int)
    requires Inv(st) && k <= |st.queues| && 0 <= i < |st.flags|
    ensures OnQueues(st.queues[..k], i)
         == if st.place[i].Queued? && 0 <= st.place[i].signo < k then 1 else 0
  {
    if k > 0 {
      OnOneQueue(st, k - 1, i);
      assert st.queues[..k][..k - 1] == st.queues[..k - 1];
      assert Placed(st, i);
      DistinctOnce(st.queues[k - 1], i);
    }
  }

  lemma {:induction false} AsideOnce(st: State, k: nat, i: int)
    requires Inv(st) && k <= |st.timers| && 0 <= i < |st.flags|
    ensures SetAside(st.timers[..k], st.flags, i)
         == if st.place[i] == WithTimer && 0 <= st.holder[i] < k then 1 else 0
  {
    if k > 0 {
      AsideOnce(st, k - 1, i);
      assert st.timers[..k][..k - 1] == st.timers[..k - 1];
      assert EntryOk(st, i) && TimerOk(st, k - 1);
    }
  }

  /** Every entry is on the free list, on one queue, or set aside for one live timer, and only once. */
  lemma EntriesConserved(st: State, i: int)
    requires Inv(st) && 0 <= i < |st.flags|
    ensures multiset(st.free)[i] + OnQueues(st.queues, i) + SetAside(st.timers, st.flags, i) == 1
  {
    assert Placed(st, i) && EntryOk(st, i);
    DistinctOnce(st.free, i);
    OnOneQueue(st, |st.queues|, i);
    assert st.queues[..|st.queues|] == st.queues;
    AsideOnce(st, |st.timers|, i);
    assert st.timers[..|st.timers|] == st.timers;
  }

  datatype Event =
    | Queueing(info: Info)                                             // sigqueue
    | Killing(signo: int)                                              // kill: pending without an entry
    | Delivering(signo: int)                                           // delivery or sigwait
    | Creating(t: int, notify: Notify, signo: int, value: int)         // timer_create
    | Deleting(t: int)                                                 // timer_delete
    | Firing(t: int, task: int)                                        // timer_timerfire
    | Acting(signo: int, act: Action)                                  // sigaction

  /** kill() of a signal that is not ignored and not pending. */
  function Kill(st: State, signo: int): State {
    st.(pending := st.pending + {signo})
  }

  /** Take the first occurrence of a pending signal. */
  function Deliver(st: State, s: int): State
    requires 0 <= s < |st.queues| && (st.queues[s] != [] ==> 0 <= st.queues[s][0] < |st.flags| == |st.place|)
  {
    if st.queues[s] == [] then st.(pending := st.pending - {s}) else Dequeue(st, s)
  }

  /** The values queued for signal s, first to last. */
  function Waiting(st: State, s: int): seq<Info>
    requires 0 <= s < |st.queues| && InRange(st.queues[s], |st.infos|)
  {
    seq(|st.queues[s]|, k requires 0 <= k < |st.queues[s]| => st.infos[st.queues[s][k]])
  }

  /** What there is to deliver for a pending signal s, first to last: the queued values or, when none is queued,
      the one of a kill(). */
  function Occurrences(st: State, s: int, task: int): seq<Info>
    requires 0 <= s < |st.queues| && InRange(st.queues[s], |st.infos|)
  {
    if st.queues[s] == [] then [Info(s, SI_USER, 0, task)] else Waiting(st, s)
  }

  /** The table of signals and the actions set for them. */
  datatype World = World(st: State, actions: seq<Action>)

  /** sigaction drops what is pending for a signal that is now to be ignored or defaulted. */
  predicate Drops(act: Action) {
    !act.siginfo && (act.handler == Ignore || act.handler == Default)
  }

  /** A fire is accepted by the queueing routine, or its timer's entry is pending already; what is dropped is one
      entry at most, see SignalCode.DropsExactly. */
  ghost predicate Enabled(w: World, e: Event) {
    && ListsOk(w.st) && |w.actions| == |w.st.queues|
    && match e
       case Queueing(_) => true
       case Killing(s) => 0 <= s < |w.st.queues|
       case Delivering(s) => 0 <= s < |w.st.queues| && s in w.st.pending
       case Creating(t, _, _, _) => 0 <= t < |w.st.timers| && !w.st.timers[t].used && w.st.free != []
       case Deleting(t) =>
         && 0 <= t < |w.st.timers| && w.st.timers[t].used
         && (w.st.timers[t].Owns() ==> 0 <= w.st.timers[t].entry < |w.st.flags|)
       case Firing(t, _) =>
         && 0 <= t < |w.st.timers| && w.st.timers[t].used
         && (w.st.timers[t].Owns() ==>
               && 0 <= w.st.timers[t].entry < |w.st.flags|
               && (w.st.flags[w.st.timers[t].entry].posted || Accepts(w.st, w.actions, w.st.timers[t].signo)))
       case Acting(s, act) => 0 <= s < |w.st.queues| && (Drops(act) ==> |w.st.queues[s]| <= 1)
  }

  ghost function Apply(w: World, e: Event): World {
    if !Enabled(w, e) then w
    else
      match e
      case Queueing(info) => w.(st := SigQueue(w.st, w.actions, info).0)
      case Killing(s) => w.(st := Kill(w.st, s))
      case Delivering(s) => w.(st := Deliver(w.st, s))
      case Creating(t, notify, signo, value) => w.(st := CreateTimer(w.st, t, notify, signo, value))
      case Deleting(t) => w.(st := DeleteTimer(w.st, t))
      case Firing(t, task) => w.(st := Fire(w.st, w.actions, t, task))
      case Acting(s, act) => World(if Drops(act) then Deliver(w.st, s) else w.st, w.actions[s := act])
  }

  ghost const PROTOCOL := Machine((w: World, e: Event) => Enabled(w, e), (w: World, e: Event) => Apply(w, e))

  lemma DeliverInv(st: State, s: int)
    requires Inv(st) && 0 <= s < |st.queues|
    ensures Inv(Deliver(st, s))
  {
    if st.queues[s] == [] {
      var st' := Deliver(st, s);
      SameLists(st, st');
      forall i | 0 <= i < |st.flags| ensures EntryOk(st', i) {
        assert EntryOk(st, i);
      }
      forall t | 0 <= t < |st.timers| ensures TimerOk(st', t) {
        assert TimerOk(st, t);
      }
    } else {
      DequeueInv(st, s);
    }
  }

  lemma InvStep(w: World, e: Event)
    requires Inv(w.st) && Enabled(w, e)
    ensures Inv(Apply(w, e).st)
  {
    var st := w.st;
    match e
    case Queueing(info) => SigQueueInv(st, w.actions, info);
    case Killing(s) =>
      var st' := Kill(st, s);
      SameLists(st, st');
      forall i | 0 <= i < |st.flags| ensures EntryOk(st', i) {
        assert EntryOk(st, i);
      }
      forall t | 0 <= t < |st.timers| ensures TimerOk(st', t) {
        assert TimerOk(st, t);
      }
    case Delivering(s) => DeliverInv(st, s);
    case Creating(t, notify, signo, value) => CreateTimerInv(st, t, notify, signo, value);
    case Deleting(t) => DeleteTimerInv(st, t);
    case Firing(t, task) => if st.timers[t].Owns() { FireKeepsExactly(st, w.actions, t, task); }
    case Acting(s, act) => if Drops(act) { DeliverInv(st, s); }
  }

  function Initial(entries: nat, signals: nat, timers: nat): State {
    State(seq(entries, i => i), seq(signals, _ => []), seq(entries, _ => Flags(false, false)),
          seq(entries, _ => Info(0, SI_USER, 0, NIL)), {},
          seq(timers, _ => Timer(false, SIGEV_NONE, 0, 0, NIL, 0, 0)),
          seq(entries, _ => OnFree), seq(entries, _ => NIL))
  }

  lemma InitialInv(entries: nat, signals: nat, timers: nat)
    ensures Inv(Initial(entries, signals, timers))
  {
    var st := Initial(entries, signals, timers);
    forall i | 0 <= i < entries ensures Placed(st, i) && EntryOk(st, i) {
      assert st.free[i] == i;
    }
  }

  ghost const INV := (w: World) => Inv(w.st)

  lemma EveryStepKeepsInv()
    ensures PROTOCOL.Keeps(INV)
  {
    forall w: World, e: Event | Inv(w.st) && Enabled(w, e)
      ensures Inv(Apply(w, e).st)
    {
      InvStep(w, e);
    }
  }

  /** Over every run of queueing, killing, delivering, timer operations and changes of actions, no entry is lost,
      shared or duplicated, an overrun count is the number of fires that found the post still pending, saturated, and
      a signal with a queued entry is pending. */
  lemma NothingIsLost(actions: seq<Action>, entries: nat, timers: nat, es: seq<Event>)
    requires PROTOCOL.Feasible(World(Initial(entries, |actions|, timers), actions), es)
    ensures var st := PROTOCOL.Run(World(Initial(entries, |actions|, timers), actions), es).st;
            && (forall i :: 0 <= i < |st.flags| ==>
                  multiset(st.free)[i] + OnQueues(st.queues, i) + SetAside(st.timers, st.flags, i) == 1)
            && (forall t :: 0 <= t < |st.timers| ==> Saturated(st.timers[t]))
            && (forall s :: 0 <= s < |st.queues| && st.queues[s] != [] ==> s in st.pending)
  {
    var w := World(Initial(entries, |actions|, timers), actions);
    InitialInv(entries, |actions|, timers);
    EveryStepKeepsInv();
    PROTOCOL.Invariant(INV, w, es);
    var st := PROTOCOL.Run(w, es).st;
    assert Inv(st);
    forall i | 0 <= i < |st.flags|
      ensures multiset(st.free)[i] + OnQueues(st.queues, i) + SetAside(st.timers, st.flags, i) == 1
    {
      EntriesConserved(st, i);
    }
    forall t | 0 <= t < |st.timers| ensures Saturated(st.timers[t]) {
      assert TimerOk(st, t);
    }
  }

  // ---------- two runs from the start ----------

  const QUEUEING := Action(true, Function, {})
  const IGNORING := Action(false, Ignore, {})

  const ACTIONS := [QUEUEING, QUEUEING]
  const VALUE := Info(1, SI_QUEUE, 0, 0)
  const UNQUEUED := Info(0, SI_USER, 0, NIL)

  /** Two entries: both free; one queued for signal 1; both queued for it. */
  const NONE_QUEUED := State([0, 1], [[], []], [Flags(false, false), Flags(false, false)], [UNQUEUED, UNQUEUED], {}, [],
                             [OnFree, OnFree], [NIL, NIL])
  const ONE_QUEUED := State([1], [[], [0]], [Flags(false, false), Flags(false, false)], [VALUE, UNQUEUED], {1}, [],
                            [Queued(1), OnFree], [NIL, NIL])
  const TWO_QUEUED := State([], [[], [0, 1]], [Flags(false, false), Flags(false, false)], [VALUE, VALUE], {1}, [],
                            [Queued(1), Queued(1)], [NIL, NIL])

  lemma NoneFirst()
    ensures Initial(2, 2, 0) == NONE_QUEUED && Inv(NONE_QUEUED)
  {
    InitialInv(2, 2, 0);
    var st := Initial(2, 2, 0);
    assert st.free == [0, 1] && st.queues == [[], []] && st.place == [OnFree, OnFree] && st.holder == [NIL, NIL];
    assert st.flags == NONE_QUEUED.flags && st.infos == NONE_QUEUED.infos;
  }

  lemma OneNext()
    ensures Enqueue(NONE_QUEUED, VALUE) == ONE_QUEUED
  {
    assert [0, 1][1..] == [1] && [] + [0] == [0];
    assert [[], []][1 := [0]] == [[], [0]];
    assert [UNQUEUED, UNQUEUED][0 := VALUE] == [VALUE, UNQUEUED];
    assert [OnFree, OnFree][0 := Queued(1)] == [Queued(1), OnFree];
  }

  lemma TwoNext()
    ensures Enqueue(ONE_QUEUED, VALUE) == TWO_QUEUED
  {
    assert [1][1..] == [] && [0] + [1] == [0, 1];
    assert [[], [0]][1 := [0, 1]] == [[], [0, 1]];
    assert [VALUE, UNQUEUED][1 := VALUE] == [VALUE, VALUE];
    assert [Queued(1), OnFree][1 := Queued(1)] == [Queued(1), Queued(1)];
  }

  /** sigqueue with a value that is accepted, while there is a free entry. */
  lemma QueuesOne(st: State, st': State)
    requires Inv(st) && |st.queues| == 2 && st.free != [] && Enqueue(st, VALUE) == st'
    ensures var w := World(st, ACTIONS);
            Enabled(w, Queueing(VALUE)) && Apply(w, Queueing(VALUE)) == World(st', ACTIONS) && Inv(st')
  {
    SigQueueInv(st, ACTIONS, VALUE);
  }

  /** Two values can be queued for one signal. */
  lemma TwoCanBeQueued() returns (es: seq<Event>)
    ensures var first := World(Initial(2, 2, 0), ACTIONS);
            PROTOCOL.Feasible(first, es) && PROTOCOL.Run(first, es) == World(TWO_QUEUED, ACTIONS)
    ensures Inv(TWO_QUEUED)
  {
    NoneFirst();
    OneNext();
    TwoNext();
    QueuesOne(NONE_QUEUED, ONE_QUEUED);
    QueuesOne(ONE_QUEUED, TWO_QUEUED);
    PROTOCOL.Two(World(NONE_QUEUED, ACTIONS), Queueing(VALUE), Queueing(VALUE));
    es := [Queueing(VALUE)] + [Queueing(VALUE)];
  }

  /** A timer on an ignored signal: when it fires its entry leaks, and the next timer created shares it. */
  lemma EntryCanLeak() returns (w: World, es: seq<Event>)
    ensures var first := World(Initial(1, 2, 2), [QUEUEING, IGNORING]);
            PROTOCOL.Feasible(first, es) && w == PROTOCOL.Run(first, es)
    ensures |w.actions| == |w.st.queues| && |w.st.timers| == 2 && Inv(w.st) && w.st.timers[0].Owns()
    ensures 0 <= w.st.timers[0].entry < |w.st.flags| && !Inv(Fire(w.st, w.actions, 0, 0))
    ensures var fired := Fire(w.st, w.actions, 0, 0);
            && fired.free == [0] && fired.timers[0].entry == 0
            && CreateTimer(fired, 1, SIGEV_SIGNAL, 1, 0).timers[1].entry == 0
  {
    var w0 := World(Initial(1, 2, 2), [QUEUEING, IGNORING]);
    var e := Creating(0, SIGEV_SIGNAL, 1, 0);
    InitialInv(1, 2, 2);
    assert w0.st.free == [0];
    InvStep(w0, e);
    w := Apply(w0, e);
    assert w.st.free == [] && w.st.flags == [Flags(true, false)];
    FireKeepsExactly(w.st, w.actions, 0, 0);
    assert [0] + [] == [0];
    PROTOCOL.Cons(w0, e, []);
    es := [e] + [];
  }
}
