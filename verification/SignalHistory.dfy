/** What the signal queue and the timers promise their users, over whole runs: the values queued for a signal come
    out in the order in which they went in, each as it went in, and a timer sends what it was created to send
    (rtos/kernel/signal.c, rtos/kernel/time.c).

    Books records, beside a run, what was asked for and what was handed out.  It is kept in terms of the calls and
    of the entries that are free or queued, not of the functions that compute the state. */
module SignalHistories {
  import opened IndexLists
  import opened Machines
  import opened SignalTables

  /** What timer_create was asked for, and the fires of the timer since its last post that found it still pending. */
  datatype Order = NoTimer | Order(notify: Notify, signo: int, value: int, missed: nat)

  /** For each signal the values accepted and those taken off its queue; the signals that are pending because of a
      kill(); the timers that exist; the actions set last. */
  datatype Books = Books(accepted: seq<seq<Info>>, taken: seq<seq<Info>>, killed: set<int>, orders: seq<Order>,
                         actions: seq<Action>)
  {
    ghost predicate Waits(s: int)
      requires 0 <= s < |accepted| == |taken|
    {
      s in killed || |taken[s]| < |accepted[s]|
    }

    /** The signal is not ignored and can hold one more value. */
    ghost predicate Wanted(s: int)
      requires 0 <= s < |accepted| == |taken| == |actions|
    {
      actions[s].siginfo || (actions[s].handler != Ignore && !Waits(s))
    }

    function Accept(info: Info): Books
      requires 0 <= info.signo < |accepted|
    {
      this.(accepted := accepted[info.signo := accepted[info.signo] + [info]])
    }

    /** The kill() is forgotten with the last value taken. */
    function Take(s: int, infos: seq<Info>): Books
      requires 0 <= s < |accepted| == |taken|
    {
      var b := this.(taken := taken[s := taken[s] + infos]);
      if |b.taken[s]| < |accepted[s]| then b else b.(killed := killed - {s})
    }

    ghost predicate Covers(w: World) {
      |accepted| == |taken| == |actions| == |w.st.queues| && |orders| == |w.st.timers|
    }
  }

  /** The entry of timer t is queued for signal s. */
  predicate StillQueued(st: State, t: int, s: int) {
    0 <= t < |st.timers| && 0 <= s < |st.queues| && st.timers[t].entry in st.queues[s]
  }

  ghost function Record(w: World, e: Event, b: Books): Books
    requires Enabled(w, e) && b.Covers(w)
  {
    match e
    case Queueing(info) =>
      if 0 < info.signo < |b.actions| && b.Wanted(info.signo) && w.st.free != [] then b.Accept(info) else b
    case Killing(s) => b.(killed := b.killed + {s})
    case Delivering(s) => b.Take(s, if w.st.queues[s] == [] then [] else [w.st.infos[w.st.queues[s][0]]])
    case Creating(t, notify, signo, value) => b.(orders := b.orders[t := Order(notify, signo, value, 0)])
    case Deleting(t) => b.(orders := b.orders[t := NoTimer])
    case Firing(t, task) =>
      var order := b.orders[t];
      if !order.Order? || order.notify != SIGEV_SIGNAL then b
      else if StillQueued(w.st, t, order.signo) then
        b.(orders := b.orders[t := order.(missed := order.missed + 1)])
      else if 0 < order.signo < |b.actions| then
        b.(orders := b.orders[t := order.(missed := 0)]).Accept(Info(order.signo, SI_TIMER, order.value, task))
      else b
    case Acting(s, act) =>
      var b' := if !act.siginfo && (act.handler == Ignore || act.handler == Default) then b.Take(s, Waiting(w.st, s))
                else b;
      b'.(actions := b.actions[s := act])
  }

  // ---------- one operation ----------

  lemma EnqueueWaiting(st: State, info: Info, s: int)
    requires ListsOk(st) && st.free != [] && 0 <= info.signo < |st.queues| && 0 <= s < |st.queues|
    ensures ListsOk(Enqueue(st, info))
    ensures Waiting(Enqueue(st, info), s) == if s == info.signo then Waiting(st, s) + [info] else Waiting(st, s)
  {
    EnqueueLists(st, info);
    assert Placed(st, st.free[0]);
  }

  lemma DeliverWaiting(st: State, r: int, s: int)
    requires Inv(st) && 0 <= r < |st.queues| && 0 <= s < |st.queues|
    ensures Inv(Deliver(st, r))
    ensures s != r ==> Waiting(Deliver(st, r), s) == Waiting(st, s)
    ensures st.queues[r] == [] ==> Waiting(Deliver(st, r), r) == []
    ensures st.queues[r] != [] ==> [st.infos[st.queues[r][0]]] + Waiting(Deliver(st, r), r) == Waiting(st, r)
  {
    DeliverInv(st, r);
  }

  /** A timer whose fire is accepted pushes its entry and queues it again. */
  lemma FireEnqueues(st: State, actions: seq<Action>, t: int, task: int) returns (pushed: State)
    requires Inv(st) && |actions| == |st.queues| && 0 <= t < |st.timers| && st.timers[t].Owns()
    requires 0 <= st.timers[t].entry < |st.flags|
    requires !st.flags[st.timers[t].entry].posted && Accepts(st, actions, st.timers[t].signo)
    ensures ListsOk(pushed) && pushed.queues == st.queues && pushed.infos == st.infos && pushed.free != []
    ensures var queued := Enqueue(pushed, Info(st.timers[t].signo, SI_TIMER, st.timers[t].value, task));
            && Fire(st, actions, t, task).queues == queued.queues
            && Fire(st, actions, t, task).infos == queued.infos
  {
    var timer := st.timers[t];
    assert TimerOk(st, t) && EntryOk(st, timer.entry);
    pushed := st.(timers := st.timers[t := timer.(overrun := 0, missed := 0)],
                  free := [timer.entry] + st.free, place := st.place[timer.entry := OnFree]);
    PushLists(st, timer.entry);
    SameLists(st.(free := [timer.entry] + st.free, place := st.place[timer.entry := OnFree]), pushed);
  }

  lemma FireWaiting(st: State, actions: seq<Action>, t: int, task: int, s: int)
    requires Inv(st) && |actions| == |st.queues| && 0 <= t < |st.timers| && st.timers[t].Owns() && 0 <= s < |st.queues|
    requires 0 <= st.timers[t].entry < |st.flags|
    requires !st.flags[st.timers[t].entry].posted && Accepts(st, actions, st.timers[t].signo)
    ensures var timer, st' := st.timers[t], Fire(st, actions, t, task);
            && |st'.queues| == |st.queues| && InRange(st'.queues[s], |st'.infos|)
            && Waiting(st', s)
            == Waiting(st, s) + if s == timer.signo then [Info(timer.signo, SI_TIMER, timer.value, task)] else []
  {
    var timer := st.timers[t];
    var pushed := FireEnqueues(st, actions, t, task);
    EnqueueWaiting(pushed, Info(timer.signo, SI_TIMER, timer.value, task), s);
    assert Waiting(pushed, s) == Waiting(st, s);
  }

  // ---------- every run ----------

  datatype History = History(w: World, books: Books)

  ghost predicate SignalTold(w: World, b: Books, s: int)
    requires Shape(w.st) && b.Covers(w) && 0 <= s < |w.st.queues|
  {
    b.accepted[s] == b.taken[s] + Waiting(w.st, s) && (s in w.st.pending <==> b.Waits(s))
  }

  /** The timer is the one that was ordered. */
  predicate AsOrdered(timer: Timer, order: Order) {
    && (timer.used <==> order.Order?)
    && (timer.used ==>
          && timer.notify == order.notify && timer.signo == order.signo && timer.value == order.value
          && timer.overrun == if order.missed < DELAYTIMER_MAX then order.missed else DELAYTIMER_MAX)
  }

  /** Its entry is posted only to the queue of its signal. */
  ghost predicate WellPosted(st: State, t: int)
    requires Inv(st) && 0 <= t < |st.timers|
  {
    st.timers[t].Owns() ==>
      && TimerOk(st, t)
      && (st.flags[st.timers[t].entry].posted ==> st.place[st.timers[t].entry] == Queued(st.timers[t].signo))
  }

  ghost predicate TimerTold(w: World, b: Books, t: int)
    requires Inv(w.st) && b.Covers(w) && 0 <= t < |w.st.timers|
  {
    AsOrdered(w.st.timers[t], b.orders[t]) && WellPosted(w.st, t)
  }

  ghost predicate Told(h: History) {
    && Inv(h.w.st) && h.books.Covers(h.w) && h.w.actions == h.books.actions
    && (forall s :: 0 <= s < |h.w.st.queues| ==> SignalTold(h.w, h.books, s))
    && (forall t :: 0 <= t < |h.w.st.timers| ==> TimerTold(h.w, h.books, t))
  }

  ghost predicate Possible(h: History, e: Event) {
    Enabled(h.w, e) && h.books.Covers(h.w)
  }

  ghost function Next(h: History, e: Event): History {
    if Possible(h, e) then History(Apply(h.w, e), Record(h.w, e, h.books)) else h
  }

  /** The runs of the table together with its books. */
  ghost const RECORDED := Machine((h: History, e: Event) => Possible(h, e), (h: History, e: Event) => Next(h, e))

  lemma CoversStep(h: History, e: Event)
    requires Inv(h.w.st) && Possible(h, e)
    ensures Inv(Apply(h.w, e).st) && Next(h, e).books.Covers(Next(h, e).w)
  {
    InvStep(h.w, e);
  }

  lemma QueueingStep(w: World, b: Books, info: Info, s: int)
    requires Inv(w.st) && b.Covers(w) && w.actions == b.actions && 0 <= s < |w.st.queues| && SignalTold(w, b, s)
    requires 0 <= info.signo < |w.st.queues| ==> SignalTold(w, b, info.signo)
    requires Enabled(w, Queueing(info))
    ensures var w', b' := Apply(w, Queueing(info)), Record(w, Queueing(info), b);
            Shape(w'.st) && b'.Covers(w') && SignalTold(w', b', s)
  {
    SigQueueLists(w.st, w.actions, info);
    if Accepts(w.st, w.actions, info.signo) && w.st.free != [] {
      EnqueueWaiting(w.st, info, s);
    }
  }

  lemma DeliveringStep(w: World, b: Books, r: int, s: int)
    requires Inv(w.st) && b.Covers(w) && 0 <= s < |w.st.queues|
    requires SignalTold(w, b, s) && Enabled(w, Delivering(r)) && SignalTold(w, b, r)
    ensures var w', b' := Apply(w, Delivering(r)), Record(w, Delivering(r), b);
            Shape(w'.st) && b'.Covers(w') && SignalTold(w', b', s)
  {
    DeliverWaiting(w.st, r, s);
  }

  lemma FiringStep(w: World, b: Books, t: int, task: int, s: int)
    requires Inv(w.st) && b.Covers(w) && w.actions == b.actions && 0 <= s < |w.st.queues|
    requires SignalTold(w, b, s) && Enabled(w, Firing(t, task)) && TimerTold(w, b, t)
    requires 0 <= w.st.timers[t].signo < |w.st.queues| ==> SignalTold(w, b, w.st.timers[t].signo)
    ensures var w', b' := Apply(w, Firing(t, task)), Record(w, Firing(t, task), b);
            Shape(w'.st) && b'.Covers(w') && SignalTold(w', b', s)
  {
    var timer := w.st.timers[t];
    InvStep(w, Firing(t, task));
    if timer.Owns() {
      assert EntryOk(w.st, timer.entry) && Placed(w.st, timer.entry);
      if !w.st.flags[timer.entry].posted {
        FireWaiting(w.st, w.actions, t, task, s);
      } else {
        assert Waiting(Apply(w, Firing(t, task)).st, s) == Waiting(w.st, s);
      }
    }
  }

  lemma ActingStep(w: World, b: Books, r: int, act: Action, s: int)
    requires Inv(w.st) && b.Covers(w) && 0 <= s < |w.st.queues|
    requires SignalTold(w, b, s) && Enabled(w, Acting(r, act)) && SignalTold(w, b, r)
    ensures var w', b' := Apply(w, Acting(r, act)), Record(w, Acting(r, act), b);
            Shape(w'.st) && b'.Covers(w') && SignalTold(w', b', s)
  {
    DeliverWaiting(w.st, r, s);
  }

  lemma SignalStep(h: History, e: Event, s: int)
    requires Told(h) && Possible(h, e) && 0 <= s < |h.w.st.queues|
    ensures Shape(Apply(h.w, e).st) && Next(h, e).books.Covers(Next(h, e).w)
    ensures SignalTold(Next(h, e).w, Next(h, e).books, s)
  {
    CoversStep(h, e);
    match e
    case Queueing(info) => QueueingStep(h.w, h.books, info, s);
    case Delivering(r) => DeliveringStep(h.w, h.books, r, s);
    case Firing(t, task) => FiringStep(h.w, h.books, t, task, s);
    case Acting(r, act) => ActingStep(h.w, h.books, r, act, s);
    case _ =>
      assert SignalTold(h.w, h.books, s);
      assert Waiting(Apply(h.w, e).st, s) == Waiting(h.w.st, s);
  }

  /** An entry taken off a queue is no longer posted. */
  lemma DeliverPosted(st: State, r: int, t: int)
    requires Inv(st) && 0 <= r < |st.queues| && 0 <= t < |st.timers| && WellPosted(st, t)
    ensures Inv(Deliver(st, r)) && WellPosted(Deliver(st, r), t)
  {
    DeliverInv(st, r);
    assert TimerOk(Deliver(st, r), t);
    if st.queues[r] != [] {
      assert EntryOk(st, st.queues[r][0]) && Placed(st, st.queues[r][0]);
    }
  }

  lemma QueueingPosted(st: State, actions: seq<Action>, info: Info, t: int)
    requires Inv(st) && |actions| == |st.queues| && 0 <= t < |st.timers| && WellPosted(st, t)
    ensures Inv(SigQueue(st, actions, info).0) && WellPosted(SigQueue(st, actions, info).0, t)
  {
    SigQueueInv(st, actions, info);
    assert TimerOk(SigQueue(st, actions, info).0, t);
    if st.free != [] {
      assert EntryOk(st, st.free[0]) && Placed(st, st.free[0]);
    }
  }

  lemma CreatingPosted(st: State, u: int, notify: Notify, signo: int, value: int, t: int)
    requires Inv(st) && 0 <= u < |st.timers| && !st.timers[u].used && st.free != []
    requires 0 <= t < |st.timers| && WellPosted(st, t)
    ensures Inv(CreateTimer(st, u, notify, signo, value)) && WellPosted(CreateTimer(st, u, notify, signo, value), t)
  {
    CreateTimerInv(st, u, notify, signo, value);
    assert TimerOk(CreateTimer(st, u, notify, signo, value), t);
    assert EntryOk(st, st.free[0]) && Placed(st, st.free[0]);
  }

  lemma DeletingPosted(st: State, u: int, t: int)
    requires Inv(st) && 0 <= u < |st.timers| && st.timers[u].used && 0 <= t < |st.timers| && WellPosted(st, t)
    ensures st.timers[u].Owns() ==> 0 <= st.timers[u].entry < |st.flags|
    ensures Inv(DeleteTimer(st, u)) && WellPosted(DeleteTimer(st, u), t)
  {
    DeleteTimerInv(st, u);
    assert TimerOk(DeleteTimer(st, u), t) && TimerOk(st, u);
  }

  lemma FiringPosted(st: State, actions: seq<Action>, u: int, task: int, t: int)
    requires Inv(st) && |actions| == |st.queues| && 0 <= u < |st.timers| && st.timers[u].Owns()
    requires 0 <= st.timers[u].entry < |st.flags|
    requires st.flags[st.timers[u].entry].posted || Accepts(st, actions, st.timers[u].signo)
    requires 0 <= t < |st.timers| && WellPosted(st, t)
    ensures Inv(Fire(st, actions, u, task)) && WellPosted(Fire(st, actions, u, task), t)
  {
    FireKeepsExactly(st, actions, u, task);
    assert TimerOk(Fire(st, actions, u, task), t) && TimerOk(st, u);
    assert EntryOk(st, st.timers[u].entry);
  }

  lemma WellPostedStep(w: World, e: Event, t: int)
    requires Inv(w.st) && Enabled(w, e) && 0 <= t < |w.st.timers| && WellPosted(w.st, t)
    ensures Inv(Apply(w, e).st) && |Apply(w, e).st.timers| == |w.st.timers| && WellPosted(Apply(w, e).st, t)
  {
    match e
    case Queueing(info) => QueueingPosted(w.st, w.actions, info, t);
    case Killing(s) =>
      InvStep(w, e);
      assert TimerOk(Apply(w, e).st, t);
    case Delivering(s) => DeliverPosted(w.st, s, t);
    case Creating(u, notify, signo, value) => CreatingPosted(w.st, u, notify, signo, value, t);
    case Deleting(u) => DeletingPosted(w.st, u, t);
    case Firing(u, task) => if w.st.timers[u].Owns() { FiringPosted(w.st, w.actions, u, task, t); }
    case Acting(s, act) => if Drops(act) { DeliverPosted(w.st, s, t); }
  }

  lemma OrderedStep(w: World, b: Books, e: Event, t: int)
    requires Inv(w.st) && Enabled(w, e) && b.Covers(w) && 0 <= t < |w.st.timers|
    requires AsOrdered(w.st.timers[t], b.orders[t]) && WellPosted(w.st, t)
    ensures |Apply(w, e).st.timers| == |Record(w, e, b).orders| == |w.st.timers|
    ensures AsOrdered(Apply(w, e).st.timers[t], Record(w, e, b).orders[t])
  {
    if e.Firing? && e.t == t && w.st.timers[t].Owns() {
      assert EntryOk(w.st, w.st.timers[t].entry) && Placed(w.st, w.st.timers[t].entry);
    }
  }

  lemma TimerStep(h: History, e: Event, t: int)
    requires Told(h) && Possible(h, e) && 0 <= t < |h.w.st.timers|
    ensures Inv(Apply(h.w, e).st) && Next(h, e).books.Covers(Next(h, e).w)
    ensures TimerTold(Next(h, e).w, Next(h, e).books, t)
  {
    CoversStep(h, e);
    assert TimerTold(h.w, h.books, t);
    WellPostedStep(h.w, e, t);
    OrderedStep(h.w, h.books, e, t);
  }

  lemma ToldStep(h: History, e: Event)
    requires Told(h) && Possible(h, e)
    ensures Told(Next(h, e))
  {
    CoversStep(h, e);
    forall s | 0 <= s < |h.w.st.queues| ensures SignalTold(Next(h, e).w, Next(h, e).books, s) {
      SignalStep(h, e, s);
    }
    forall t | 0 <= t < |h.w.st.timers| ensures TimerTold(Next(h, e).w, Next(h, e).books, t) {
      TimerStep(h, e, t);
    }
  }

  lemma EveryStepTold()
    ensures RECORDED.Keeps(TOLD)
  {
    forall h: History, e: Event | Told(h) && Possible(h, e)
      ensures Told(Next(h, e))
    {
      ToldStep(h, e);
    }
  }

  ghost const TOLD := (h: History) => Told(h)

  /** Nothing asked for, nothing handed out. */
  function Opened(actions: seq<Action>, entries: nat, timers: nat): History {
    History(World(Initial(entries, |actions|, timers), actions),
            Books(seq(|actions|, _ => []), seq(|actions|, _ => []), {}, seq(timers, _ => NoTimer), actions))
  }

  lemma OpenedTold(actions: seq<Action>, entries: nat, timers: nat)
    ensures Told(Opened(actions, entries, timers))
  {
    InitialInv(entries, |actions|, timers);
    var h := Opened(actions, entries, timers);
    forall s | 0 <= s < |actions| ensures SignalTold(h.w, h.books, s) {
      assert Waiting(h.w.st, s) == [];
    }
  }

  /** Every run of the table can be recorded. */
  lemma {:induction false} Recordable(h: History, es: seq<Event>)
    requires Told(h) && PROTOCOL.Feasible(h.w, es)
    ensures RECORDED.Feasible(h, es) && RECORDED.Run(h, es).w == PROTOCOL.Run(h.w, es)
    decreases |es|
  {
    if es != [] {
      EveryStepTold();
      assert RECORDED.enabled(h, es[0]) && TOLD(h);
      assert TOLD(RECORDED.apply(h, es[0]));
      Recordable(Next(h, es[0]), es[1..]);
    }
  }

  /** What the books say is what the table holds. */
  ghost predicate Faithful(h: History) {
    && Shape(h.w.st) && h.books.Covers(h.w)
    && (forall s :: 0 <= s < |h.w.st.queues| ==> h.books.accepted[s] == h.books.taken[s] + Waiting(h.w.st, s))
    && (forall s :: 0 <= s < |h.w.st.queues| ==> (s in h.w.st.pending <==> h.books.Waits(s)))
    && (forall t :: 0 <= t < |h.w.st.timers| ==> AsOrdered(h.w.st.timers[t], h.books.orders[t]))
  }

  lemma ToldFaithful(h: History)
    requires Told(h)
    ensures Faithful(h)
  {
    forall s | 0 <= s < |h.w.st.queues|
      ensures h.books.accepted[s] == h.books.taken[s] + Waiting(h.w.st, s)
      ensures s in h.w.st.pending <==> h.books.Waits(s)
    {
      assert SignalTold(h.w, h.books, s);
    }
    forall t | 0 <= t < |h.w.st.timers| ensures AsOrdered(h.w.st.timers[t], h.books.orders[t]) {
      assert TimerTold(h.w, h.books, t);
    }
  }

  /** Over every run the values accepted for a signal are those taken for it so far, in the order in which they were
      accepted, followed by those still queued; a signal is pending exactly when something waits for it; and a timer
      is set to send the signal and the value it was created with. */
  lemma FirstInFirstOut(actions: seq<Action>, entries: nat, timers: nat, es: seq<Event>)
    requires PROTOCOL.Feasible(World(Initial(entries, |actions|, timers), actions), es)
    ensures var h := RECORDED.Run(Opened(actions, entries, timers), es);
            h.w == PROTOCOL.Run(World(Initial(entries, |actions|, timers), actions), es) && Faithful(h)
  {
    var first := Opened(actions, entries, timers);
    OpenedTold(actions, entries, timers);
    Recordable(first, es);
    EveryStepTold();
    assert TOLD(first);
    RECORDED.Invariant(TOLD, first, es);
    ToldFaithful(RECORDED.Run(first, es));
  }
}
