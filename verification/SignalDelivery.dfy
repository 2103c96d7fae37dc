/** Delivery of pending signals to the running task (rtos/kernel/signal.c: ffs, really_deliver_signal,
    kern_deliver_pending_signals).  Handlers run to completion and raise no further signals. */
module SignalDelivery {
  import opened IndexLists
  import opened SignalTables
  import opened SignalCode

  /** What became of one occurrence of a signal; `mask` is the task's signal mask while the handler ran. */
  datatype Delivery = Dropped(sig: int, info: Info) | Handled(sig: int, info: Info, mask: set<int>)

  predicate Bounded(signals: set<int>, n: int) {
    forall s :: s in signals ==> 0 <= s < n
  }

  function Outcome(act: Action, mask: set<int>, s: int, info: Info): Delivery {
    if !act.siginfo && (act.handler == Ignore || act.handler == Error) then Dropped(s, info)
    else Handled(s, info, mask + {s} + act.mask)
  }

  /** The deliveries that are due for process signal s: first in, first out. */
  ghost function DueFor(st: State, act: Action, mask: set<int>, task: int, s: int): seq<Delivery>
    requires 0 <= s < |st.queues| && InRange(st.queues[s], |st.infos|)
  {
    if s in st.pending && s !in mask then
      var infos := Occurrences(st, s, task);
      seq(|infos|, k requires 0 <= k < |infos| => Outcome(act, mask, s, infos[k]))
    else []
  }

  function Flatten<T>(xss: seq<seq<T>>): seq<T> {
    if xss == [] then [] else xss[0] + Flatten(xss[1..])
  }

  ghost function DueByNumber(st: State, actions: seq<Action>, mask: set<int>, task: int): seq<seq<Delivery>>
    requires Shape(st) && |actions| == |st.queues|
  {
    seq(|st.queues|, s requires 0 <= s < |st.queues| => DueFor(st, actions[s], mask, task, s))
  }

  /** All that is due for process signals, in the order of the signal numbers. */
  ghost function Due(st: State, actions: seq<Action>, mask: set<int>, task: int): seq<Delivery>
    requires Shape(st) && |actions| == |st.queues|
  {
    Flatten(DueByNumber(st, actions, mask, task))
  }

  ghost function OwnByNumber(pending: set<int>, actions: seq<Action>, mask: set<int>, task: int): seq<seq<Delivery>> {
    seq(|actions|, s requires 0 <= s < |actions| =>
      if s in pending && s !in mask then [Outcome(actions[s], mask, s, Info(s, SI_USER, 0, task))] else [])
  }

  /** All that is due for the signals pending on the task itself, in the order of the signal numbers. */
  ghost function OwnDue(pending: set<int>, actions: seq<Action>, mask: set<int>, task: int): seq<Delivery> {
    Flatten(OwnByNumber(pending, actions, mask, task))
  }

  predicate Least(s: int, signals: set<int>) {
    s in signals && forall r :: r in signals ==> s <= r
  }

  lemma LeastOpen(s: int, signals: set<int>, mask: set<int>)
    requires Least(s, signals - mask)
    ensures s in signals && s !in mask
    ensures forall r :: r in signals && r < s ==> r in mask
  {
    forall r | r in signals && r < s ensures r in mask {
      assert r !in signals - mask;
    }
  }

  lemma NoneOpen(signals: set<int>, mask: set<int>)
    requires signals - mask == {}
    ensures signals <= mask
  {
    forall s | s in signals ensures s in mask {
      assert s !in signals - mask;
    }
  }

  lemma {:induction false} FlattenFirst<T>(xss: seq<seq<T>>, s: nat)
    requires s < |xss| && xss[s] != [] && forall r :: 0 <= r < s ==> xss[r] == []
    ensures Flatten(xss) == [xss[s][0]] + Flatten(xss[s := xss[s][1..]])
  {
    if s > 0 {
      FlattenFirst(xss[1..], s - 1);
      assert xss[s := xss[s][1..]][1..] == xss[1..][s - 1 := xss[s][1..]];
    } else {
      assert xss[0 := xss[0][1..]][1..] == xss[1..];
    }
  }

  lemma {:induction false} FlattenEmpty<T>(xss: seq<seq<T>>)
    requires forall r :: 0 <= r < |xss| ==> xss[r] == []
    ensures Flatten(xss) == []
  {
    if xss != [] {
      FlattenEmpty(xss[1..]);
    }
  }

  /** What the delivery of s changes, as far as the deliveries that remain are concerned. */
  ghost predicate Shifted(st: State, st': State, s: int) {
    && 0 <= s < |st.queues| && InRange(st.queues[s], |st.infos|)
    && st'.infos == st.infos
    && st'.queues == st.queues[s := if st.queues[s] == [] then [] else st.queues[s][1..]]
    && st'.pending == if |st.queues[s]| > 1 then st.pending else st.pending - {s}
  }

  /** One occurrence of s fewer; the last one clears the pending bit. */
  lemma FirstOccurrence(st: State, st': State, act: Action, mask: set<int>, task: int, s: int)
    requires Shifted(st, st', s) && s in st.pending && s !in mask
    ensures DueFor(st, act, mask, task, s)
         == [Outcome(act, mask, s, Occurrences(st, s, task)[0])] + DueFor(st', act, mask, task, s)
  {
    if |st.queues[s]| > 1 {
      assert Occurrences(st', s, task) == Occurrences(st, s, task)[1..];
    }
  }

  /** Taking the first occurrence of the least unblocked signal takes the first delivery that is due. */
  lemma FirstDue(st: State, st': State, actions: seq<Action>, mask: set<int>, task: int, s: int)
    requires Shape(st) && Shape(st') && |actions| == |st.queues| && Bounded(st.pending, |st.queues|)
    requires Least(s, st.pending - mask) && Shifted(st, st', s)
    ensures Due(st, actions, mask, task)
         == [Outcome(actions[s], mask, s, Occurrences(st, s, task)[0])] + Due(st', actions, mask, task)
  {
    LeastOpen(s, st.pending, mask);
    FirstOccurrence(st, st', actions[s], mask, task, s);
    var due, rest := DueByNumber(st, actions, mask, task), DueByNumber(st', actions, mask, task);
    FlattenFirst(due, s);
    forall r | 0 <= r < |rest| ensures rest[r] == due[s := due[s][1..]][r] {
    }
    assert rest == due[s := due[s][1..]];
  }

  lemma FirstOwn(pending: set<int>, actions: seq<Action>, mask: set<int>, task: int, s: int)
    requires Bounded(pending, |actions|) && Least(s, pending - mask)
    ensures OwnDue(pending, actions, mask, task)
         == [Outcome(actions[s], mask, s, Info(s, SI_USER, 0, task))] + OwnDue(pending - {s}, actions, mask, task)
  {
    LeastOpen(s, pending, mask);
    var due := OwnByNumber(pending, actions, mask, task);
    FlattenFirst(due, s);
    var rest := OwnByNumber(pending - {s}, actions, mask, task);
    forall r | 0 <= r < |rest| ensures rest[r] == due[s := due[s][1..]][r] {
    }
    assert rest == due[s := due[s][1..]];
  }

  /** What holds between the start of the delivery of process signals and any later round of its loop. */
  ghost predicate Between(first: State, own0: set<int>, st: State, own: set<int>, mask: set<int>) {
    && |st.queues| == |first.queues|
    && st.pending <= first.pending
    && (forall s :: s in mask && s in first.pending ==> s in st.pending)
    && (forall s :: 0 <= s < |st.queues| && s in mask ==> st.queues[s] == first.queues[s])
    && own <= own0
    && (forall s :: s in own0 && (s !in first.pending || s in mask) ==> s in own)
    && (forall s :: s in own && s in first.pending && s !in mask ==> s in st.pending)
  }

  lemma BetweenStep(first: State, own0: set<int>, st: State, own: set<int>, mask: set<int>, s: int)
    requires Between(first, own0, st, own, mask) && ListsOk(st)
    requires 0 <= s < |st.queues| && s in st.pending && s !in mask
    ensures Between(first, own0, Deliver(st, s), own - {s}, mask)
  {
  }

  lemma BetweenEnd(first: State, own0: set<int>, st: State, own: set<int>, mask: set<int>)
    requires Between(first, own0, st, own, mask) && Inv(st) && st.pending - mask == {}
    ensures st.pending == first.pending * mask
    ensures forall s :: 0 <= s < |st.queues| ==> st.queues[s] == if s in mask then first.queues[s] else []
    ensures own == own0 - (first.pending - mask)
  {
    NoneOpen(st.pending, mask);
    forall s ensures s in st.pending <==> s in first.pending * mask {
    }
    forall s ensures s in own <==> s in own0 - (first.pending - mask) {
    }
  }

  /** What is in the log and what is still due make up `all`; a round moves one delivery into the log. */
  ghost predicate Round(first: State, own0: set<int>, all: seq<Delivery>, st: State, own: set<int>,
                        log: seq<Delivery>, actions: seq<Action>, mask: set<int>, task: int) {
    && Inv(st) && |actions| == |st.queues|
    && Between(first, own0, st, own, mask)
    && log + Due(st, actions, mask, task) == all
  }

  lemma RoundStep(first: State, own0: set<int>, all: seq<Delivery>, st: State, own: set<int>,
                  log: seq<Delivery>, actions: seq<Action>, mask: set<int>, task: int, s: int)
    requires Round(first, own0, all, st, own, log, actions, mask, task)
    requires Bounded(st.pending, |st.queues|) && Least(s, st.pending - mask)
    ensures Round(first, own0, all, Deliver(st, s), own - {s},
                  log + [Outcome(actions[s], mask, s, Occurrences(st, s, task)[0])], actions, mask, task)
    ensures |Due(Deliver(st, s), actions, mask, task)| < |Due(st, actions, mask, task)|
  {
    LeastOpen(s, st.pending, mask);
    BetweenStep(first, own0, st, own, mask, s);
    DeliverInv(st, s);
    FirstDue(st, Deliver(st, s), actions, mask, task, s);
    var now := Outcome(actions[s], mask, s, Occurrences(st, s, task)[0]);
    var rest := Due(Deliver(st, s), actions, mask, task);
    assert log + ([now] + rest) == (log + [now]) + rest;
  }

  lemma RoundEnd(first: State, own0: set<int>, all: seq<Delivery>, st: State, own: set<int>,
                 log: seq<Delivery>, actions: seq<Action>, mask: set<int>, task: int)
    requires Round(first, own0, all, st, own, log, actions, mask, task) && st.pending - mask == {}
    ensures log == all
  {
    NoneOpen(st.pending, mask);
    FlattenEmpty(DueByNumber(st, actions, mask, task));
  }

  lemma OwnStep(all: seq<Delivery>, log: seq<Delivery>, pending: set<int>, actions: seq<Action>, mask: set<int>,
                task: int, s: int)
    requires log + OwnDue(pending, actions, mask, task) == all
    requires Bounded(pending, |actions|) && Least(s, pending - mask)
    ensures s !in mask
    ensures log + [Outcome(actions[s], mask, s, Info(s, SI_USER, 0, task))]
            + OwnDue(pending - {s}, actions, mask, task) == all
    ensures |OwnDue(pending - {s}, actions, mask, task)| < |OwnDue(pending, actions, mask, task)|
  {
    LeastOpen(s, pending, mask);
    FirstOwn(pending, actions, mask, task, s);
  }

  lemma OwnEnd(all: seq<Delivery>, log: seq<Delivery>, pending0: set<int>, pending: set<int>, actions: seq<Action>,
               mask: set<int>, task: int)
    requires log + OwnDue(pending, actions, mask, task) == all && pending - mask == {} && pending <= pending0
    requires forall s :: s in pending0 && s in mask ==> s in pending
    ensures log == all && pending == pending0 * mask
  {
    NoneOpen(pending, mask);
    forall s ensures s in pending <==> s in pending0 * mask {
    }
    FlattenEmpty(OwnByNumber(pending, actions, mask, task));
  }

  // ---------- what is delivered, and how ----------

  /** The occurrence is dropped exactly when its signal comes without information and is ignored or an error; otherwise
      the handler runs with the signal, the task's mask and the action's own mask blocked, and nothing else. */
  ghost predicate Treated(d: Delivery, act: Action, mask: set<int>) {
    && (d.Dropped? <==> !act.siginfo && (act.handler == Ignore || act.handler == Error))
    && (d.Handled? ==> forall x :: x in d.mask <==> x == d.sig || x in mask || x in act.mask)
  }

  ghost predicate AllTreated(ds: seq<Delivery>, actions: seq<Action>, mask: set<int>) {
    forall k :: 0 <= k < |ds| ==>
      0 <= ds[k].sig < |actions| && ds[k].sig !in mask && Treated(ds[k], actions[ds[k].sig], mask)
  }

  ghost predicate ByNumber(ds: seq<Delivery>) {
    forall j, k :: 0 <= j < k < |ds| ==> ds[j].sig <= ds[k].sig
  }

  /** What ds delivers for signal s, in order. */
  function InfosOf(ds: seq<Delivery>, s: int): seq<Info> {
    if ds == [] then [] else (if ds[0].sig == s then [ds[0].info] else []) + InfosOf(ds[1..], s)
  }

  /** The values that wait for an unblocked process signal, or the one of a kill(); nothing for any other signal. */
  ghost function OpenInfos(st: State, mask: set<int>, task: int, s: int): seq<Info>
    requires Shape(st) && 0 <= s < |st.queues|
  {
    if s !in st.pending || s in mask then []
    else if st.queues[s] == [] then [Info(s, SI_USER, 0, task)]
    else Waiting(st, s)
  }

  /** The first n deliveries are those of the process signals, the others those of the task's own: each group by
      number, and each number with exactly what waits for it, first in first out. */
  ghost predicate DeliveredRight(ds: seq<Delivery>, n: nat, st: State, own: set<int>, actions: seq<Action>,
                                 mask: set<int>, task: int)
    requires Shape(st) && |actions| == |st.queues|
  {
    && n <= |ds| && AllTreated(ds, actions, mask) && ByNumber(ds[..n]) && ByNumber(ds[n..])
    && (forall s :: 0 <= s < |actions| ==> InfosOf(ds[..n], s) == OpenInfos(st, mask, task, s))
    && (forall s :: 0 <= s < |actions| ==>
          InfosOf(ds[n..], s)
          == if s in own && s !in mask && s !in st.pending then [Info(s, SI_USER, 0, task)] else [])
  }

  lemma {:induction false} InfosOfConcat(ds: seq<Delivery>, es: seq<Delivery>, s: int)
    ensures InfosOf(ds + es, s) == InfosOf(ds, s) + InfosOf(es, s)
  {
    if ds == [] {
      assert ds + es == es;
    } else {
      InfosOfConcat(ds[1..], es, s);
      assert (ds + es)[0] == ds[0] && (ds + es)[1..] == ds[1..] + es;
      var head := if ds[0].sig == s then [ds[0].info] else [];
      assert head + (InfosOf(ds[1..], s) + InfosOf(es, s)) == (head + InfosOf(ds[1..], s)) + InfosOf(es, s);
    }
  }

  lemma {:induction false} InfosOfOne(ds: seq<Delivery>, r: int, s: int)
    requires forall k :: 0 <= k < |ds| ==> ds[k].sig == r
    ensures InfosOf(ds, s) == if r == s then seq(|ds|, k requires 0 <= k < |ds| => ds[k].info) else []
  {
    if ds != [] {
      InfosOfOne(ds[1..], r, s);
    }
  }

  /** List r holds deliveries of signal from + r. */
  ghost predicate Numbered(dss: seq<seq<Delivery>>, from: int) {
    forall r, k :: 0 <= r < |dss| && 0 <= k < |dss[r]| ==> dss[r][k].sig == from + r
  }

  lemma {:induction false} FlattenNumbered(dss: seq<seq<Delivery>>, from: int)
    requires Numbered(dss, from)
    ensures ByNumber(Flatten(dss))
    ensures forall k :: 0 <= k < |Flatten(dss)| ==> from <= Flatten(dss)[k].sig < from + |dss|
  {
    if dss != [] {
      FlattenNumbered(dss[1..], from + 1);
    }
  }

  lemma {:induction false} FlattenInfos(dss: seq<seq<Delivery>>, from: int, s: int)
    requires Numbered(dss, from)
    ensures InfosOf(Flatten(dss), s) == if from <= s < from + |dss| then InfosOf(dss[s - from], s) else []
  {
    if dss != [] {
      FlattenInfos(dss[1..], from + 1, s);
      InfosOfConcat(dss[0], Flatten(dss[1..]), s);
      InfosOfOne(dss[0], from, s);
    }
  }

  lemma {:induction false} FlattenTreated(dss: seq<seq<Delivery>>, actions: seq<Action>, mask: set<int>)
    requires forall r :: 0 <= r < |dss| ==> AllTreated(dss[r], actions, mask)
    ensures AllTreated(Flatten(dss), actions, mask)
  {
    if dss != [] {
      FlattenTreated(dss[1..], actions, mask);
    }
  }

  lemma FlattenRight(dss: seq<seq<Delivery>>, actions: seq<Action>, mask: set<int>)
    requires |dss| == |actions| && Numbered(dss, 0)
    requires forall r :: 0 <= r < |dss| ==> AllTreated(dss[r], actions, mask)
    ensures AllTreated(Flatten(dss), actions, mask) && ByNumber(Flatten(dss))
    ensures forall s :: 0 <= s < |actions| ==> InfosOf(Flatten(dss), s) == InfosOf(dss[s], s)
  {
    FlattenNumbered(dss, 0);
    FlattenTreated(dss, actions, mask);
    forall s | 0 <= s < |actions| ensures InfosOf(Flatten(dss), s) == InfosOf(dss[s], s) {
      FlattenInfos(dss, 0, s);
    }
  }

  lemma DueForTreated(st: State, actions: seq<Action>, mask: set<int>, task: int, s: int)
    requires Shape(st) && |actions| == |st.queues| && 0 <= s < |actions|
    ensures var due := DueFor(st, actions[s], mask, task, s);
            AllTreated(due, actions, mask) && forall k :: 0 <= k < |due| ==> due[k].sig == s
  {
  }

  lemma DueForInfos(st: State, act: Action, mask: set<int>, task: int, s: int)
    requires Shape(st) && 0 <= s < |st.queues|
    ensures InfosOf(DueFor(st, act, mask, task, s), s) == OpenInfos(st, mask, task, s)
  {
    InfosOfOne(DueFor(st, act, mask, task, s), s, s);
  }

  /** What is due for process signals. */
  lemma DueRight(st: State, actions: seq<Action>, mask: set<int>, task: int)
    requires Shape(st) && |actions| == |st.queues|
    ensures AllTreated(Due(st, actions, mask, task), actions, mask) && ByNumber(Due(st, actions, mask, task))
    ensures forall s :: 0 <= s < |actions| ==>
              InfosOf(Due(st, actions, mask, task), s) == OpenInfos(st, mask, task, s)
  {
    var dss := DueByNumber(st, actions, mask, task);
    forall s | 0 <= s < |actions|
      ensures AllTreated(dss[s], actions, mask) && InfosOf(dss[s], s) == OpenInfos(st, mask, task, s)
      ensures forall k :: 0 <= k < |dss[s]| ==> dss[s][k].sig == s
    {
      DueForTreated(st, actions, mask, task, s);
      DueForInfos(st, actions[s], mask, task, s);
    }
    FlattenRight(dss, actions, mask);
  }

  lemma OwnForRight(pending: set<int>, actions: seq<Action>, mask: set<int>, task: int, s: int)
    requires 0 <= s < |actions|
    ensures var due := OwnByNumber(pending, actions, mask, task)[s];
            && AllTreated(due, actions, mask) && (forall k :: 0 <= k < |due| ==> due[k].sig == s)
            && InfosOf(due, s) == if s in pending && s !in mask then [Info(s, SI_USER, 0, task)] else []
  {
    InfosOfOne(OwnByNumber(pending, actions, mask, task)[s], s, s);
  }

  /** What is due for the signals of the task itself. */
  lemma OwnDueRight(pending: set<int>, actions: seq<Action>, mask: set<int>, task: int)
    ensures AllTreated(OwnDue(pending, actions, mask, task), actions, mask)
    ensures ByNumber(OwnDue(pending, actions, mask, task))
    ensures forall s :: 0 <= s < |actions| ==>
              InfosOf(OwnDue(pending, actions, mask, task), s)
              == if s in pending && s !in mask then [Info(s, SI_USER, 0, task)] else []
  {
    var dss := OwnByNumber(pending, actions, mask, task);
    forall s | 0 <= s < |actions|
      ensures AllTreated(dss[s], actions, mask)
      ensures InfosOf(dss[s], s) == if s in pending && s !in mask then [Info(s, SI_USER, 0, task)] else []
      ensures forall k :: 0 <= k < |dss[s]| ==> dss[s][k].sig == s
    {
      OwnForRight(pending, actions, mask, task, s);
    }
    FlattenRight(dss, actions, mask);
  }

  lemma TogetherRight(due: seq<Delivery>, rest: seq<Delivery>, st: State, own: set<int>, actions: seq<Action>,
                      mask: set<int>, task: int)
    requires Shape(st) && |actions| == |st.queues|
    requires AllTreated(due, actions, mask) && ByNumber(due) && AllTreated(rest, actions, mask) && ByNumber(rest)
    requires forall s :: 0 <= s < |actions| ==> InfosOf(due, s) == OpenInfos(st, mask, task, s)
    requires forall s :: 0 <= s < |actions| ==>
               InfosOf(rest, s)
               == if s in own - (st.pending - mask) && s !in mask then [Info(s, SI_USER, 0, task)] else []
    ensures DeliveredRight(due + rest, |due|, st, own, actions, mask, task)
  {
    assert (due + rest)[..|due|] == due && (due + rest)[|due|..] == rest;
  }

  lemma AllDueRight(before: seq<Delivery>, log: seq<Delivery>, st: State, own: set<int>, actions: seq<Action>,
                    mask: set<int>, task: int)
    requires Shape(st) && |actions| == |st.queues|
    requires log == before + Due(st, actions, mask, task) + OwnDue(own - (st.pending - mask), actions, mask, task)
    ensures before <= log
    ensures DeliveredRight(log[|before|..], |Due(st, actions, mask, task)|, st, own, actions, mask, task)
  {
    var due, rest := Due(st, actions, mask, task), OwnDue(own - (st.pending - mask), actions, mask, task);
    assert log[|before|..] == due + rest;
    DueRight(st, actions, mask, task);
    OwnDueRight(own - (st.pending - mask), actions, mask, task);
    TogetherRight(due, rest, st, own, actions, mask, task);
  }

  /** The position of the first bit that is set, 0 when none is. */
  method Ffs(value: set<int>, ghost width: nat) returns (x: int)
    requires Bounded(value, width)
    ensures value == {} ==> x == 0
    ensures value != {} ==> Least(x, value)
  {
    x := 0;
    while value != {}
      invariant forall r :: r in value ==> x <= r
      invariant value == {} ==> x == 0
      decreases width - x
    {
      if x in value { return; }
      x := x + 1;
    }
  }

  /** The running task. */
  class Task {
    const table: SignalTable
    const self: int
    var sigMask: set<int>
    var sigPending: set<int>
    var doingSignals: bool
    ghost var log: seq<Delivery>

    /** Signal sets hold signal numbers only.  A signal whose action is the default one is blocked: what the
        code does with those is not part of this model. */
    ghost predicate Valid()
      reads this, table, table.next, table.infos, table.flags, table.sigQueued, table.timers, table.actions
    {
      && table.Valid() && Inv(table.Abs())
      && Bounded(table.procSigPending, table.actions.Length) && Bounded(sigPending, table.actions.Length)
      && forall s :: s in (table.procSigPending + sigPending) - sigMask && 0 <= s < table.actions.Length ==>
           table.actions[s].siginfo || table.actions[s].handler != Default
    }

    constructor (table: SignalTable, self: int, sigMask: set<int>)
      ensures this.table == table && this.self == self && this.sigMask == sigMask
      ensures sigPending == {} && !doingSignals && log == []
    {
      this.table, this.self, this.sigMask := table, self, sigMask;
      sigPending, doingSignals, log := {}, false, [];
    }

    /** The handler runs with the signal and the action's own mask blocked; the task's mask is then restored. */
    method ReallyDeliverSignal(sig: int, info: Info)
      requires 0 <= sig < table.actions.Length
      requires table.actions[sig].siginfo || table.actions[sig].handler != Default
      modifies `sigMask, `sigPending, `log
      ensures sigMask == old(sigMask)
      ensures sigPending == old(sigPending) - {sig}
      ensures log == old(log) + [Outcome(table.actions[sig], sigMask, sig, info)]
      ensures log[|old(log)|].sig == sig && log[|old(log)|].info == info
      ensures Treated(log[|old(log)|], table.actions[sig], sigMask)
    {
      var act := table.actions[sig];
      if !act.siginfo && (act.handler == Ignore || act.handler == Error) {
        sigPending := sigPending - {sig};
        log := log + [Dropped(sig, info)];
        return;
      }
      var oldMask := sigMask;
      sigPending := sigPending - {sig};
      sigMask := sigMask + {sig} + act.mask;
      log := log + [Handled(sig, info, sigMask)];
      sigMask := oldMask;
    }

    /** kern_deliver_process_signal. */
    method DeliverProcessSignal(sig: int)
      requires Valid() && Least(sig, table.procSigPending - sigMask)
      modifies this`sigMask, this`sigPending, this`log
      modifies table`sigQueueFree, table`procSigPending, table`free, table`queues, table`place
      modifies table.next, table.flags, table.sigQueued
      ensures Valid() && sigMask == old(sigMask) && sigPending == old(sigPending) - {sig}
      ensures old(|table.queues|) == table.actions.Length
      ensures table.Abs() == Deliver(old(table.Abs()), sig)
      ensures log == old(log)
                     + [Outcome(table.actions[sig], sigMask, sig, Occurrences(old(table.Abs()), sig, self)[0])]
    {
      DeliverInv(table.Abs(), sig);
      var info := table.Take(sig, self);
      ReallyDeliverSignal(sig, info);
    }

    /** The loop over the process signals. */
    method DeliverProcessSignals()
      requires Valid()
      modifies this`sigMask, this`sigPending, this`log
      modifies table`sigQueueFree, table`procSigPending, table`free, table`queues, table`place
      modifies table.next, table.flags, table.sigQueued
      ensures Valid() && sigMask == old(sigMask)
      ensures log == old(log) + Due(old(table.Abs()), table.actions[..], sigMask, self)
      ensures table.procSigPending == old(table.procSigPending) * sigMask
      ensures |table.queues| == |old(table.queues)|
      ensures forall s :: 0 <= s < |table.queues| ==>
                table.queues[s] == if s in sigMask then old(table.queues[s]) else []
      ensures sigPending == old(sigPending) - (old(table.procSigPending) - sigMask)
    {
      ghost var first, actions := table.Abs(), table.actions[..];
      ghost var all := old(log) + Due(first, actions, sigMask, self);
      while table.procSigPending - sigMask != {}
        invariant Valid() && sigMask == old(sigMask)
        invariant Round(first, old(sigPending), all, table.Abs(), sigPending, log, actions, sigMask, self)
        decreases |Due(table.Abs(), actions, sigMask, self)|
      {
        var sig := Ffs(table.procSigPending - sigMask, table.actions.Length);
        RoundStep(first, old(sigPending), all, table.Abs(), sigPending, log, actions, sigMask, self, sig);
        DeliverProcessSignal(sig);
      }
      RoundEnd(first, old(sigPending), all, table.Abs(), sigPending, log, actions, sigMask, self);
      BetweenEnd(first, old(sigPending), table.Abs(), sigPending, sigMask);
    }

    /** The loop over the signals of the task itself. */
    method DeliverOwnSignals()
      requires Valid() && table.procSigPending - sigMask == {}
      modifies `sigMask, `sigPending, `log
      ensures Valid() && sigMask == old(sigMask)
      ensures log == old(log) + OwnDue(old(sigPending), table.actions[..], sigMask, self)
      ensures sigPending == old(sigPending) * sigMask
    {
      ghost var actions := table.actions[..];
      ghost var all := log + OwnDue(sigPending, actions, sigMask, self);
      while sigPending - sigMask != {}
        invariant Valid() && sigMask == old(sigMask) && sigPending <= old(sigPending)
        invariant forall s :: s in old(sigPending) && s in sigMask ==> s in sigPending
        invariant log + OwnDue(sigPending, actions, sigMask, self) == all
        decreases |OwnDue(sigPending, actions, sigMask, self)|
      {
        var sig := Ffs(sigPending - sigMask, table.actions.Length);
        OwnStep(all, log, sigPending, actions, sigMask, self, sig);
        ReallyDeliverSignal(sig, Info(sig, SI_USER, 0, self));
      }
      OwnEnd(all, log, old(sigPending), sigPending, actions, sigMask, self);
    }

    /** kern_deliver_pending_signals: everything unblocked is delivered, process signals before the task's own,
        each group by number and each number in the order of queueing; nothing unblocked stays pending, nothing
        blocked is touched, and the mask is what it was. */
    method DeliverPendingSignals()
      requires Valid()
      modifies this`sigMask, this`sigPending, this`log, this`doingSignals
      modifies table`sigQueueFree, table`procSigPending, table`free, table`queues, table`place
      modifies table.next, table.flags, table.sigQueued
      ensures Valid() && sigMask == old(sigMask) && doingSignals == old(doingSignals)
      ensures old(doingSignals) ==> log == old(log) && table.Abs() == old(table.Abs()) && sigPending == old(sigPending)
      ensures !old(doingSignals) ==>
                log == old(log)
                       + Due(old(table.Abs()), table.actions[..], sigMask, self)
                       + OwnDue(old(sigPending) - (old(table.procSigPending) - sigMask),
                                table.actions[..], sigMask, self)
      ensures !old(doingSignals) ==>
                && table.procSigPending == old(table.procSigPending) * sigMask
                && sigPending == old(sigPending) * sigMask - (old(table.procSigPending) - sigMask)
                && |table.queues| == |old(table.queues)|
                && forall s :: 0 <= s < |table.queues| ==>
                     table.queues[s] == if s in sigMask then old(table.queues[s]) else []
      ensures !old(doingSignals) ==>
                && old(log) <= log
                && exists n: nat :: DeliveredRight(log[|old(log)|..], n, old(table.Abs()), old(sigPending),
                                                   table.actions[..], sigMask, self)
    {
      if doingSignals { return; }
      doingSignals := true;
      DeliverProcessSignals();
      DeliverOwnSignals();
      doingSignals := false;
      AllDueRight(old(log), log, old(table.Abs()), old(sigPending), table.actions[..], sigMask, self);
    }
  }
}
