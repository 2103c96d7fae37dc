/** The code of the signal queue and the timers: sigqueue_internal, the dequeueing shared by delivery and
    sigwait, delivery itself (rtos/kernel/signal.c), and timer_create, timer_delete and timer_timerfire
    (rtos/kernel/time.c), over the linked entries of sig_queue. */
module SignalCode {
  import opened IndexLists
  import opened SignalTables

  /** The links, the free-list head and the queue heads spell out the lists of st. */
  ghost predicate Spelled(next: seq<int>, freeHead: int, heads: seq<int>, st: State) {
    && |next| == |st.flags| && |heads| == |st.queues|
    && Forward(next, st.free) && freeHead == At(st.free, 0)
    && (forall s :: 0 <= s < |heads| ==> Forward(next, st.queues[s]) && heads[s] == At(st.queues[s], 0))
  }

  /** Pushing an entry that is on no list. */
  lemma PushSpelled(next: seq<int>, freeHead: int, heads: seq<int>, st: State, i: int)
    requires Spelled(next, freeHead, heads, st) && ListsOk(st) && 0 <= i < |next| && st.place[i] == WithTimer
    ensures Spelled(next[i := freeHead], i, heads, st.(free := [i] + st.free, place := st.place[i := OnFree]))
  {
    assert Placed(st, i);
    ForwardPush(next, st.free, i);
    forall s | 0 <= s < |heads| ensures Forward(next[i := freeHead], st.queues[s]) {
      ForwardFrame(next, st.queues[s], i, freeHead);
    }
  }

  /** Moving the head of the free list to the tail of an empty queue. */
  lemma FirstSpelled(next: seq<int>, freeHead: int, heads: seq<int>, st: State, info: Info)
    requires Spelled(next, freeHead, heads, st) && ListsOk(st) && st.free != []
    requires 0 <= info.signo < |heads| && st.queues[info.signo] == []
    ensures Spelled(next[freeHead := NIL], next[freeHead], heads[info.signo := freeHead], Enqueue(st, info))
  {
    var i := st.free[0];
    assert Placed(st, i);
    HeadAndTail(st.free, i);
    ForwardTail(next, st.free);
    ForwardFrame(next, st.free[1..], i, NIL);
    forall s | 0 <= s < |heads| && s != info.signo ensures Forward(next[i := NIL], st.queues[s]) {
      ForwardFrame(next, st.queues[s], i, NIL);
    }
  }

  /** Moving it behind the last entry of a queue. */
  lemma AppendSpelled(next: seq<int>, freeHead: int, heads: seq<int>, st: State, info: Info, last: int)
    requires Spelled(next, freeHead, heads, st) && ListsOk(st) && st.free != []
    requires 0 <= info.signo < |heads| && st.queues[info.signo] != []
    requires last == st.queues[info.signo][|st.queues[info.signo]| - 1]
    ensures 0 <= last < |next|
    ensures Spelled(next[freeHead := NIL][last := freeHead], next[freeHead], heads, Enqueue(st, info))
  {
    var i, q := st.free[0], st.queues[info.signo];
    assert last in q;
    assert Placed(st, i) && Placed(st, last);
    HeadAndTail(st.free, i);
    HeadAndTail(st.free, last);
    ForwardTail(next, st.free);
    ForwardAppend(next, q, i);
    ForwardFrame(next, st.free[1..], i, NIL);
    ForwardFrame(next[i := NIL], st.free[1..], last, i);
    forall s | 0 <= s < |heads| && s != info.signo ensures Forward(next[i := NIL][last := i], st.queues[s]) {
      ForwardFrame(next, st.queues[s], i, NIL);
      ForwardFrame(next[i := NIL], st.queues[s], last, i);
    }
  }

  /** Taking the head off a queue, which leaves that entry on no list. */
  lemma PopSpelled(next: seq<int>, freeHead: int, heads: seq<int>, st: State, s: int)
    requires Spelled(next, freeHead, heads, st) && ListsOk(st) && 0 <= s < |heads| && st.queues[s] != []
    ensures 0 <= heads[s] < |next|
    ensures Popped(next, freeHead, heads[s := next[heads[s]]], st, s)
  {
    ForwardTail(next, st.queues[s]);
  }

  /** The state with the head of queue s on no list. */
  ghost predicate Popped(next: seq<int>, freeHead: int, heads: seq<int>, st: State, s: int)
    requires 0 <= s < |st.queues| && st.queues[s] != []
  {
    Spelled(next, freeHead, heads, st.(queues := st.queues[s := st.queues[s][1..]]))
  }

  /** Pushing that entry on the free list. */
  lemma RecycleSpelled(next: seq<int>, freeHead: int, heads: seq<int>, st: State, s: int)
    requires ListsOk(st) && 0 <= s < |st.queues| && st.queues[s] != [] && Popped(next, freeHead, heads, st, s)
    ensures 0 <= st.queues[s][0] < |next|
    ensures var i := st.queues[s][0];
            Spelled(next[i := freeHead], i, heads,
                    st.(queues := st.queues[s := st.queues[s][1..]], free := [i] + st.free))
  {
    var i := st.queues[s][0];
    HeadAndTail(st.queues[s], i);
    assert Placed(st, i);
    ForwardPush(next, st.free, i);
    var queues := st.queues[s := st.queues[s][1..]];
    forall r | 0 <= r < |heads| ensures Forward(next[i := freeHead], queues[r]) {
      ForwardFrame(next, queues[r], i, freeHead);
    }
  }

  // ---------- the loop of sigaction that drops pending entries ----------

  datatype Cells = Cells(next: seq<int>, freeHead: int, flags: seq<Flags>)

  /** One round.  It gives the entry at the head back, but the head of the queue stays where it is. */
  function DropRound(c: Cells, head: int): (c': Cells)
    requires 0 <= head < |c.next| == |c.flags|
    ensures |c'.next| == |c'.flags| == |c.next|
  {
    if c.flags[head].usedForTimer then c.(flags := c.flags[head := c.flags[head].(posted := false)])
    else c.(next := c.next[head := c.freeHead], freeHead := head)
  }

  function DropRounds(c: Cells, head: int, r: nat): (c': Cells)
    requires 0 <= head < |c.next| == |c.flags|
    ensures |c'.next| == |c'.flags| == |c.next|
  {
    if r == 0 then c else DropRound(DropRounds(c, head, r - 1), head)
  }

  /** What round r reads before it writes: the link of the head.  The loop stops after the first round that reads
      NIL. */
  function Reads(c: Cells, head: int, r: nat): int
    requires 0 <= head < |c.next| == |c.flags| && r > 0
  {
    DropRounds(c, head, r - 1).next[head]
  }

  predicate StopsAfter(c: Cells, head: int, r: nat)
    requires 0 <= head < |c.next| == |c.flags|
  {
    r > 0 && Reads(c, head, r) == NIL && forall q: nat :: 0 < q < r ==> Reads(c, head, q) != NIL
  }

  /** A timer's entry keeps its link, so every round reads the same.  Any other entry is linked to the free list by the
      first round and to itself by the second. */
  lemma {:induction false} DropReads(c: Cells, head: int, r: nat)
    requires 0 <= head < |c.next| == |c.flags| && r > 0
    ensures c.flags[head].usedForTimer ==>
              && DropRounds(c, head, r).next == c.next && DropRounds(c, head, r).freeHead == c.freeHead
              && DropRounds(c, head, r).flags == c.flags[head := c.flags[head].(posted := false)]
              && Reads(c, head, r) == c.next[head]
    ensures !c.flags[head].usedForTimer ==>
              && DropRounds(c, head, r).flags == c.flags && DropRounds(c, head, r).freeHead == head
              && Reads(c, head, r) == (if r == 1 then c.next[head] else if r == 2 then c.freeHead else head)
              && DropRounds(c, head, r).next[head] == if r == 1 then c.freeHead else head
  {
    if r > 1 {
      DropReads(c, head, r - 1);
    } else {
      assert DropRounds(c, head, 1) == DropRound(c, head);
    }
  }

  /** What the loop is for: the queue is empty, the other queues are as before, and no entry is lost. */
  ghost predicate Leaves(c: Cells, heads: seq<int>, st: State, s: int, st': State)
    requires 0 <= s < |heads| == |st.queues|
  {
    && Spelled(c.next, c.freeHead, heads[s := NIL], st') && c.flags == st'.flags && Inv(st')
    && st'.queues == st.queues[s := []]
  }

  ghost predicate DropsRight(c: Cells, heads: seq<int>, st: State, s: int)
    requires 0 <= s < |heads| == |st.queues| && |c.next| == |c.flags| && (heads[s] == NIL || 0 <= heads[s] < |c.next|)
  {
    heads[s] == NIL
    || exists r: nat, st' :: StopsAfter(c, heads[s], r) && Leaves(DropRounds(c, heads[s], r), heads, st, s, st')
  }

  lemma DropsOne(c: Cells, heads: seq<int>, st: State, s: int)
    requires Spelled(c.next, c.freeHead, heads, st) && c.flags == st.flags && Inv(st)
    requires 0 <= s < |heads| && |st.queues[s]| == 1
    ensures 0 <= heads[s] < |c.next| && StopsAfter(c, heads[s], 1)
    ensures Leaves(DropRounds(c, heads[s], 1), heads, st, s, Deliver(st, s))
  {
    var head := heads[s];
    DeliverInv(st, s);
    PopSpelled(c.next, c.freeHead, heads, st, s);
    assert c.next[st.queues[s][0]] == At(st.queues[s], 1);
    RecycleSpelled(c.next, c.freeHead, heads[s := NIL], st, s);
    assert DropRounds(c, head, 1) == DropRound(DropRounds(c, head, 0), head) == DropRound(c, head);
    assert st.queues[s][1..] == [];
  }

  lemma DropsNotMore(c: Cells, heads: seq<int>, st: State, s: int, r: nat, st': State)
    requires Spelled(c.next, c.freeHead, heads, st) && c.flags == st.flags && Inv(st)
    requires 0 <= s < |heads| && |st.queues[s]| > 1 && 0 <= heads[s] < |c.next| && StopsAfter(c, heads[s], r)
    ensures !Leaves(DropRounds(c, heads[s], r), heads, st, s, st')
  {
    var head, q := heads[s], st.queues[s];
    assert c.next[q[0]] == At(q, 1) == q[1] != NIL;
    DropReads(c, head, r);
    assert r == 2 && !c.flags[head].usedForTimer;
  }

  /** The loop ends with the queue empty and every entry in its place exactly when the queue had at most one entry. */
  lemma DropsExactly(c: Cells, heads: seq<int>, st: State, s: int)
    requires Spelled(c.next, c.freeHead, heads, st) && c.flags == st.flags && Inv(st) && 0 <= s < |heads|
    ensures heads[s] == NIL || 0 <= heads[s] < |c.next|
    ensures DropsRight(c, heads, st, s) <==> |st.queues[s]| <= 1
  {
    if |st.queues[s]| == 1 {
      DropsOne(c, heads, st, s);
    } else if |st.queues[s]| > 1 {
      forall r: nat, st' | StopsAfter(c, heads[s], r)
        ensures !Leaves(DropRounds(c, heads[s], r), heads, st, s, st')
      {
        DropsNotMore(c, heads, st, s, r, st');
      }
    }
  }

  /** The cells after two calls of sigqueue, in which the loop goes wrong. */
  lemma DropCanGoWrong() returns (es: seq<Event>, c: Cells, heads: seq<int>)
    ensures var first := World(Initial(2, 2, 0), ACTIONS);
            PROTOCOL.Feasible(first, es) && PROTOCOL.Run(first, es) == World(TWO_QUEUED, ACTIONS)
    ensures Spelled(c.next, c.freeHead, heads, TWO_QUEUED) && c.flags == TWO_QUEUED.flags && heads == [NIL, 0]
    ensures Inv(TWO_QUEUED) && !DropsRight(c, heads, TWO_QUEUED, 1)
  {
    es := TwoCanBeQueued();
    c, heads := Cells([1, NIL], NIL, TWO_QUEUED.flags), [NIL, 0];
    DropsExactly(c, heads, TWO_QUEUED, 1);
  }

  class SignalTable {
    // the fields of sig_queue, one array each
    const next: array<int>
    const infos: array<Info>
    const flags: array<Flags>
    var sigQueueFree: int
    const sigQueued: array<int>
    var procSigPending: set<int>
    const actions: array<Action>
    const timers: array<Timer>

    ghost var free: seq<int>
    ghost var queues: seq<seq<int>>
    ghost var place: seq<Place>
    ghost var holder: seq<int>

    ghost function Abs(): State
      reads this, infos, flags, timers
    {
      State(free, queues, flags[..], infos[..], procSigPending, timers[..], place, holder)
    }

    ghost predicate Valid()
      reads this, next, infos, flags, sigQueued, timers
    {
      && next != sigQueued
      && sigQueued.Length == actions.Length
      && ListsOk(Abs())
      && Spelled(next[..], sigQueueFree, sigQueued[..], Abs())
    }

    /** signals_init: every entry on the free list, every queue empty. */
    constructor (entries: nat, acts: seq<Action>, timerMax: nat)
      ensures Valid() && Inv(Abs()) && actions[..] == acts
      ensures Abs() == Initial(entries, |acts|, timerMax)
      ensures fresh(next) && fresh(infos) && fresh(flags) && fresh(sigQueued) && fresh(timers)
    {
      next := new int[entries](i => if i + 1 < entries then i + 1 else NIL);
      infos := new Info[entries](_ => Info(0, SI_USER, 0, NIL));
      flags := new Flags[entries](_ => Flags(false, false));
      sigQueueFree := if entries > 0 then 0 else NIL;
      sigQueued := new int[|acts|](_ => NIL);
      procSigPending := {};
      actions := new Action[|acts|](i requires 0 <= i < |acts| => acts[i]);
      timers := new Timer[timerMax](_ => Timer(false, SIGEV_NONE, 0, 0, NIL, 0, 0));
      free, queues := seq(entries, i => i), seq(|acts|, _ => []);
      place, holder := seq(entries, _ => OnFree), seq(entries, _ => NIL);
      new;
      InitialInv(entries, |acts|, timerMax);
      assert Abs() == Initial(entries, |acts|, timerMax);
    }

    /** The walk to the tail of a queue. */
    method LastOf(signo: int) returns (sos: int)
      requires Valid() && 0 <= signo < |queues| && queues[signo] != []
      ensures sos == queues[signo][|queues[signo]| - 1]
    {
      sos := sigQueued[signo];
      ghost var q, k := queues[signo], 0;
      while next[sos] != NIL
        invariant 0 <= k < |q| && sos == q[k]
        decreases |q| - k
      {
        assert next[..][q[k]] == At(q, k + 1);
        sos := next[sos];
        k := k + 1;
      }
      assert next[..][q[k]] == At(q, k + 1);
    }

    /** Move the head of the free list to the tail of the queue of its signal.  The code clears the link
        of the entry before it looks for the tail; the entry is not on the queue, so either order will do. */
    method PutAtTail(info: Info)
      requires Valid() && sigQueueFree != NIL && 0 <= info.signo < |queues|
      modifies `sigQueueFree, `procSigPending, `free, `queues, `place, next, infos, sigQueued
      ensures Valid() && old(free) != []
      ensures Abs() == Enqueue(old(Abs()), info)
    {
      ghost var st, links, heads := Abs(), next[..], sigQueued[..];
      EnqueueLists(st, info);
      var signo, thingie := info.signo, sigQueueFree;
      var last := NIL;
      if sigQueued[signo] != NIL {
        last := LastOf(signo);
        AppendSpelled(links, thingie, heads, st, info, last);
      } else {
        FirstSpelled(links, thingie, heads, st, info);
      }
      sigQueueFree := next[sigQueueFree];
      infos[thingie] := info;
      next[thingie] := NIL;
      if last == NIL {
        sigQueued[signo] := thingie;
      } else {
        next[last] := thingie;
      }
      procSigPending := procSigPending + {signo};
      free, queues, place := free[1..], queues[signo := queues[signo] + [thingie]], place[thingie := Queued(signo)];
      assert Abs() == Enqueue(st, info);
    }

    /** The number is valid and not 0, and the signal is queued with its information or neither ignored nor pending. */
    predicate WouldQueue(pending: set<int>, signo: int)
      reads actions
    {
      && 0 < signo < actions.Length
      && (actions[signo].siginfo || (actions[signo].handler != Ignore && signo !in pending))
    }

    /** sigqueue_internal, up to the choice of the task that will take the signal. */
    method SigQueueInternal(info: Info) returns (ret: Answer)
      requires Valid()
      modifies `sigQueueFree, `procSigPending, `free, `queues, `place, next, infos, sigQueued
      ensures Valid()
      ensures Abs() == SigQueue(old(Abs()), actions[..], info).0
      ensures ret == SigQueue(old(Abs()), actions[..], info).1
      ensures |old(queues)| == actions.Length
      ensures ret == EINVAL <==> info.signo < 0 || (info.signo >= actions.Length && info.signo != 0)
      ensures ret == EAGAIN <==> WouldQueue(old(procSigPending), info.signo) && old(free) == []
      ensures WouldQueue(old(procSigPending), info.signo) && old(free) != [] ==>
                && 0 <= old(free[0]) < infos.Length
                && queues == old(queues)[info.signo := old(queues)[info.signo] + [old(free[0])]]
                && infos[..] == old(infos[..])[old(free[0]) := info]
                && free == old(free[1..]) && procSigPending == old(procSigPending) + {info.signo}
      ensures ret != OK || !WouldQueue(old(procSigPending), info.signo) ==> Abs() == old(Abs())
    {
      if info.signo == 0 { return OK; }
      if info.signo < 0 || info.signo >= sigQueued.Length { return EINVAL; }
      var act := actions[info.signo];
      if !act.siginfo && act.handler == Ignore { return OK; }
      if !act.siginfo && info.signo in procSigPending { return OK; }
      if sigQueueFree == NIL { return EAGAIN; }
      PutAtTail(info);
      return OK;
    }

    /** The shared part of delivery and sigwait: grab the first entry of a queue, clear the pending bit if it
        was the last one, and give the entry back. */
    method TakeFirst(sig: int) returns (info: Info)
      requires Valid() && 0 <= sig < |queues| && queues[sig] != []
      modifies `sigQueueFree, `procSigPending, `free, `queues, `place, next, flags, sigQueued
      ensures Valid()
      ensures Abs() == Dequeue(old(Abs()), sig)
      ensures info == old(Abs().infos[queues[sig][0]])
    {
      ghost var st, links, heads := Abs(), next[..], sigQueued[..];
      DequeueLists(st, sig);
      PopSpelled(links, sigQueueFree, heads, st, sig);
      var thingie := sigQueued[sig];
      sigQueued[sig] := next[sigQueued[sig]];
      RecycleSpelled(links, sigQueueFree, sigQueued[..], st, sig);
      if sigQueued[sig] == NIL {
        procSigPending := procSigPending - {sig};
      }
      info := infos[thingie];
      queues := queues[sig := queues[sig][1..]];
      if flags[thingie].usedForTimer {
        flags[thingie] := flags[thingie].(posted := false);
        place := place[thingie := WithTimer];
      } else {
        next[thingie] := sigQueueFree;
        sigQueueFree := thingie;
        free, place := [thingie] + free, place[thingie := OnFree];
      }
      assert Abs() == Dequeue(st, sig);
    }

    /** The occurrence of a pending signal that comes first: a queued one, or that of a kill(). */
    method Take(sig: int, task: int) returns (info: Info)
      requires Valid() && 0 <= sig < |queues|
      modifies `sigQueueFree, `procSigPending, `free, `queues, `place, next, flags, sigQueued
      ensures Valid()
      ensures Abs() == Deliver(old(Abs()), sig)
      ensures info == Occurrences(old(Abs()), sig, task)[0]
      ensures old(queues)[sig] == [] ==> info == Info(sig, SI_USER, 0, task) && queues == old(queues)
      ensures old(queues)[sig] != [] ==>
                && 0 <= old(queues)[sig][0] < infos.Length && info == infos[old(queues)[sig][0]]
                && queues == old(queues)[sig := old(queues)[sig][1..]]
      ensures procSigPending == if |old(queues)[sig]| > 1 then old(procSigPending) else old(procSigPending) - {sig}
    {
      if sigQueued[sig] == NIL {
        SameLists(Abs(), Abs().(pending := Abs().pending - {sig}));
        procSigPending := procSigPending - {sig};
        info := Info(sig, SI_USER, 0, task);
      } else {
        info := TakeFirst(sig);
      }
    }

    ghost function Links(): Cells
      reads this, next, flags
    {
      Cells(next[..], sigQueueFree, flags[..])
    }

    /** The loop of sigaction and what follows it.  On a queue of two or more entries the loop may never end, so at most
        `rounds` of its rounds are watched.  DropsExactly says when what it does is right. */
    method DropPending(sig: int, rounds: nat) returns (ended: bool)
      requires Valid() && Inv(Abs()) && 0 <= sig < |queues|
      modifies `sigQueueFree, `procSigPending, `free, `queues, `place, next, flags, sigQueued
      ensures sigQueued.Length == |old(queues)| && (old(queues)[sig] == [] <==> old(sigQueued[sig]) == NIL)
      ensures |old(queues)[sig]| <= 1 && rounds > 0 ==> ended && Valid() && Abs() == Deliver(old(Abs()), sig)
      ensures old(queues)[sig] != [] ==>
                && 0 <= old(sigQueued[sig]) < |old(Links()).next| == |old(Links()).flags|
                && exists r: nat :: r <= rounds && Links() == DropRounds(old(Links()), old(sigQueued[sig]), r)
                                    && (if ended then StopsAfter(old(Links()), old(sigQueued[sig]), r) else r == rounds)
      ensures ended ==> sigQueued[..] == old(sigQueued[..])[sig := NIL]
    {
      ghost var st, c, heads := Abs(), Links(), sigQueued[..];
      ghost var head := sigQueued[sig];
      assert queues[sig] != [] ==> head == queues[sig][0] && queues[sig][0] in queues[sig];
      if |queues[sig]| == 1 {
        DropsOne(c, heads, st, sig);
      }
      var sos, r := sigQueued[sig], 0;
      while sos != NIL && r < rounds
        invariant sigQueued[..] == heads && r <= rounds && (head == NIL ==> sos == NIL && r == 0 && Links() == c)
        invariant head != NIL ==> Links() == DropRounds(c, head, r)
        invariant head != NIL ==> sos == if r == 0 then head else Reads(c, head, r)
        invariant head != NIL ==> forall q: nat :: 0 < q < r ==> Reads(c, head, q) != NIL
        invariant procSigPending == old(procSigPending)
        invariant free == old(free) && queues == old(queues) && place == old(place)
        decreases rounds - r
      {
        sos := next[sigQueued[sig]];
        if flags[sigQueued[sig]].usedForTimer {
          flags[sigQueued[sig]] := flags[sigQueued[sig]].(posted := false);
        } else {
          next[sigQueued[sig]] := sigQueueFree;
          sigQueueFree := sigQueued[sig];
        }
        r := r + 1;
      }
      ended := sos == NIL;
      if ended {
        sigQueued[sig] := NIL;
        procSigPending := procSigPending - {sig};
        if |queues[sig]| <= 1 {
          if head != NIL {
            assert r == 1;
          }
          var st' := Deliver(st, sig);
          free, queues, place := st'.free, st'.queues, st'.place;
          assert Abs() == st';
          DeliverInv(st, sig);
        }
      }
    }

    /** sigaction for signal sig, which need not be a valid number. */
    method SigAction(sig: int, act: Action, rounds: nat) returns (ret: Answer, ended: bool)
      requires Valid() && Inv(Abs())
      modifies `sigQueueFree, `procSigPending, `free, `queues, `place, next, flags, sigQueued, actions
      ensures ret == if 0 <= sig < actions.Length then OK else EINVAL
      ensures ret == EINVAL ==> Valid() && Abs() == old(Abs()) && actions[..] == old(actions[..])
      ensures ret == OK ==> |old(queues)| == actions.Length && actions[..] == old(actions[..])[sig := act]
      ensures ret == OK && !(Drops(act) && |old(queues)[sig]| > 1) && rounds > 0 ==>
                && ended && Valid()
                && World(Abs(), actions[..]) == Apply(World(old(Abs()), old(actions[..])), Acting(sig, act))
      ensures ret == OK && (act.siginfo || (act.handler != Ignore && act.handler != Default)) ==> Abs() == old(Abs())
      ensures ret == OK && !act.siginfo && (act.handler == Ignore || act.handler == Default)
              && |old(queues)[sig]| <= 1 && rounds > 0 ==>
                && queues == old(queues)[sig := []] && procSigPending == old(procSigPending) - {sig}
    {
      if sig < 0 || sig >= actions.Length { return EINVAL, true; }
      ret, ended := OK, true;
      actions[sig] := act;
      if !act.siginfo && (act.handler == Ignore || act.handler == Default) {
        ended := DropPending(sig, rounds);
      }
    }

    /** timer_create in slot t: a signalling timer takes the head of the free list for itself. */
    method TimerCreate(t: int, notify: Notify, signo: int, value: int) returns (ret: Answer)
      requires Valid() && 0 <= t < timers.Length
      modifies `sigQueueFree, `free, `place, `holder, flags, timers
      ensures Valid()
      ensures ret == if old(free) == [] then EAGAIN else OK
      ensures Abs() == if old(free) == [] then old(Abs()) else CreateTimer(old(Abs()), t, notify, signo, value)
    {
      if sigQueueFree == NIL { return EAGAIN; }
      ghost var st, links := Abs(), next[..];
      CreateTimerLists(st, t, notify, signo, value);
      if notify != SIGEV_SIGNAL {
        timers[t] := Timer(true, notify, signo, value, timers[t].entry, 0, 0);
      } else {
        ForwardTail(links, st.free);
        timers[t] := Timer(true, notify, signo, value, sigQueueFree, 0, 0);
        flags[sigQueueFree] := flags[sigQueueFree].(usedForTimer := true);
        place, holder := place[sigQueueFree := WithTimer], holder[sigQueueFree := t];
        sigQueueFree := next[sigQueueFree];
        free := free[1..];
      }
      assert Abs() == CreateTimer(st, t, notify, signo, value);
      return OK;
    }

    /** Put an entry that is on no list at the head of the free list. */
    method PushFree(i: int)
      requires Valid() && 0 <= i < next.Length && place[i] == WithTimer
      modifies `sigQueueFree, `free, `place, next
      ensures Valid()
      ensures Abs() == old(Abs()).(free := [i] + old(free), place := old(place)[i := OnFree])
    {
      PushLists(Abs(), i);
      PushSpelled(next[..], sigQueueFree, sigQueued[..], Abs(), i);
      next[i] := sigQueueFree;
      sigQueueFree := i;
      free, place := [i] + free, place[i := OnFree];
    }

    method TimerDelete(t: int) returns (ret: Answer)
      requires Valid() && Inv(Abs())
      modifies `sigQueueFree, `free, `place, `holder, next, flags, timers
      ensures Valid()
      ensures ret == if 0 <= t < timers.Length && old(timers[t].used) then OK else EINVAL
      ensures ret == EINVAL ==> Abs() == old(Abs())
      ensures ret == OK ==> 0 <= t < timers.Length
      ensures ret == OK ==> old(timers[t].Owns()) ==> 0 <= old(timers[t].entry) < flags.Length
      ensures ret == OK ==> Abs() == DeleteTimer(old(Abs()), t) && Inv(Abs())
    {
      if t < 0 || t >= timers.Length || !timers[t].used { return EINVAL; }
      ghost var st := Abs();
      DeleteTimerInv(st, t);
      timers[t] := timers[t].(used := false);
      SameLists(st, Abs());
      if timers[t].notify == SIGEV_SIGNAL {
        var i := timers[t].entry;
        assert TimerOk(st, t) && EntryOk(st, i);
        if !flags[i].posted {
          PushFree(i);
        }
        flags[i] := Flags(false, false);
        holder := holder[i := NIL];
      }
      assert Abs() == DeleteTimer(st, t);
      return OK;
    }

    /** timer_timerfire: count an overrun, or push the timer's own entry so that queueing will pop it. */
    method TimerFire(t: int, task: int)
      requires Valid() && Inv(Abs()) && 0 <= t < timers.Length && timers[t].used
      modifies `sigQueueFree, `procSigPending, `free, `queues, `place, next, infos, flags, sigQueued, timers
      ensures Valid()
      ensures old(timers[t].Owns()) ==> 0 <= old(timers[t].entry) < flags.Length
      ensures Abs() == Fire(old(Abs()), actions[..], t, task)
    {
      if timers[t].notify == SIGEV_SIGNAL {
        ghost var st := Abs();
        var i := timers[t].entry;
        assert TimerOk(st, t) && EntryOk(st, i);
        if flags[i].posted {
          var overrun := if timers[t].overrun != DELAYTIMER_MAX then timers[t].overrun + 1 else timers[t].overrun;
          timers[t] := timers[t].(overrun := overrun, missed := timers[t].missed + 1);
          SameLists(st, Abs());
        } else {
          PostLists(st, actions[..], t, task);
          timers[t] := timers[t].(overrun := 0, missed := 0);
          SameLists(st, Abs());
          PushFree(i);
          var _ := SigQueueInternal(Info(timers[t].signo, SI_TIMER, timers[t].value, task));
          flags[i] := flags[i].(posted := true);
          assert Abs() == Post(st, actions[..], t, task);
        }
      }
    }
  }
}
