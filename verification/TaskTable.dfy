/** Task descriptors from creation to reuse: descriptor allocation (rtos/kernel/grpcreat.c), joining and
    its cancellation (rtos/kernel/join.c), termination (rtos/kernel/kill.c) and the scheduler's walk
    (rtos/kernel/kern.c).  The shadows are those that task_join writes; mutex protocols are not part of it.

    Class TaskTable is the code.  The transition system below lets any number of tasks create, join, cancel and
    terminate each other in any order.  Each region with interrupts disabled is one step, and so is each of the two
    checks that task_join makes before it disables them.  TaskRuns says what holds over its runs. */
module TaskTables {
  import opened IndexLists
  import opened Machines
  import opened ShadowChains

  datatype Status = FREE | ALIVE | WAIT_JOIN

  /** The fields of proc_table[i] that take part.  The three flags are bits of `control`. */
  datatype Task = Task(status: Status, shadow: int, waitingForMe: int, joinable: bool,
                       waitForJoin: bool, discarded: bool, id: nat, value: int)

  /** `freedesc` is the free descriptor queue as a sequence; IQueues shows that the linked queue is one. */
  datatype Table = Table(procs: seq<Task>, freedesc: seq<int>, nextId: nat)

  datatype JoinCode = ESRCH | EINVAL | EDEADLK | Passed | JoinNow | JoinBlocks

  function Shadows(procs: seq<Task>): (shadow: seq<int>)
    ensures |shadow| == |procs| && forall i :: 0 <= i < |procs| ==> shadow[i] == procs[i].shadow
  {
    seq(|procs|, i requires 0 <= i < |procs| => procs[i].shadow)
  }

  ghost predicate Shape(t: Table) {
    && Forest(Shadows(t.procs))
    && InRange(t.freedesc, |t.procs|)
    && Distinct(t.freedesc)
  }

  // ---------- what the sections compute ----------

  /** Pop descriptors until one is not waiting for a join, marking those passed over as discarded. */
  function TakeFree(procs: seq<Task>, free: seq<int>): (r: (seq<Task>, seq<int>, int))
    requires InRange(free, |procs|)
    ensures |r.0| == |procs| && (r.2 == NIL || 0 <= r.2 < |procs|)
    decreases |free|
  {
    if free == [] then (procs, [], NIL)
    else
      var i := free[0];
      if !procs[i].waitForJoin then (procs, free[1..], i)
      else TakeFree(procs[i := procs[i].(discarded := true)], free[1..])
  }

  function Fresh(i: int, joinable: bool, id: nat): Task {
    Task(ALIVE, i, NIL, joinable, false, false, id, 0)
  }

  function Create(t: Table, joinable: bool, accepted: bool): (Table, int)
    requires InRange(t.freedesc, |t.procs|)
  {
    var (procs, free, i) := TakeFree(t.procs, t.freedesc);
    if i == NIL then (t.(procs := procs, freedesc := free), NIL)
    else
      var p := Fresh(i, joinable, t.nextId);
      if accepted then (Table(procs[i := p], free, t.nextId + 1), i)
      else (Table(procs[i := p.(status := FREE)], [i] + free, t.nextId + 1), NIL)
  }

  function Reject(t: Table, i: int): Table
    requires 0 <= i < |t.procs|
  {
    t.(procs := t.procs[i := t.procs[i].(status := FREE)], freedesc := [i] + t.freedesc)
  }

  /** The first check of task_join: p names a task that exists or can still be joined. */
  function FindCheck(t: Table, p: int): JoinCode {
    if p < 0 || p >= |t.procs| then ESRCH
    else if t.procs[p].status == FREE && !t.procs[p].waitForJoin then ESRCH
    else Passed
  }

  /** The second one. */
  function JoinableCheck(t: Table, p: int): JoinCode
    requires 0 <= p < |t.procs|
  {
    if t.procs[p].joinable then Passed else EINVAL
  }

  /** The section with interrupts disabled, by the running task e.  It does not look again at what was checked. */
  ghost function SectionCheck(t: Table, e: int, p: int): JoinCode
    requires Forest(Shadows(t.procs)) && 0 <= p < |t.procs|
  {
    if t.procs[p].waitingForMe != NIL then EINVAL
    else if Root(Shadows(t.procs), p) == e then EDEADLK
    else if t.procs[p].waitForJoin then JoinNow
    else JoinBlocks
  }

  function Link(t: Table, e: int, p: int): Table
    requires 0 <= e < |t.procs| && 0 <= p < |t.procs|
  {
    var procs := t.procs[p := t.procs[p].(waitingForMe := e)];
    t.(procs := procs[e := procs[e].(shadow := p, status := WAIT_JOIN)])
  }

  /** The end of task_join, once the target has terminated. */
  function Complete(t: Table, p: int): Table
    requires 0 <= p < |t.procs|
  {
    t.(procs := t.procs[p := t.procs[p].(waitForJoin := false)],
       freedesc := if t.procs[p].discarded then [p] + t.freedesc else t.freedesc)
  }

  function Unlink(t: Table, i: int): Table
    requires 0 <= i < |t.procs| && 0 <= t.procs[i].shadow < |t.procs|
  {
    var p := t.procs[i].shadow;
    var procs := t.procs[p := t.procs[p].(waitingForMe := NIL)];
    t.(procs := procs[i := procs[i].(shadow := i, status := ALIVE)])
  }

  function Release(procs: seq<Task>, i: int, value: int): seq<Task>
    requires 0 <= i < |procs| && (procs[i].joinable ==> NIL <= procs[i].waitingForMe < |procs|)
  {
    if !procs[i].joinable then procs
    else
      var x := procs[i].waitingForMe;
      var ps := procs[i := procs[i].(value := value, waitForJoin := true)];
      if x == NIL then ps else ps[x := ps[x].(status := ALIVE, shadow := x)]
  }

  /** Somebody else still has i as his shadow: the kernel raises an exception and i is not freed. */
  ghost predicate ShadowedByOthers(procs: seq<Task>, i: int) {
    exists y :: 0 <= y < |procs| && y != i && procs[y].shadow == i
  }

  /** What the scheduling module does in the end: the descriptor i goes to position k of the free queue. */
  function Free(t: Table, i: int, k: nat): Table
    requires 0 <= i < |t.procs| && k <= |t.freedesc|
  {
    t.(procs := t.procs[i := t.procs[i].(status := FREE)], freedesc := InsertAt(t.freedesc, k, i))
  }

  /** The first m free descriptors were all waiting for a join; exactly those were marked discarded, and the next
      one was taken if there was one. */
  ghost predicate PassedOver(procs: seq<Task>, free: seq<int>, m: nat, procs': seq<Task>, rest: seq<int>, i: int) {
    && InRange(free, |procs|) && m <= |free| && |procs'| == |procs|
    && (forall j :: 0 <= j < m ==> procs[free[j]].waitForJoin)
    && (if m == |free| then i == NIL && rest == []
        else i == free[m] && rest == free[m + 1..] && !procs[i].waitForJoin)
    && (forall x :: 0 <= x < |procs| ==>
          procs'[x] == if x in free[..m] then procs[x].(discarded := true) else procs[x])
  }

  lemma PassOne(procs: seq<Task>, free: seq<int>, k: nat, procs': seq<Task>, rest: seq<int>, i: int)
    requires InRange(free, |procs|) && Distinct(free) && free != [] && procs[free[0]].waitForJoin
    requires PassedOver(procs[free[0] := procs[free[0]].(discarded := true)], free[1..], k, procs', rest, i)
    ensures PassedOver(procs, free, k + 1, procs', rest, i)
  {
    var m, marked := k + 1, procs[free[0] := procs[free[0]].(discarded := true)];
    assert free[..m] == [free[0]] + free[1..][..k];
    forall j | 0 <= j < m ensures procs[free[j]].waitForJoin {
      if j > 0 {
        assert marked[free[1..][j - 1]].waitForJoin;
      }
    }
    if k < |free[1..]| {
      assert free[1..][k + 1..] == free[m + 1..] && free[1..][k] == free[m];
    }
    forall x | 0 <= x < |procs|
      ensures procs'[x] == if x in free[..m] then procs[x].(discarded := true) else procs[x]
    {
      assert x in free[..m] <==> x == free[0] || x in free[1..][..k];
    }
  }

  /** What the allocation loop does. */
  lemma {:induction false} TakeFreeIs(procs: seq<Task>, free: seq<int>) returns (m: nat)
    requires InRange(free, |procs|) && Distinct(free)
    ensures PassedOver(procs, free, m, TakeFree(procs, free).0, TakeFree(procs, free).1, TakeFree(procs, free).2)
    decreases |free|
  {
    if free == [] || !procs[free[0]].waitForJoin {
      m := 0;
    } else {
      var marked := procs[free[0] := procs[free[0]].(discarded := true)];
      var k := TakeFreeIs(marked, free[1..]);
      var r := TakeFree(marked, free[1..]);
      PassOne(procs, free, k, r.0, r.1, r.2);
      m := k + 1;
    }
  }

  lemma SplitFree(free: seq<int>, m: nat, x: int)
    requires Distinct(free) && m < |free|
    ensures x in free <==> x in free[..m] || x == free[m] || x in free[m + 1..]
    ensures x in free[..m] ==> x != free[m] && x !in free[m + 1..]
    ensures x == free[m] ==> x !in free[m + 1..]
  {
    assert free == free[..m] + [free[m]] + free[m + 1..];
  }

  /** A creation in the terms of its caller.  It works exactly when some scheduling level takes the task and some free
      descriptor does not wait for a join; the task then has the first such descriptor to itself.  Otherwise no
      descriptor is in use that was not, and one that waits for a join is passed over at most. */
  ghost predicate Created(t: Table, joinable: bool, accepted: bool, t': Table, pid: int, m: nat)
    requires InRange(t.freedesc, |t.procs|)
  {
    && |t'.procs| == |t.procs| && m <= |t.freedesc|
    && (forall k :: 0 <= k < m ==> t.procs[t.freedesc[k]].waitForJoin)
    && (m < |t.freedesc| ==> !t.procs[t.freedesc[m]].waitForJoin)
    && (pid != NIL <==> accepted && m < |t.freedesc|)
    && (pid != NIL ==>
          && pid == t.freedesc[m] && t'.freedesc == t.freedesc[m + 1..]
          && t'.procs[pid].status == ALIVE && t'.procs[pid].id == t.nextId && t'.procs[pid].joinable == joinable
          && t'.procs[pid].waitingForMe == NIL && t'.procs[pid].shadow == pid
          && !t'.procs[pid].waitForJoin && !t'.procs[pid].discarded)
    && (pid == NIL ==> t'.freedesc == t.freedesc[m..])
    && (forall i :: 0 <= i < |t.procs| && i !in t.freedesc ==> t'.procs[i] == t.procs[i])
    && (forall i :: 0 <= i < |t.procs| && i != pid && t.procs[i].status == FREE ==> t'.procs[i].status == FREE)
    && (forall i :: 0 <= i < |t.procs| && i in t.freedesc && t.procs[i].waitForJoin ==>
          t'.procs[i] == if i in t.freedesc[..m] then t.procs[i].(discarded := true) else t.procs[i])
    && t'.nextId == t.nextId + if m < |t.freedesc| then 1 else 0
  }

  lemma CreateIs(t: Table, joinable: bool, accepted: bool) returns (m: nat)
    requires InRange(t.freedesc, |t.procs|) && Distinct(t.freedesc)
    ensures Created(t, joinable, accepted, Create(t, joinable, accepted).0, Create(t, joinable, accepted).1, m)
  {
    m := TakeFreeIs(t.procs, t.freedesc);
    if m < |t.freedesc| {
      forall i ensures i in t.freedesc <==> i in t.freedesc[..m] || i == t.freedesc[m] || i in t.freedesc[m + 1..] {
        SplitFree(t.freedesc, m, i);
      }
    }
  }

  // ---------- the code ----------

  class TaskTable {
    const procs: array<Task>
    var freedesc: seq<int>
    var nextId: nat

    ghost function State(): Table
      reads this, procs
    {
      Table(procs[..], freedesc, nextId)
    }

    /** The part of __kernel_init__ that clears the descriptors. */
    constructor (maxProc: nat)
      ensures fresh(procs) && State() == Cleared(maxProc)
    {
      procs := new Task[maxProc](i => Clear(i));
      freedesc := seq(maxProc, i => i);
      nextId := 0;
    }

    /** internal_create_init; `accepted` is whether some scheduling level takes the task. */
    method InternalCreateInit(joinable: bool, accepted: bool) returns (pid: int)
      requires Shape(State())
      modifies this, procs
      ensures State() == Create(old(State()), joinable, accepted).0
      ensures pid == Create(old(State()), joinable, accepted).1
      ensures exists m: nat :: Created(old(State()), joinable, accepted, State(), pid, m)
      ensures pid != NIL <==>
                accepted && exists k :: 0 <= k < |old(freedesc)| && !old(procs[..])[old(freedesc)[k]].waitForJoin
    {
      ghost var m := CreateIs(State(), joinable, accepted);
      var i := NIL;
      while true
        invariant InRange(freedesc, procs.Length) && nextId == old(nextId)
        invariant TakeFree(procs[..], freedesc) == TakeFree(old(procs[..]), old(freedesc))
        decreases |freedesc|
      {
        if freedesc == [] {
          return NIL;
        }
        i, freedesc := freedesc[0], freedesc[1..];
        if !procs[i].waitForJoin {
          break;
        }
        procs[i] := procs[i].(discarded := true);
      }
      procs[i] := Fresh(i, joinable, nextId);
      nextId := nextId + 1;
      if !accepted {
        procs[i] := procs[i].(status := FREE);
        freedesc := [i] + freedesc;
        return NIL;
      }
      return i;
    }

    method GroupCreateReject(i: int)
      requires 0 <= i < procs.Length
      modifies this, procs
      ensures State() == Reject(old(State()), i)
      ensures procs[..] == old(procs[..])[i := old(procs[i]).(status := FREE)] && freedesc == [i] + old(freedesc)
    {
      procs[i] := procs[i].(status := FREE);
      freedesc := [i] + freedesc;
    }

    /** The range and existence checks of task_join, with interrupts enabled.  The status and the flag are read one
        after the other; a descriptor that passes or fails does so for its state at one of the two moments or one in
        between, since a free descriptor is not used again while the flag is set. */
    method FindTarget(p: int) returns (code: JoinCode)
      ensures code == FindCheck(State(), p)
      ensures code == ESRCH <==> p < 0 || p >= procs.Length || (procs[p].status == FREE && !procs[p].waitForJoin)
      ensures code != ESRCH ==> code == Passed
    {
      if p < 0 || p >= procs.Length { return ESRCH; }
      if procs[p].status == FREE && !procs[p].waitForJoin { return ESRCH; }
      return Passed;
    }

    /** The check that follows, still with interrupts enabled. */
    method CheckJoinable(p: int) returns (code: JoinCode)
      requires 0 <= p < procs.Length
      ensures code == JoinableCheck(State(), p)
      ensures code == EINVAL <==> !procs[p].joinable
      ensures code != EINVAL ==> code == Passed
    {
      if !procs[p].joinable { return EINVAL; }
      return Passed;
    }

    /** The section of task_join with interrupts disabled, up to the point where the caller blocks or goes on.  The
        caller is the running task, so it is the root of its own chain. */
    method JoinSection(execShadow: int, p: int) returns (code: JoinCode)
      requires Shape(State()) && 0 <= p < procs.Length && IsRoot(Shadows(procs[..]), execShadow)
      modifies procs
      ensures code == SectionCheck(old(State()), execShadow, p)
      ensures State() == if code == JoinBlocks then Link(old(State()), execShadow, p) else old(State())
      ensures code == EINVAL <==> old(procs[p].waitingForMe) != NIL
      ensures code == EDEADLK <==>
                old(procs[p].waitingForMe) == NIL
                && exists k: nat :: Follow(Shadows(old(procs[..])), p, k) == execShadow
      ensures code == JoinNow || code == JoinBlocks || code == EINVAL || code == EDEADLK
      ensures code == JoinNow ==> old(procs[p].waitForJoin)
      ensures code == JoinBlocks ==>
                && !old(procs[p].waitForJoin) && p != execShadow
                && procs[p] == old(procs[p]).(waitingForMe := execShadow)
                && procs[execShadow] == old(procs[execShadow]).(shadow := p, status := WAIT_JOIN)
                && forall i :: 0 <= i < procs.Length && i != p && i != execShadow ==> procs[i] == old(procs[i])
    {
      OnChain(Shadows(procs[..]), p, execShadow);
      if procs[p].waitingForMe != NIL { return EINVAL; }
      ghost var shadow := Shadows(procs[..]);
      var x := procs[p].shadow;
      ghost var k: nat := 1;
      assert x == Follow(shadow, p, 1);
      assert k <= |shadow|;
      while true
        invariant procs[..] == old(procs[..])
        invariant 0 <= x < procs.Length && 1 <= k <= |shadow| && x == Follow(shadow, p, k)
        decreases |shadow| - k
      {
        if x == execShadow {
          RootIs(shadow, p, k);
          return EDEADLK;
        }
        if x == procs[x].shadow {
          break;
        }
        WalkOn(shadow, p, k);
        x := procs[x].shadow;
        k := k + 1;
      }
      RootIs(shadow, p, k);
      if !procs[p].waitForJoin {
        procs[p] := procs[p].(waitingForMe := execShadow);
        procs[execShadow] := procs[execShadow].(shadow := p);
        procs[execShadow] := procs[execShadow].(status := WAIT_JOIN);
        return JoinBlocks;
      }
      return JoinNow;
    }

    method JoinEpilogue(p: int) returns (value: int)
      requires 0 <= p < procs.Length
      modifies this, procs
      ensures State() == Complete(old(State()), p) && value == old(procs[p].value)
      ensures procs[..] == old(procs[..])[p := old(procs[p]).(waitForJoin := false)]
      ensures freedesc == (if old(procs[p].discarded) then [p] else []) + old(freedesc)
    {
      procs[p] := procs[p].(waitForJoin := false);
      if procs[p].discarded {
        freedesc := [p] + freedesc;
      }
      value := procs[p].value;
    }

    /** taskjoin_cancellation_point. */
    method CancellationPoint(i: int) returns (found: bool)
      requires 0 <= i < procs.Length && 0 <= procs[i].shadow < procs.Length
      modifies procs
      ensures found == (old(procs[i].status) == WAIT_JOIN)
      ensures State() == if found then Unlink(old(State()), i) else old(State())
      ensures found && old(procs[i].shadow) != i ==>
                && procs[i] == old(procs[i]).(shadow := i, status := ALIVE)
                && procs[old(procs[i].shadow)] == old(procs[procs[i].shadow]).(waitingForMe := NIL)
    {
      if procs[i].status == WAIT_JOIN {
        var p := procs[i].shadow;
        procs[p] := procs[p].(waitingForMe := NIL);
        procs[i] := procs[i].(shadow := i);
        procs[i] := procs[i].(status := ALIVE);
        return true;
      }
      return false;
    }

    /** task_makefree as far as interrupts stay disabled, that is up to the cleanup handlers. */
    method TaskMakeFree(i: int, value: int) returns (raised: bool)
      requires 0 <= i < procs.Length
      requires procs[i].joinable ==> NIL <= procs[i].waitingForMe < procs.Length
      modifies procs
      ensures State() == old(State()).(procs := Release(old(procs[..]), i, value))
      ensures raised <==> exists y :: 0 <= y < procs.Length && y != i && procs[y].shadow == i
      ensures var x := old(procs[i].waitingForMe);
              old(procs[i].joinable) && x != i ==>
                && procs[i] == old(procs[i]).(value := value, waitForJoin := true)
                && (x != NIL ==> procs[x] == old(procs[x]).(status := ALIVE, shadow := x))
      ensures !old(procs[i].joinable) ==> procs[i] == old(procs[i])
    {
      if procs[i].joinable {
        procs[i] := procs[i].(value := value);
        procs[i] := procs[i].(waitForJoin := true);
        if procs[i].waitingForMe != NIL {
          var x := procs[i].waitingForMe;
          procs[x] := procs[x].(status := ALIVE);
          procs[x] := procs[x].(shadow := x);
        }
      }
      assert procs[..] == Release(old(procs[..]), i, value);
      for p := 0 to procs.Length
        invariant procs[..] == Release(old(procs[..]), i, value)
        invariant forall y :: 0 <= y < p && y != i ==> procs[y].shadow != i
      {
        if p != i && procs[p].shadow == i {
          return true;
        }
      }
      return false;
    }

    /** The end of the task in its scheduling module, at once or when its period is over. */
    method PublicEnd(i: int, k: nat)
      requires 0 <= i < procs.Length && k <= |freedesc|
      modifies this, procs
      ensures State() == Free(old(State()), i, k)
      ensures procs[..] == old(procs[..])[i := old(procs[i]).(status := FREE)]
      ensures freedesc == old(freedesc)[..k] + [i] + old(freedesc)[k..]
    {
      procs[i] := procs[i].(status := FREE);
      freedesc := InsertAt(freedesc, k, i);
    }

    /** The scheduler's walk from the task a level chose to the one that is dispatched. */
    method FollowShadows(p: int) returns (execShadow: int)
      requires Forest(Shadows(procs[..])) && 0 <= p < procs.Length
      ensures execShadow == Root(Shadows(procs[..]), p) && IsRoot(Shadows(procs[..]), execShadow)
    {
      ghost var shadow := Shadows(procs[..]);
      execShadow := p;
      ghost var k: nat := 0;
      while execShadow != procs[execShadow].shadow
        invariant 0 <= execShadow < procs.Length && k <= |shadow| && execShadow == Follow(shadow, p, k)
        decreases |shadow| - k
      {
        WalkOn(shadow, p, k);
        execShadow := procs[execShadow].shadow;
        k := k + 1;
      }
      RootIs(shadow, p, k);
    }
  }

  function Clear(i: int): Task {
    Task(FREE, i, NIL, false, false, false, 0, 0)
  }

  function Cleared(maxProc: nat): Table {
    Table(seq(maxProc, i => Clear(i)), seq(maxProc, i => i), 0)
  }

  // ---------- any number of tasks ----------

  /** How far a task is inside task_join: between its checks and its section; blocked; released by the target's
      termination but not yet running; or taken out by a kill.  `named` is the task_ID of the task that the first check
      found in the descriptor, `id` that of the task in it when the joiner blocked.  An Ending task has been through
      the first part of task_makefree; its cleanup handlers run with interrupts enabled, and its scheduling module may
      keep it until its period is over.  Raised is where the XINVALID_KILL_SHADOW exception leaves it. */
  datatype Phase =
    | NotJoining
    | Found(target: int, named: nat)
    | Checked(target: int, named: nat)
    | Blocked(target: int, named: nat, id: nat)
    | Released(target: int, named: nat, id: nat)
    | Cancelled(target: int, named: nat)
    | Ending
    | Raised

  /** `exits` is a history variable: the value each task ended with, by task_ID. */
  datatype System = System(table: Table, at: seq<Phase>, exits: map<nat, int>)

  datatype Event =
    | Creating(joinable: bool, accepted: bool)
    | Rejecting(i: int)
    | Finding(e: int, p: int)                // e calls task_join(p) and finds p in use
    | Checking(e: int)                       // finds p joinable
    | Joining(e: int)                        // enters the section
    | Resuming(e: int)                       // a released joiner finishes task_join
    | Killing(i: int)                        // task_kill finds i blocked in task_join
    | Surviving(e: int)                      // a killed joiner with cancellation disabled goes on
    | Terminating(i: int, exitValue: int)    // task_makefree up to the cleanup handlers
    | Freeing(i: int, k: nat)                // the scheduling module frees the descriptor

  predicate Idle(s: System, i: int) {
    && 0 <= i < |s.table.procs| == |s.at|
    && s.table.procs[i].status == ALIVE && s.at[i] == NotJoining
  }

  /** A joinable task that ends with a joiner on record finds him blocked, as the invariant below says; what
      public_unblock does to a task that is not blocked is not part of this model.  Nor is what happens once a
      descriptor is on the free queue twice: runs are followed up to there. */
  ghost predicate Enabled(s: System, ev: Event) {
    && Shape(s.table) && |s.at| == |s.table.procs|
    && match ev
       case Creating(_, _) => true
       case Rejecting(i) => Idle(s, i) && s.table.procs[i].waitingForMe == NIL
       case Finding(e, _) => Idle(s, e)
       case Checking(e) => 0 <= e < |s.at| && s.at[e].Found? && 0 <= s.at[e].target < |s.at|
       case Joining(e) =>
         && 0 <= e < |s.at| && s.at[e].Checked? && 0 <= s.at[e].target < |s.at|
         && s.table.procs[e].status == ALIVE && s.table.procs[e].shadow == e
       case Resuming(e) => 0 <= e < |s.at| && s.at[e].Released? && 0 <= s.at[e].target < |s.at|
       case Killing(i) => 0 <= i < |s.at| && s.at[i].Blocked? && 0 <= s.table.procs[i].shadow < |s.at|
       case Surviving(e) => 0 <= e < |s.at| && s.at[e].Cancelled? && 0 <= s.at[e].target < |s.at|
       case Terminating(i, _) =>
         && 0 <= i < |s.at| && s.table.procs[i].status == ALIVE
         && !s.at[i].Blocked? && s.at[i] != Ending && s.at[i] != Raised
         && (s.table.procs[i].joinable ==>
               && NIL <= s.table.procs[i].waitingForMe < |s.at|
               && (s.table.procs[i].waitingForMe != NIL ==> s.at[s.table.procs[i].waitingForMe].Blocked?))
       case Freeing(i, k) => 0 <= i < |s.at| && s.at[i] == Ending && k <= |s.table.freedesc|
  }

  /** Where the section leaves e. */
  ghost function Joined(s: System, e: int): System
    requires Enabled(s, Joining(e))
  {
    var (p, named) := (s.at[e].target, s.at[e].named);
    match SectionCheck(s.table, e, p)
    case JoinNow => System(Complete(s.table, p), s.at[e := NotJoining], s.exits)
    case JoinBlocks => System(Link(s.table, e, p), s.at[e := Blocked(p, named, s.table.procs[p].id)], s.exits)
    case _ => s.(at := s.at[e := NotJoining])
  }

  ghost function Apply(s: System, ev: Event): System {
    if !Enabled(s, ev) then s
    else
      match ev
      case Creating(joinable, accepted) => s.(table := Create(s.table, joinable, accepted).0)
      case Rejecting(i) => s.(table := Reject(s.table, i))
      case Finding(e, p) =>
        if FindCheck(s.table, p) == Passed then s.(at := s.at[e := Found(p, s.table.procs[p].id)]) else s
      case Checking(e) =>
        var (p, named) := (s.at[e].target, s.at[e].named);
        s.(at := s.at[e := if JoinableCheck(s.table, p) == Passed then Checked(p, named) else NotJoining])
      case Joining(e) => Joined(s, e)
      case Resuming(e) => System(Complete(s.table, s.at[e].target), s.at[e := NotJoining], s.exits)
      case Killing(i) =>
        System(Unlink(s.table, i), s.at[i := Cancelled(s.at[i].target, s.at[i].named)], s.exits)
      case Surviving(e) => System(Complete(s.table, s.at[e].target), s.at[e := NotJoining], s.exits)
      case Terminating(i, value) =>
        var p := s.table.procs[i];
        var x := if p.joinable then p.waitingForMe else NIL;
        var procs := Release(s.table.procs, i, value);
        var at := s.at[i := if ShadowedByOthers(procs, i) then Raised else Ending];
        System(s.table.(procs := procs), if x != NIL then at[x := Released(i, s.at[x].named, p.id)] else at,
               s.exits[p.id := value])
      case Freeing(i, k) => System(Free(s.table, i, k), s.at[i := NotJoining], s.exits)
  }

  /** A terminated task that nobody has joined yet. */
  predicate Unjoined(t: Task) {
    t.waitForJoin
  }

  /** The task_ID names a task that exists or can still be joined. */
  predicate Named(t: Task) {
    t.status != FREE || t.waitForJoin
  }

  /** The task i exists and has not started to end. */
  predicate Alive(s: System, i: int) {
    0 <= i < |s.table.procs| == |s.at| && s.table.procs[i].status != FREE && s.at[i] != Ending
  }

  // ---------- the two steps that do harm ----------

  /** Task p exists, has not started to end, and will release a joiner when it does. */
  predicate WillRelease(s: System, p: int) {
    Alive(s, p) && s.table.procs[p].joinable
  }

  /** The section of the joiner e comes late: it blocks, but what it checked is no longer so.  Its target has ended and
      its reservation was ended by another join, or the descriptor is free, or it is that of a task that cannot be
      joined. */
  ghost predicate Late(s: System, e: int) {
    && Enabled(s, Joining(e))
    && SectionCheck(s.table, e, s.at[e].target) == JoinBlocks && !WillRelease(s, s.at[e].target)
  }

  /** p is a joined descriptor whose discard mark is left over, so that it is on the free queue already,
      or a terminated task that another joiner was released for. */
  ghost predicate Hazard(s: System, p: int) {
    && 0 <= p < |s.table.procs| == |s.at|
    && var t := s.table.procs[p];
    || (t.discarded && !t.waitForJoin)
    || (Unjoined(t) && exists x :: 0 <= x < |s.at| && s.at[x].Released? && s.at[x].target == p)
  }

  ghost predicate Sound(s: System, ev: Event) {
    match ev
    case Joining(e) => !Late(s, e)
    case Surviving(e) => 0 <= e < |s.at| && s.at[e].Cancelled? && !Hazard(s, s.at[e].target)
    case _ => true
  }

  /** Every run, and the runs without those two steps. */
  ghost const EVERY := Machine((s: System, ev: Event) => Enabled(s, ev), (s: System, ev: Event) => Apply(s, ev))
  ghost const PROTOCOL := Machine((s: System, ev: Event) => Enabled(s, ev) && Sound(s, ev),
                                  (s: System, ev: Event) => Apply(s, ev))

  // ---------- the invariant ----------

  predicate WaitsFor(at: Phase, p: int, id: nat) {
    at.Blocked? && at.target == p && at.id == id
  }

  ghost predicate DescriptorOk(s: System, i: int)
    requires 0 <= i < |s.table.procs| == |s.at|
  {
    var t := s.table.procs[i];
    && (i in s.table.freedesc <==> t.status == FREE && !(t.waitForJoin && t.discarded))
    && (t.status != FREE ==> !t.discarded && (t.waitForJoin ==> s.at[i] == Ending))
    && (t.waitForJoin ==> t.joinable && t.id in s.exits && t.value == s.exits[t.id])
    && (t.status == WAIT_JOIN <==> s.at[i].Blocked?)
    && (t.status == FREE ==> s.at[i] == NotJoining)
    && s.at[i] != Raised
    && (Named(t) ==> t.id < s.table.nextId)
    && (Alive(s, i) && t.waitingForMe != NIL ==>
          t.joinable && 0 <= t.waitingForMe < |s.at| && WaitsFor(s.at[t.waitingForMe], i, t.id))
  }

  ghost predicate JoinerOk(s: System, x: int)
    requires 0 <= x < |s.table.procs| == |s.at|
  {
    match s.at[x]
    case NotJoining => s.table.procs[x].shadow == x
    case Ending => s.table.procs[x].shadow == x
    case Raised => false
    case Blocked(p, named, id) =>
      && named < s.table.nextId && s.table.procs[x].shadow == p != x && Alive(s, p)
      && s.table.procs[p].waitingForMe == x && s.table.procs[p].id == id
    case Released(p, named, id) =>
      && named < s.table.nextId && s.table.procs[x].shadow == x && 0 <= p < |s.at|
      && Unjoined(s.table.procs[p]) && s.table.procs[p].waitingForMe == x && s.table.procs[p].id == id
    case _ =>
      0 <= s.at[x].target < |s.at| && s.table.procs[x].shadow == x && s.at[x].named < s.table.nextId
  }

  ghost predicate Inv(s: System) {
    && Shape(s.table) && |s.at| == |s.table.procs|
    && (forall i :: 0 <= i < |s.at| ==> DescriptorOk(s, i))
    && (forall x :: 0 <= x < |s.at| ==> JoinerOk(s, x))
    && (forall i, j :: 0 <= i < j < |s.at| && Named(s.table.procs[i]) && Named(s.table.procs[j]) ==>
                         s.table.procs[i].id != s.table.procs[j].id)
  }

  // ---------- every step keeps the invariant ----------

  lemma KillingDescriptors(s: System, i: int, j: int)
    requires Inv(s) && Enabled(s, Killing(i)) && 0 <= j < |s.at|
    ensures 0 <= s.table.procs[i].shadow < |s.at|
    ensures DescriptorOk(Apply(s, Killing(i)), j)
  {
    assert JoinerOk(s, i);
    var p := s.table.procs[i].shadow;
    assert DescriptorOk(s, p) && DescriptorOk(s, i) && DescriptorOk(s, j);
  }

  lemma KillingJoiners(s: System, i: int, j: int)
    requires Inv(s) && Enabled(s, Killing(i)) && 0 <= j < |s.at|
    ensures JoinerOk(Apply(s, Killing(i)), j)
  {
    assert JoinerOk(s, i) && JoinerOk(s, j) && DescriptorOk(s, i) && DescriptorOk(s, s.table.procs[i].shadow);
  }

  lemma KillingInv(s: System, i: int)
    requires Inv(s) && Enabled(s, Killing(i))
    ensures Inv(Apply(s, Killing(i)))
  {
    var s' := Apply(s, Killing(i));
    assert JoinerOk(s, i) && DescriptorOk(s, i) && DescriptorOk(s, s.table.procs[i].shadow);
    UnlinkKeepsForest(Shadows(s.table.procs), i);
    assert Shadows(s'.table.procs) == Shadows(s.table.procs)[i := i];
    forall j | 0 <= j < |s.at| ensures DescriptorOk(s', j) && JoinerOk(s', j) {
      KillingDescriptors(s, i, j);
      KillingJoiners(s, i, j);
    }
  }

  lemma RejectingInv(s: System, i: int)
    requires Inv(s) && Enabled(s, Rejecting(i))
    ensures Inv(Apply(s, Rejecting(i)))
  {
    var s' := Apply(s, Rejecting(i));
    assert Shadows(s'.table.procs) == Shadows(s.table.procs);
    assert DescriptorOk(s, i) && JoinerOk(s, i);
    forall j | 0 <= j < |s.at| ensures DescriptorOk(s', j) {
      assert DescriptorOk(s, j);
    }
    forall j | 0 <= j < |s.at| ensures JoinerOk(s', j) {
      assert JoinerOk(s, j);
    }
  }

  /** Finishing a join on a terminated target p, by whoever had the right to. */
  lemma CompleteInv(s: System, e: int, p: int)
    requires Inv(s) && 0 <= e < |s.at| && 0 <= p < |s.at| && Unjoined(s.table.procs[p])
    requires s.at[e] == NotJoining || (s.at[e].Released? && s.at[e].target == p)
    requires s.table.procs[p].waitingForMe == (if s.at[e] == NotJoining then NIL else e)
    ensures Inv(System(Complete(s.table, p), s.at[e := NotJoining], s.exits))
  {
    var s' := System(Complete(s.table, p), s.at[e := NotJoining], s.exits);
    assert Shadows(s'.table.procs) == Shadows(s.table.procs);
    assert DescriptorOk(s, p) && DescriptorOk(s, e) && JoinerOk(s, e);
    forall j | 0 <= j < |s.at| ensures DescriptorOk(s', j) {
      assert DescriptorOk(s, j);
    }
    CompleteJoiners(s, e, p);
  }

  lemma CompleteJoiners(s: System, e: int, p: int)
    requires Inv(s) && 0 <= e < |s.at| && 0 <= p < |s.at| && Unjoined(s.table.procs[p])
    requires s.at[e] == NotJoining || (s.at[e].Released? && s.at[e].target == p)
    requires s.table.procs[p].waitingForMe == (if s.at[e] == NotJoining then NIL else e)
    ensures var s' := System(Complete(s.table, p), s.at[e := NotJoining], s.exits);
            forall j :: 0 <= j < |s.at| ==> JoinerOk(s', j)
  {
    var s' := System(Complete(s.table, p), s.at[e := NotJoining], s.exits);
    assert DescriptorOk(s, p) && DescriptorOk(s, e) && JoinerOk(s, e);
    forall j | 0 <= j < |s.at| ensures JoinerOk(s', j) {
      assert JoinerOk(s, j);
    }
  }

  /** A join that blocks keeps the forest of shadows. */
  lemma LinkForest(s: System, e: int, p: int)
    requires Shape(s.table) && 0 <= e < |s.table.procs| && 0 <= p < |s.table.procs| && s.table.procs[e].shadow == e
    requires SectionCheck(s.table, e, p) == JoinBlocks
    ensures p != e && Forest(Shadows(Link(s.table, e, p).procs))
  {
    var shadow := Shadows(s.table.procs);
    assert IsRoot(shadow, e);
    if p == e {
      RootIs(shadow, e, 0);
    }
    LinkKeepsForestExactly(shadow, e, p);
    assert Shadows(Link(s.table, e, p).procs) == shadow[e := p];
  }

  /** The section of e blocks on a task that will release it. */
  ghost predicate Blocks(s: System, e: int) {
    && Inv(s) && Enabled(s, Joining(e)) && WillRelease(s, s.at[e].target)
    && SectionCheck(s.table, e, s.at[e].target) == JoinBlocks
  }

  lemma LinkDescriptors(s: System, e: int, j: int)
    requires Blocks(s, e) && 0 <= j < |s.at|
    ensures DescriptorOk(Apply(s, Joining(e)), j)
  {
    LinkForest(s, e, s.at[e].target);
    assert DescriptorOk(s, s.at[e].target) && DescriptorOk(s, e) && JoinerOk(s, e) && DescriptorOk(s, j);
  }

  lemma LinkJoiners(s: System, e: int, j: int)
    requires Blocks(s, e) && 0 <= j < |s.at|
    ensures JoinerOk(Apply(s, Joining(e)), j)
  {
    LinkForest(s, e, s.at[e].target);
    assert DescriptorOk(s, s.at[e].target) && JoinerOk(s, e) && JoinerOk(s, j);
  }

  lemma LinkInv(s: System, e: int)
    requires Blocks(s, e)
    ensures Inv(Apply(s, Joining(e)))
  {
    var s' := Apply(s, Joining(e));
    LinkForest(s, e, s.at[e].target);
    forall j | 0 <= j < |s.at| ensures DescriptorOk(s', j) && JoinerOk(s', j) {
      LinkDescriptors(s, e, j);
      LinkJoiners(s, e, j);
    }
    assert DescriptorOk(s, e);
    assert forall j :: 0 <= j < |s.at| ==>
        s'.table.procs[j].id == s.table.procs[j].id && (Named(s'.table.procs[j]) <==> Named(s.table.procs[j]));
  }

  predicate Early(at: Phase) {
    at == NotJoining || at.Found? || at.Checked?
  }

  /** Only the phase of a task changes, before its section or when it leaves task_join. */
  lemma PhaseDescriptors(s: System, e: int, at: Phase, j: int)
    requires Inv(s) && 0 <= e < |s.at| && 0 <= j < |s.at| && Early(s.at[e]) && Early(at)
    requires at != NotJoining ==> s.table.procs[e].status != FREE
    ensures DescriptorOk(s.(at := s.at[e := at]), j)
  {
    assert DescriptorOk(s, j);
  }

  lemma PhaseJoiners(s: System, e: int, at: Phase, j: int)
    requires Inv(s) && 0 <= e < |s.at| && 0 <= j < |s.at| && Early(s.at[e]) && Early(at)
    requires s.table.procs[e].shadow == e
    requires at != NotJoining ==> 0 <= at.target < |s.at| && at.named < s.table.nextId
    ensures JoinerOk(s.(at := s.at[e := at]), j)
  {
    assert JoinerOk(s, j);
  }

  lemma PhaseInv(s: System, e: int, at: Phase)
    requires Inv(s) && 0 <= e < |s.at| && s.table.procs[e].shadow == e && Early(s.at[e]) && Early(at)
    requires at != NotJoining ==>
               s.table.procs[e].status != FREE && 0 <= at.target < |s.at| && at.named < s.table.nextId
    ensures Inv(s.(at := s.at[e := at]))
  {
    var s' := s.(at := s.at[e := at]);
    forall j | 0 <= j < |s.at| ensures DescriptorOk(s', j) && JoinerOk(s', j) {
      PhaseDescriptors(s, e, at, j);
      PhaseJoiners(s, e, at, j);
    }
  }

  lemma FindingInv(s: System, e: int, p: int)
    requires Inv(s) && Enabled(s, Finding(e, p))
    ensures Inv(Apply(s, Finding(e, p)))
  {
    assert JoinerOk(s, e);
    if FindCheck(s.table, p) == Passed {
      assert DescriptorOk(s, p);
      PhaseInv(s, e, Found(p, s.table.procs[p].id));
    }
  }

  lemma CheckingInv(s: System, e: int)
    requires Inv(s) && Enabled(s, Checking(e))
    ensures Inv(Apply(s, Checking(e)))
  {
    assert JoinerOk(s, e) && DescriptorOk(s, e);
    PhaseInv(s, e, Apply(s, Checking(e)).at[e]);
  }

  lemma JoiningInv(s: System, e: int)
    requires Inv(s) && Enabled(s, Joining(e)) && !Late(s, e)
    ensures Inv(Apply(s, Joining(e)))
  {
    var p := s.at[e].target;
    match SectionCheck(s.table, e, p)
    case JoinNow =>
      PhaseInv(s, e, NotJoining);
      var s1 := s.(at := s.at[e := NotJoining]);
      assert DescriptorOk(s, p);
      CompleteInv(s1, e, p);
      assert s1.at[e := NotJoining] == s1.at;
    case JoinBlocks => LinkInv(s, e);
    case _ => PhaseInv(s, e, NotJoining);
  }

  lemma ResumingInv(s: System, e: int)
    requires Inv(s) && Enabled(s, Resuming(e))
    ensures Inv(Apply(s, Resuming(e)))
  {
    assert JoinerOk(s, e);
    CompleteInv(s, e, s.at[e].target);
  }

  /** Creation when every free descriptor still waits for a join: nothing but the marks changes. */
  lemma ExhaustedInv(s: System, joinable: bool, accepted: bool)
    requires Inv(s) && TakeFree(s.table.procs, s.table.freedesc).2 == NIL
    ensures Inv(Apply(s, Creating(joinable, accepted)))
  {
    var s' := Apply(s, Creating(joinable, accepted));
    var free := s.table.freedesc;
    var m := TakeFreeIs(s.table.procs, free);
    assert free[..m] == free;
    assert Shadows(s'.table.procs) == Shadows(s.table.procs);
    forall j | 0 <= j < |s.at| ensures DescriptorOk(s', j) {
      assert DescriptorOk(s, j);
      if j in free {
        var k :| 0 <= k < |free| && free[k] == j;
      }
    }
    forall j | 0 <= j < |s.at| ensures JoinerOk(s', j) {
      assert JoinerOk(s, j);
    }
  }

  lemma CreatedDescriptors(s: System, joinable: bool, accepted: bool, m: nat)
    requires Inv(s) && m < |s.table.freedesc| && TakeFree(s.table.procs, s.table.freedesc).2 != NIL
    requires var r := TakeFree(s.table.procs, s.table.freedesc);
             PassedOver(s.table.procs, s.table.freedesc, m, r.0, r.1, r.2)
    ensures var s' := Apply(s, Creating(joinable, accepted));
            |s'.table.procs| == |s.at| == |s'.at| && forall j :: 0 <= j < |s.at| ==> DescriptorOk(s', j)
  {
    var s' := Apply(s, Creating(joinable, accepted));
    var free := s.table.freedesc;
    var i := free[m];
    assert DescriptorOk(s, i);
    forall j | 0 <= j < |s.at| ensures DescriptorOk(s', j) {
      assert DescriptorOk(s, j);
      SplitFree(free, m, j);
      if j in free[..m] {
        var k :| 0 <= k < m && free[k] == j;
      }
    }
  }

  lemma CreatedJoiner(s: System, joinable: bool, accepted: bool, m: nat, j: int)
    requires Inv(s) && m < |s.table.freedesc| && TakeFree(s.table.procs, s.table.freedesc).2 != NIL
    requires var r := TakeFree(s.table.procs, s.table.freedesc);
             PassedOver(s.table.procs, s.table.freedesc, m, r.0, r.1, r.2)
    requires 0 <= j < |s.at|
    ensures JoinerOk(Apply(s, Creating(joinable, accepted)), j)
  {
    assert DescriptorOk(s, s.table.freedesc[m]) && JoinerOk(s, s.table.freedesc[m]) && JoinerOk(s, j);
  }

  lemma CreatedShape(s: System, joinable: bool, accepted: bool, m: nat)
    requires Inv(s) && m < |s.table.freedesc| && TakeFree(s.table.procs, s.table.freedesc).2 != NIL
    requires var r := TakeFree(s.table.procs, s.table.freedesc);
             PassedOver(s.table.procs, s.table.freedesc, m, r.0, r.1, r.2)
    ensures Shape(Apply(s, Creating(joinable, accepted)).table)
  {
    var i := s.table.freedesc[m];
    SplitFree(s.table.freedesc, m, i);
    assert DescriptorOk(s, i) && JoinerOk(s, i);
    assert Shadows(Apply(s, Creating(joinable, accepted)).table.procs) == Shadows(s.table.procs);
  }

  lemma CreatingInv(s: System, joinable: bool, accepted: bool)
    requires Inv(s)
    ensures Inv(Apply(s, Creating(joinable, accepted)))
  {
    var m := TakeFreeIs(s.table.procs, s.table.freedesc);
    if m == |s.table.freedesc| {
      ExhaustedInv(s, joinable, accepted);
    } else {
      CreatedDescriptors(s, joinable, accepted, m);
      CreatedShape(s, joinable, accepted, m);
      var s' := Apply(s, Creating(joinable, accepted));
      forall j | 0 <= j < |s.at| ensures JoinerOk(s', j) {
        CreatedJoiner(s, joinable, accepted, m, j);
      }
      forall j, k | 0 <= j < k < |s.at| && Named(s'.table.procs[j]) && Named(s'.table.procs[k])
        ensures s'.table.procs[j].id != s'.table.procs[k].id
      {
        assert DescriptorOk(s, j) && DescriptorOk(s, k);
      }
    }
  }

  /** The kernel's check for dangling shadows does not fire: only the joiner just released had one. */
  lemma NobodyShadowsTheDead(s: System, i: int, value: int)
    requires Inv(s) && Enabled(s, Terminating(i, value))
    ensures Alive(s, i) && !ShadowedByOthers(Release(s.table.procs, i, value), i)
    ensures s.table.procs[i].waitingForMe != NIL ==>
              && s.table.procs[i].joinable && s.table.procs[i].waitingForMe != i
              && WaitsFor(s.at[s.table.procs[i].waitingForMe], i, s.table.procs[i].id)
  {
    assert DescriptorOk(s, i);
    forall y | 0 <= y < |s.at| && y != i && s.table.procs[y].shadow == i
      ensures y == s.table.procs[i].waitingForMe
    {
      assert JoinerOk(s, y);
    }
  }

  /** The state after the first part of a termination, spelled out. */
  lemma Terminated(s: System, i: int, value: int)
    requires Inv(s) && Enabled(s, Terminating(i, value))
    ensures var x := s.table.procs[i].waitingForMe; x != NIL ==> 0 <= x < |s.at| && s.at[x].Blocked?
    ensures var s' := Apply(s, Terminating(i, value));
            var t := s.table.procs[i];
            var x := t.waitingForMe;
            var dead := if t.joinable then t.(value := value, waitForJoin := true) else t;
            var procs' := s.table.procs[i := dead];
            && s'.table.procs == (if x == NIL then procs'
                                  else procs'[x := procs'[x].(status := ALIVE, shadow := x)])
            && s'.table.freedesc == s.table.freedesc && s'.table.nextId == s.table.nextId
            && s'.at == (if x == NIL then s.at[i := Ending]
                         else s.at[i := Ending][x := Released(i, s.at[x].named, t.id)])
            && s'.exits == s.exits[t.id := value]
  {
    NobodyShadowsTheDead(s, i, value);
  }

  lemma TerminatingForest(s: System, i: int, value: int)
    requires Inv(s) && Enabled(s, Terminating(i, value))
    ensures Forest(Shadows(Apply(s, Terminating(i, value)).table.procs))
  {
    NobodyShadowsTheDead(s, i, value);
    Terminated(s, i, value);
    var procs' := Apply(s, Terminating(i, value)).table.procs;
    var x := s.table.procs[i].waitingForMe;
    if x != NIL {
      UnlinkKeepsForest(Shadows(s.table.procs), x);
      assert Shadows(procs') == Shadows(s.table.procs)[x := x];
    } else {
      assert Shadows(procs') == Shadows(s.table.procs);
    }
  }

  lemma TerminatingDescriptors(s: System, i: int, value: int, j: int)
    requires Inv(s) && Enabled(s, Terminating(i, value)) && 0 <= j < |s.at|
    ensures var s' := Apply(s, Terminating(i, value));
            |s'.table.procs| == |s.at| == |s'.at| && DescriptorOk(s', j)
  {
    NobodyShadowsTheDead(s, i, value);
    Terminated(s, i, value);
    assert DescriptorOk(s, j) && DescriptorOk(s, i);
    var x := s.table.procs[i].waitingForMe;
    if x != NIL {
      assert DescriptorOk(s, x);
    }
  }

  lemma TerminatingJoiners(s: System, i: int, value: int, j: int)
    requires Inv(s) && Enabled(s, Terminating(i, value)) && 0 <= j < |s.at|
    ensures var s' := Apply(s, Terminating(i, value));
            |s'.table.procs| == |s.at| == |s'.at| && JoinerOk(s', j)
  {
    NobodyShadowsTheDead(s, i, value);
    Terminated(s, i, value);
    assert JoinerOk(s, j) && JoinerOk(s, i) && DescriptorOk(s, i);
    var x := s.table.procs[i].waitingForMe;
    if x != NIL {
      assert JoinerOk(s, x) && DescriptorOk(s, x);
    }
  }

  lemma TerminatingInv(s: System, i: int, value: int)
    requires Inv(s) && Enabled(s, Terminating(i, value))
    ensures Inv(Apply(s, Terminating(i, value)))
  {
    var s' := Apply(s, Terminating(i, value));
    NobodyShadowsTheDead(s, i, value);
    Terminated(s, i, value);
    TerminatingForest(s, i, value);
    assert DescriptorOk(s, i);
    forall j | 0 <= j < |s.at| ensures DescriptorOk(s', j) && JoinerOk(s', j) {
      TerminatingDescriptors(s, i, value, j);
      TerminatingJoiners(s, i, value, j);
    }
    forall j | 0 <= j < |s.at| && Named(s'.table.procs[j])
      ensures Named(s.table.procs[j]) && s'.table.procs[j].id == s.table.procs[j].id
    {
      assert DescriptorOk(s, j);
    }
  }

  lemma FreeingDescriptors(s: System, i: int, k: nat, j: int)
    requires Inv(s) && Enabled(s, Freeing(i, k)) && 0 <= j < |s.at|
    ensures DescriptorOk(Apply(s, Freeing(i, k)), j)
  {
    InsertMembers(s.table.freedesc, k, i);
    assert DescriptorOk(s, i) && DescriptorOk(s, j);
  }

  lemma FreeingInv(s: System, i: int, k: nat)
    requires Inv(s) && Enabled(s, Freeing(i, k))
    ensures Inv(Apply(s, Freeing(i, k)))
  {
    var s' := Apply(s, Freeing(i, k));
    assert DescriptorOk(s, i) && JoinerOk(s, i);
    assert Shadows(s'.table.procs) == Shadows(s.table.procs);
    InsertDistinct(s.table.freedesc, k, i);
    forall x | x in s'.table.freedesc ensures 0 <= x < |s.at| {
      InsertMembers(s.table.freedesc, k, i);
    }
    forall j | 0 <= j < |s.at| ensures DescriptorOk(s', j) && JoinerOk(s', j) {
      FreeingDescriptors(s, i, k, j);
      assert JoinerOk(s, j);
    }
  }

  lemma SurvivingDescriptors(s: System, e: int, j: int)
    requires Inv(s) && Enabled(s, Surviving(e)) && !Hazard(s, s.at[e].target) && 0 <= j < |s.at|
    ensures DescriptorOk(Apply(s, Surviving(e)), j)
  {
    assert JoinerOk(s, e) && DescriptorOk(s, e) && DescriptorOk(s, s.at[e].target) && DescriptorOk(s, j);
  }

  lemma SurvivingJoiners(s: System, e: int, j: int)
    requires Inv(s) && Enabled(s, Surviving(e)) && !Hazard(s, s.at[e].target) && 0 <= j < |s.at|
    ensures JoinerOk(Apply(s, Surviving(e)), j)
  {
    assert JoinerOk(s, e) && JoinerOk(s, j);
  }

  /** A survivor whose target is no hazard: it may end a reservation, or find none to end. */
  lemma SurvivingInv(s: System, e: int)
    requires Inv(s) && Enabled(s, Surviving(e)) && !Hazard(s, s.at[e].target)
    ensures Inv(Apply(s, Surviving(e)))
  {
    var s' := Apply(s, Surviving(e));
    assert JoinerOk(s, e) && DescriptorOk(s, s.at[e].target);
    assert Shadows(s'.table.procs) == Shadows(s.table.procs);
    forall j | 0 <= j < |s.at| ensures DescriptorOk(s', j) && JoinerOk(s', j) {
      SurvivingDescriptors(s, e, j);
      SurvivingJoiners(s, e, j);
    }
  }

  lemma InvStep(s: System, ev: Event)
    requires Inv(s) && Enabled(s, ev) && Sound(s, ev)
    ensures Inv(Apply(s, ev))
  {
    match ev
    case Creating(joinable, accepted) => CreatingInv(s, joinable, accepted);
    case Rejecting(i) => RejectingInv(s, i);
    case Finding(e, p) => FindingInv(s, e, p);
    case Checking(e) => CheckingInv(s, e);
    case Joining(e) => JoiningInv(s, e);
    case Resuming(e) => ResumingInv(s, e);
    case Killing(i) => KillingInv(s, i);
    case Surviving(e) => SurvivingInv(s, e);
    case Terminating(i, value) => TerminatingInv(s, i, value);
    case Freeing(i, k) => FreeingInv(s, i, k);
  }

  function Initial(maxProc: nat): System {
    System(Cleared(maxProc), seq(maxProc, _ => NotJoining), map[])
  }

  lemma InitialInv(maxProc: nat)
    ensures Inv(Initial(maxProc))
  {
    var s := Initial(maxProc);
    var shadow := Shadows(s.table.procs);
    forall x {:trigger Ends(shadow, x)} | 0 <= x < maxProc ensures Ends(shadow, x) {
      assert IsRoot(shadow, Follow(shadow, x, 0));
    }
    GroundedIsForest(shadow);
    forall j | 0 <= j < maxProc ensures DescriptorOk(s, j) && JoinerOk(s, j) {
      assert s.table.freedesc[j] == j;
    }
  }

  ghost const INV := (s: System) => Inv(s)

  lemma EveryStepKeepsInv()
    ensures PROTOCOL.Keeps(INV)
  {
    forall s, ev | Inv(s) && Enabled(s, ev) && Sound(s, ev)
      ensures Inv(Apply(s, ev))
    {
      InvStep(s, ev);
    }
  }

  ghost const FIRST := (maxProc: nat) => Initial(maxProc)

  /** The states reached in runs without late joins and hazardous survivors. */
  ghost predicate Reachable(s: System) {
    PROTOCOL.Reaches(FIRST, s)
  }

  lemma ReachableInv(s: System)
    requires Reachable(s)
    ensures Inv(s)
  {
    forall maxProc: nat ensures Inv(FIRST(maxProc)) {
      InitialInv(maxProc);
    }
    EveryStepKeepsInv();
    PROTOCOL.ReachesInv(INV, FIRST, s);
  }

  lemma PrependedTwice(xs: seq<int>, p: int)
    requires p in xs
    ensures !Distinct([p] + xs)
  {
    var k :| 0 <= k < |xs| && xs[k] == p;
    assert ([p] + xs)[0] == ([p] + xs)[k + 1];
  }

  lemma HazardBreaks(s: System, e: int)
    requires Inv(s) && Enabled(s, Surviving(e)) && Hazard(s, s.at[e].target)
    ensures !Inv(Apply(s, Surviving(e)))
  {
    var p := s.at[e].target;
    var t := s.table.procs[p];
    var s' := Apply(s, Surviving(e));
    assert JoinerOk(s, e) && DescriptorOk(s, p);
    if t.discarded && !t.waitForJoin {
      PrependedTwice(s.table.freedesc, p);
    } else {
      var x :| 0 <= x < |s.at| && s.at[x].Released? && s.at[x].target == p;
      assert JoinerOk(s, x);
      assert !JoinerOk(s', x);
    }
  }

  lemma LateBreaks(s: System, e: int)
    requires Inv(s) && Late(s, e)
    ensures !Inv(Apply(s, Joining(e)))
  {
    var p := s.at[e].target;
    var s' := Apply(s, Joining(e));
    LinkForest(s, e, p);
    if Alive(s, p) {
      assert !DescriptorOk(s', p);
    } else {
      assert !JoinerOk(s', e);
    }
  }

  /** The two harmful steps are exactly those after which the books are wrong. */
  lemma StepKeepsExactly(s: System, ev: Event)
    requires Inv(s) && Enabled(s, ev)
    ensures Inv(Apply(s, ev)) <==> Sound(s, ev)
  {
    if Sound(s, ev) {
      InvStep(s, ev);
    } else if ev.Surviving? {
      HazardBreaks(s, ev.e);
    } else {
      LateBreaks(s, ev.e);
    }
  }
}
