/** What holds over the runs of TaskTables: descriptors are reserved until joined, joins deliver the value of their
    target, nobody blocks on a dead task; and exactly when that fails, with runs in which it does. */
module TaskRuns {
  import opened IndexLists
  import opened Machines
  import opened ShadowChains
  import opened TaskTables

  // ---------- in every run without the two harmful steps ----------

  /** The shadows form a forest; a descriptor is on the free queue exactly once when it is free, except that one
      discarded while waiting for its join is on it not at all. */
  lemma FreeQueueIsExact(s: System, i: int)
    requires Reachable(s) && 0 <= i < |s.table.procs|
    ensures Forest(Shadows(s.table.procs))
    ensures var t := s.table.procs[i];
            multiset(s.table.freedesc)[i] == if t.status == FREE && !(t.waitForJoin && t.discarded) then 1 else 0
  {
    ReachableInv(s);
    assert DescriptorOk(s, i);
    DistinctOnce(s.table.freedesc, i);
  }

  /** The section of task_join reports a deadlock exactly when the caller joins itself or linking it to the target
      would close a cycle. */
  lemma DeadlockReportedExactly(s: System, e: int)
    requires Inv(s) && Enabled(s, Joining(e)) && s.table.procs[s.at[e].target].waitingForMe == NIL
    ensures var p := s.at[e].target;
            SectionCheck(s.table, e, p) == EDEADLK <==> p == e || !Forest(Shadows(s.table.procs)[e := p])
  {
    var shadow, p := Shadows(s.table.procs), s.at[e].target;
    assert IsRoot(shadow, e);
    if p == e {
      assert Follow(shadow, e, 0) == e;
      RootIs(shadow, e, 0);
    } else {
      LinkKeepsForestExactly(shadow, e, p);
    }
  }

  /** While a joiner is blocked on a task, the section of any other joiner of that task fails with EINVAL and changes
      nothing. */
  lemma SecondJoinerRefused(s: System, e: int, x: int)
    requires Reachable(s) && Enabled(s, Joining(e)) && 0 <= x < |s.at| && s.at[x].Blocked?
    requires s.at[x].target == s.at[e].target
    ensures SectionCheck(s.table, e, s.at[e].target) == EINVAL
    ensures Apply(s, Joining(e)) == s.(at := s.at[e := NotJoining])
  {
    ReachableInv(s);
    assert JoinerOk(s, x);
  }

  /** The target of a blocked joiner exists, has not started to end, and will release it. */
  lemma BlockedTargetLives(s: System, e: int)
    requires Reachable(s) && 0 <= e < |s.at| && s.at[e].Blocked?
    ensures var (p, id) := (s.at[e].target, s.at[e].id);
            WillRelease(s, p) && s.table.procs[p].id == id && s.table.procs[p].waitingForMe == e
  {
    ReachableInv(s);
    assert JoinerOk(s, e) && DescriptorOk(s, s.at[e].target);
  }

  lemma BlockedTerminating(s: System, i: int, value: int, e: int)
    requires Inv(s) && Enabled(s, Terminating(i, value)) && 0 <= e < |s.at| && s.at[e].Blocked?
    ensures var (p, named, id) := (s.at[e].target, s.at[e].named, s.at[e].id);
            && e < |Apply(s, Terminating(i, value)).at|
            && Apply(s, Terminating(i, value)).at[e] == if i == p then Released(p, named, id) else s.at[e]
  {
    assert JoinerOk(s, e) && DescriptorOk(s, e) && DescriptorOk(s, s.at[e].target);
    Terminated(s, i, value);
    NobodyShadowsTheDead(s, i, value);
  }

  /** A blocked joiner goes on only when the task it waits for ends, or when it is killed. */
  lemma BlockedUntil(s: System, ev: Event, e: int)
    requires Reachable(s) && Enabled(s, ev) && Sound(s, ev) && 0 <= e < |s.at| && s.at[e].Blocked?
    ensures var (p, named, id) := (s.at[e].target, s.at[e].named, s.at[e].id);
            && e < |Apply(s, ev).at|
            && Apply(s, ev).at[e] == if ev.Terminating? && ev.i == p then Released(p, named, id)
                                     else if ev == Killing(e) then Cancelled(p, named)
                                     else s.at[e]
  {
    ReachableInv(s);
    if ev.Terminating? {
      BlockedTerminating(s, ev.i, ev.exitValue, e);
    } else {
      assert DescriptorOk(s, e);
    }
  }

  lemma {:induction false} ChainExists(s: System, p: int, k: nat)
    requires Inv(s) && 0 <= p < |s.at| && s.table.procs[p].status != FREE
    ensures var e := Follow(Shadows(s.table.procs), p, k);
            s.table.procs[e].status != FREE && (s.at[e] == Ending ==> e == p)
    decreases k
  {
    if k > 0 {
      assert JoinerOk(s, p) && DescriptorOk(s, p);
      ChainExists(s, s.table.procs[p].shadow, k - 1);
    }
  }

  /** Whatever existing task a scheduling level chooses, the one dispatched in its place can run: it is neither free
      nor blocked in a join, and it is not on its way out unless it is the task chosen. */
  lemma DispatchedCanRun(s: System, p: int)
    requires Reachable(s) && 0 <= p < |s.table.procs| && s.table.procs[p].status != FREE
    ensures Forest(Shadows(s.table.procs)) && |s.at| == |s.table.procs|
    ensures var e := Root(Shadows(s.table.procs), p);
            0 <= e < |s.table.procs| && s.table.procs[e].status == ALIVE && (s.at[e] == Ending ==> e == p)
  {
    ReachableInv(s);
    ForestReaches(Shadows(s.table.procs), p);
    ChainExists(s, p, |s.table.procs|);
    var e := Root(Shadows(s.table.procs), p);
    assert JoinerOk(s, e) && DescriptorOk(s, e);
  }

  /** Termination does not find a foreign shadow, so the XINVALID_KILL_SHADOW exception is not raised. */
  lemma NoInvalidKillShadow(s: System, i: int, value: int)
    requires Reachable(s) && Enabled(s, Terminating(i, value))
    ensures !ShadowedByOthers(Release(s.table.procs, i, value), i)
    ensures Apply(s, Terminating(i, value)).at[i] == Ending
  {
    ReachableInv(s);
    NobodyShadowsTheDead(s, i, value);
    Terminated(s, i, value);
  }

  // ---------- reservation ----------

  /** A step ends the reservation of p. */
  ghost predicate Joins(s: System, ev: Event, p: int) {
    || (ev.Joining? && Enabled(s, ev) && s.at[ev.e].target == p && SectionCheck(s.table, ev.e, p) == JoinNow)
    || (ev.Resuming? && 0 <= ev.e < |s.at| && s.at[ev.e].Released? && s.at[ev.e].target == p)
    || (ev.Surviving? && 0 <= ev.e < |s.at| && s.at[ev.e].Cancelled? && s.at[ev.e].target == p)
  }

  /** Everything but the status and the two bits the queue and the join change stays as it was. */
  ghost predicate SameZombie(t: Task, t': Task) {
    && t'.id == t.id && t'.value == t.value && t'.waitingForMe == t.waitingForMe
    && (t.status == FREE ==> t'.status == FREE)
  }

  lemma ReservedTerminating(s: System, i: int, value: int, p: int)
    requires Inv(s) && Enabled(s, Terminating(i, value)) && 0 <= p < |s.at| && Unjoined(s.table.procs[p])
    ensures 0 <= p < |Apply(s, Terminating(i, value)).table.procs|
    ensures Apply(s, Terminating(i, value)).table.procs[p] == s.table.procs[p]
  {
    assert DescriptorOk(s, p) && DescriptorOk(s, i);
    NobodyShadowsTheDead(s, i, value);
    Terminated(s, i, value);
    if s.table.procs[i].waitingForMe != NIL {
      assert DescriptorOk(s, s.table.procs[i].waitingForMe);
    }
  }

  lemma ReservedKilling(s: System, i: int, p: int)
    requires Inv(s) && Enabled(s, Killing(i)) && 0 <= p < |s.at| && Unjoined(s.table.procs[p])
    ensures 0 <= p < |Apply(s, Killing(i)).table.procs|
    ensures Apply(s, Killing(i)).table.procs[p] == s.table.procs[p]
  {
    assert DescriptorOk(s, p) && DescriptorOk(s, i) && JoinerOk(s, i);
  }

  lemma ReservedCreating(s: System, joinable: bool, accepted: bool, p: int)
    requires Inv(s) && 0 <= p < |s.at| && Unjoined(s.table.procs[p])
    ensures 0 <= p < |Create(s.table, joinable, accepted).0.procs|
    ensures SameZombie(s.table.procs[p], Create(s.table, joinable, accepted).0.procs[p])
    ensures Create(s.table, joinable, accepted).0.procs[p].waitForJoin
  {
    var m := TakeFreeIs(s.table.procs, s.table.freedesc);
  }

  lemma ReservedJoining(s: System, e: int, p: int)
    requires Inv(s) && Enabled(s, Joining(e)) && 0 <= p < |s.at| && Unjoined(s.table.procs[p])
    ensures var s' := Apply(s, Joining(e));
            && 0 <= p < |s'.table.procs| && SameZombie(s.table.procs[p], s'.table.procs[p])
            && (s'.table.procs[p].waitForJoin <==> !Joins(s, Joining(e), p))
            && (Joins(s, Joining(e), p) && s.table.procs[p].status == FREE ==> p in s'.table.freedesc)
  {
    assert DescriptorOk(s, p) && DescriptorOk(s, e);
  }

  lemma Reserved(s: System, ev: Event, p: int)
    requires Inv(s) && Enabled(s, ev) && Sound(s, ev) && 0 <= p < |s.at| && Unjoined(s.table.procs[p])
    ensures 0 <= p < |Apply(s, ev).table.procs|
    ensures SameZombie(s.table.procs[p], Apply(s, ev).table.procs[p])
    ensures Apply(s, ev).table.procs[p].waitForJoin <==> !Joins(s, ev, p)
    ensures Joins(s, ev, p) && s.table.procs[p].status == FREE ==> p in Apply(s, ev).table.freedesc
  {
    match ev
    case Creating(joinable, accepted) => ReservedCreating(s, joinable, accepted, p);
    case Terminating(i, value) => ReservedTerminating(s, i, value, p);
    case Killing(i) => ReservedKilling(s, i, p);
    case Joining(e) => ReservedJoining(s, e, p);
    case Resuming(e) => assert JoinerOk(s, e) && DescriptorOk(s, p);
    case Surviving(e) => assert JoinerOk(s, e) && DescriptorOk(s, p);
    case Rejecting(i) => assert DescriptorOk(s, p);
    case _ =>
  }

  /** A terminated joinable descriptor is not reused, and keeps its identity and exit value, until a joiner or a
      survivor ends its reservation; the step that does so puts a free one on the queue if it was not there. */
  lemma ReservedUntilJoined(s: System, ev: Event, p: int)
    requires Reachable(s) && Enabled(s, ev) && Sound(s, ev) && 0 <= p < |s.at| && Unjoined(s.table.procs[p])
    ensures 0 <= p < |Apply(s, ev).table.procs|
    ensures var t' := Apply(s, ev).table.procs[p];
            && t'.id == s.table.procs[p].id && t'.value == s.table.procs[p].value
            && (s.table.procs[p].status == FREE ==> t'.status == FREE)
            && (t'.waitForJoin <==> !Joins(s, ev, p))
            && (Joins(s, ev, p) && s.table.procs[p].status == FREE ==> p in Apply(s, ev).table.freedesc)
  {
    ReachableInv(s);
    Reserved(s, ev, p);
  }

  /** The value a blocked task_join delivers is the one that the task it waited for, and no later user of the same
      descriptor, ended with. */
  lemma JoinDeliversExitValue(s: System, e: int)
    requires Reachable(s) && 0 <= e < |s.at| && s.at[e].Released?
    ensures var (p, id) := (s.at[e].target, s.at[e].id);
            && 0 <= p < |s.table.procs| && Unjoined(s.table.procs[p]) && s.table.procs[p].id == id
            && id in s.exits && s.table.procs[p].value == s.exits[id]
  {
    ReachableInv(s);
    assert JoinerOk(s, e) && DescriptorOk(s, s.at[e].target);
  }

  // ---------- which task is joined ----------

  /** From s to s' the reservation of the terminated task `id` ends. */
  ghost predicate EndsReservation(s: System, s': System, id: nat) {
    && |s'.table.procs| == |s.table.procs|
    && exists i :: 0 <= i < |s.table.procs|
                   && Unjoined(s.table.procs[i]) && s.table.procs[i].id == id && !Unjoined(s'.table.procs[i])
  }

  /** The step with which task_join by e comes to its end: at once, after its release, or as a survivor of a kill. */
  ghost predicate Finishes(s: System, ev: Event, e: int) {
    && Enabled(s, ev) && 0 <= e < |s.at|
    && (|| (ev == Joining(e) && SectionCheck(s.table, e, s.at[e].target) == JoinNow)
        || ev == Resuming(e) || ev == Surviving(e))
  }

  /** task_join does its duty, ending the reservation of the task it found in the descriptor and delivering that task's
      value, exactly when its target is terminated, not joined yet, and still that task.  It ends the reservation of
      another task exactly when the target is terminated, not joined yet, and another task. */
  lemma JoinIsRightExactly(s: System, ev: Event, e: int)
    requires Reachable(s) && Finishes(s, ev, e)
    ensures var (p, named) := (s.at[e].target, s.at[e].named);
            var t := s.table.procs[p];
            var s' := Apply(s, ev);
            && (EndsReservation(s, s', named) <==> Unjoined(t) && t.id == named)
            && (EndsReservation(s, s', named) ==> named in s.exits && t.value == s.exits[named])
            && ((exists other :: other != named && EndsReservation(s, s', other)) <==> Unjoined(t) && t.id != named)
            && (!ev.Surviving? ==> Unjoined(t))
  {
    ReachableInv(s);
    var p := s.at[e].target;
    var s' := Apply(s, ev);
    assert DescriptorOk(s, p) && JoinerOk(s, e);
    forall i | 0 <= i < |s.at| && Unjoined(s.table.procs[i]) && !Unjoined(s'.table.procs[i]) ensures i == p {
    }
    if Unjoined(s.table.procs[p]) {
      assert EndsReservation(s, s', s.table.procs[p].id);
    }
  }

  /** A joiner that blocks waits for the task it found exactly when that is still the one in the descriptor. */
  lemma WaitsForNamedExactly(s: System, e: int)
    requires Reachable(s) && Enabled(s, Joining(e)) && Sound(s, Joining(e))
    requires SectionCheck(s.table, e, s.at[e].target) == JoinBlocks
    ensures var (p, named) := (s.at[e].target, s.at[e].named);
            var s' := Apply(s, Joining(e));
            && s'.at[e] == Blocked(p, named, s.table.procs[p].id) && WillRelease(s', p)
            && (s'.at[e].id == named <==> Alive(s, p) && s.table.procs[p].id == named)
  {
    ReachableInv(s);
    LinkForest(s, e, s.at[e].target);
    assert DescriptorOk(s, s.at[e].target) && DescriptorOk(s, e);
  }

  /** e waits in its join for the task `id` in descriptor p, or has been released by its end. */
  predicate InJoin(s: System, e: int, p: int, named: nat, id: nat) {
    0 <= e < |s.at| && (s.at[e] == Blocked(p, named, id) || s.at[e] == Released(p, named, id))
  }

  /** A step that ends the wait of e: its end, a kill, or going on after its release. */
  predicate Leaves(ev: Event, e: int) {
    ev == Killing(e) || ev == Resuming(e) || (ev.Terminating? && ev.i == e)
  }

  lemma InJoinStep(s: System, ev: Event, e: int, p: int, named: nat, id: nat)
    requires Reachable(s) && Enabled(s, ev) && Sound(s, ev) && InJoin(s, e, p, named, id) && !Leaves(ev, e)
    ensures InJoin(Apply(s, ev), e, p, named, id)
  {
    if s.at[e].Blocked? {
      BlockedUntil(s, ev, e);
    } else if ev.Terminating? {
      ReachableInv(s);
      Terminated(s, ev.i, ev.exitValue);
    }
  }

  /** Whatever happens meanwhile, a join that blocks ends by joining the task that was in the descriptor when it blocked
      and delivering its value.  That is the task the caller named exactly when the descriptor had not been used again
      between the checks and the section. */
  lemma {:induction false} WaitDelivers(s: System, es: seq<Event>, e: int, p: int, named: nat, id: nat)
    requires Reachable(s) && PROTOCOL.Feasible(s, es) && InJoin(s, e, p, named, id)
    requires forall ev :: ev in es ==> !Leaves(ev, e)
    ensures var s' := PROTOCOL.Run(s, es);
            && InJoin(s', e, p, named, id) && 0 <= p < |s'.table.procs| && s'.table.procs[p].id == id
            && (s'.at[e].Blocked? ==> WillRelease(s', p))
            && (Enabled(s', Resuming(e)) ==>
                  && s'.at[e].Released? && EndsReservation(s', Apply(s', Resuming(e)), id)
                  && id in s'.exits && s'.table.procs[p].value == s'.exits[id]
                  && (EndsReservation(s', Apply(s', Resuming(e)), named) <==> id == named))
    decreases |es|
  {
    if es == [] {
      ReachableInv(s);
      assert JoinerOk(s, e) && DescriptorOk(s, p);
      if Enabled(s, Resuming(e)) {
        JoinIsRightExactly(s, Resuming(e), e);
        assert Unjoined(s.table.procs[p]) && !Unjoined(Apply(s, Resuming(e)).table.procs[p]);
      }
    } else {
      assert es[0] in es;
      InJoinStep(s, es[0], e, p, named, id);
      PROTOCOL.ReachesNext(FIRST, s, es[0]);
      WaitDelivers(Apply(s, es[0]), es[1..], e, p, named, id);
    }
  }

  // ---------- a joiner killed after its release ----------

  predicate Awaits(at: Phase, p: int) {
    (at.Blocked? || at.Released?) && at.target == p
  }

  /** p has terminated and nobody is left to join it, but `waiting_for_me` is still set. */
  ghost predicate Stranded(s: System, p: int) {
    && Gone(s, p) && Unjoined(s.table.procs[p]) && s.table.procs[p].waitingForMe != NIL
    && forall x :: 0 <= x < |s.at| && x != p ==> s.table.procs[x].shadow != p && !Awaits(s.at[x], p)
  }

  /** The task last put into descriptor p has ended. */
  ghost predicate Gone(s: System, p: int) {
    && 0 <= p < |s.at| == |s.table.procs| && s.table.procs[p].id < s.table.nextId
    && (s.at[p] == Ending || (s.table.procs[p].status == FREE && s.at[p] == NotJoining))
  }

  /** A released joiner that dies before it runs leaves its target stranded. */
  lemma DeadJoinerStrands(s: System, x: int, value: int)
    requires Inv(s) && Enabled(s, Terminating(x, value)) && s.at[x].Released?
    ensures Stranded(Apply(s, Terminating(x, value)), s.at[x].target)
  {
    var p := s.at[x].target;
    var s' := Apply(s, Terminating(x, value));
    assert JoinerOk(s, x) && DescriptorOk(s, p) && JoinerOk(s, p);
    Terminated(s, x, value);
    NobodyShadowsTheDead(s, x, value);
    ReservedTerminating(s, x, value, p);
    forall y | 0 <= y < |s'.at| && y != p ensures s'.table.procs[y].shadow != p && !Awaits(s'.at[y], p) {
      assert JoinerOk(s, y) && DescriptorOk(s, x);
    }
  }

  /** A terminated task can still be joined exactly when its `waiting_for_me` is clear. */
  lemma JoinableExactly(s: System, e: int, p: int)
    requires Inv(s) && Idle(s, e) && 0 <= p < |s.at| && Unjoined(s.table.procs[p])
    ensures FindCheck(s.table, p) == JoinableCheck(s.table, p) == Passed
    ensures SectionCheck(s.table, e, p) == if s.table.procs[p].waitingForMe == NIL then JoinNow else EINVAL
  {
    assert DescriptorOk(s, p) && DescriptorOk(s, e) && JoinerOk(s, p);
    RootIs(Shadows(s.table.procs), p, 0);
  }

  /** The step of a survivor whose target is p. */
  predicate Rescues(s: System, ev: Event, p: int) {
    ev.Surviving? && 0 <= ev.e < |s.at| && s.at[ev.e].Cancelled? && s.at[ev.e].target == p
  }

  /** Some step of the run is such a step. */
  ghost predicate Rescued(s: System, es: seq<Event>, p: int)
    decreases |es|
  {
    es != [] && (Rescues(s, es[0], p) || Rescued(Apply(s, es[0]), es[1..], p))
  }

  lemma StrandedCreating(s: System, joinable: bool, accepted: bool, p: int)
    requires Stranded(s, p) && Enabled(s, Creating(joinable, accepted))
    ensures var s' := Apply(s, Creating(joinable, accepted));
            Stranded(s', p) && s'.table.procs[p].id == s.table.procs[p].id
  {
    var m := TakeFreeIs(s.table.procs, s.table.freedesc);
  }

  lemma StrandedTerminating(s: System, i: int, value: int, p: int)
    requires Stranded(s, p) && Enabled(s, Terminating(i, value))
    ensures var s' := Apply(s, Terminating(i, value));
            Stranded(s', p) && s'.table.procs[p].id == s.table.procs[p].id
  {
  }

  lemma StrandedJoining(s: System, e: int, p: int)
    requires Stranded(s, p) && Enabled(s, Joining(e))
    ensures var s' := Apply(s, Joining(e)); Stranded(s', p) && s'.table.procs[p].id == s.table.procs[p].id
  {
  }

  lemma StrandedKilling(s: System, i: int, p: int)
    requires Stranded(s, p) && Enabled(s, Killing(i))
    ensures var s' := Apply(s, Killing(i)); Stranded(s', p) && s'.table.procs[p].id == s.table.procs[p].id
  {
  }

  lemma StrandedStep(s: System, ev: Event, p: int)
    requires Stranded(s, p) && Enabled(s, ev) && !Rescues(s, ev, p)
    ensures Stranded(Apply(s, ev), p) && Apply(s, ev).table.procs[p].id == s.table.procs[p].id
  {
    match ev
    case Creating(joinable, accepted) => StrandedCreating(s, joinable, accepted, p);
    case Terminating(i, value) => StrandedTerminating(s, i, value, p);
    case Joining(e) => StrandedJoining(s, e, p);
    case Killing(i) => StrandedKilling(s, i, p);
    case _ =>
  }

  /** The task `id` was joined, or its descriptor is that of another task. */
  ghost predicate Past(s: System, p: int, id: nat) {
    && 0 <= p < |s.at| == |s.table.procs| && id < s.table.nextId
    && (s.table.procs[p].id == id ==> Gone(s, p) && !Unjoined(s.table.procs[p]))
  }

  lemma PastCreating(s: System, joinable: bool, accepted: bool, p: int, id: nat)
    requires Past(s, p, id) && Enabled(s, Creating(joinable, accepted))
    ensures Past(Apply(s, Creating(joinable, accepted)), p, id)
  {
    var m := TakeFreeIs(s.table.procs, s.table.freedesc);
  }

  lemma PastJoining(s: System, e: int, p: int, id: nat)
    requires Past(s, p, id) && Enabled(s, Joining(e))
    ensures Past(Apply(s, Joining(e)), p, id)
  {
  }

  lemma PastTerminating(s: System, i: int, value: int, p: int, id: nat)
    requires Past(s, p, id) && Enabled(s, Terminating(i, value))
    ensures Past(Apply(s, Terminating(i, value)), p, id)
  {
  }

  lemma PastStep(s: System, ev: Event, p: int, id: nat)
    requires Past(s, p, id) && Enabled(s, ev)
    ensures Past(Apply(s, ev), p, id)
  {
    match ev
    case Creating(joinable, accepted) => PastCreating(s, joinable, accepted, p, id);
    case Joining(e) => PastJoining(s, e, p, id);
    case Terminating(i, value) => PastTerminating(s, i, value, p, id);
    case _ =>
  }

  lemma {:induction false} PastForEver(s: System, es: seq<Event>, p: int, id: nat)
    requires Past(s, p, id) && EVERY.Feasible(s, es)
    ensures Past(EVERY.Run(s, es), p, id)
    decreases |es|
  {
    if es != [] {
      PastStep(s, es[0], p, id);
      PastForEver(Apply(s, es[0]), es[1..], p, id);
    }
  }

  /** Over every run a stranded task stays stranded, neither joined nor its descriptor used again, exactly as long as
      no survivor of an earlier join of the same descriptor goes on. */
  lemma {:induction false} StrandedExactly(s: System, es: seq<Event>, p: int)
    requires Stranded(s, p) && EVERY.Feasible(s, es)
    ensures var s' := EVERY.Run(s, es);
            Stranded(s', p) && s'.table.procs[p].id == s.table.procs[p].id <==> !Rescued(s, es, p)
    decreases |es|
  {
    if es != [] {
      var s1, id := Apply(s, es[0]), s.table.procs[p].id;
      if Rescues(s, es[0], p) {
        assert Past(s1, p, id);
        PastForEver(s1, es[1..], p, id);
      } else {
        StrandedStep(s, es[0], p);
        StrandedExactly(s1, es[1..], p);
      }
    }
  }

  /** Somebody killed in an earlier join of the same descriptor has not gone on yet. */
  ghost predicate Survivable(s: System, p: int) {
    exists e :: 0 <= e < |s.at| && s.at[e].Cancelled? && s.at[e].target == p
  }

  lemma SurvivableStep(s: System, ev: Event, p: int)
    requires Stranded(s, p) && Enabled(s, ev) && !Survivable(s, p)
    ensures !Rescues(s, ev, p) && !Survivable(Apply(s, ev), p)
  {
  }

  lemma {:induction false} NotSurvivable(s: System, es: seq<Event>, p: int)
    requires Stranded(s, p) && EVERY.Feasible(s, es) && !Survivable(s, p)
    ensures !Rescued(s, es, p)
    decreases |es|
  {
    if es != [] {
      SurvivableStep(s, es[0], p);
      StrandedStep(s, es[0], p);
      NotSurvivable(Apply(s, es[0]), es[1..], p);
    }
  }

  /** A stranded task is stranded for ever, in every run, exactly when nobody is left who was killed in an earlier join
      of its descriptor. */
  lemma StrandedForEverExactly(s: System, p: int)
    requires Shape(s.table) && Stranded(s, p)
    ensures (forall es :: EVERY.Feasible(s, es) ==>
               Stranded(EVERY.Run(s, es), p) && EVERY.Run(s, es).table.procs[p].id == s.table.procs[p].id)
            <==> !Survivable(s, p)
  {
    if Survivable(s, p) {
      var e :| 0 <= e < |s.at| && s.at[e].Cancelled? && s.at[e].target == p;
      var es := [Surviving(e)];
      EVERY.Cons(s, Surviving(e), []);
      assert EVERY.Feasible(s, es);
      StrandedExactly(s, es, p);
      assert Rescued(s, es, p);
    } else {
      forall es | EVERY.Feasible(s, es)
        ensures Stranded(EVERY.Run(s, es), p) && EVERY.Run(s, es).table.procs[p].id == s.table.procs[p].id
      {
        NotSurvivable(s, es, p);
        StrandedExactly(s, es, p);
      }
    }
  }

  // ---------- a joiner that comes late ----------

  /** e is blocked, and no task that will release a joiner names it as its own. */
  ghost predicate Lost(s: System, e: int) {
    && 0 <= e < |s.at| == |s.table.procs| && s.at[e].Blocked?
    && forall i :: 0 <= i < |s.at| && s.table.procs[i].joinable && (Alive(s, i) || s.at[i].Blocked?) ==>
         s.table.procs[i].waitingForMe != e
  }

  /** A join that blocks is lost exactly when it comes late. */
  lemma LostExactly(s: System, e: int)
    requires Inv(s) && Enabled(s, Joining(e)) && SectionCheck(s.table, e, s.at[e].target) == JoinBlocks
    ensures Lost(Apply(s, Joining(e)), e) <==> Late(s, e)
  {
    var p := s.at[e].target;
    LinkForest(s, e, p);
    var s' := Apply(s, Joining(e));
    if Late(s, e) {
      forall i | 0 <= i < |s'.at| && s'.table.procs[i].joinable && (Alive(s', i) || s'.at[i].Blocked?)
        ensures s'.table.procs[i].waitingForMe != e
      {
        assert DescriptorOk(s, i);
      }
    } else {
      assert DescriptorOk(s, p);
      assert WillRelease(s', p) && s'.table.procs[p].waitingForMe == e;
    }
  }

  lemma LostCreating(s: System, joinable: bool, accepted: bool, e: int)
    requires Lost(s, e) && Enabled(s, Creating(joinable, accepted))
    ensures Lost(Apply(s, Creating(joinable, accepted)), e)
  {
    var m := TakeFreeIs(s.table.procs, s.table.freedesc);
  }

  lemma LostTerminating(s: System, i: int, value: int, e: int)
    requires Lost(s, e) && Enabled(s, Terminating(i, value))
    ensures Lost(Apply(s, Terminating(i, value)), e) && Apply(s, Terminating(i, value)).at[e] == s.at[e]
  {
    assert Alive(s, i);
  }

  lemma LostJoining(s: System, x: int, e: int)
    requires Lost(s, e) && Enabled(s, Joining(x))
    ensures Lost(Apply(s, Joining(x)), e) && Apply(s, Joining(x)).at[e] == s.at[e]
  {
  }

  lemma LostStep(s: System, ev: Event, e: int)
    requires Lost(s, e) && Enabled(s, ev) && ev != Killing(e)
    ensures Lost(Apply(s, ev), e) && Apply(s, ev).at[e] == s.at[e]
  {
    match ev
    case Creating(joinable, accepted) => LostCreating(s, joinable, accepted, e);
    case Terminating(i, value) => LostTerminating(s, i, value, e);
    case Joining(x) => LostJoining(s, x, e);
    case _ =>
  }

  /** And then it waits for ever, in every run, unless it is killed. */
  lemma {:induction false} LostForEver(s: System, es: seq<Event>, e: int)
    requires Lost(s, e) && EVERY.Feasible(s, es) && Killing(e) !in es
    ensures Lost(EVERY.Run(s, es), e) && EVERY.Run(s, es).at[e] == s.at[e]
    decreases |es|
  {
    if es != [] {
      assert es[0] in es;
      LostStep(s, es[0], e);
      LostForEver(Apply(s, es[0]), es[1..], e);
    }
  }

  /** Some run from s, without further harmful steps, ends with the exception. */
  ghost predicate CanRaise(s: System) {
    exists es :: PROTOCOL.Feasible(s, es) && Raises(PROTOCOL.Run(s, es))
  }

  ghost predicate Raises(s: System) {
    exists i :: 0 <= i < |s.at| && s.at[i] == Raised
  }

  lemma InvCannotRaise(s: System)
    requires Inv(s)
    ensures !CanRaise(s)
  {
    EveryStepKeepsInv();
    forall es | PROTOCOL.Feasible(s, es) ensures !Raises(PROTOCOL.Run(s, es)) {
      PROTOCOL.Invariant(INV, s, es);
      var s' := PROTOCOL.Run(s, es);
      forall i | 0 <= i < |s'.at| ensures s'.at[i] != Raised {
        assert DescriptorOk(s', i);
      }
    }
  }

  lemma UserRaises(s: System, e: int, p: int)
    requires Enabled(s, Terminating(p, 0)) && !s.table.procs[p].joinable
    requires 0 <= e < |s.at| && e != p && s.table.procs[e].shadow == p
    ensures Raises(Apply(s, Terminating(p, 0)))
  {
    assert ShadowedByOthers(Release(s.table.procs, p, 0), p);
    assert Apply(s, Terminating(p, 0)).at[p] == Raised;
  }

  /** Descriptor p is queued for its next user while e still has it as its shadow. */
  ghost predicate Queued(s: System, e: int, p: int) {
    && Shape(s.table) && |s.at| == |s.table.procs| && 0 <= e < |s.at| && e != p && e !in s.table.freedesc
    && p in s.table.freedesc && !s.table.procs[p].waitForJoin && s.table.procs[e].shadow == p
    && forall i :: i in s.table.freedesc ==> s.table.procs[i].shadow == i && s.at[i] == NotJoining
  }

  /** One more creation: it takes p, or p comes nearer to the front of the queue. */
  lemma QueuedStep(s: System, e: int, p: int)
    requires Queued(s, e, p)
    ensures var s' := Apply(s, Creating(false, true));
            || (Queued(s', e, p) && |s'.table.freedesc| < |s.table.freedesc|)
            || (Enabled(s', Terminating(p, 0)) && !s'.table.procs[p].joinable && s'.table.procs[e].shadow == p)
  {
    var procs, free := s.table.procs, s.table.freedesc;
    var s' := Apply(s, Creating(false, true));
    var m := TakeFreeIs(procs, free);
    var k :| 0 <= k < |free| && free[k] == p;
    assert m <= k;
    SplitFree(free, m, p);
    SplitFree(free, m, e);
    assert free[m] in free;
    assert Shadows(s'.table.procs) == Shadows(procs);
  }

  lemma {:induction false} QueuedRaises(s: System, e: int, p: int) returns (es: seq<Event>)
    requires Queued(s, e, p)
    ensures PROTOCOL.Feasible(s, es) && Raises(PROTOCOL.Run(s, es))
    decreases |s.table.freedesc|
  {
    var ev := Creating(false, true);
    var s' := Apply(s, ev);
    QueuedStep(s, e, p);
    if Queued(s', e, p) && |s'.table.freedesc| < |s.table.freedesc| {
      var rest := QueuedRaises(s', e, p);
      PROTOCOL.Cons(s, ev, rest);
      es := [ev] + rest;
    } else {
      UserRaises(s', e, p);
      PROTOCOL.Two(s, ev, Terminating(p, 0));
      es := [ev] + [Terminating(p, 0)];
    }
  }

  lemma QueueIsIdle(s: System)
    requires Inv(s)
    ensures forall i :: i in s.table.freedesc ==>
              s.table.procs[i].status == FREE && s.table.procs[i].shadow == i && s.at[i] == NotJoining
  {
    forall i | i in s.table.freedesc
      ensures s.table.procs[i].status == FREE && s.table.procs[i].shadow == i && s.at[i] == NotJoining
    {
      assert DescriptorOk(s, i) && JoinerOk(s, i);
    }
  }

  /** Late on a descriptor that is free: it is queued already. */
  lemma LateOnFree(s: System, e: int)
    requires Inv(s) && Late(s, e) && s.table.procs[s.at[e].target].status == FREE
    ensures Queued(Apply(s, Joining(e)), e, s.at[e].target)
  {
    var p := s.at[e].target;
    LinkForest(s, e, p);
    QueueIsIdle(s);
    assert DescriptorOk(s, p);
  }

  /** A task that is shadowed by e is queued when it is freed. */
  lemma FreeingQueues(s: System, e: int, p: int)
    requires Shape(s.table) && |s.at| == |s.table.procs| && 0 <= e < |s.at| && 0 <= p < |s.at| && e != p
    requires s.at[p] == Ending && !s.table.procs[p].waitForJoin && s.table.procs[p].shadow == p
    requires p !in s.table.freedesc && e !in s.table.freedesc && s.table.procs[e].shadow == p
    requires forall i :: i in s.table.freedesc ==> s.table.procs[i].shadow == i && s.at[i] == NotJoining
    ensures Enabled(s, Freeing(p, 0)) && Queued(Apply(s, Freeing(p, 0)), e, p)
  {
    var s' := Apply(s, Freeing(p, 0));
    InsertDistinct(s.table.freedesc, 0, p);
    assert s'.table.freedesc == [p] + s.table.freedesc;
    assert Shadows(s'.table.procs) == Shadows(s.table.procs);
  }

  /** Late on a task that is ending. */
  lemma LateOnEnding(s: System, e: int)
    requires Inv(s) && Late(s, e) && s.at[s.at[e].target] == Ending
    ensures var s1, p := Apply(s, Joining(e)), s.at[e].target;
            Enabled(s1, Freeing(p, 0)) && Queued(Apply(s1, Freeing(p, 0)), e, p)
  {
    var p := s.at[e].target;
    LinkForest(s, e, p);
    QueueIsIdle(s);
    assert JoinerOk(s, p) && DescriptorOk(s, p);
    FreeingQueues(Apply(s, Joining(e)), e, p);
  }

  lemma KilledDetached(s: System, e: int, p: int)
    requires Enabled(s, Killing(p)) && 0 <= e < |s.at| && e != p && s.table.procs[e].shadow == p
    requires !s.table.procs[p].joinable
    ensures var s' := Apply(s, Killing(p));
            && Enabled(s', Terminating(p, 0)) && s'.table.procs[e].shadow == p && !s'.table.procs[p].joinable
  {
    UnlinkKeepsForest(Shadows(s.table.procs), p);
    assert Shadows(Apply(s, Killing(p)).table.procs) == Shadows(s.table.procs)[p := p];
  }

  /** Late on a task that cannot be joined: its own end raises the exception, after a kill if it is blocked itself. */
  lemma LateOnDetached(s: System, e: int) returns (es: seq<Event>)
    requires Inv(s) && Late(s, e) && Alive(s, s.at[e].target)
    ensures PROTOCOL.Feasible(Apply(s, Joining(e)), es)
    ensures Raises(PROTOCOL.Run(Apply(s, Joining(e)), es))
  {
    var p := s.at[e].target;
    LinkForest(s, e, p);
    assert DescriptorOk(s, p) && DescriptorOk(s, e) && JoinerOk(s, p);
    var s1 := Apply(s, Joining(e));
    if s.at[p].Blocked? {
      KilledDetached(s1, e, p);
      var s2 := Apply(s1, Killing(p));
      UserRaises(s2, e, p);
      PROTOCOL.Two(s1, Killing(p), Terminating(p, 0));
      es := [Killing(p)] + [Terminating(p, 0)];
    } else {
      UserRaises(s1, e, p);
      PROTOCOL.Cons(s1, Terminating(p, 0), []);
      es := [Terminating(p, 0)] + [];
    }
  }

  /** The late joiner is in the way of a later end of the descriptor's user. */
  lemma LateRaises(s: System, e: int) returns (es: seq<Event>)
    requires Inv(s) && Late(s, e)
    ensures PROTOCOL.Feasible(Apply(s, Joining(e)), es)
    ensures Raises(PROTOCOL.Run(Apply(s, Joining(e)), es))
  {
    var s1, p := Apply(s, Joining(e)), s.at[e].target;
    if s.at[p] == Ending {
      LateOnEnding(s, e);
      var rest := QueuedRaises(Apply(s1, Freeing(p, 0)), e, p);
      PROTOCOL.Cons(s1, Freeing(p, 0), rest);
      es := [Freeing(p, 0)] + rest;
    } else if s.table.procs[p].status == FREE {
      LateOnFree(s, e);
      es := QueuedRaises(s1, e, p);
    } else {
      es := LateOnDetached(s, e);
    }
  }

  /** After the section of task_join the exception can follow exactly when it came late. */
  lemma JoinCanRaiseExactly(s: System, e: int)
    requires Reachable(s) && Enabled(s, Joining(e))
    ensures CanRaise(Apply(s, Joining(e))) <==> Late(s, e)
  {
    ReachableInv(s);
    if Late(s, e) {
      var es := LateRaises(s, e);
    } else {
      StepKeepsExactly(s, Joining(e));
      InvCannotRaise(Apply(s, Joining(e)));
    }
  }
}
