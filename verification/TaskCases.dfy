/** Runs of TaskTables from the start, in a table of three, into the states that TaskRuns speaks of. */
module TaskCases {
  import opened IndexLists
  import opened Machines
  import opened ShadowChains
  import opened TaskTables
  import opened TaskRuns

  const T0 := Fresh(0, true, 0)
  const T1 := Fresh(1, true, 1)
  const T2 := Fresh(2, true, 2)
  const IDLE := [NotJoining, NotJoining, NotJoining]

  ghost predicate In(s: System, procs: seq<Task>, free: seq<int>, nextId: nat, at: seq<Phase>) {
    Reachable(s) && s.table == Table(procs, free, nextId) && s.at == at && Shape(s.table)
  }

  lemma Next(s: System, ev: Event)
    requires Reachable(s) && Enabled(s, ev) && Sound(s, ev)
    ensures Reachable(Apply(s, ev)) && Shape(Apply(s, ev).table)
  {
    PROTOCOL.ReachesNext(FIRST, s, ev);
    ReachableInv(Apply(s, ev));
  }

  // ---------- one step each ----------

  lemma Creates(s: System, procs: seq<Task>, free: seq<int>, n: nat, at: seq<Phase>, joinable: bool)
    returns (s': System)
    requires In(s, procs, free, n, at) && |procs| == |at| == 3 && free != [] && !procs[free[0]].waitForJoin
    ensures In(s', procs[free[0] := Fresh(free[0], joinable, n)], free[1..], n + 1, at)
  {
    Next(s, Creating(joinable, true));
    s' := Apply(s, Creating(joinable, true));
  }

  /** A creation that finds only one free descriptor, which waits for its join. */
  lemma Discards(s: System, procs: seq<Task>, i: int, n: nat, at: seq<Phase>) returns (s': System)
    requires In(s, procs, [i], n, at) && |procs| == |at| == 3 && 0 <= i < 3 && procs[i].waitForJoin
    ensures In(s', procs[i := procs[i].(discarded := true)], [], n, at)
  {
    assert [i][1..] == [];
    assert TakeFree(procs[i := procs[i].(discarded := true)], []).2 == NIL;
    Next(s, Creating(true, true));
    s' := Apply(s, Creating(true, true));
  }

  /** The two checks of task_join by e. */
  lemma Checks(s: System, procs: seq<Task>, free: seq<int>, n: nat, at: seq<Phase>, e: int, p: int)
    returns (s': System)
    requires In(s, procs, free, n, at) && |procs| == |at| == 3 && Idle(s, e) && 0 <= p < 3
    requires Named(procs[p]) && procs[p].joinable
    ensures In(s', procs, free, n, at[e := Checked(p, procs[p].id)])
  {
    Next(s, Finding(e, p));
    var s1 := Apply(s, Finding(e, p));
    Next(s1, Checking(e));
    s' := Apply(s1, Checking(e));
    assert s'.at == at[e := Found(p, procs[p].id)][e := Checked(p, procs[p].id)] == at[e := Checked(p, procs[p].id)];
  }

  /** The section, which finds that the target has ended. */
  lemma JoinsNow(s: System, procs: seq<Task>, free: seq<int>, n: nat, at: seq<Phase>, e: int, p: int)
    returns (s': System)
    requires In(s, procs, free, n, at) && |procs| == |at| == 3 && Enabled(s, Joining(e)) && at[e].target == p != e
    requires procs[p].waitingForMe == NIL && procs[p].shadow == p && procs[p].waitForJoin
    ensures In(s', procs[p := procs[p].(waitForJoin := false)],
               if procs[p].discarded then [p] + free else free, n, at[e := NotJoining])
  {
    assert Follow(Shadows(procs), p, 0) == p;
    RootIs(Shadows(procs), p, 0);
    Next(s, Joining(e));
    s' := Apply(s, Joining(e));
  }

  /** The section, which blocks. */
  lemma JoinsLater(s: System, procs: seq<Task>, free: seq<int>, n: nat, at: seq<Phase>, e: int, p: int)
    returns (s': System)
    requires In(s, procs, free, n, at) && |procs| == |at| == 3 && Enabled(s, Joining(e)) && at[e].target == p != e
    requires procs[p].waitingForMe == NIL && procs[p].shadow == p && !procs[p].waitForJoin && WillRelease(s, p)
    ensures In(s', procs[p := procs[p].(waitingForMe := e)][e := procs[e].(shadow := p, status := WAIT_JOIN)],
               free, n, at[e := Blocked(p, at[e].named, procs[p].id)])
  {
    assert Follow(Shadows(procs), p, 0) == p;
    RootIs(Shadows(procs), p, 0);
    Next(s, Joining(e));
    s' := Apply(s, Joining(e));
  }

  /** The whole of task_join, without interruption. */
  lemma CallsJoin(s: System, procs: seq<Task>, free: seq<int>, n: nat, at: seq<Phase>, e: int, p: int)
    returns (s': System)
    requires In(s, procs, free, n, at) && |procs| == |at| == 3 && Idle(s, e) && 0 <= p < 3 && e != p
    requires Named(procs[p]) && procs[p].joinable && procs[p].waitingForMe == NIL && procs[p].shadow == p
    requires procs[e].shadow == e && (!procs[p].waitForJoin ==> at[p] != Ending)
    ensures procs[p].waitForJoin ==>
              In(s', procs[p := procs[p].(waitForJoin := false)],
                 if procs[p].discarded then [p] + free else free, n, at)
    ensures !procs[p].waitForJoin ==>
              In(s', procs[p := procs[p].(waitingForMe := e)][e := procs[e].(shadow := p, status := WAIT_JOIN)],
                 free, n, at[e := Blocked(p, procs[p].id, procs[p].id)])
  {
    var s1 := Checks(s, procs, free, n, at, e, p);
    var at1 := at[e := Checked(p, procs[p].id)];
    if procs[p].waitForJoin {
      s' := JoinsNow(s1, procs, free, n, at1, e, p);
      assert at1[e := NotJoining] == at;
    } else {
      s' := JoinsLater(s1, procs, free, n, at1, e, p);
      assert at1[e := Blocked(p, procs[p].id, procs[p].id)] == at[e := Blocked(p, procs[p].id, procs[p].id)];
    }
  }

  lemma Kills(s: System, procs: seq<Task>, free: seq<int>, n: nat, at: seq<Phase>, i: int) returns (s': System)
    requires In(s, procs, free, n, at) && |procs| == |at| == 3 && 0 <= i < 3 && at[i].Blocked?
    requires 0 <= procs[i].shadow < 3 && procs[i].shadow != i
    ensures var p := procs[i].shadow;
            In(s', procs[p := procs[p].(waitingForMe := NIL)][i := procs[i].(shadow := i, status := ALIVE)],
               free, n, at[i := Cancelled(at[i].target, at[i].named)])
  {
    Next(s, Killing(i));
    s' := Apply(s, Killing(i));
  }

  /** The first part of a termination, with and without a joiner. */
  lemma Ends(s: System, procs: seq<Task>, free: seq<int>, n: nat, at: seq<Phase>, i: int, value: int)
    returns (s': System)
    requires In(s, procs, free, n, at) && |procs| == |at| == 3 && Enabled(s, Terminating(i, value))
    requires procs[i].joinable
    ensures var x := procs[i].waitingForMe;
            var ps := procs[i := procs[i].(value := value, waitForJoin := true)];
            if x == NIL then In(s', ps, free, n, at[i := Ending])
            else 0 <= x < 3 && at[x].Blocked?
                 && In(s', ps[x := ps[x].(status := ALIVE, shadow := x)], free, n,
                       at[i := Ending][x := Released(i, at[x].named, procs[i].id)])
  {
    ReachableInv(s);
    Terminated(s, i, value);
    Next(s, Terminating(i, value));
    s' := Apply(s, Terminating(i, value));
  }

  lemma Frees(s: System, procs: seq<Task>, free: seq<int>, n: nat, at: seq<Phase>, i: int) returns (s': System)
    requires In(s, procs, free, n, at) && |procs| == |at| == 3 && 0 <= i < 3 && at[i] == Ending
    ensures In(s', procs[i := procs[i].(status := FREE)], [i] + free, n, at[i := NotJoining])
  {
    Next(s, Freeing(i, 0));
    s' := Apply(s, Freeing(i, 0));
    assert InsertAt(free, 0, i) == [i] + free;
  }

  // ---------- the runs ----------

  lemma Empty() returns (s: System)
    ensures In(s, [Clear(0), Clear(1), Clear(2)], [0, 1, 2], 0, IDLE)
  {
    s := Initial(3);
    PROTOCOL.ReachesFirst(FIRST, 3);
    InitialInv(3);
  }

  /** Three creations fill the table. */
  lemma Full() returns (s: System)
    ensures In(s, [T0, T1, T2], [], 3, IDLE)
  {
    s := Empty();
    s := Creates(s, [Clear(0), Clear(1), Clear(2)], [0, 1, 2], 0, IDLE, true);
    assert [Clear(0), Clear(1), Clear(2)][0 := T0] == [T0, Clear(1), Clear(2)] && [0, 1, 2][1..] == [1, 2];
    s := Creates(s, [T0, Clear(1), Clear(2)], [1, 2], 1, IDLE, true);
    assert [T0, Clear(1), Clear(2)][1 := T1] == [T0, T1, Clear(2)] && [1, 2][1..] == [2];
    s := Creates(s, [T0, T1, Clear(2)], [2], 2, IDLE, true);
    assert [T0, T1, Clear(2)][2 := T2] == [T0, T1, T2] && [2][1..] == [];
  }

  /** Task 1 blocks on task 0. */
  lemma OneWaits() returns (s: System)
    ensures In(s, [T0.(waitingForMe := 1), T1.(shadow := 0, status := WAIT_JOIN), T2], [], 3,
               [NotJoining, Blocked(0, 0, 0), NotJoining])
  {
    s := Full();
    s := CallsJoin(s, [T0, T1, T2], [], 3, IDLE, 1, 0);
    assert IDLE[1 := Blocked(0, 0, 0)] == [NotJoining, Blocked(0, 0, 0), NotJoining];
    assert [T0, T1, T2][0 := T0.(waitingForMe := 1)][1 := T1.(shadow := 0, status := WAIT_JOIN)]
        == [T0.(waitingForMe := 1), T1.(shadow := 0, status := WAIT_JOIN), T2];
  }

  /** And is killed there. */
  lemma OneIsKilled() returns (s: System)
    ensures In(s, [T0, T1, T2], [], 3, [NotJoining, Cancelled(0, 0), NotJoining])
  {
    s := OneWaits();
    s := Kills(s, [T0.(waitingForMe := 1), T1.(shadow := 0, status := WAIT_JOIN), T2], [], 3,
               [NotJoining, Blocked(0, 0, 0), NotJoining], 1);
    assert s.table.procs == [T0, T1, T2];
    assert s.at == [NotJoining, Cancelled(0, 0), NotJoining];
  }

  /** Task 2 has made its checks of 0; then 0 ends, and 1 joins it. */
  lemma OneWasFaster() returns (s: System)
    ensures In(s, [T0.(value := 7), T1, T2], [], 3, [Ending, NotJoining, Checked(0, 0)])
  {
    var dead, at := T0.(value := 7, waitForJoin := true), [NotJoining, NotJoining, Checked(0, 0)];
    s := Full();
    s := Checks(s, [T0, T1, T2], [], 3, IDLE, 2, 0);
    assert IDLE[2 := Checked(0, 0)] == at;
    s := Ends(s, [T0, T1, T2], [], 3, at, 0, 7);
    assert [T0, T1, T2][0 := dead] == [dead, T1, T2] && at[0 := Ending] == [Ending, NotJoining, Checked(0, 0)];
    s := CallsJoin(s, [dead, T1, T2], [], 3, [Ending, NotJoining, Checked(0, 0)], 1, 0);
    assert [dead, T1, T2][0 := dead.(waitForJoin := false)] == [T0.(value := 7), T1, T2];
  }

  /** Task 0 is still running its handlers when 2 enters its section. */
  lemma JoinCanBeLate() returns (s: System)
    ensures Reachable(s) && Late(s, 2) && s.at[s.at[2].target] == Ending
  {
    s := OneWasFaster();
    assert Follow(Shadows(s.table.procs), 0, 0) == 0;
    RootIs(Shadows(s.table.procs), 0, 0);
  }

  lemma ZeroIsFree() returns (s: System)
    ensures In(s, [T0.(status := FREE, value := 7), T1, T2], [0], 3, [NotJoining, NotJoining, Checked(0, 0)])
  {
    s := OneWasFaster();
    s := Frees(s, [T0.(value := 7), T1, T2], [], 3, [Ending, NotJoining, Checked(0, 0)], 0);
    assert s.table.procs == [T0.(status := FREE, value := 7), T1, T2] && [0] + [] == [0];
    assert s.at == [NotJoining, NotJoining, Checked(0, 0)];
  }

  /** Or it is free already.  A task_join(0) that started now would be refused; that of 2 blocks on a free
      descriptor. */
  lemma JoinCanBlockOnFree() returns (s: System)
    ensures Reachable(s) && Late(s, 2) && s.table.procs[s.at[2].target].status == FREE
    ensures FindCheck(s.table, s.at[2].target) == ESRCH
  {
    s := ZeroIsFree();
    assert Follow(Shadows(s.table.procs), 0, 0) == 0;
    RootIs(Shadows(s.table.procs), 0, 0);
  }

  /** The descriptor is used again, for a task with task_ID 3. */
  lemma ZeroIsAnother(joinable: bool) returns (s: System)
    ensures In(s, [Fresh(0, joinable, 3), T1, T2], [], 4, [NotJoining, NotJoining, Checked(0, 0)])
    ensures SectionCheck(s.table, 2, 0) == JoinBlocks
  {
    s := ZeroIsFree();
    s := Creates(s, [T0.(status := FREE, value := 7), T1, T2], [0], 3, [NotJoining, NotJoining, Checked(0, 0)],
                 joinable);
    assert s.table.procs == [Fresh(0, joinable, 3), T1, T2] && [0][1..] == [];
    assert Follow(Shadows(s.table.procs), 0, 0) == 0;
    RootIs(Shadows(s.table.procs), 0, 0);
  }

  /** Or it has been used again for a task that cannot be joined. */
  lemma JoinCanBlockOnDetached() returns (s: System)
    ensures Reachable(s) && Late(s, 2) && Alive(s, s.at[2].target)
  {
    s := ZeroIsAnother(false);
  }

  /** Or for one that can: now 2 waits for a task that it never named. */
  lemma JoinCanWaitForAnother() returns (s: System)
    ensures Reachable(s) && Enabled(s, Joining(2)) && Sound(s, Joining(2))
    ensures s.at[2].named == 0 && Apply(s, Joining(2)).at[2] == Blocked(0, 0, 3)
  {
    s := ZeroIsAnother(true);
  }

  /** Task 1 joins 0 and is released by its end. */
  lemma OneIsReleased() returns (s: System)
    ensures In(s, [T0.(waitingForMe := 1, value := 7, waitForJoin := true), T1, T2], [], 3,
               [Ending, Released(0, 0, 0), NotJoining])
  {
    var dead := T0.(waitingForMe := 1, value := 7, waitForJoin := true);
    s := OneWaits();
    s := Ends(s, [T0.(waitingForMe := 1), T1.(shadow := 0, status := WAIT_JOIN), T2], [], 3,
              [NotJoining, Blocked(0, 0, 0), NotJoining], 0, 7);
    assert s.table.procs == [dead, T1, T2] && s.at == [Ending, Released(0, 0, 0), NotJoining];
  }

  /** But it ends itself before it runs. */
  lemma TaskCanBeStranded() returns (s: System)
    ensures Reachable(s) && Stranded(s, 0) && !Survivable(s, 0)
  {
    s := OneIsReleased();
    ReachableInv(s);
    DeadJoinerStrands(s, 1, 5);
    s := Ends(s, [T0.(waitingForMe := 1, value := 7, waitForJoin := true), T1, T2], [], 3,
              [Ending, Released(0, 0, 0), NotJoining], 1, 5);
    assert s.at == [Ending, Ending, NotJoining];
  }

  /** Task 1 is killed in its join of 0; 2 joins 0 and is released by its end. */
  lemma TwoIsReleased() returns (s: System)
    ensures In(s, [T0.(waitingForMe := 2, value := 7, waitForJoin := true), T1, T2], [], 3,
               [Ending, Cancelled(0, 0), Released(0, 0, 0)])
  {
    s := OneIsKilled();
    s := CallsJoin(s, [T0, T1, T2], [], 3, [NotJoining, Cancelled(0, 0), NotJoining], 2, 0);
    assert s.table.procs == [T0.(waitingForMe := 2), T1, T2.(shadow := 0, status := WAIT_JOIN)];
    assert s.at == [NotJoining, Cancelled(0, 0), Blocked(0, 0, 0)];
    s := Ends(s, [T0.(waitingForMe := 2), T1, T2.(shadow := 0, status := WAIT_JOIN)], [], 3,
              [NotJoining, Cancelled(0, 0), Blocked(0, 0, 0)], 0, 7);
    assert s.at == [Ending, Cancelled(0, 0), Released(0, 0, 0)];
    assert s.table.procs == [T0.(waitingForMe := 2, value := 7, waitForJoin := true), T1, T2];
  }

  /** Then 2 ends before it runs.  If 1 goes on, it frees 0 from being stranded. */
  lemma StrandedCanBeRescued() returns (s: System)
    ensures Reachable(s) && Stranded(s, 0) && Survivable(s, 0)
  {
    s := TwoIsReleased();
    ReachableInv(s);
    DeadJoinerStrands(s, 2, 5);
    s := Ends(s, [T0.(waitingForMe := 2, value := 7, waitForJoin := true), T1, T2], [], 3,
              [Ending, Cancelled(0, 0), Released(0, 0, 0)], 2, 5);
    assert s.at == [Ending, Cancelled(0, 0), Ending];
    assert s.at[1].Cancelled? && s.at[1].target == 0;
    ReachableInv(s);
  }

  /** Task 1 is killed in its join of 0; 0 ends and is freed. */
  lemma ZeroIsDead() returns (s: System)
    ensures In(s, [T0.(status := FREE, value := 7, waitForJoin := true), T1, T2], [0], 3,
               [NotJoining, Cancelled(0, 0), NotJoining])
  {
    var at := [NotJoining, Cancelled(0, 0), NotJoining];
    var dead := T0.(value := 7, waitForJoin := true);
    s := OneIsKilled();
    s := Ends(s, [T0, T1, T2], [], 3, at, 0, 7);
    assert s.table.procs == [dead, T1, T2] && s.at == [Ending, Cancelled(0, 0), NotJoining];
    s := Frees(s, [dead, T1, T2], [], 3, [Ending, Cancelled(0, 0), NotJoining], 0);
    assert s.table.procs == [dead.(status := FREE), T1, T2] && s.at == at && [0] + [] == [0];
  }

  /** A creation finds only 0, which waits for its join, and discards it; 2 joins 0, which returns it to the free
      queue.  If 1 now survives, 0 is put on the free queue a second time. */
  lemma SurvivorQueuesTwice() returns (s: System)
    ensures Reachable(s) && Enabled(s, Surviving(1)) && Hazard(s, s.at[1].target)
    ensures Apply(s, Surviving(1)).table.freedesc == [0, 0]
  {
    var at := [NotJoining, Cancelled(0, 0), NotJoining];
    var dead := T0.(status := FREE, value := 7, waitForJoin := true);
    s := ZeroIsDead();
    s := Discards(s, [dead, T1, T2], 0, 3, at);
    assert s.table.procs == [dead.(discarded := true), T1, T2];
    s := CallsJoin(s, [dead.(discarded := true), T1, T2], [], 3, at, 2, 0);
    assert [0] + [] == [0];
  }

  /** 2 joins 0, whose descriptor is used again for a task with task_ID 3. */
  lemma ZeroIsJoinedAndAnother() returns (s: System)
    ensures In(s, [Fresh(0, true, 3), T1, T2], [], 4, [NotJoining, Cancelled(0, 0), NotJoining])
  {
    var at := [NotJoining, Cancelled(0, 0), NotJoining];
    var dead := T0.(status := FREE, value := 7, waitForJoin := true);
    s := ZeroIsDead();
    s := CallsJoin(s, [dead, T1, T2], [0], 3, at, 2, 0);
    assert s.table.procs == [dead.(waitForJoin := false), T1, T2];
    s := Creates(s, [dead.(waitForJoin := false), T1, T2], [0], 3, at, true);
    assert s.table.procs == [Fresh(0, true, 3), T1, T2] && [0][1..] == [];
  }

  /** Which ends with 9.  If 1 now survives, its join of the task with task_ID 0 ends the reservation of that other
      task, although its target is no hazard. */
  lemma SurvivorTakesAnother() returns (s: System)
    ensures Reachable(s) && Enabled(s, Surviving(1)) && !Hazard(s, s.at[1].target)
    ensures s.at[1].named == 0 && EndsReservation(s, Apply(s, Surviving(1)), 3)
    ensures s.at[1].target == 0 && s.table.procs[0].value == 9
  {
    var again := Fresh(0, true, 3);
    s := ZeroIsJoinedAndAnother();
    s := Ends(s, [again, T1, T2], [], 4, [NotJoining, Cancelled(0, 0), NotJoining], 0, 9);
    assert s.table.procs == [again.(value := 9, waitForJoin := true), T1, T2];
    assert s.at == [Ending, Cancelled(0, 0), NotJoining];
    var s' := Apply(s, Surviving(1));
    assert Unjoined(s.table.procs[0]) && !Unjoined(s'.table.procs[0]);
  }
}
