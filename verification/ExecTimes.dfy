/** The job execution times of a task (rtos/kernel/jet.c): a ring of the last jobs and running totals, as the
    image of the unbounded history of the task's jobs.  Times are unbounded. */
module ExecTimes {

  const JET_TABLE_DIM: nat := 20

  function Sum(xs: seq<nat>): nat {
    if xs == [] then 0 else Sum(xs[..|xs| - 1]) + xs[|xs| - 1]
  }

  function Max(xs: seq<nat>): nat {
    if xs == [] then 0
    else if Max(xs[..|xs| - 1]) < xs[|xs| - 1] then xs[|xs| - 1]
    else Max(xs[..|xs| - 1])
  }

  /** The total and the maximum mean what they say: see SumOfParts and MaxIsLargest. */
  lemma {:induction false} SumOfParts(xs: seq<nat>, ys: seq<nat>)
    ensures Sum(xs + ys) == Sum(xs) + Sum(ys)
    ensures |ys| == 1 ==> Sum(ys) == ys[0]
  {
    if ys == [] {
      assert xs + ys == xs;
    } else {
      var n := |ys| - 1;
      SumOfParts(xs, ys[..n]);
      assert (xs + ys)[..|xs| + n] == xs + ys[..n];
    }
  }

  lemma {:induction false} MaxIsLargest(xs: seq<nat>)
    ensures forall i :: 0 <= i < |xs| ==> xs[i] <= Max(xs)
    ensures xs != [] ==> Max(xs) in xs
  {
    if xs != [] {
      MaxIsLargest(xs[..|xs| - 1]);
    }
  }

  /** The last m jobs, oldest first, with zeros for those before the first. */
  function Last(jobs: seq<nat>, m: nat): (r: seq<nat>)
    ensures |r| == m
    ensures m <= |jobs| ==> r == jobs[|jobs| - m..]
  {
    seq(m, i requires 0 <= i < m => if |jobs| - m + i < 0 then 0 else jobs[|jobs| - m + i])
  }

  lemma LastPadded(jobs: seq<nat>, m: nat)
    requires |jobs| <= m
    ensures Last(jobs, m) == seq(m - |jobs|, _ => 0) + jobs
  {
  }

  function Least(a: int, b: int): int {
    if a < b then a else b
  }

  /** The slot k places behind slot curr. */
  function Behind(curr: int, k: int): int {
    if k <= curr then curr - k else curr + JET_TABLE_DIM - k
  }

  lemma Wrapped(x: int)
    requires 0 <= x < 2 * JET_TABLE_DIM
    ensures x % JET_TABLE_DIM == if x < JET_TABLE_DIM then x else x - JET_TABLE_DIM
  {
  }

  /** The ring holds the current job at curr and the jobs before it behind. */
  ghost predicate Ring(table: seq<nat>, curr: int, jobs: seq<nat>, current: nat) {
    && |table| == JET_TABLE_DIM && 0 <= curr < JET_TABLE_DIM
    && table[curr] == current
    && forall k :: 1 <= k < JET_TABLE_DIM ==>
         table[Behind(curr, k)] == if k <= |jobs| then jobs[|jobs| - k] else 0
  }

  lemma RingAdvances(table: seq<nat>, curr: int, jobs: seq<nat>, current: nat, next: int)
    requires Ring(table, curr, jobs, current) && next == if curr + 1 < JET_TABLE_DIM then curr + 1 else 0
    ensures Ring(table[next := 0], next, jobs + [current], 0)
  {
    forall k | 1 <= k < JET_TABLE_DIM
      ensures table[next := 0][Behind(next, k)] == if k <= |jobs| + 1 then (jobs + [current])[|jobs| + 1 - k] else 0
    {
      if k > 1 {
        assert Behind(next, k) == Behind(curr, k - 1) != next;
      }
    }
  }

  lemma OneMore(jobs: seq<nat>, from: nat, s: nat)
    requires from <= |jobs|
    ensures Sum((jobs + [s])[from..]) == Sum(jobs[from..]) + s
    ensures Max((jobs + [s])[from..]) == if Max(jobs[from..]) < s then s else Max(jobs[from..])
  {
    assert (jobs + [s])[from..] == jobs[from..] + [s];
    assert (jobs[from..] + [s])[..|jobs| - from] == jobs[from..];
  }

  class JobTimes {
    const table: array<nat>
    var curr: int
    var tvalid: int
    var sum: nat
    var max: nat
    var n: nat

    /** The jobs completed since the task was created, the time of the current job so far, and the lengths of
        the history at the last jet_delstat and at the last jet_gettable with a negative argument. */
    ghost var jobs: seq<nat>
    ghost var current: nat
    ghost var cleared: nat
    ghost var taken: nat

    ghost predicate Valid()
      reads this, table
    {
      && table.Length == JET_TABLE_DIM && cleared <= |jobs| && taken <= |jobs|
      && Ring(table[..], curr, jobs, current)
      && n == |jobs| - cleared
      && sum == Sum(jobs[cleared..]) && max == Max(jobs[cleared..])
      && tvalid == Least(|jobs| - taken, JET_TABLE_DIM)
    }

    constructor ()
      ensures Valid() && fresh(table)
      ensures jobs == [] && current == 0 && cleared == 0 && taken == 0
    {
      table := new nat[JET_TABLE_DIM](_ => 0);
      curr, tvalid, sum, max, n := 0, 0, 0, 0, 0;
      jobs, current, cleared, taken := [], 0, 0, 0;
    }

    /** jet_update_slice. */
    method UpdateSlice(t: nat)
      requires Valid()
      modifies table, `current
      ensures Valid() && current == old(current) + t
    {
      table[curr] := table[curr] + t;
      current := current + t;
    }

    /** jet_update_endcycle: the current job becomes history and the next one starts at zero. */
    method UpdateEndcycle()
      requires Valid()
      modifies this, table
      ensures Valid() && jobs == old(jobs) + [old(current)] && current == 0
      ensures cleared == old(cleared) && taken == old(taken)
    {
      var s := table[curr];
      if max < s {
        max := s;
      }
      sum := sum + s;
      n := n + 1;
      OneMore(jobs, cleared, s);
      Wrapped(curr + 1);
      ghost var was := table[..];
      RingAdvances(was, curr, jobs, current, (curr + 1) % JET_TABLE_DIM);
      curr := (curr + 1) % JET_TABLE_DIM;
      table[curr] := 0;
      assert table[..] == was[curr := 0];
      if tvalid < JET_TABLE_DIM {
        tvalid := tvalid + 1;
      }
      jobs, current := jobs + [s], 0;
    }

    /** jet_getstat. */
    method GetStat() returns (total: nat, largest: nat, count: nat, running: nat)
      requires Valid()
      ensures total == Sum(jobs[cleared..]) && largest == Max(jobs[cleared..]) && count == |jobs[cleared..]|
      ensures running == current
    {
      total, largest, count, running := sum, max, n, table[curr];
    }

    /** jet_delstat starts new totals.  It leaves the ring alone, although its comment says otherwise. */
    method DelStat()
      requires Valid()
      modifies `sum, `n, `max, `cleared
      ensures Valid() && cleared == |jobs|
    {
      sum, n, max := 0, 0, 0;
      cleared := |jobs|;
    }

    /** The copying loop of jet_gettable, which ends where it starts when m is the number of slots. */
    method CopyBehind(m: int) returns (copied: seq<nat>)
      requires Valid() && 0 <= m <= JET_TABLE_DIM
      ensures copied == if m == JET_TABLE_DIM then [] else Last(jobs, m)
    {
      copied := [];
      Wrapped(curr + JET_TABLE_DIM - m);
      var i := (curr + JET_TABLE_DIM - m) % JET_TABLE_DIM;
      ghost var all := if m == JET_TABLE_DIM then 0 else m;
      ghost var left := all;
      ghost var last := Last(jobs, all);
      while i != curr
        invariant 0 <= left <= all < JET_TABLE_DIM && |copied| == all - left
        invariant i == Behind(curr, left)
        invariant copied == last[..all - left]
        decreases left
      {
        assert table[..][Behind(curr, left)] == last[all - left];
        Wrapped(i + 1);
        copied := copied + [table[i]];
        i := (i + 1) % JET_TABLE_DIM;
        left := left - 1;
      }
    }

    /** jet_gettable.  With m >= 0: the last m jobs, at most one less than the ring has slots.  With m < 0: the jobs
        since the last such call, provided there are fewer of them than slots; otherwise the count returned is the
        number of slots, and nothing is copied. */
    method GetTable(m: int) returns (ret: int, copied: seq<nat>)
      requires Valid()
      modifies `tvalid, `taken
      ensures Valid()
      ensures m >= 0 ==> ret == Least(m, JET_TABLE_DIM - 1) && copied == Last(jobs, ret) && taken == old(taken)
      ensures m < 0 ==> ret == Least(|jobs| - old(taken), JET_TABLE_DIM) && taken == |jobs|
      ensures m < 0 ==> copied == if ret < JET_TABLE_DIM then jobs[old(taken)..] else []
      ensures m < 0 ==> (|copied| == ret <==> |jobs| - old(taken) < JET_TABLE_DIM)
    {
      ret := m;
      if m < 0 {
        ret := tvalid;
        tvalid := 0;
        taken := |jobs|;
      } else if m > JET_TABLE_DIM - 1 {
        ret := JET_TABLE_DIM - 1;
      }
      copied := CopyBehind(ret);
    }
  }
}
