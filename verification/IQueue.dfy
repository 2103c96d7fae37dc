/** The task queues of rtos/kernel/iqueue.c: any number of queues threaded through one shared
    pair of next/prev arrays indexed by task.  Each queue refines a sequence of tasks, and an
    operation on one queue is invisible to every other queue that shares its arrays. */
module IQueues {
  import opened Clocks
  import opened IndexLists

  class SharedLinks {
    const prev: array<int>
    const next: array<int>
    const priority: array<nat>
    const timespecPriority: array<Timespec>

    ghost predicate Valid() {
      && prev != next
      && prev.Length == next.Length == priority.Length == timespecPriority.Length
    }

    constructor (tasks: nat)
      ensures Valid() && next.Length == tasks
      ensures fresh(prev) && fresh(next) && fresh(priority) && fresh(timespecPriority)
    {
      prev := new int[tasks];
      next := new int[tasks];
      priority := new nat[tasks];
      timespecPriority := new Timespec[tasks](_ => Timespec(0, 0));
    }
  }

  /** Ascending priorities. */
  ghost predicate SortedByPriority(priority: seq<nat>, xs: seq<int>) {
    && InRange(xs, |priority|)
    && forall i, j :: 0 <= i < j < |xs| ==> priority[xs[i]] <= priority[xs[j]]
  }

  /** Ascending deadlines: nobody is strictly earlier than somebody ahead of him. */
  ghost predicate SortedByTimespec(stamps: seq<Timespec>, xs: seq<int>) {
    && InRange(xs, |stamps|)
    && forall i, j :: 0 <= i < j < |xs| ==> !TimespecLess(stamps[xs[j]], stamps[xs[i]])
  }

  /** The place where the scan for task p stops: past everybody not strictly later than p. */
  ghost predicate PriorityPlace(priority: seq<nat>, xs: seq<int>, p: int, k: int) {
    && 0 <= p < |priority| && InRange(xs, |priority|) && 0 <= k <= |xs|
    && (forall i :: 0 <= i < k ==> priority[xs[i]] <= priority[p])
    && (k < |xs| ==> priority[p] < priority[xs[k]])
  }

  ghost predicate TimespecPlace(stamps: seq<Timespec>, xs: seq<int>, p: int, k: int) {
    && 0 <= p < |stamps| && InRange(xs, |stamps|) && 0 <= k <= |xs|
    && (forall i :: 0 <= i < k ==> !TimespecLess(stamps[p], stamps[xs[i]]))
    && (k < |xs| ==> TimespecLess(stamps[p], stamps[xs[k]]))
  }

  /** A priority insert keeps a sorted queue sorted, and p queues behind every task of equal
      priority and ahead of every task of larger value: first in, first out among equals. */
  lemma PriorityInsertStable(priority: seq<nat>, xs: seq<int>, p: int, k: int)
    requires SortedByPriority(priority, xs) && PriorityPlace(priority, xs, p, k)
    ensures SortedByPriority(priority, InsertAt(xs, k, p))
    ensures forall i :: 0 <= i < |xs| ==> (i < k <==> priority[xs[i]] <= priority[p])
  {
    InsertPositions(xs, k, p);
  }

  lemma TimespecInsertStable(stamps: seq<Timespec>, xs: seq<int>, p: int, k: int)
    requires SortedByTimespec(stamps, xs) && TimespecPlace(stamps, xs, p, k)
    ensures SortedByTimespec(stamps, InsertAt(xs, k, p))
    ensures forall i :: 0 <= i < |xs| ==> (i < k <==> !TimespecLess(stamps[p], stamps[xs[i]]))
  {
    InsertPositions(xs, k, p);
  }

  /** An extraction keeps a sorted queue sorted and removes that one task. */
  lemma RemoveKeepsSorted(priority: seq<nat>, stamps: seq<Timespec>, xs: seq<int>, k: nat)
    requires k < |xs| && Distinct(xs)
    ensures SortedByPriority(priority, xs) ==> SortedByPriority(priority, RemoveAt(xs, k))
    ensures SortedByTimespec(stamps, xs) ==> SortedByTimespec(stamps, RemoveAt(xs, k))
    ensures forall x :: x in RemoveAt(xs, k) <==> x in xs && x != xs[k]
  {
    RemovePositions(xs, k);
    RemoveMembers(xs, k);
  }

  /** All the queues of qs share the links s, are well formed and have no task in common. */
  ghost predicate Sharing(s: SharedLinks, qs: set<IQueue>)
    reads qs, s.next, s.prev
  {
    && (forall q :: q in qs ==> q.s == s && q.Valid())
    && (forall q, r :: q in qs && r in qs && q != r ==> Disjoint(q.contents, r.contents))
  }

  class IQueue {
    var first: int
    var last: int
    const s: SharedLinks
    /** The tasks in the queue, first to last. */
    ghost var contents: seq<int>

    /** The given link tables spell out this queue. */
    ghost predicate Spelled(next: seq<int>, prev: seq<int>)
      reads this
    {
      && Chained(next, prev, contents)
      && first == At(contents, 0)
      && last == At(contents, |contents| - 1)
    }

    ghost predicate Valid()
      reads this, s.next, s.prev
    {
      s.Valid() && Spelled(s.next[..], s.prev[..])
    }

    /** iq_init with a shared link table. */
    constructor (share: SharedLinks)
      requires share.Valid()
      ensures Valid() && contents == [] && s == share
    {
      first, last := NIL, NIL;
      s := share;
      contents := [];
    }

    /** After splicing p in at position k of xs, the family is well formed again.  The other
        queues fitted the old tables next and prev, and are themselves unchanged. */
    lemma Inserted(qs: set<IQueue>, next: seq<int>, prev: seq<int>, xs: seq<int>, k: nat, p: int)
      requires this in qs && s.Valid() && Chained(next, prev, xs) && |next| == |prev| && k <= |xs|
      requires p !in xs && contents == InsertAt(xs, k, p)
      requires forall r :: r in qs && r != this ==>
                 r.s == s && r.Spelled(next, prev) && Disjoint(r.contents, xs) && p !in r.contents
      requires forall q, r :: q in qs && r in qs && q != r && q != this && r != this ==>
                 Disjoint(q.contents, r.contents)
      requires LinkedForward(next, s.next[..], xs, k, p) && LinkedBackward(prev, s.prev[..], xs, k, p)
      requires first == (if k == 0 then p else At(xs, 0))
      requires last == (if k == |xs| then p else At(xs, |xs| - 1))
      ensures Sharing(s, qs)
    {
      ForwardInsert(next, s.next[..], xs, k, p);
      BackwardInsert(prev, s.prev[..], xs, k, p);
      InsertMembers(xs, k, p);
      OthersKept(qs, next, prev, contents);
      assert Spelled(s.next[..], s.prev[..]) by {
        InsertPositions(xs, k, p);
      }
    }

    /** Unlinking position k of xs leaves this queue spelled out by the tables. */
    lemma RemovedSelf(next: seq<int>, prev: seq<int>, xs: seq<int>, k: nat)
      requires s.Valid() && Chained(next, prev, xs) && k < |xs| && contents == RemoveAt(xs, k)
      requires UnlinkedForward(next, s.next[..], xs, k) && UnlinkedBackward(prev, s.prev[..], xs, k)
      requires first == (if k == 0 then At(xs, 1) else At(xs, 0))
      requires last == (if k == |xs| - 1 then At(xs, k - 1) else At(xs, |xs| - 1))
      ensures Valid()
    {
      ForwardRemove(next, s.next[..], xs, k);
      BackwardRemove(prev, s.prev[..], xs, k);
      RemovePositions(xs, k);
    }

    /** After unlinking position k of xs, the family is well formed again. */
    lemma Removed(qs: set<IQueue>, next: seq<int>, prev: seq<int>, xs: seq<int>, k: nat)
      requires this in qs && s.Valid() && Chained(next, prev, xs) && |next| == |prev| && k < |xs|
      requires contents == RemoveAt(xs, k)
      requires forall r :: r in qs && r != this ==> r.s == s && r.Spelled(next, prev) && Disjoint(r.contents, xs)
      requires forall q, r :: q in qs && r in qs && q != r && q != this && r != this ==>
                 Disjoint(q.contents, r.contents)
      requires UnlinkedForward(next, s.next[..], xs, k) && UnlinkedBackward(prev, s.prev[..], xs, k)
      requires first == (if k == 0 then At(xs, 1) else At(xs, 0))
      requires last == (if k == |xs| - 1 then At(xs, k - 1) else At(xs, |xs| - 1))
      ensures Sharing(s, qs)
    {
      RemovedSelf(next, prev, xs, k);
      RemoveMembers(xs, k);
      OthersKept(qs, next, prev, xs);
    }

    /** Writes confined to the cells of `touched` leave the other queues of the family intact. */
    lemma OthersKept(qs: set<IQueue>, next: seq<int>, prev: seq<int>, touched: seq<int>)
      requires s.Valid()
      requires AgreeOutside(next, s.next[..], touched) && AgreeOutside(prev, s.prev[..], touched)
      requires forall r :: r in qs && r != this ==>
                 r.s == s && r.Spelled(next, prev) && Disjoint(r.contents, touched)
      ensures forall r :: r in qs && r != this ==> r.Valid()
    {
      forall r | r in qs && r != this
        ensures r.Valid()
      {
        ChainedFrame(next, prev, s.next[..], s.prev[..], r.contents, touched);
      }
    }

    /** Insert p by priority.  `k` is the position it takes. */
    method PriorityInsert(p: int, ghost qs: set<IQueue>) returns (ghost k: nat)
      requires this in qs && Sharing(s, qs)
      requires 0 <= p < s.next.Length && forall q :: q in qs ==> p !in q.contents
      modifies this, s.next, s.prev
      ensures Sharing(s, qs)
      ensures PriorityPlace(s.priority[..], old(contents), p, k)
      ensures contents == old(contents)[..k] + [p] + old(contents)[k..]
      ensures forall q :: q in qs && q != this ==> q.contents == old(q.contents)
    {
      var before, after := NIL, first;
      var prio := s.priority[p];
      k := 0;
      while after != NIL && prio >= s.priority[after]
        invariant k <= |contents|
        invariant before == At(contents, k - 1) && after == At(contents, k)
        invariant forall i :: 0 <= i < k ==> s.priority[contents[i]] <= prio
        decreases |contents| - k
      {
        before := after;
        after := s.next[after];
        k := k + 1;
      }
      Splice(p, before, after, qs, k);
    }

    /** Insert p by deadline. */
    method TimespecInsert(p: int, ghost qs: set<IQueue>) returns (ghost k: nat)
      requires this in qs && Sharing(s, qs)
      requires 0 <= p < s.next.Length && forall q :: q in qs ==> p !in q.contents
      modifies this, s.next, s.prev
      ensures Sharing(s, qs)
      ensures TimespecPlace(s.timespecPriority[..], old(contents), p, k)
      ensures contents == old(contents)[..k] + [p] + old(contents)[k..]
      ensures forall q :: q in qs && q != this ==> q.contents == old(q.contents)
    {
      var before, after := NIL, first;
      var prio := s.timespecPriority[p];
      k := 0;
      while after != NIL && !TimespecLess(prio, s.timespecPriority[after])
        invariant k <= |contents|
        invariant before == At(contents, k - 1) && after == At(contents, k)
        invariant forall i :: 0 <= i < k ==> !TimespecLess(prio, s.timespecPriority[contents[i]])
        decreases |contents| - k
      {
        before := after;
        after := s.next[after];
        k := k + 1;
      }
      Splice(p, before, after, qs, k);
    }

    /** The common tail of both ordered inserts: link p between two neighbours. */
    method Splice(p: int, before: int, after: int, ghost qs: set<IQueue>, ghost k: nat)
      requires this in qs && Sharing(s, qs) && k <= |contents|
      requires 0 <= p < s.next.Length && forall q :: q in qs ==> p !in q.contents
      requires before == At(contents, k - 1) && after == At(contents, k)
      modifies this, s.next, s.prev
      ensures Sharing(s, qs)
      ensures contents == InsertAt(old(contents), k, p)
      ensures forall q :: q in qs && q != this ==> q.contents == old(q.contents)
    {
      if before != NIL { s.next[before] := p; } else { first := p; }
      if after != NIL { s.prev[after] := p; } else { last := p; }
      s.next[p] := after;
      s.prev[p] := before;
      contents := InsertAt(contents, k, p);
      assert LinkedForward(old(s.next[..]), s.next[..], old(contents), k, p);
      assert LinkedBackward(old(s.prev[..]), s.prev[..], old(contents), k, p);
      Inserted(qs, old(s.next[..]), old(s.prev[..]), old(contents), k, p);
    }

    method InsertFirst(p: int, ghost qs: set<IQueue>)
      requires this in qs && Sharing(s, qs)
      requires 0 <= p < s.next.Length && forall q :: q in qs ==> p !in q.contents
      modifies this, s.next, s.prev
      ensures Sharing(s, qs)
      ensures contents == [p] + old(contents)
      ensures forall q :: q in qs && q != this ==> q.contents == old(q.contents)
    {
      if first != NIL {
        s.next[p] := first;
        s.prev[first] := p;
      } else {
        last := p;
        s.next[p] := NIL;
      }
      s.prev[p] := NIL;
      first := p;
      contents := InsertAt(contents, 0, p);
      Inserted(qs, old(s.next[..]), old(s.prev[..]), old(contents), 0, p);
    }

    method InsertLast(p: int, ghost qs: set<IQueue>)
      requires this in qs && Sharing(s, qs)
      requires 0 <= p < s.next.Length && forall q :: q in qs ==> p !in q.contents
      modifies this, s.next, s.prev
      ensures Sharing(s, qs)
      ensures contents == old(contents) + [p]
      ensures forall q :: q in qs && q != this ==> q.contents == old(q.contents)
    {
      if last != NIL {
        s.prev[p] := last;
        s.next[last] := p;
      } else {
        first := p;
        s.prev[p] := NIL;
      }
      s.next[p] := NIL;
      last := p;
      contents := InsertAt(contents, |contents|, p);
      Inserted(qs, old(s.next[..]), old(s.prev[..]), old(contents), |old(contents)|, p);
    }

    /** Unlink p, which must be a member: exactly that one task leaves, the rest keep their order. */
    method Extract(p: int, ghost qs: set<IQueue>)
      requires this in qs && Sharing(s, qs) && p in contents
      modifies this, s.next, s.prev
      ensures Sharing(s, qs)
      ensures exists k :: 0 <= k < |old(contents)| && old(contents)[k] == p && contents == RemoveAt(old(contents), k)
      ensures p !in contents
      ensures forall q :: q in qs && q != this ==> q.contents == old(q.contents)
    {
      ghost var k :| 0 <= k < |contents| && contents[k] == p;
      var before := s.prev[p];
      var after := s.next[p];
      if before != NIL { s.next[before] := s.next[p]; } else { first := after; }
      if after != NIL { s.prev[after] := s.prev[p]; } else { last := before; }
      contents := RemoveAt(contents, k);
      RemoveMembers(old(contents), k);
      assert UnlinkedForward(old(s.next[..]), s.next[..], old(contents), k);
      assert UnlinkedBackward(old(s.prev[..]), s.prev[..], old(contents), k);
      Removed(qs, old(s.next[..]), old(s.prev[..]), old(contents), k);
    }

    method GetFirst(ghost qs: set<IQueue>) returns (p: int)
      requires this in qs && Sharing(s, qs)
      modifies this, s.next, s.prev
      ensures Sharing(s, qs)
      ensures old(contents) == if p == NIL then [] else [p] + contents
      ensures p == NIL ==> contents == []
      ensures forall q :: q in qs && q != this ==> q.contents == old(q.contents)
    {
      p := first;
      if p == NIL { return NIL; }
      ghost var xs, next, prev := contents, s.next[..], s.prev[..];
      first := s.next[first];
      assert first == At(xs, 1);
      if first != NIL { s.prev[first] := NIL; } else { last := NIL; }
      contents := RemoveAt(xs, 0);
      assert UnlinkedForward(next, s.next[..], xs, 0);
      assert UnlinkedBackward(prev, s.prev[..], xs, 0);
      Removed(qs, next, prev, xs, 0);
    }

    method GetLast(ghost qs: set<IQueue>) returns (p: int)
      requires this in qs && Sharing(s, qs)
      modifies this, s.next, s.prev
      ensures Sharing(s, qs)
      ensures old(contents) == if p == NIL then [] else contents + [p]
      ensures p == NIL ==> contents == []
      ensures forall q :: q in qs && q != this ==> q.contents == old(q.contents)
    {
      p := last;
      if p == NIL { return NIL; }
      ghost var xs, next, prev := contents, s.next[..], s.prev[..];
      ghost var k: nat := |xs| - 1;
      last := s.prev[last];
      assert last == At(xs, k - 1);
      if last != NIL { s.next[last] := NIL; } else { first := NIL; }
      contents := RemoveAt(xs, k);
      assert UnlinkedForward(next, s.next[..], xs, k);
      assert UnlinkedBackward(prev, s.prev[..], xs, k);
      Removed(qs, next, prev, xs, k);
    }
  }
}
