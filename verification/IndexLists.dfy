/** Lists threaded through shared tables by index: the representation used by the task
    queues (rtos/kernel/iqueue.c), the disk cache (rtos/fs/dcache.c), the inode cache and the
    signal entries.  A list is a sequence of distinct table indices; the tables hold, for each
    member, the index of its neighbours, or NIL at the ends. */
module IndexLists {

  const NIL: int := -1

  ghost predicate Distinct(xs: seq<int>) {
    forall i, j :: 0 <= i < j < |xs| ==> xs[i] != xs[j]
  }

  ghost predicate InRange(xs: seq<int>, n: int) {
    forall i :: 0 <= i < |xs| ==> 0 <= xs[i] < n
  }

  ghost predicate Disjoint(xs: seq<int>, ys: seq<int>) {
    forall x :: x in xs ==> x !in ys
  }

  lemma {:induction false} DistinctOnce(xs: seq<int>, x: int)
    requires Distinct(xs)
    ensures multiset(xs)[x] == if x in xs then 1 else 0
  {
    if xs != [] {
      var n := |xs| - 1;
      DistinctOnce(xs[..n], x);
      assert xs == xs[..n] + [xs[n]];
    }
  }

  /** The member at position i, or NIL when the position falls off either end. */
  function At(xs: seq<int>, i: int): int {
    if 0 <= i < |xs| then xs[i] else NIL
  }

  function InsertAt(xs: seq<int>, k: nat, p: int): seq<int>
    requires k <= |xs|
  {
    xs[..k] + [p] + xs[k..]
  }

  function RemoveAt(xs: seq<int>, k: nat): seq<int>
    requires k < |xs|
  {
    xs[..k] + xs[k + 1..]
  }

  /** The forward links spell out xs. */
  ghost predicate Forward(next: seq<int>, xs: seq<int>) {
    && InRange(xs, |next|)
    && Distinct(xs)
    && forall i {:trigger next[xs[i]]} :: 0 <= i < |xs| ==> next[xs[i]] == At(xs, i + 1)
  }

  ghost predicate Backward(prev: seq<int>, xs: seq<int>) {
    && InRange(xs, |prev|)
    && forall i {:trigger prev[xs[i]]} :: 0 <= i < |xs| ==> prev[xs[i]] == At(xs, i - 1)
  }

  /** next and prev are mutual inverses along xs, with NIL at both ends. */
  ghost predicate Chained(next: seq<int>, prev: seq<int>, xs: seq<int>) {
    Forward(next, xs) && Backward(prev, xs)
  }

  ghost predicate AgreeOutside(a: seq<int>, b: seq<int>, xs: seq<int>) {
    |a| == |b| && forall i :: 0 <= i < |a| && i !in xs ==> a[i] == b[i]
  }

  /** A chain is untouched by writes to cells of indices that are not on it. */
  lemma ChainedFrame(next: seq<int>, prev: seq<int>, next': seq<int>, prev': seq<int>,
                     xs: seq<int>, touched: seq<int>)
    requires Chained(next, prev, xs) && Disjoint(xs, touched)
    requires AgreeOutside(next, next', touched) && AgreeOutside(prev, prev', touched)
    ensures Chained(next', prev', xs)
  {
    forall i | 0 <= i < |xs|
      ensures next'[xs[i]] == next[xs[i]] && prev'[xs[i]] == prev[xs[i]]
    {
      assert xs[i] in xs;
    }
  }

  /** Where each position of the longer or shorter list comes from. */
  lemma InsertPositions(xs: seq<int>, k: nat, p: int)
    requires k <= |xs|
    ensures |InsertAt(xs, k, p)| == |xs| + 1
    ensures forall i :: 0 <= i < k ==> InsertAt(xs, k, p)[i] == xs[i]
    ensures InsertAt(xs, k, p)[k] == p
    ensures forall i :: k < i <= |xs| ==> InsertAt(xs, k, p)[i] == xs[i - 1]
  {
  }

  lemma RemovePositions(xs: seq<int>, k: nat)
    requires k < |xs|
    ensures |RemoveAt(xs, k)| == |xs| - 1
    ensures forall i :: 0 <= i < k ==> RemoveAt(xs, k)[i] == xs[i]
    ensures forall i :: k <= i < |xs| - 1 ==> RemoveAt(xs, k)[i] == xs[i + 1]
  {
  }

  lemma InsertDistinct(xs: seq<int>, k: nat, p: int)
    requires k <= |xs| && Distinct(xs) && p !in xs
    ensures Distinct(InsertAt(xs, k, p))
  {
    InsertPositions(xs, k, p);
  }

  lemma RemoveDistinct(xs: seq<int>, k: nat)
    requires k < |xs| && Distinct(xs)
    ensures Distinct(RemoveAt(xs, k))
  {
    RemovePositions(xs, k);
  }

  /** The writes that link p in front of position k of xs, and no other change. */
  ghost predicate LinkedForward(next: seq<int>, next': seq<int>, xs: seq<int>, k: nat, p: int) {
    && |next'| == |next| && k <= |xs| && 0 <= p < |next| && InRange(xs, |next|)
    && next'[p] == At(xs, k)
    && (0 < k ==> next'[xs[k - 1]] == p)
    && forall i :: 0 <= i < |next| && i != p && i != At(xs, k - 1) ==> next'[i] == next[i]
  }

  ghost predicate LinkedBackward(prev: seq<int>, prev': seq<int>, xs: seq<int>, k: nat, p: int) {
    && |prev'| == |prev| && k <= |xs| && 0 <= p < |prev| && InRange(xs, |prev|)
    && prev'[p] == At(xs, k - 1)
    && (k < |xs| ==> prev'[xs[k]] == p)
    && forall i :: 0 <= i < |prev| && i != p && i != At(xs, k) ==> prev'[i] == prev[i]
  }

  /** The writes that unlink position k of xs.  The cells of xs[k] itself are free to change. */
  ghost predicate UnlinkedForward(next: seq<int>, next': seq<int>, xs: seq<int>, k: nat) {
    && |next'| == |next| && k < |xs| && InRange(xs, |next|)
    && (0 < k ==> next'[xs[k - 1]] == At(xs, k + 1))
    && forall i :: 0 <= i < |next| && i != xs[k] && i != At(xs, k - 1) ==> next'[i] == next[i]
  }

  ghost predicate UnlinkedBackward(prev: seq<int>, prev': seq<int>, xs: seq<int>, k: nat) {
    && |prev'| == |prev| && k < |xs| && InRange(xs, |prev|)
    && (k + 1 < |xs| ==> prev'[xs[k + 1]] == At(xs, k - 1))
    && forall i :: 0 <= i < |prev| && i != xs[k] && i != At(xs, k + 1) ==> prev'[i] == prev[i]
  }

  /** Linking p between positions k - 1 and k: the forward half. */
  lemma ForwardInsert(next: seq<int>, next': seq<int>, xs: seq<int>, k: nat, p: int)
    requires Forward(next, xs) && p !in xs && LinkedForward(next, next', xs, k, p)
    ensures Forward(next', InsertAt(xs, k, p))
  {
    var ys := InsertAt(xs, k, p);
    InsertPositions(xs, k, p);
    InsertDistinct(xs, k, p);
    forall i {:trigger next'[ys[i]]} | 0 <= i < |ys|
      ensures 0 <= ys[i] < |next| && next'[ys[i]] == At(ys, i + 1)
    {
      if i < k {
        assert ys[i] == xs[i] && xs[i] in xs;
        if i < k - 1 {
          assert xs[i] != At(xs, k - 1);
          assert next'[xs[i]] == next[xs[i]];
        }
      } else if i > k {
        assert ys[i] == xs[i - 1] != At(xs, k - 1) && xs[i - 1] in xs;
        assert next'[xs[i - 1]] == next[xs[i - 1]];
      }
    }
  }

  lemma BackwardInsert(prev: seq<int>, prev': seq<int>, xs: seq<int>, k: nat, p: int)
    requires Backward(prev, xs) && Distinct(xs) && p !in xs && LinkedBackward(prev, prev', xs, k, p)
    ensures Backward(prev', InsertAt(xs, k, p))
  {
    var ys := InsertAt(xs, k, p);
    InsertPositions(xs, k, p);
    forall i {:trigger prev'[ys[i]]} | 0 <= i < |ys|
      ensures 0 <= ys[i] < |prev| && prev'[ys[i]] == At(ys, i - 1)
    {
      if i < k {
        assert prev'[xs[i]] == prev[xs[i]];
      } else if i > k + 1 {
        assert xs[i - 1] in xs && prev'[xs[i - 1]] == prev[xs[i - 1]];
      }
    }
  }

  /** Unlinking position k: the forward half. */
  lemma ForwardRemove(next: seq<int>, next': seq<int>, xs: seq<int>, k: nat)
    requires Forward(next, xs) && UnlinkedForward(next, next', xs, k)
    ensures Forward(next', RemoveAt(xs, k))
  {
    var ys := RemoveAt(xs, k);
    RemovePositions(xs, k);
    RemoveDistinct(xs, k);
    forall i {:trigger next'[ys[i]]} | 0 <= i < |ys|
      ensures 0 <= ys[i] < |next| && next'[ys[i]] == At(ys, i + 1)
    {
      if i < k - 1 {
        assert next'[xs[i]] == next[xs[i]];
      } else if i >= k {
        assert next'[xs[i + 1]] == next[xs[i + 1]];
      }
    }
  }

  lemma BackwardRemove(prev: seq<int>, prev': seq<int>, xs: seq<int>, k: nat)
    requires Backward(prev, xs) && Distinct(xs) && UnlinkedBackward(prev, prev', xs, k)
    ensures Backward(prev', RemoveAt(xs, k))
  {
    var ys := RemoveAt(xs, k);
    RemovePositions(xs, k);
    forall i {:trigger prev'[ys[i]]} | 0 <= i < |ys|
      ensures 0 <= ys[i] < |prev| && prev'[ys[i]] == At(ys, i - 1)
    {
      if i < k {
        assert prev'[xs[i]] == prev[xs[i]];
      } else if i > k {
        assert prev'[xs[i + 1]] == prev[xs[i + 1]];
      }
    }
  }

  /** Membership after an insertion or a removal. */
  lemma InsertMembers(xs: seq<int>, k: nat, p: int)
    requires k <= |xs|
    ensures forall x :: x in InsertAt(xs, k, p) <==> x == p || x in xs
  {
    assert xs == xs[..k] + xs[k..];
  }

  lemma RemoveMembers(xs: seq<int>, k: nat)
    requires k < |xs| && Distinct(xs)
    ensures forall x :: x in RemoveAt(xs, k) <==> x in xs && x != xs[k]
  {
    var ys := RemoveAt(xs, k);
    assert xs == xs[..k] + [xs[k]] + xs[k + 1..];
    forall i | 0 <= i < |ys| ensures ys[i] != xs[k] {
      assert ys[i] == if i < k then xs[i] else xs[i + 1];
    }
  }

  // ---------- singly linked lists ----------

  /** A change of one cell off the list is not noticed. */
  lemma ForwardFrame(next: seq<int>, xs: seq<int>, i: int, v: int)
    requires Forward(next, xs) && 0 <= i < |next| && i !in xs
    ensures Forward(next[i := v], xs)
  {
    forall k {:trigger next[i := v][xs[k]]} | 0 <= k < |xs|
      ensures next[i := v][xs[k]] == next[xs[k]]
    {
      assert xs[k] in xs;
    }
  }

  /** Pushing i on the front. */
  lemma ForwardPush(next: seq<int>, xs: seq<int>, i: int)
    requires Forward(next, xs) && 0 <= i < |next| && i !in xs
    ensures Forward(next[i := At(xs, 0)], [i] + xs)
  {
    assert LinkedForward(next, next[i := At(xs, 0)], xs, 0, i);
    ForwardInsert(next, next[i := At(xs, 0)], xs, 0, i);
    assert InsertAt(xs, 0, i) == [i] + xs;
  }

  /** Dropping the front. */
  lemma ForwardTail(next: seq<int>, xs: seq<int>)
    requires Forward(next, xs) && xs != []
    ensures Forward(next, xs[1..]) && next[xs[0]] == At(xs[1..], 0)
  {
    assert UnlinkedForward(next, next, xs, 0);
    ForwardRemove(next, next, xs, 0);
    assert RemoveAt(xs, 0) == xs[1..];
  }

  /** Appending i to a list that is not empty, through the link of its last member. */
  lemma {:induction false} ForwardDrop(next: seq<int>, xs: seq<int>, k: nat)
    requires Forward(next, xs) && k <= |xs|
    ensures Forward(next, xs[k..])
  {
    if k == 0 {
      assert xs[0..] == xs;
    } else {
      ForwardTail(next, xs);
      ForwardDrop(next, xs[1..], k - 1);
      assert xs[1..][k - 1..] == xs[k..];
    }
  }

  lemma ForwardAppend(next: seq<int>, xs: seq<int>, i: int)
    requires Forward(next, xs) && 0 <= i < |next| && i !in xs && xs != []
    ensures Forward(next[i := NIL][xs[|xs| - 1] := i], xs + [i])
  {
    var next' := next[i := NIL][xs[|xs| - 1] := i];
    assert xs[|xs| - 1] in xs;
    assert LinkedForward(next, next', xs, |xs|, i);
    ForwardInsert(next, next', xs, |xs|, i);
    assert InsertAt(xs, |xs|, i) == xs + [i];
  }

  lemma HeadAndTail(xs: seq<int>, i: int)
    requires xs != [] && Distinct(xs)
    ensures i in xs <==> i == xs[0] || i in xs[1..]
    ensures xs[0] !in xs[1..] && Distinct(xs[1..])
    ensures forall n :: InRange(xs, n) ==> InRange(xs[1..], n)
  {
    assert xs == [xs[0]] + xs[1..];
  }
}
