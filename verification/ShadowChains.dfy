/** Shadow pointers (rtos/kernel/kern.c, rtos/kernel/join.c): each task points to the task that
    should run in its place, itself when it is not blocked.  The scheduler and the deadlock check of
    task_join follow these pointers until they find a task that points to itself. */
module ShadowChains {

  ghost predicate Pointers(shadow: seq<int>) {
    forall x :: 0 <= x < |shadow| ==> 0 <= shadow[x] < |shadow|
  }

  /** The task reached after k steps. */
  ghost function Follow(shadow: seq<int>, x: int, k: nat): (y: int)
    requires Pointers(shadow) && 0 <= x < |shadow|
    ensures 0 <= y < |shadow|
    decreases k
  {
    if k == 0 then x else Follow(shadow, shadow[x], k - 1)
  }

  ghost predicate IsRoot(shadow: seq<int>, x: int) {
    0 <= x < |shadow| && shadow[x] == x
  }

  /** The only cycles are self-loops. */
  ghost predicate Forest(shadow: seq<int>) {
    && Pointers(shadow)
    && forall x, k: nat :: 0 <= x < |shadow| && k > 0 && Follow(shadow, x, k) == x ==> shadow[x] == x
  }

  /** Every chain ends at a root. */
  ghost predicate Grounded(shadow: seq<int>) {
    && Pointers(shadow)
    && forall x :: 0 <= x < |shadow| ==> Ends(shadow, x)
  }

  ghost predicate Ends(shadow: seq<int>, x: int)
    requires Pointers(shadow) && 0 <= x < |shadow|
  {
    exists k: nat :: IsRoot(shadow, Follow(shadow, x, k))
  }

  lemma {:induction false} FollowAdd(shadow: seq<int>, x: int, a: nat, b: nat)
    requires Pointers(shadow) && 0 <= x < |shadow|
    ensures Follow(shadow, x, a + b) == Follow(shadow, Follow(shadow, x, a), b)
    decreases a
  {
    if a > 0 {
      FollowAdd(shadow, shadow[x], a - 1, b);
    }
  }

  lemma {:induction false} RootStays(shadow: seq<int>, x: int, k: nat)
    requires Pointers(shadow) && IsRoot(shadow, x)
    ensures Follow(shadow, x, k) == x
  {
    if k > 0 {
      RootStays(shadow, x, k - 1);
    }
  }

  /** Once at a root, always there. */
  lemma RootReached(shadow: seq<int>, x: int, k: nat, j: nat)
    requires Pointers(shadow) && 0 <= x < |shadow| && IsRoot(shadow, Follow(shadow, x, k)) && k <= j
    ensures Follow(shadow, x, j) == Follow(shadow, x, k)
  {
    FollowAdd(shadow, x, k, j - k);
    RootStays(shadow, Follow(shadow, x, k), j - k);
  }

  /** A walk of k steps on a nontrivial cycle can be repeated any number of times. */
  lemma {:induction false} CycleRepeats(shadow: seq<int>, x: int, k: nat, times: nat)
    requires Pointers(shadow) && 0 <= x < |shadow| && Follow(shadow, x, k) == x
    ensures Follow(shadow, x, times * k) == x
    decreases times
  {
    if times > 0 {
      CycleRepeats(shadow, x, k, times - 1);
      FollowAdd(shadow, x, (times - 1) * k, k);
      assert (times - 1) * k + k == times * k;
    }
  }

  lemma GroundedIsForest(shadow: seq<int>)
    requires Grounded(shadow)
    ensures Forest(shadow)
  {
    forall x, k: nat | 0 <= x < |shadow| && k > 0 && Follow(shadow, x, k) == x
      ensures shadow[x] == x
    {
      assert Ends(shadow, x);
      var j: nat :| IsRoot(shadow, Follow(shadow, x, j));
      CycleRepeats(shadow, x, k, j);
      assert j <= j * k;
      RootReached(shadow, x, j, j * k);
    }
  }

  /** n + 1 indices below n cannot all differ. */
  lemma {:induction false} Pigeonhole(xs: seq<int>, n: nat) returns (i: nat, j: nat)
    requires |xs| > n && forall k :: 0 <= k < |xs| ==> 0 <= xs[k] < n
    ensures i < j < |xs| && xs[i] == xs[j]
    decreases n
  {
    // keep the last pigeon out; if nobody shares its hole, renumber the holes without it
    var last := |xs| - 1;
    if k: nat :| k < last && xs[k] == xs[last] {
      return k, last;
    }
    var ys := seq(last, k requires 0 <= k < last => if xs[k] == n - 1 then xs[last] else xs[k]);
    i, j := Pigeonhole(ys, n - 1);
    assert ys[i] == ys[j];
  }

  /** In a forest every chain ends within as many steps as there are tasks. */
  lemma ForestReaches(shadow: seq<int>, x: int)
    requires Forest(shadow) && 0 <= x < |shadow|
    ensures IsRoot(shadow, Follow(shadow, x, |shadow|))
  {
    var n := |shadow|;
    var walk := seq(n + 1, k requires 0 <= k < n + 1 => Follow(shadow, x, k));
    var i, j := Pigeonhole(walk, n);
    FollowAdd(shadow, x, i, j - i);
    assert Follow(shadow, walk[i], j - i) == walk[i];
    RootReached(shadow, x, i, n);
  }

  /** The two readings of "only self-loops" agree. */
  lemma ForestIsGrounded(shadow: seq<int>)
    ensures Forest(shadow) <==> Grounded(shadow)
  {
    if Forest(shadow) {
      forall x | 0 <= x < |shadow|
        ensures Ends(shadow, x)
      {
        ForestReaches(shadow, x);
      }
    }
    if Grounded(shadow) {
      GroundedIsForest(shadow);
    }
  }

  /** The task at the end of the chain of x. */
  ghost function Root(shadow: seq<int>, x: int): int
    requires Forest(shadow) && 0 <= x < |shadow|
  {
    Follow(shadow, x, |shadow|)
  }

  lemma RootIs(shadow: seq<int>, x: int, k: nat)
    requires Forest(shadow) && 0 <= x < |shadow| && IsRoot(shadow, Follow(shadow, x, k))
    ensures Root(shadow, x) == Follow(shadow, x, k)
  {
    if k <= |shadow| {
      RootReached(shadow, x, k, |shadow|);
    } else {
      ForestReaches(shadow, x);
      RootReached(shadow, x, |shadow|, k);
    }
  }

  /** A root is on the chain of x exactly when it is the root of that chain. */
  lemma OnChain(shadow: seq<int>, x: int, e: int)
    requires Forest(shadow) && 0 <= x < |shadow| && IsRoot(shadow, e)
    ensures Root(shadow, x) == e <==> exists k: nat :: Follow(shadow, x, k) == e
  {
    if k: nat :| Follow(shadow, x, k) == e {
      RootIs(shadow, x, k);
    }
  }

  /** A chain that never visits e does not notice a change of e's pointer. */
  lemma {:induction false} FollowAvoids(shadow: seq<int>, e: int, p: int, x: int, k: nat)
    requires Pointers(shadow) && 0 <= e < |shadow| && 0 <= p < |shadow| && 0 <= x < |shadow|
    requires forall j: nat :: j < k ==> Follow(shadow, x, j) != e
    ensures Follow(shadow[e := p], x, k) == Follow(shadow, x, k)
    decreases k
  {
    if k > 0 {
      assert Follow(shadow, x, 0) != e;
      forall j: nat | j < k - 1
        ensures Follow(shadow, shadow[x], j) != e
      {
        assert Follow(shadow, x, j + 1) != e;
      }
      FollowAvoids(shadow, e, p, shadow[x], k - 1);
    }
  }

  /** If, after the change, the chain of e ends, then so does every chain that ended before. */
  lemma {:induction false} EndsAfter(shadow: seq<int>, e: int, p: int, x: int, k: nat)
    requires Pointers(shadow) && 0 <= e < |shadow| && 0 <= p < |shadow| && 0 <= x < |shadow|
    requires IsRoot(shadow, Follow(shadow, x, k)) && Ends(shadow[e := p], e)
    ensures Ends(shadow[e := p], x)
    decreases k
  {
    var shadow' := shadow[e := p];
    if x != e {
      if k == 0 {
        assert IsRoot(shadow', Follow(shadow', x, 0));
      } else {
        EndsAfter(shadow, e, p, shadow[x], k - 1);
        var j: nat :| IsRoot(shadow', Follow(shadow', shadow'[x], j));
        assert Follow(shadow', x, j + 1) == Follow(shadow', shadow'[x], j);
      }
    }
  }

  lemma ChangeKeepsForest(shadow: seq<int>, e: int, p: int)
    requires Forest(shadow) && 0 <= e < |shadow| && 0 <= p < |shadow| && Ends(shadow[e := p], e)
    ensures Forest(shadow[e := p])
  {
    forall x {:trigger Ends(shadow[e := p], x)} | 0 <= x < |shadow|
      ensures Ends(shadow[e := p], x)
    {
      ForestReaches(shadow, x);
      EndsAfter(shadow, e, p, x, |shadow|);
    }
    GroundedIsForest(shadow[e := p]);
  }

  /** Making a task point to itself keeps the forest: cancelling a join, or releasing a joiner. */
  lemma UnlinkKeepsForest(shadow: seq<int>, e: int)
    requires Forest(shadow) && 0 <= e < |shadow|
    ensures Forest(shadow[e := e])
  {
    assert IsRoot(shadow[e := e], Follow(shadow[e := e], e, 0));
    ChangeKeepsForest(shadow, e, e);
  }

  /** A root may be linked to p exactly when it is not at the end of p's own chain. */
  lemma LinkKeepsForestExactly(shadow: seq<int>, e: int, p: int)
    requires Forest(shadow) && IsRoot(shadow, e) && 0 <= p < |shadow| && p != e
    ensures Forest(shadow[e := p]) <==> Root(shadow, p) != e
  {
    var n := |shadow|;
    var shadow' := shadow[e := p];
    ForestReaches(shadow, p);
    if Root(shadow, p) != e {
      forall j: nat | j < n
        ensures Follow(shadow, p, j) != e
      {
        if Follow(shadow, p, j) == e {
          RootReached(shadow, p, j, n);
        }
      }
      FollowAvoids(shadow, e, p, p, n);
      assert Follow(shadow', e, n + 1) == Follow(shadow', p, n);
      assert IsRoot(shadow', Follow(shadow', e, n + 1));
      ChangeKeepsForest(shadow, e, p);
    } else {
      var k := FirstVisit(shadow, p, e, n);
      FollowAvoids(shadow, e, p, p, k);
      assert Follow(shadow', e, k + 1) == Follow(shadow', p, k) == e;
      assert shadow'[e] != e;
    }
  }

  lemma {:induction false} FirstVisit(shadow: seq<int>, p: int, e: int, n: nat) returns (k: nat)
    requires Pointers(shadow) && 0 <= p < |shadow| && Follow(shadow, p, n) == e
    ensures k <= n && Follow(shadow, p, k) == e && forall j: nat :: j < k ==> Follow(shadow, p, j) != e
    decreases n
  {
    if j: nat :| j < n && Follow(shadow, p, j) == e {
      k := FirstVisit(shadow, p, e, j);
    } else {
      k := n;
    }
  }

  /** One more step of a walk that has not met a root yet; such a walk is shorter than the table. */
  lemma WalkOn(shadow: seq<int>, x: int, k: nat)
    requires Forest(shadow) && 0 <= x < |shadow| && k <= |shadow| && !IsRoot(shadow, Follow(shadow, x, k))
    ensures k < |shadow| && Follow(shadow, x, k + 1) == shadow[Follow(shadow, x, k)]
  {
    ForestReaches(shadow, x);
    FollowAdd(shadow, x, k, 1);
    assert Follow(shadow, Follow(shadow, x, k), 1) == shadow[Follow(shadow, x, k)];
  }
}
