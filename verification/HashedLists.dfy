/** A table whose entries are on hash buckets, doubly linked, or on a free list, singly linked through the same
    field: the layout that the disk cache (rtos/fs/dcache.c) and the inode cache (rtos/fs/inode.c) share. */
module HashedLists {
  import opened IndexLists

  const MAXHASH: int := 64
  const TABLE: seq<int> := [3, 5, 7, 11, 13, 17, 19, 23]

  /** hash_fun of both files: the product wraps at 32 bits before the mask takes its low six. */
  function HashFun(device: int, number: int): (h: int)
    ensures 0 <= h < MAXHASH
  {
    ((TABLE[device % 8] * (number + 1)) % 0x1_0000_0000) % MAXHASH
  }

  datatype Place = OnFree | InBucket(h: int) | Out

  /** `place` records where each entry is; no operation depends on it. */
  datatype Lists = Lists(free: seq<int>, buckets: seq<seq<int>>, place: seq<Place>)
  {
    ghost predicate Shape() {
      && |buckets| == MAXHASH
      && InRange(free, |place|) && Distinct(free)
      && forall h :: 0 <= h < MAXHASH ==> InRange(buckets[h], |place|) && Distinct(buckets[h])
    }

    /** Entry i is on the list its place names, and on no other. */
    ghost predicate Placed(i: int)
      requires Shape() && 0 <= i < |place|
    {
      && (i in free <==> place[i] == OnFree)
      && forall h :: 0 <= h < MAXHASH ==> (i in buckets[h] <==> place[i] == InBucket(h))
    }

    ghost predicate Ok() {
      Shape() && forall i :: 0 <= i < |place| ==> Placed(i)
    }

    function TakeFree(): Lists
      requires free != [] && InRange(free, |place|)
    {
      Lists(free[1..], buckets, place[free[0] := Out])
    }

    function PutFree(i: int): Lists
      requires 0 <= i < |place|
    {
      Lists([i] + free, buckets, place[i := OnFree])
    }

    function Insert(i: int, h: int): Lists
      requires 0 <= i < |place| && 0 <= h < |buckets|
    {
      Lists(free, buckets[h := [i] + buckets[h]], place[i := InBucket(h)])
    }

    function Remove(i: int, h: int): Lists
      requires 0 <= i < |place| && 0 <= h < |buckets|
    {
      Lists(free, buckets[h := Without(buckets[h], i)], place[i := Out])
    }
  }

  function Without(xs: seq<int>, x: int): seq<int> {
    if xs == [] then [] else if xs[0] == x then xs[1..] else [xs[0]] + Without(xs[1..], x)
  }

  lemma {:induction false} WithoutAt(xs: seq<int>, k: nat)
    requires k < |xs| && Distinct(xs)
    ensures Without(xs, xs[k]) == RemoveAt(xs, k)
  {
    if k > 0 {
      WithoutAt(xs[1..], k - 1);
      assert RemoveAt(xs, k) == [xs[0]] + RemoveAt(xs[1..], k - 1);
    }
  }

  lemma WithoutMiddle(xs: seq<int>, ys: seq<int>)
    requires Distinct(xs + ys) && ys != []
    ensures Without(xs + ys, ys[0]) == xs + ys[1..]
  {
    assert (xs + ys)[|xs|] == ys[0];
    WithoutAt(xs + ys, |xs|);
    assert RemoveAt(xs + ys, |xs|) == xs + ys[1..];
  }

  lemma WithoutMembers(xs: seq<int>, x: int)
    requires x in xs && Distinct(xs)
    ensures forall y :: y in Without(xs, x) <==> y in xs && y != x
    ensures Distinct(Without(xs, x))
  {
    var k :| 0 <= k < |xs| && xs[k] == x;
    WithoutAt(xs, k);
    RemoveMembers(xs, k);
    RemoveDistinct(xs, k);
  }

  // ---------- the lists stay disjoint ----------

  lemma TakeFreeOk(ls: Lists)
    requires ls.Ok() && ls.free != []
    ensures ls.TakeFree().Ok()
  {
    var i := ls.free[0];
    HeadAndTail(ls.free, i);
    assert ls.Placed(i);
    forall j | 0 <= j < |ls.place| ensures ls.TakeFree().Placed(j) {
      assert ls.Placed(j);
      HeadAndTail(ls.free, j);
    }
  }

  lemma PutFreeOk(ls: Lists, i: int)
    requires ls.Ok() && 0 <= i < |ls.place| && ls.place[i] == Out
    ensures ls.PutFree(i).Ok()
  {
    assert ls.Placed(i);
    forall j | 0 <= j < |ls.place| ensures ls.PutFree(i).Placed(j) {
      assert ls.Placed(j);
    }
  }

  lemma InsertOk(ls: Lists, i: int, h: int)
    requires ls.Ok() && 0 <= i < |ls.place| && ls.place[i] == Out && 0 <= h < MAXHASH
    ensures ls.Insert(i, h).Ok()
  {
    assert ls.Placed(i);
    forall j | 0 <= j < |ls.place| ensures ls.Insert(i, h).Placed(j) {
      assert ls.Placed(j);
    }
  }

  lemma RemoveOk(ls: Lists, i: int, h: int)
    requires ls.Ok() && 0 <= i < |ls.place| && 0 <= h < MAXHASH && ls.place[i] == InBucket(h)
    ensures ls.Remove(i, h).Ok()
  {
    var b := ls.buckets[h];
    assert ls.Placed(i);
    WithoutMembers(b, i);
    forall k | 0 <= k < |Without(b, i)| ensures 0 <= Without(b, i)[k] < |ls.place| {
      assert Without(b, i)[k] in b;
    }
    forall j | 0 <= j < |ls.place| ensures ls.Remove(i, h).Placed(j) {
      assert ls.Placed(j);
    }
  }

  /** Removal undoes insertion. */
  lemma RemoveUndoesInsert(ls: Lists, i: int, h: int)
    requires 0 <= i < |ls.place| && 0 <= h < |ls.buckets| && ls.place[i] == Out
    ensures ls.Insert(i, h).Remove(i, h) == ls
  {
    assert Without([i] + ls.buckets[h], i) == ls.buckets[h];
  }

  // ---------- the links ----------

  /** The links, the head of the free list and the bucket heads spell out the lists. */
  ghost predicate Spelled(next: seq<int>, prev: seq<int>, freeHead: int, heads: seq<int>, ls: Lists) {
    && |next| == |prev| == |ls.place| && |heads| == |ls.buckets|
    && Forward(next, ls.free) && freeHead == At(ls.free, 0)
    && forall h :: 0 <= h < |heads| ==> Chained(next, prev, ls.buckets[h]) && heads[h] == At(ls.buckets[h], 0)
  }

  lemma TakeFreeSpelled(next: seq<int>, prev: seq<int>, freeHead: int, heads: seq<int>, ls: Lists)
    requires Spelled(next, prev, freeHead, heads, ls) && ls.Ok() && ls.free != []
    ensures Spelled(next, prev, next[freeHead], heads, ls.TakeFree())
  {
    ForwardTail(next, ls.free);
  }

  lemma PutFreeSpelled(next: seq<int>, prev: seq<int>, freeHead: int, heads: seq<int>, ls: Lists, i: int)
    requires Spelled(next, prev, freeHead, heads, ls) && ls.Ok()
    requires 0 <= i < |next| && ls.place[i] == Out
    ensures Spelled(next[i := freeHead], prev, i, heads, ls.PutFree(i))
  {
    assert ls.Placed(i);
    ForwardPush(next, ls.free, i);
    forall h | 0 <= h < |heads| ensures Chained(next[i := freeHead], prev, ls.buckets[h]) {
      ForwardFrame(next, ls.buckets[h], i, freeHead);
    }
  }

  function InsertedPrev(prev: seq<int>, i: int, head: int): seq<int>
    requires 0 <= i < |prev| && (head != NIL ==> 0 <= head < |prev|)
  {
    if head != NIL then prev[i := NIL][head := i] else prev[i := NIL]
  }

  lemma InsertSpelled(next: seq<int>, prev: seq<int>, freeHead: int, heads: seq<int>, ls: Lists, i: int, h: int)
    requires Spelled(next, prev, freeHead, heads, ls) && ls.Ok()
    requires 0 <= i < |next| && ls.place[i] == Out && 0 <= h < MAXHASH
    ensures heads[h] != NIL ==> 0 <= heads[h] < |prev|
    ensures Spelled(next[i := heads[h]], InsertedPrev(prev, i, heads[h]), freeHead, heads[h := i], ls.Insert(i, h))
  {
    assert ls.Placed(i);
    var b, head := ls.buckets[h], heads[h];
    var next', prev' := next[i := head], InsertedPrev(prev, i, head);
    assert LinkedForward(next, next', b, 0, i) && LinkedBackward(prev, prev', b, 0, i);
    ForwardInsert(next, next', b, 0, i);
    BackwardInsert(prev, prev', b, 0, i);
    assert InsertAt(b, 0, i) == [i] + b;
    ForwardFrame(next, ls.free, i, head);
    forall g | 0 <= g < |heads| && g != h ensures Chained(next', prev', ls.buckets[g]) {
      forall x | x in ls.buckets[g] ensures x !in [i] + b {
        assert ls.Placed(x);
      }
      ChainedFrame(next, prev, next', prev', ls.buckets[g], [i] + b);
    }
  }

  function RemovedNext(next: seq<int>, prev: seq<int>, i: int): seq<int>
    requires 0 <= i < |next| == |prev| && (prev[i] != NIL ==> 0 <= prev[i] < |next|)
  {
    if prev[i] != NIL then next[prev[i] := next[i]] else next
  }

  /** Unlinking i from its own bucket. */
  lemma RemoveChained(next: seq<int>, prev: seq<int>, b: seq<int>, i: int)
    requires Chained(next, prev, b) && |next| == |prev| && i in b
    ensures next[i] != NIL ==> 0 <= next[i] < |prev| && next[i] in b
    ensures prev[i] != NIL ==> 0 <= prev[i] < |next| && prev[i] in b
    ensures Chained(RemovedNext(next, prev, i), RemovedNext(prev, next, i), Without(b, i))
    ensures At(Without(b, i), 0) == if prev[i] == NIL then next[i] else At(b, 0)
  {
    var k :| 0 <= k < |b| && b[k] == i;
    assert next[b[k]] == At(b, k + 1) && prev[b[k]] == At(b, k - 1);
    var next', prev' := RemovedNext(next, prev, i), RemovedNext(prev, next, i);
    assert UnlinkedForward(next, next', b, k) && UnlinkedBackward(prev, prev', b, k);
    ForwardRemove(next, next', b, k);
    BackwardRemove(prev, prev', b, k);
    WithoutAt(b, k);
  }

  lemma RemoveSpelled(next: seq<int>, prev: seq<int>, freeHead: int, heads: seq<int>, ls: Lists, i: int, h: int)
    requires Spelled(next, prev, freeHead, heads, ls) && ls.Ok()
    requires 0 <= i < |next| && 0 <= h < MAXHASH && ls.place[i] == InBucket(h)
    ensures next[i] != NIL ==> 0 <= next[i] < |prev|
    ensures prev[i] != NIL ==> 0 <= prev[i] < |next|
    ensures Spelled(RemovedNext(next, prev, i), RemovedNext(prev, next, i), freeHead,
                    if prev[i] == NIL then heads[h := next[i]] else heads, ls.Remove(i, h))
  {
    var b := ls.buckets[h];
    assert ls.Placed(i);
    RemoveChained(next, prev, b, i);
    var next', prev' := RemovedNext(next, prev, i), RemovedNext(prev, next, i);
    if prev[i] != NIL {
      assert ls.Placed(prev[i]);
      ForwardFrame(next, ls.free, prev[i], next[i]);
    }
    forall g | 0 <= g < |heads| && g != h ensures Chained(next', prev', ls.buckets[g]) {
      forall x | x in ls.buckets[g] ensures x !in b {
        assert ls.Placed(x);
      }
      ChainedFrame(next, prev, next', prev', ls.buckets[g], b);
    }
  }

  /** A step along bucket h, of which `kept` is behind and `rest` ahead. */
  lemma Walk(next: seq<int>, prev: seq<int>, freeHead: int, heads: seq<int>, ls: Lists, h: int, kept: seq<int>,
             rest: seq<int>)
    requires Spelled(next, prev, freeHead, heads, ls) && ls.Ok()
    requires 0 <= h < MAXHASH && ls.buckets[h] == kept + rest && rest != []
    ensures 0 <= rest[0] < |ls.place| && ls.place[rest[0]] == InBucket(h)
    ensures next[rest[0]] == At(rest, 1)
    ensures Without(ls.buckets[h], rest[0]) == kept + rest[1..]
    ensures ls.buckets[h] == (kept + [rest[0]]) + rest[1..]
  {
    assert rest[0] == ls.buckets[h][|kept|] && rest[0] in ls.buckets[h] && ls.Placed(rest[0]);
    assert next[ls.buckets[h][|kept|]] == At(ls.buckets[h], |kept| + 1);
    WithoutMiddle(kept, rest);
  }

  // ---------- the empty table ----------

  function AllFree(size: nat): Lists {
    Lists(seq(size, i => i), seq(MAXHASH, _ => []), seq(size, _ => OnFree))
  }

  lemma AllFreeOk(size: nat)
    ensures AllFree(size).Ok()
  {
    forall i | 0 <= i < size ensures AllFree(size).Placed(i) {
      assert AllFree(size).free[i] == i;
    }
  }

  /** The chain that the initialisation loops write. */
  lemma AllFreeSpelled(next: seq<int>, prev: seq<int>, heads: seq<int>)
    requires |next| == |prev| && |heads| == MAXHASH
    requires forall i :: 0 <= i < |next| ==> next[i] == if i + 1 < |next| then i + 1 else NIL
    requires forall h :: 0 <= h < MAXHASH ==> heads[h] == NIL
    ensures Spelled(next, prev, if |next| > 0 then 0 else NIL, heads, AllFree(|next|))
  {
  }
}
