/** The tree of mounted file systems (rtos/fs/super.c): each super block links to its parent, its first child and its
    next sibling, and the shutdown visits the tree from the leaves up.  Super blocks are indices into their table. */
module SuperTrees {
  import opened IndexLists

  /** `kids[p]` are the children of p, first to last.  `stamp` is the time of insertion: a block enters the tree
      below one that is already there. */
  datatype Tree = Tree(root: int, members: set<int>, kids: seq<seq<int>>, parent: seq<int>, stamp: seq<nat>, clock: nat)

  /** The child q of p is a younger block of the tree that links back to p. */
  predicate Edge(t: Tree, p: int, q: int) {
    && p in t.members && q in t.members && q != t.root
    && 0 <= p < |t.stamp| && 0 <= q < |t.stamp| == |t.parent|
    && t.parent[q] == p && t.stamp[p] < t.stamp[q]
  }

  predicate HasParent(t: Tree, q: int) {
    0 <= q < |t.parent| && 0 <= t.parent[q] < |t.kids| && q in t.kids[t.parent[q]]
  }

  ghost predicate Ok(t: Tree) {
    && |t.kids| == |t.parent| == |t.stamp|
    && t.root in t.members
    && (forall i :: i in t.members ==> 0 <= i < |t.kids| && t.stamp[i] < t.clock)
    && (forall p :: 0 <= p < |t.kids| ==> Distinct(t.kids[p]))
    && (forall p, q :: 0 <= p < |t.kids| && q in t.kids[p] ==> Edge(t, p, q))
    && (forall q :: q in t.members && q != t.root ==> HasParent(t, q))
  }

  /** x is y or below y. */
  ghost predicate Below(t: Tree, x: int, y: int)
    requires Ok(t) && x in t.members
    decreases t.stamp[x]
  {
    x == y || (x != t.root && Below(t, t.parent[x], y))
  }

  /** The order of the visit: the subtrees of the children, first to last, then the block itself. */
  ghost function Post(t: Tree, p: int): seq<int>
    requires Ok(t) && p in t.members
    decreases t.clock - t.stamp[p], |t.kids[p]| + 1
  {
    PostFrom(t, p, 0) + [p]
  }

  ghost function PostFrom(t: Tree, p: int, k: nat): seq<int>
    requires Ok(t) && p in t.members && k <= |t.kids[p]|
    decreases t.clock - t.stamp[p], |t.kids[p]| - k
  {
    if k == |t.kids[p]| then []
    else
      assert t.kids[p][k] in t.kids[p];
      Post(t, t.kids[p][k]) + PostFrom(t, p, k + 1)
  }

  // ---------- it is a tree ----------

  /** Every block of the tree is below the root. */
  lemma {:induction false} AllBelowRoot(t: Tree, x: int)
    requires Ok(t) && x in t.members
    ensures Below(t, x, t.root)
    decreases t.stamp[x]
  {
    if x != t.root {
      AllBelowRoot(t, t.parent[x]);
    }
  }

  lemma {:induction false} BelowIsYounger(t: Tree, x: int, y: int)
    requires Ok(t) && x in t.members && Below(t, x, y)
    ensures y in t.members && t.stamp[y] <= t.stamp[x]
    decreases t.stamp[x]
  {
    if x != y {
      BelowIsYounger(t, t.parent[x], y);
    }
  }

  lemma {:induction false} BelowTransitive(t: Tree, x: int, y: int, z: int)
    requires Ok(t) && x in t.members && y in t.members && Below(t, x, y) && Below(t, y, z)
    ensures Below(t, x, z)
    decreases t.stamp[x]
  {
    if x != y {
      BelowTransitive(t, t.parent[x], y, z);
    }
  }

  /** The blocks above x form a chain. */
  lemma {:induction false} BelowLinear(t: Tree, x: int, y: int, z: int)
    requires Ok(t) && x in t.members && Below(t, x, y) && Below(t, x, z)
    ensures y in t.members && z in t.members && (Below(t, y, z) || Below(t, z, y))
    decreases t.stamp[x]
  {
    BelowIsYounger(t, x, y);
    BelowIsYounger(t, x, z);
    if x != y && x != z {
      BelowLinear(t, t.parent[x], y, z);
    }
  }

  /** The subtrees of two children of p have no block in common. */
  lemma SiblingsApart(t: Tree, p: int, i: nat, j: nat, x: int)
    requires Ok(t) && p in t.members && i < j < |t.kids[p]| && x in t.members
    ensures !(Below(t, x, t.kids[p][i]) && Below(t, x, t.kids[p][j]))
  {
    var y, z := t.kids[p][i], t.kids[p][j];
    assert y in t.kids[p] && z in t.kids[p] && y != z;
    if Below(t, x, y) && Below(t, x, z) {
      BelowLinear(t, x, y, z);
      if Below(t, y, z) {
        BelowIsYounger(t, p, z);
      } else {
        BelowIsYounger(t, p, y);
      }
    }
  }

  // ---------- what the visit visits ----------

  lemma {:induction false} PostMembers(t: Tree, p: int, x: int)
    requires Ok(t) && p in t.members
    ensures x in Post(t, p) <==> x in t.members && Below(t, x, p)
    decreases t.clock - t.stamp[p], |t.kids[p]| + 1
  {
    PostFromMembers(t, p, 0, x);
    if x in t.members && x != p && Below(t, x, p) {
      var k := Branch(t, p, x);
    }
    if k: nat :| k < |t.kids[p]| && x in t.members && Below(t, x, t.kids[p][k]) {
      assert t.kids[p][k] in t.kids[p];
      BelowTransitive(t, x, t.kids[p][k], p);
    }
  }

  lemma {:induction false} PostFromMembers(t: Tree, p: int, k: nat, x: int)
    requires Ok(t) && p in t.members && k <= |t.kids[p]|
    ensures x in PostFrom(t, p, k) <==>
              exists j: nat :: k <= j < |t.kids[p]| && x in t.members && Below(t, x, t.kids[p][j])
    decreases t.clock - t.stamp[p], |t.kids[p]| - k
  {
    if k < |t.kids[p]| {
      assert t.kids[p][k] in t.kids[p];
      PostMembers(t, t.kids[p][k], x);
      PostFromMembers(t, p, k + 1, x);
    }
  }

  /** A block properly below p is below one of its children. */
  lemma {:induction false} Branch(t: Tree, p: int, x: int) returns (k: nat)
    requires Ok(t) && p in t.members && x in t.members && x != p && Below(t, x, p)
    ensures k < |t.kids[p]| && Below(t, x, t.kids[p][k])
    decreases t.stamp[x]
  {
    if t.parent[x] == p {
      k :| 0 <= k < |t.kids[p]| && t.kids[p][k] == x;
    } else {
      k := Branch(t, p, t.parent[x]);
    }
  }

  lemma {:induction false} PostDistinct(t: Tree, p: int)
    requires Ok(t) && p in t.members
    ensures Distinct(Post(t, p))
    decreases t.clock - t.stamp[p], |t.kids[p]| + 1
  {
    PostFromDistinct(t, p, 0);
    PostFromMembers(t, p, 0, p);
    if k: nat :| k < |t.kids[p]| && Below(t, p, t.kids[p][k]) {
      assert t.kids[p][k] in t.kids[p];
      BelowIsYounger(t, p, t.kids[p][k]);
    }
  }

  lemma {:induction false} PostFromDistinct(t: Tree, p: int, k: nat)
    requires Ok(t) && p in t.members && k <= |t.kids[p]|
    ensures Distinct(PostFrom(t, p, k))
    decreases t.clock - t.stamp[p], |t.kids[p]| - k
  {
    if k < |t.kids[p]| {
      var q := t.kids[p][k];
      assert q in t.kids[p];
      PostDistinct(t, q);
      PostFromDistinct(t, p, k + 1);
      forall x | x in Post(t, q) ensures x !in PostFrom(t, p, k + 1) {
        PostMembers(t, q, x);
        PostFromMembers(t, p, k + 1, x);
        forall j: nat | k + 1 <= j < |t.kids[p]| ensures !Below(t, x, t.kids[p][j]) {
          SiblingsApart(t, p, k, j, x);
        }
      }
      ApartDistinct(Post(t, q), PostFrom(t, p, k + 1));
    }
  }

  lemma ApartDistinct(xs: seq<int>, ys: seq<int>)
    requires Distinct(xs) && Distinct(ys) && forall x :: x in xs ==> x !in ys
    ensures Distinct(xs + ys)
  {
    forall i, j | 0 <= i < j < |xs + ys| ensures (xs + ys)[i] != (xs + ys)[j] {
      if i < |xs| <= j {
        assert xs[i] in xs && ys[j - |xs|] in ys;
      }
    }
  }

  /** Every block is visited, and only once. */
  lemma VisitsEachOnce(t: Tree)
    requires Ok(t)
    ensures Distinct(Post(t, t.root)) && forall x :: x in Post(t, t.root) <==> x in t.members
  {
    PostDistinct(t, t.root);
    forall x ensures x in Post(t, t.root) <==> x in t.members {
      PostMembers(t, t.root, x);
      if x in t.members {
        AllBelowRoot(t, x);
      }
    }
  }

  /** A block comes before every other block it is below. */
  lemma {:induction false} DescendantsFirst(t: Tree, p: int, i: nat, j: nat)
    requires Ok(t) && p in t.members && i < |Post(t, p)| && j < |Post(t, p)|
    requires Post(t, p)[i] in t.members && Post(t, p)[i] != Post(t, p)[j]
    requires Below(t, Post(t, p)[i], Post(t, p)[j])
    ensures i < j
    decreases t.clock - t.stamp[p], |t.kids[p]| + 1
  {
    PostDistinct(t, p);
    if i == |Post(t, p)| - 1 {
      // p itself is below nothing in its own subtree
      PostMembers(t, p, Post(t, p)[j]);
      BelowIsYounger(t, p, Post(t, p)[j]);
      BelowIsYounger(t, Post(t, p)[j], p);
      NotBothBelow(t, p, Post(t, p)[j]);
    } else if j < |Post(t, p)| - 1 {
      DescendantsFirstFrom(t, p, 0, i, j);
    }
  }

  lemma NotBothBelow(t: Tree, x: int, y: int)
    requires Ok(t) && x in t.members && y in t.members && x != y && Below(t, x, y)
    ensures !Below(t, y, x)
  {
    BelowIsYounger(t, t.parent[x], y);
    if Below(t, y, x) {
      BelowIsYounger(t, y, x);
    }
  }

  lemma {:induction false} DescendantsFirstFrom(t: Tree, p: int, k: nat, i: nat, j: nat)
    requires Ok(t) && p in t.members && k <= |t.kids[p]| && i < |PostFrom(t, p, k)| && j < |PostFrom(t, p, k)|
    requires PostFrom(t, p, k)[i] in t.members && PostFrom(t, p, k)[i] != PostFrom(t, p, k)[j]
    requires Below(t, PostFrom(t, p, k)[i], PostFrom(t, p, k)[j])
    ensures i < j
    decreases t.clock - t.stamp[p], |t.kids[p]| - k
  {
    var q := t.kids[p][k];
    assert q in t.kids[p];
    var xs, ys := Post(t, q), PostFrom(t, p, k + 1);
    var x, y := PostFrom(t, p, k)[i], PostFrom(t, p, k)[j];
    if i >= |xs| && j >= |xs| {
      DescendantsFirstFrom(t, p, k + 1, i - |xs|, j - |xs|);
    } else if i < |xs| && j < |xs| {
      DescendantsFirst(t, q, i, j);
    } else if j < |xs| {
      // x is below y, which is below q: x is in the first subtree, not in a later one
      assert x == ys[i - |xs|] && y == xs[j];
      PostMembers(t, q, y);
      BelowTransitive(t, x, y, q);
      PostFromMembers(t, p, k + 1, x);
      var m: nat :| k + 1 <= m < |t.kids[p]| && Below(t, x, t.kids[p][m]);
      SiblingsApart(t, p, k, m, x);
    }
  }

  // ---------- visiting up to the first failure ----------

  function UpTo(xs: seq<int>, fails: set<int>): seq<int> {
    if xs == [] then [] else if xs[0] in fails then [xs[0]] else [xs[0]] + UpTo(xs[1..], fails)
  }

  ghost predicate Fine(xs: seq<int>, fails: set<int>) {
    forall x :: x in xs ==> x !in fails
  }

  lemma FineSplit(xs: seq<int>, fails: set<int>)
    requires xs != []
    ensures Fine(xs, fails) <==> xs[0] !in fails && Fine(xs[1..], fails)
  {
    assert forall x :: x in xs <==> x == xs[0] || x in xs[1..];
  }

  /** It is a prefix, all of it when nothing fails, else ending with the first that fails. */
  lemma {:induction false} UpToFirst(xs: seq<int>, fails: set<int>)
    ensures UpTo(xs, fails) <= xs
    ensures Fine(xs, fails) ==> UpTo(xs, fails) == xs
    ensures !Fine(xs, fails) ==>
              var n := |UpTo(xs, fails)|; n > 0 && xs[n - 1] in fails && Fine(xs[..n - 1], fails)
  {
    if xs != [] {
      assert xs == [xs[0]] + xs[1..];
      FineSplit(xs, fails);
      UpToFirst(xs[1..], fails);
      var n := |UpTo(xs[1..], fails)|;
      if xs[0] !in fails && n > 0 {
        assert xs[..n] == [xs[0]] + xs[1..][..n - 1];
      }
    }
  }

  lemma {:induction false} UpToSplit(xs: seq<int>, ys: seq<int>, fails: set<int>)
    ensures UpTo(xs + ys, fails) == if Fine(xs, fails) then xs + UpTo(ys, fails) else UpTo(xs, fails)
  {
    if xs == [] {
      assert xs + ys == ys;
    } else {
      assert xs == [xs[0]] + xs[1..];
      assert (xs + ys)[1..] == xs[1..] + ys;
      FineSplit(xs, fails);
      UpToSplit(xs[1..], ys, fails);
    }
  }

  lemma FineJoin(xs: seq<int>, ys: seq<int>, fails: set<int>)
    ensures Fine(xs + ys, fails) <==> Fine(xs, fails) && Fine(ys, fails)
  {
    assert forall x :: x in xs + ys <==> x in xs || x in ys;
  }

  /** The visit of p has been through the subtrees of its first k children without a failure: these are `done`. */
  ghost predicate Halfway(t: Tree, p: int, k: nat, done: seq<int>, fails: set<int>) {
    && Ok(t) && p in t.members && k <= |t.kids[p]| && Fine(done, fails)
    && done + PostFrom(t, p, k) == PostFrom(t, p, 0)
  }

  /** The result of visiting p, given the blocks visited and whether the visit went well. */
  ghost predicate VisitedAs(t: Tree, p: int, fails: set<int>, seen: seq<int>, ok: bool) {
    Ok(t) && p in t.members && seen == UpTo(Post(t, p), fails) && (ok <==> Fine(Post(t, p), fails))
  }

  lemma VisitStart(t: Tree, p: int, fails: set<int>)
    requires Ok(t) && p in t.members
    ensures Halfway(t, p, 0, [], fails)
  {
  }

  /** A round of the visit of p, over its child number k. */
  lemma VisitBranch(t: Tree, p: int, k: nat, done: seq<int>, fails: set<int>, seen: seq<int>, ok: bool)
    requires Halfway(t, p, k, done, fails) && k < |t.kids[p]|
    requires VisitedAs(t, t.kids[p][k], fails, seen, ok)
    ensures ok ==> Halfway(t, p, k + 1, done + seen, fails)
    ensures !ok ==> VisitedAs(t, p, fails, done + seen, false)
  {
    var q := t.kids[p][k];
    assert q in t.kids[p];
    var branch, rest := Post(t, q), PostFrom(t, p, k + 1);
    assert (done + branch) + rest == PostFrom(t, p, 0);
    assert Post(t, p) == done + (branch + (rest + [p]));
    UpToSplit(done, branch + (rest + [p]), fails);
    UpToSplit(branch, rest + [p], fails);
    UpToFirst(branch, fails);
    FineJoin(done, branch, fails);
    FineJoin(done, branch + (rest + [p]), fails);
    FineJoin(branch, rest + [p], fails);
  }

  lemma VisitLast(t: Tree, p: int, k: nat, done: seq<int>, fails: set<int>)
    requires Halfway(t, p, k, done, fails) && k == |t.kids[p]|
    ensures VisitedAs(t, p, fails, done + [p], p !in fails)
  {
    assert done == PostFrom(t, p, 0) && Post(t, p) == done + [p];
    UpToSplit(done, [p], fails);
    FineJoin(done, [p], fails);
    assert UpTo([p], fails) == [p];
  }

  /** In a prefix of the visit, too, a block comes before every other block it is below. */
  lemma PrefixInOrder(t: Tree, seen: seq<int>, i: nat, j: nat)
    requires Ok(t) && seen <= Post(t, t.root) && i < |seen| && j < |seen|
    requires seen[i] in t.members && seen[i] != seen[j] && Below(t, seen[i], seen[j])
    ensures i < j
  {
    assert seen[i] == Post(t, t.root)[i] && seen[j] == Post(t, t.root)[j];
    DescendantsFirst(t, t.root, i, j);
  }

  lemma PrefixDistinct(xs: seq<int>, seen: seq<int>)
    requires Distinct(xs) && seen <= xs
    ensures Distinct(seen)
  {
    forall i, j | 0 <= i < j < |seen| ensures seen[i] != seen[j] {
      assert seen[i] == xs[i] && seen[j] == xs[j];
    }
  }

  // ---------- insertion and removal ----------

  function Insert(t: Tree, sb: int, psb: int): Tree
    requires 0 <= sb < |t.kids| == |t.parent| == |t.stamp| && 0 <= psb < |t.kids|
  {
    t.(members := t.members + {sb}, kids := t.kids[sb := []][psb := [sb] + t.kids[psb]],
       parent := t.parent[sb := psb], stamp := t.stamp[sb := t.clock], clock := t.clock + 1)
  }

  /** A fresh block inserted below one of the tree leaves a tree. */
  lemma InsertKeeps(t: Tree, sb: int, psb: int)
    requires Ok(t) && psb in t.members && sb !in t.members && 0 <= sb < |t.kids|
    ensures Ok(Insert(t, sb, psb))
  {
    var t' := Insert(t, sb, psb);
    assert forall q :: q in t.kids[psb] ==> Edge(t, psb, q);
    assert sb !in t.kids[psb] && Distinct([sb] + t.kids[psb]);
    forall p, q | 0 <= p < |t'.kids| && q in t'.kids[p] ensures Edge(t', p, q) {
      assert (p == psb && q == sb) || (q in t.kids[p] && Edge(t, p, q));
    }
    forall q | q in t'.members && q != t'.root ensures HasParent(t', q) {
      if q == sb {
        assert t'.kids[psb][0] == sb;
      } else {
        assert HasParent(t, q) && Edge(t, t.parent[q], q);
      }
    }
  }

  function Remove(t: Tree, sb: int, rest: seq<int>): Tree
    requires 0 <= sb < |t.parent| && 0 <= t.parent[sb] < |t.kids|
  {
    t.(members := t.members - {sb}, kids := t.kids[t.parent[sb] := rest])
  }

  /** So does the removal of a block without children, other than the root. */
  lemma RemoveKeeps(t: Tree, sb: int, rest: seq<int>)
    requires Ok(t) && sb in t.members && sb != t.root && t.kids[sb] == []
    requires Distinct(rest) && forall q :: q in rest <==> q in t.kids[t.parent[sb]] && q != sb
    ensures Ok(Remove(t, sb, rest))
  {
    var t' := Remove(t, sb, rest);
    assert HasParent(t, sb) && Edge(t, t.parent[sb], sb);
    forall p, q | 0 <= p < |t'.kids| && q in t'.kids[p] ensures Edge(t', p, q) {
      assert q in t.kids[p] && Edge(t, p, q);
    }
    forall q | q in t'.members && q != t.root ensures HasParent(t', q) {
      assert HasParent(t, q) && Edge(t, t.parent[q], q);
    }
  }

  // ---------- the code ----------

  /** Links, first children and parents of the blocks spell out the tree. */
  ghost predicate Spelled(next: seq<int>, childs: seq<int>, t: Tree) {
    && |next| == |childs| == |t.kids|
    && forall p :: 0 <= p < |t.kids| ==> Forward(next, t.kids[p]) && childs[p] == At(t.kids[p], 0)
  }

  lemma InsertSpelled(next: seq<int>, childs: seq<int>, t: Tree, sb: int, psb: int)
    requires Spelled(next, childs, t) && Ok(t) && psb in t.members && sb !in t.members && 0 <= sb < |next|
    ensures Spelled(next[sb := childs[psb]], childs[sb := NIL][psb := sb], Insert(t, sb, psb))
  {
    var next' := next[sb := childs[psb]];
    forall p | 0 <= p < |t.kids| && p != psb ensures Forward(next', t.kids[p]) {
      assert sb !in t.kids[p];
      ForwardFrame(next, t.kids[p], sb, childs[psb]);
    }
    ForwardPush(next, t.kids[psb], sb);
  }

  /** Unlinking the child at position k through its elder sibling, or through the parent if it is the first. */
  lemma RemoveSpelled(next: seq<int>, childs: seq<int>, t: Tree, sb: int, k: nat)
    requires Spelled(next, childs, t) && Ok(t) && sb in t.members && sb != t.root
    requires 0 <= t.parent[sb] < |t.kids| && k < |t.kids[t.parent[sb]]| && t.kids[t.parent[sb]][k] == sb
    ensures k > 0 ==> 0 <= t.kids[t.parent[sb]][k - 1] < |next|
    ensures var p := t.parent[sb];
            var b := t.kids[p];
            Spelled(if k > 0 then next[b[k - 1] := next[sb]] else next,
                    if k > 0 then childs else childs[p := next[sb]],
                    Remove(t, sb, RemoveAt(b, k)))
  {
    var p := t.parent[sb];
    var b := t.kids[p];
    assert next[b[k]] == At(b, k + 1);
    var next' := if k > 0 then next[b[k - 1] := next[sb]] else next;
    assert UnlinkedForward(next, next', b, k);
    ForwardRemove(next, next', b, k);
    if k > 0 {
      assert b[k - 1] in b;
      forall q | 0 <= q < |t.kids| && q != p ensures Forward(next', t.kids[q]) {
        assert t.parent[b[k - 1]] == p && b[k - 1] !in t.kids[q];
        ForwardFrame(next, t.kids[q], b[k - 1], next[sb]);
      }
    }
  }

  /** Unlinking through the parent a child that is not the first: its elder siblings are cut off with it. */
  lemma CutSpelled(next: seq<int>, childs: seq<int>, t: Tree, sb: int, k: nat)
    requires Spelled(next, childs, t) && Ok(t) && sb in t.members && sb != t.root
    requires 0 <= t.parent[sb] < |t.kids| && k < |t.kids[t.parent[sb]]| && t.kids[t.parent[sb]][k] == sb
    ensures Spelled(next, childs[t.parent[sb] := next[sb]], Remove(t, sb, t.kids[t.parent[sb]][k + 1..]))
  {
    var b := t.kids[t.parent[sb]];
    assert next[b[k]] == At(b, k + 1) == At(b[k + 1..], 0);
    ForwardDrop(next, b, k + 1);
  }

  lemma CutBreaks(t: Tree, sb: int, k: nat)
    requires Ok(t) && sb in t.members && sb != t.root
    requires 0 <= t.parent[sb] < |t.kids| && 0 < k < |t.kids[t.parent[sb]]| && t.kids[t.parent[sb]][k] == sb
    ensures !Ok(Remove(t, sb, t.kids[t.parent[sb]][k + 1..]))
  {
    var b := t.kids[t.parent[sb]];
    assert b[0] in b && Edge(t, t.parent[sb], b[0]);
    assert !HasParent(Remove(t, sb, b[k + 1..]), b[0]);
  }

  /** What is left of the children b when number k is unlinked, through the parent or else through its elder sibling. */
  function Left(b: seq<int>, k: nat, cut: bool): seq<int>
    requires k < |b|
  {
    if cut then b[k + 1..] else RemoveAt(b, k)
  }

  /** The tree stays one exactly when the elder sibling is used, or there is none. */
  lemma LeftIsTreeExactly(t: Tree, sb: int, k: nat, cut: bool)
    requires Ok(t) && sb in t.members && sb != t.root && t.kids[sb] == []
    requires 0 <= t.parent[sb] < |t.kids| && k < |t.kids[t.parent[sb]]| && t.kids[t.parent[sb]][k] == sb
    ensures Ok(Remove(t, sb, Left(t.kids[t.parent[sb]], k, cut))) <==> !cut || k == 0
  {
    var b := t.kids[t.parent[sb]];
    if cut && k > 0 {
      CutBreaks(t, sb, k);
    } else {
      RemoveMembers(b, k);
      RemoveDistinct(b, k);
      assert Left(b, k, cut) == RemoveAt(b, k);
      RemoveKeeps(t, sb, RemoveAt(b, k));
    }
  }

  lemma LeftSpelled(next: seq<int>, childs: seq<int>, t: Tree, sb: int, k: nat, cut: bool)
    requires Spelled(next, childs, t) && Ok(t) && sb in t.members && sb != t.root
    requires 0 <= t.parent[sb] < |t.kids| && k < |t.kids[t.parent[sb]]| && t.kids[t.parent[sb]][k] == sb
    requires !cut ==> k > 0
    ensures !cut ==> 0 <= t.kids[t.parent[sb]][k - 1] < |next|
    ensures Spelled(if cut then next else next[t.kids[t.parent[sb]][k - 1] := next[sb]],
                    if cut then childs[t.parent[sb] := next[sb]] else childs,
                    Remove(t, sb, Left(t.kids[t.parent[sb]], k, cut)))
  {
    if cut {
      CutSpelled(next, childs, t, sb, k);
    } else {
      RemoveSpelled(next, childs, t, sb, k);
    }
  }

  class SuperBlocks {
    const parent: array<int>
    const childs: array<int>
    const next: array<int>
    const root: int

    ghost var members: set<int>
    ghost var kids: seq<seq<int>>
    ghost var stamp: seq<nat>
    ghost var clock: nat

    /** The blocks visited. */
    ghost var visited: seq<int>

    ghost function Abs(): Tree
      reads `members, `kids, `stamp, `clock, parent
    {
      Tree(root, members, kids, parent[..], stamp, clock)
    }

    ghost predicate Valid()
      reads `members, `kids, `stamp, `clock, parent, childs, next
    {
      && parent != childs && parent != next && childs != next
      && Ok(Abs()) && Spelled(next[..], childs[..], Abs())
    }

    constructor (size: nat, root: int)
      requires 0 <= root < size
      ensures Valid() && members == {root} && this.root == root && visited == []
      ensures fresh(parent) && fresh(childs) && fresh(next)
    {
      parent := new int[size](_ => NIL);
      childs := new int[size](_ => NIL);
      next := new int[size](_ => NIL);
      this.root := root;
      members, kids, stamp, clock := {root}, seq(size, _ => []), seq(size, _ => 0), 1;
      visited := [];
    }

    method InsertIntoTree(sb: int, psb: int)
      requires Valid() && psb in members && sb !in members && 0 <= sb < next.Length
      modifies parent, childs, next, `members, `kids, `stamp, `clock
      ensures Valid() && Abs() == Insert(old(Abs()), sb, psb)
      ensures members == old(members) + {sb} && parent[..] == old(parent[..])[sb := psb]
      ensures kids == old(kids)[sb := []][psb := [sb] + old(kids)[psb]]
    {
      InsertKeeps(Abs(), sb, psb);
      InsertSpelled(next[..], childs[..], Abs(), sb, psb);
      parent[sb] := psb;
      next[sb] := childs[psb];
      childs[sb] := NIL;
      childs[psb] := sb;
      members, kids := members + {sb}, kids[sb := []][psb := [sb] + kids[psb]];
      stamp, clock := stamp[sb := clock], clock + 1;
      assert Abs() == Insert(old(Abs()), sb, psb);
    }

    /** The search for a child among its siblings, from the one that was first when the list was read. */
    method FindChild(sb: int, first: int, ghost f: nat) returns (prev: int, ghost k: nat)
      requires Valid() && sb in members && sb != root && 0 <= parent[sb] < |kids|
      requires f < |kids[parent[sb]]| && kids[parent[sb]][f] == first && sb in kids[parent[sb]][f..]
      ensures f <= k < |kids[parent[sb]]| && kids[parent[sb]][k] == sb
      ensures prev == if first == sb then NIL else At(kids[parent[sb]], k - 1)
    {
      var ptr := first;
      ghost var b := kids[parent[sb]];
      prev, k := NIL, f;
      while ptr != sb
        invariant f <= k < |b| && ptr == b[k] && prev == if k == f then NIL else At(b, k - 1)
        invariant sb in b[k..]
        decreases |b| - k
      {
        assert next[..][b[k]] == At(b, k + 1);
        assert b[k..] == [b[k]] + b[k + 1..];
        prev := ptr;
        ptr := next[ptr];
        k := k + 1;
      }
      assert k > f ==> b[f] != b[k];
    }

    /** The part of super_removefromtree under the mutex.  `first` was the first child when it was read, before the
        mutex was taken; others may have been inserted in front of it since.  The tree stays one exactly when the block
        to remove is not that child or still is the first; otherwise all those inserted since are cut off with it. */
    method RemoveSection(sb: int, first: int, ghost f: nat) returns (ghost k: nat)
      requires Valid() && sb in members && sb != root && kids[sb] == [] && 0 <= parent[sb] < |kids|
      requires f < |kids[parent[sb]]| && kids[parent[sb]][f] == first && sb in kids[parent[sb]][f..]
      modifies childs, next, `members, `kids
      ensures Spelled(next[..], childs[..], Abs()) && members == old(members) - {sb}
      ensures 0 <= parent[sb] < |kids| == |old(kids)|
      ensures forall p :: 0 <= p < |kids| && p != parent[sb] ==> kids[p] == old(kids[p])
      ensures k < |old(kids[parent[sb]])| && old(kids[parent[sb]])[k] == sb
      ensures var b := old(kids[parent[sb]]);
              kids[parent[sb]] == if first == sb then b[k + 1..] else b[..k] + b[k + 1..]
      ensures Valid() <==> first != sb || old(kids[parent[sb]])[0] == sb
    {
      var prev;
      prev, k := FindChild(sb, first, f);
      ghost var b := kids[parent[sb]];
      LeftSpelled(next[..], childs[..], Abs(), sb, k, first == sb);
      LeftIsTreeExactly(Abs(), sb, k, first == sb);
      assert k > 0 ==> b[0] != b[k];
      if prev != NIL {
        next[prev] := next[sb];
      } else {
        childs[parent[sb]] := next[sb];
      }
      members, kids := members - {sb}, kids[parent[sb] := Left(b, k, first == sb)];
      assert Abs() == Remove(old(Abs()), sb, Left(b, k, first == sb));
    }

    /** super_removefromtree when nobody comes between. */
    method RemoveFromTree(sb: int)
      requires Valid() && sb in members && sb != root && kids[sb] == []
      modifies childs, next, `members, `kids
      ensures Valid() && members == old(members) - {sb}
      ensures 0 <= parent[sb] < |kids| == |old(kids)|
      ensures forall p :: 0 <= p < |kids| && p != parent[sb] ==> kids[p] == old(kids[p])
      ensures exists k: nat :: k < |old(kids[parent[sb]])| && old(kids[parent[sb]])[k] == sb
                               && kids[parent[sb]] == RemoveAt(old(kids[parent[sb]]), k)
    {
      assert HasParent(Abs(), sb) && Edge(Abs(), parent[sb], sb);
      ghost var b := kids[parent[sb]];
      var ptr := childs[parent[sb]];
      assert b[0..] == b && ptr == b[0];
      ghost var k := RemoveSection(sb, ptr, 0);
      assert forall k :: 0 < k < |b| ==> b[k] != b[0];
      assert RemoveAt(b, 0) == b[1..];
    }

    /** The links around child number k of sb. */
    lemma Child(sb: int, k: nat)
      requires Valid() && sb in members && k < |kids[sb]|
      ensures kids[sb][k] in members && stamp[sb] < stamp[kids[sb][k]] < clock
      ensures next[kids[sb][k]] == At(kids[sb], k + 1)
    {
      assert kids[sb][k] in kids[sb] && next[..][kids[sb][k]] == At(kids[sb], k + 1);
    }

    lemma NoMore(sb: int, k: nat)
      requires Valid() && sb in members && k <= |kids[sb]| && At(kids[sb], k) == NIL
      ensures k == |kids[sb]|
    {
      assert forall q :: q in kids[sb] ==> Edge(Abs(), sb, q);
    }

    /** The recursive call of visittree for child number k of sb, of whose visit `seen` is behind. */
    method VisitChild(sb: int, ptr: int, fails: set<int>, ghost k: nat, ghost seen: seq<int>)
      returns (res: int, ghost branch: seq<int>)
      requires Valid() && Halfway(Abs(), sb, k, seen, fails) && k < |kids[sb]| && ptr == kids[sb][k]
      modifies `visited
      ensures visited == old(visited) + branch && 0 <= ptr < next.Length && next[ptr] == At(kids[sb], k + 1)
      ensures res == 0 ==> Halfway(Abs(), sb, k + 1, seen + branch, fails)
      ensures res != 0 ==> VisitedAs(Abs(), sb, fails, seen + branch, false)
      decreases clock - stamp[sb], 0
    {
      Child(sb, k);
      res, branch := VisitTree(ptr, fails);
      VisitBranch(Abs(), sb, k, seen, fails, branch, res == 0);
    }

    /** visittree: the subtree of sb in post-order, up to the first block whose callback fails. */
    method VisitTree(sb: int, fails: set<int>) returns (ret: int, ghost seen: seq<int>)
      requires Valid() && sb in members
      modifies `visited
      ensures visited == old(visited) + seen && VisitedAs(Abs(), sb, fails, seen, ret == 0)
      decreases clock - stamp[sb], 1
    {
      ghost var k := 0;
      seen := [];
      var ptr := childs[sb];
      VisitStart(Abs(), sb, fails);
      while ptr != NIL
        invariant 0 <= k <= |kids[sb]| && ptr == At(kids[sb], k)
        invariant visited == old(visited) + seen && Halfway(Abs(), sb, k, seen, fails)
        decreases |kids[sb]| - k
      {
        var res;
        ghost var branch;
        res, branch := VisitChild(sb, ptr, fails, k, seen);
        seen := seen + branch;
        if res != 0 { return -1, seen; }
        ptr := next[ptr];
        k := k + 1;
      }
      NoMore(sb, k);
      VisitLast(Abs(), sb, k, seen, fails);
      visited := visited + [sb];
      seen := seen + [sb];
      ret := if sb in fails then 1 else 0;
    }

    /** super_enumdevice: when no callback fails, every mounted block is visited exactly once, each after all the
        blocks below it; otherwise the visit is a prefix of that order and ends with the first failure. */
    method EnumDevice(fails: set<int>) returns (ret: int)
      requires Valid() && visited == []
      modifies `visited
      ensures ret == 0 <==> forall x :: x in members ==> x !in fails
      ensures visited <= Post(Abs(), root) && Distinct(visited)
      ensures ret == 0 ==> forall x :: x in visited <==> x in members
      ensures ret != 0 ==>
                && visited != [] && visited[|visited| - 1] in fails
                && Fine(visited[..|visited| - 1], fails)
      ensures forall i, j ::
                (0 <= i < |visited| && 0 <= j < |visited| && visited[i] in members
                 && visited[i] != visited[j] && Below(Abs(), visited[i], visited[j])) ==> i < j
    {
      VisitsEachOnce(Abs());
      UpToFirst(Post(Abs(), root), fails);
      ghost var seen;
      ret, seen := VisitTree(root, fails);
      PrefixDistinct(Post(Abs(), root), visited);
      forall i, j | 0 <= i < |visited| && 0 <= j < |visited| && visited[i] in members
                    && visited[i] != visited[j] && Below(Abs(), visited[i], visited[j])
        ensures i < j
      {
        PrefixInOrder(Abs(), visited, i, j);
      }
    }
  }
}
