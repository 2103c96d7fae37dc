/** Transition systems whose events name the thread that moves, and their finite runs: the common
    frame for the protocols that are cut into atomic steps by a mutex or by disabled interrupts. */
module Machines {

  /** `apply` is total; it only matters where `enabled` holds. */
  datatype Machine<!S(!new), !E(!new)> = Machine(enabled: (S, E) -> bool, apply: (S, E) -> S)
  {
    /** Each event of es is enabled when its turn comes. */
    ghost predicate Feasible(s: S, es: seq<E>)
      decreases |es|
    {
      es == [] || (enabled(s, es[0]) && Feasible(apply(s, es[0]), es[1..]))
    }

    function Run(s: S, es: seq<E>): S
      decreases |es|
    {
      if es == [] then s else Run(apply(s, es[0]), es[1..])
    }

    /** inv is kept by every enabled event. */
    ghost predicate Keeps(inv: S -> bool) {
      forall s, e :: inv(s) && enabled(s, e) ==> inv(apply(s, e))
    }

    /** What every step keeps, every run keeps. */
    lemma {:induction false} Invariant(inv: S -> bool, s: S, es: seq<E>)
      requires Keeps(inv) && inv(s) && Feasible(s, es)
      ensures inv(Run(s, es))
      decreases |es|
    {
      if es != [] {
        Invariant(inv, apply(s, es[0]), es[1..]);
      }
    }

    /** inv is kept by every enabled event that is no exception. */
    ghost predicate KeepsBut(inv: S -> bool, exception: E -> bool) {
      forall s, e :: inv(s) && enabled(s, e) && !exception(e) ==> inv(apply(s, e))
    }

    /** What every step but some keeps, every run without those keeps. */
    lemma {:induction false} InvariantBut(inv: S -> bool, exception: E -> bool, s: S, es: seq<E>)
      requires KeepsBut(inv, exception) && inv(s) && Feasible(s, es) && forall e :: e in es ==> !exception(e)
      ensures inv(Run(s, es))
      decreases |es|
    {
      if es != [] {
        assert es[0] in es;
        InvariantBut(inv, exception, apply(s, es[0]), es[1..]);
      }
    }

    /** The states that runs from the first states reach. */
    ghost predicate Reaches(first: nat -> S, s: S) {
      exists n: nat, es :: Feasible(first(n), es) && s == Run(first(n), es)
    }

    lemma ReachesFirst(first: nat -> S, n: nat)
      ensures Reaches(first, first(n))
    {
      assert Feasible(first(n), []) && Run(first(n), []) == first(n);
    }

    lemma ReachesNext(first: nat -> S, s: S, e: E)
      requires Reaches(first, s) && enabled(s, e)
      ensures Reaches(first, apply(s, e))
    {
      var n: nat, es :| Feasible(first(n), es) && s == Run(first(n), es);
      Snoc(first(n), es, e);
    }

    lemma {:induction false} ReachesRun(first: nat -> S, s: S, es: seq<E>)
      requires Reaches(first, s) && Feasible(s, es)
      ensures Reaches(first, Run(s, es))
      decreases |es|
    {
      if es != [] {
        ReachesNext(first, s, es[0]);
        ReachesRun(first, apply(s, es[0]), es[1..]);
      }
    }

    /** What holds first and is kept by every step holds in every state reached. */
    lemma ReachesInv(inv: S -> bool, first: nat -> S, s: S)
      requires Keeps(inv) && Reaches(first, s) && forall n: nat :: inv(first(n))
      ensures inv(s)
    {
      var n: nat, es :| Feasible(first(n), es) && s == Run(first(n), es);
      Invariant(inv, first(n), es);
    }

    /** Every drain event uses up some work. */
    ghost predicate Drains(inv: S -> bool, drain: E -> bool, work: S -> nat) {
      forall s, e :: inv(s) && enabled(s, e) && drain(e) ==> work(apply(s, e)) < work(s)
    }

    /** A run of drain events is no longer than the work at its start. */
    lemma {:induction false} Bounded(inv: S -> bool, drain: E -> bool, work: S -> nat, s: S, es: seq<E>)
      requires Keeps(inv) && Drains(inv, drain, work) && inv(s)
      requires Feasible(s, es) && forall e :: e in es ==> drain(e)
      ensures inv(Run(s, es)) && |es| + work(Run(s, es)) <= work(s)
      decreases |es|
    {
      if es != [] {
        assert es[0] in es;
        Bounded(inv, drain, work, apply(s, es[0]), es[1..]);
      }
    }

    lemma Cons(s: S, e: E, es: seq<E>)
      requires enabled(s, e) && Feasible(apply(s, e), es)
      ensures Feasible(s, [e] + es) && Run(s, [e] + es) == Run(apply(s, e), es)
    {
      assert ([e] + es)[1..] == es;
    }

    lemma Two(s: S, e: E, f: E)
      requires enabled(s, e) && enabled(apply(s, e), f)
      ensures Feasible(s, [e] + [f]) && Run(s, [e] + [f]) == apply(apply(s, e), f)
    {
      Cons(apply(s, e), f, []);
      Cons(s, e, [f]);
    }

    /** A run can be extended by one event. */
    lemma {:induction false} Snoc(s: S, es: seq<E>, e: E)
      requires Feasible(s, es) && enabled(Run(s, es), e)
      ensures Feasible(s, es + [e]) && Run(s, es + [e]) == apply(Run(s, es), e)
      decreases |es|
    {
      if es == [] {
        assert ([] + [e])[0] == e && ([] + [e])[1..] == [];
        assert es + [e] == [e];
      } else {
        Snoc(apply(s, es[0]), es[1..], e);
        assert (es + [e])[1..] == es[1..] + [e];
      }
    }
  }

  // ---------- populations: how many threads are in which phase ----------

  lemma {:induction false} AllAlike<P>(at: seq<P>, x: P, p: P)
    requires forall t :: 0 <= t < |at| ==> at[t] == x
    ensures multiset(at)[p] == if p == x then |at| else 0
  {
    if at != [] {
      var n := |at| - 1;
      AllAlike(at[..n], x, p);
      assert at == at[..n] + [x];
    }
  }

  /** Moving thread t to phase p changes the population of exactly two phases. */
  lemma Moved<P>(at: seq<P>, t: nat, p: P, q: P)
    requires t < |at|
    ensures multiset(at)[at[t]] > 0
    ensures multiset(at[t := p])[q] == multiset(at)[q] - (if q == at[t] then 1 else 0) + (if q == p then 1 else 0)
  {
    assert at[t] in at;
  }

  lemma MovedAll<P(!new)>(at: seq<P>, t: nat, p: P)
    requires t < |at| && p != at[t]
    ensures forall q {:trigger multiset(at[t := p])[q]} ::
              multiset(at[t := p])[q]
              == multiset(at)[q] + (if q == p then 1 else 0) - (if q == at[t] then 1 else 0)
  {
    forall q {
      Moved(at, t, p, q);
    }
  }
}
