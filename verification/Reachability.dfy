/** Walks in a finite directed graph, given as its set of arcs. */
module Reachability {

  /** There is a walk of exactly n arcs from a to b. */
  ghost predicate Walk<T(!new)>(arcs: set<(T, T)>, a: T, b: T, n: nat) {
    if n == 0 then a == b
    else exists mid :: Walk(arcs, a, mid, n - 1) && (mid, b) in arcs
  }

  ghost predicate Reaches<T(!new)>(arcs: set<(T, T)>, a: T, b: T) {
    exists n: nat :: Walk(arcs, a, b, n)
  }

  ghost predicate Closed<T(!new)>(arcs: set<(T, T)>, s: set<T>) {
    forall arc :: arc in arcs && arc.0 in s ==> arc.1 in s
  }

  lemma WalkStep<T(!new)>(arcs: set<(T, T)>, a: T, mid: T, b: T, n: nat)
    requires Walk(arcs, a, mid, n) && (mid, b) in arcs
    ensures Walk(arcs, a, b, n + 1)
  {
  }

  lemma ReachesSelf<T(!new)>(arcs: set<(T, T)>, a: T)
    ensures Reaches(arcs, a, a)
  {
    assert Walk(arcs, a, a, 0);
  }

  lemma ReachesStep<T(!new)>(arcs: set<(T, T)>, a: T, mid: T, b: T)
    requires Reaches(arcs, a, mid) && (mid, b) in arcs
    ensures Reaches(arcs, a, b)
  {
    var n: nat :| Walk(arcs, a, mid, n);
    WalkStep(arcs, a, mid, b, n);
  }

  lemma {:induction false} WalkConcat<T(!new)>(arcs: set<(T, T)>, a: T, b: T, c: T, m: nat, n: nat)
    requires Walk(arcs, a, b, m) && Walk(arcs, b, c, n)
    ensures Walk(arcs, a, c, m + n)
  {
    if n > 0 {
      var mid :| Walk(arcs, b, mid, n - 1) && (mid, c) in arcs;
      WalkConcat(arcs, a, b, mid, m, n - 1);
      WalkStep(arcs, a, mid, c, m + n - 1);
    }
  }

  lemma ReachesTransitive<T(!new)>(arcs: set<(T, T)>, a: T, b: T, c: T)
    requires Reaches(arcs, a, b) && Reaches(arcs, b, c)
    ensures Reaches(arcs, a, c)
  {
    var m: nat :| Walk(arcs, a, b, m);
    var n: nat :| Walk(arcs, b, c, n);
    WalkConcat(arcs, a, b, c, m, n);
  }

  lemma {:induction false} ClosedKeepsWalks<T(!new)>(arcs: set<(T, T)>, s: set<T>, a: T, b: T, n: nat)
    requires Closed(arcs, s) && a in s && Walk(arcs, a, b, n)
    ensures b in s
  {
    if n > 0 {
      var mid :| Walk(arcs, a, mid, n - 1) && (mid, b) in arcs;
      ClosedKeepsWalks(arcs, s, a, mid, n - 1);
    }
  }

  /** A set closed under the arcs contains everything reachable from its members. */
  lemma ClosedKeepsReachable<T(!new)>(arcs: set<(T, T)>, s: set<T>, a: T, b: T)
    requires Closed(arcs, s) && a in s && Reaches(arcs, a, b)
    ensures b in s
  {
    var n: nat :| Walk(arcs, a, b, n);
    ClosedKeepsWalks(arcs, s, a, b, n);
  }

  /** Walks survive when arcs are added. */
  lemma {:induction false} WalkMonotone<T(!new)>(fewer: set<(T, T)>, more: set<(T, T)>, a: T, b: T, n: nat)
    requires fewer <= more && Walk(fewer, a, b, n)
    ensures Walk(more, a, b, n)
  {
    if n > 0 {
      var mid :| Walk(fewer, a, mid, n - 1) && (mid, b) in fewer;
      WalkMonotone(fewer, more, a, mid, n - 1);
    }
  }

  /** A walk that is not empty starts with an arc. */
  lemma {:induction false} WalkFirstArc<T(!new)>(arcs: set<(T, T)>, a: T, b: T, n: nat) returns (next: T)
    requires n > 0 && Walk(arcs, a, b, n)
    ensures (a, next) in arcs && Walk(arcs, next, b, n - 1)
  {
    var mid :| Walk(arcs, a, mid, n - 1) && (mid, b) in arcs;
    if n == 1 {
      next := b;
    } else {
      next := WalkFirstArc(arcs, a, mid, n - 1);
      WalkStep(arcs, next, mid, b, n - 2);
    }
  }

  lemma ReachesFirstArc<T(!new)>(arcs: set<(T, T)>, a: T, b: T) returns (next: T)
    requires a != b && Reaches(arcs, a, b)
    ensures (a, next) in arcs && Reaches(arcs, next, b)
  {
    var n: nat :| Walk(arcs, a, b, n);
    next := WalkFirstArc(arcs, a, b, n);
  }
}
