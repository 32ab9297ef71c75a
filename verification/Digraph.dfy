/** Finite directed graphs given as edge sets, with walks as node sequences. An edge `(a, b)`
    reads "b waits for a". */
module Digraph {
  import opened Common

  ghost predicate IsWalk<T>(edges: set<(T, T)>, w: seq<T>) {
    && |w| > 0
    && forall i | 0 <= i < |w| - 1 :: (w[i], w[i + 1]) in edges
  }

  /** A walk of at least one edge that comes back to where it began; a self-edge is one. */
  ghost predicate IsClosedWalk<T>(edges: set<(T, T)>, w: seq<T>) {
    IsWalk(edges, w) && |w| >= 2 && w[0] == w[|w| - 1]
  }

  ghost predicate Cyclic<T(!new)>(edges: set<(T, T)>) {
    exists w: seq<T> :: IsClosedWalk(edges, w)
  }

  ghost predicate WalkFromTo<T>(edges: set<(T, T)>, a: T, b: T, w: seq<T>) {
    IsWalk(edges, w) && w[0] == a && w[|w| - 1] == b
  }

  /** Reachability in zero or more steps. */
  ghost predicate Reaches<T(!new)>(edges: set<(T, T)>, a: T, b: T) {
    exists w: seq<T> :: WalkFromTo(edges, a, b, w)
  }

  ghost function Preds<T>(edges: set<(T, T)>, n: T): set<T> {
    set e | e in edges && e.1 == n :: e.0
  }

  ghost function Succs<T>(edges: set<(T, T)>, n: T): set<T> {
    set e | e in edges && e.0 == n :: e.1
  }

  lemma {:induction false} ReachesSelf<T(!new)>(edges: set<(T, T)>, a: T)
    ensures Reaches(edges, a, a)
  {
    assert WalkFromTo(edges, a, a, [a]);
  }

  lemma {:induction false} ReachesStep<T(!new)>(edges: set<(T, T)>, a: T, b: T, c: T)
    requires Reaches(edges, a, b) && (b, c) in edges
    ensures Reaches(edges, a, c)
  {
    var w :| WalkFromTo(edges, a, b, w);
    assert WalkFromTo(edges, a, c, w + [c]);
  }

  lemma {:induction false} ReachesEdgeFirst<T(!new)>(edges: set<(T, T)>, a: T, b: T, c: T)
    requires (a, b) in edges && Reaches(edges, b, c)
    ensures Reaches(edges, a, c)
  {
    var w :| WalkFromTo(edges, b, c, w);
    assert WalkFromTo(edges, a, c, [a] + w);
  }

  /** A set closed under outgoing edges holds everything reachable from its members. */
  lemma {:induction false} ClosedUnderReach<T(!new)>(edges: set<(T, T)>, closed: set<T>, w: seq<T>)
    requires forall e | e in edges && e.0 in closed :: e.1 in closed
    requires IsWalk(edges, w) && w[0] in closed
    ensures w[|w| - 1] in closed
    decreases |w|
  {
    if |w| > 1 {
      var v := w[1..];
      assert (w[0], w[1]) in edges;
      assert forall i | 0 <= i < |v| - 1 :: (v[i], v[i + 1]) == (w[i + 1], w[i + 2]);
      ClosedUnderReach(edges, closed, v);
    }
  }

  /** In an acyclic graph nothing is reachable from one of its own successors. */
  lemma {:induction false} NoWayBack<T(!new)>(edges: set<(T, T)>, a: T, b: T)
    requires !Cyclic(edges) && (a, b) in edges
    ensures !Reaches(edges, b, a)
  {
    if Reaches(edges, b, a) {
      var w :| WalkFromTo(edges, b, a, w);
      assert IsClosedWalk(edges, [a] + w);
    }
  }

  /** Pigeonhole: a sequence without repetitions is no longer than a set that holds its elements. */
  lemma {:induction false} NoDupLength<T>(s: seq<T>, within: set<T>)
    requires NoDup(s) && forall x | x in s :: x in within
    ensures |s| <= |within|
    decreases |s|
  {
    if s != [] {
      var last := s[|s| - 1];
      var init := s[..|s| - 1];
      forall x | x in init ensures x in within - {last} {
        var i :| 0 <= i < |init| && init[i] == x;
        assert s[i] == x;
      }
      NoDupLength(init, within - {last});
    }
  }

  /** A walk that visits some node twice contains a closed walk. */
  lemma {:induction false} RepeatGivesCycle<T(!new)>(edges: set<(T, T)>, w: seq<T>)
    requires IsWalk(edges, w) && !NoDup(w)
    ensures Cyclic(edges)
  {
    var i, j :| 0 <= i < j < |w| && w[i] == w[j];
    var c := w[i..j + 1];
    assert forall k | 0 <= k < |c| - 1 :: (c[k], c[k + 1]) == (w[i + k], w[i + k + 1]);
    assert IsClosedWalk(edges, c);
  }

  ghost predicate HasPredIn<T>(edges: set<(T, T)>, s: set<T>, x: T) {
    exists p :: p in s && (p, x) in edges
  }

  /** If every member of `s` has a predecessor in `s`, walks inside `s` can be made as long as one likes. */
  lemma {:induction false} BackwardsWalk<T(!new)>(edges: set<(T, T)>, s: set<T>, n: nat) returns (w: seq<T>)
    requires s != {}
    requires forall x | x in s :: HasPredIn(edges, s, x)
    ensures IsWalk(edges, w) && |w| == n + 1
    ensures forall x | x in w :: x in s
  {
    if n == 0 {
      var x :| x in s;
      w := [x];
    } else {
      var v := BackwardsWalk(edges, s, n - 1);
      assert HasPredIn(edges, s, v[0]);
      var p :| p in s && (p, v[0]) in edges;
      w := [p] + v;
    }
  }

  /** Every non-empty finite part of an acyclic graph has a member with no predecessor in that part. */
  lemma {:induction false} SourceExists<T(!new)>(edges: set<(T, T)>, s: set<T>)
    requires s != {} && !Cyclic(edges)
    ensures exists x :: x in s && Preds(edges, x) !! s
  {
    if forall x | x in s :: HasPredIn(edges, s, x) {
      var w := BackwardsWalk(edges, s, |s|);
      if NoDup(w) {
        NoDupLength(w, s);
      } else {
        RepeatGivesCycle(edges, w);
      }
      assert false;
    }
    var x :| x in s && !HasPredIn(edges, s, x);
    forall p | p in Preds(edges, x) ensures p !in s {
      assert (p, x) in edges;
    }
  }
}
