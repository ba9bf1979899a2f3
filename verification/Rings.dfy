/** Closed chains of distinct nodes, and sums of weights over their consecutive pairs. */
module Rings {

  predicate Distinct(s: seq<nat>) {
    forall i, j :: 0 <= i < j < |s| ==> s[i] != s[j]
  }

  function Succ(m: nat, i: nat): nat {
    if i + 1 == m then 0 else i + 1
  }

  function Pred(m: nat, i: nat): nat
    requires i < m
  {
    if i == 0 then m - 1 else i - 1
  }

  function Remove(r: seq<nat>, k: nat): seq<nat>
    requires k < |r|
  {
    r[..k] + r[k + 1..]
  }

  function Reversed(r: seq<nat>): (rev: seq<nat>)
    ensures |rev| == |r|
    ensures forall i :: 0 <= i < |r| ==> rev[i] == r[|r| - 1 - i]
  {
    seq(|r|, i requires 0 <= i < |r| => r[|r| - 1 - i])
  }

  // ------------------------------------------------------------------ weights

  type Weight = (nat, nat) -> int

  /** Sum of the weights of consecutive pairs of an open chain. */
  function PathSum(w: Weight, r: seq<nat>): int {
    if |r| < 2 then 0 else PathSum(w, r[..|r| - 1]) + w(r[|r| - 2], r[|r| - 1])
  }

  /** The same for a closed chain. */
  function CycleSum(w: Weight, r: seq<nat>): int {
    if r == [] then 0 else PathSum(w, r) + w(r[|r| - 1], r[0])
  }

  lemma {:induction false} PathSumConcat(w: Weight, a: seq<nat>, b: seq<nat>)
    requires a != [] && b != []
    ensures PathSum(w, a + b) == PathSum(w, a) + w(a[|a| - 1], b[0]) + PathSum(w, b)
  {
    if |b| == 1 {
      assert (a + b)[..|a + b| - 1] == a;
    } else {
      assert (a + b)[..|a + b| - 1] == a + b[..|b| - 1];
      PathSumConcat(w, a, b[..|b| - 1]);
    }
  }

  /** Taking node `k` out of a closed chain replaces its two pairs by one. */
  lemma RemoveSum(w: Weight, r: seq<nat>, k: nat)
    requires k < |r| && |r| >= 2
    ensures var a, b, c := r[Pred(|r|, k)], r[k], r[Succ(|r|, k)];
            CycleSum(w, Remove(r, k)) == CycleSum(w, r) - w(a, b) - w(b, c) + w(a, c)
  {
    if k == 0 {
      assert r == [r[0]] + r[1..] && Remove(r, k) == r[1..];
      PathSumConcat(w, [r[0]], r[1..]);
    } else if k == |r| - 1 {
      assert r == r[..k] + [r[k]] && Remove(r, k) == r[..k];
      PathSumConcat(w, r[..k], [r[k]]);
    } else {
      assert r == r[..k] + ([r[k]] + r[k + 1..]);
      PathSumConcat(w, [r[k]], r[k + 1..]);
      PathSumConcat(w, r[..k], [r[k]] + r[k + 1..]);
      PathSumConcat(w, r[..k], r[k + 1..]);
    }
  }

  /** Reversing a chain, for a weight that is symmetric (`s` = 1) or antisymmetric (`s` = -1). */
  lemma {:induction false} ReversedPathSum(w: Weight, s: int, r: seq<nat>)
    requires forall u, v :: w(v, u) == s * w(u, v)
    ensures PathSum(w, Reversed(r)) == s * PathSum(w, r)
  {
    if |r| < 2 {
    } else {
      var front, last := r[..|r| - 1], r[|r| - 1];
      ReversedPathSum(w, s, front);
      assert Reversed(r) == [last] + Reversed(front);
      PathSumConcat(w, [last], Reversed(front));
      assert Reversed(front)[0] == r[|r| - 2];
      Distribute(s, PathSum(w, front), w(r[|r| - 2], last));
    }
  }

  lemma Distribute(s: int, x: int, y: int)
    ensures s * (x + y) == s * x + s * y
  {
  }

  lemma ReversedSum(w: Weight, s: int, r: seq<nat>)
    requires forall u, v :: w(v, u) == s * w(u, v)
    ensures CycleSum(w, Reversed(r)) == s * CycleSum(w, r)
  {
    if r != [] {
      ReversedPathSum(w, s, r);
      Distribute(s, PathSum(w, r), w(r[|r| - 1], r[0]));
    }
  }

  // -------------------------------------------------------------------- edges

  predicate SameEdge(u: nat, v: nat, x: nat, y: nat) {
    (u == x && v == y) || (u == y && v == x)
  }

  /** 1 for the undirected edge {x, y}, 0 otherwise. */
  function EdgeWeight(x: nat, y: nat): Weight {
    (u: nat, v: nat) => if SameEdge(u, v, x, y) then 1 else 0
  }

  predicate PathAdjacent(r: seq<nat>, x: nat, y: nat) {
    exists i :: 0 <= i < |r| - 1 && SameEdge(r[i], r[i + 1], x, y)
  }

  /** x and y are neighbours in the closed chain. */
  predicate Adjacent(r: seq<nat>, x: nat, y: nat) {
    PathAdjacent(r, x, y) || (r != [] && SameEdge(r[|r| - 1], r[0], x, y))
  }

  lemma {:induction false} PathEdges(r: seq<nat>, x: nat, y: nat)
    requires Distinct(r) && x != y
    ensures PathSum(EdgeWeight(x, y), r) == if PathAdjacent(r, x, y) then 1 else 0
  {
    if |r| >= 2 {
      var front := r[..|r| - 1];
      PathEdges(front, x, y);
      if PathAdjacent(front, x, y) {
        var i :| 0 <= i < |front| - 1 && SameEdge(front[i], front[i + 1], x, y);
        assert SameEdge(r[i], r[i + 1], x, y);
      } else if SameEdge(r[|r| - 2], r[|r| - 1], x, y) {
        assert PathAdjacent(r, x, y);
      }
    }
  }

  /** A closed chain of at least three distinct nodes has each of its edges once. */
  lemma RingEdges(r: seq<nat>, x: nat, y: nat)
    requires Distinct(r) && |r| >= 3 && x != y
    ensures CycleSum(EdgeWeight(x, y), r) == if Adjacent(r, x, y) then 1 else 0
  {
    PathEdges(r, x, y);
  }

  /** In a chain of at least four nodes, the two neighbours of a node are not neighbours. */
  lemma NoShortcut(r: seq<nat>, k: nat)
    requires Distinct(r) && |r| >= 4 && k < |r|
    ensures !Adjacent(r, r[Pred(|r|, k)], r[Succ(|r|, k)])
  {
  }

  /** There are at most `n` distinct numbers below `n`. */
  lemma {:induction false} DistinctBound(s: seq<nat>, n: nat)
    requires Distinct(s) && forall i :: 0 <= i < |s| ==> s[i] < n
    ensures |s| <= n
  {
    if s == [] || s[0] >= n {
    } else if n - 1 in s {
      var k :| 0 <= k < |s| && s[k] == n - 1;
      DistinctBound(Remove(s, k), n - 1);
    } else {
      DistinctBound(s, n - 1);
    }
  }

  /** A list of distinct numbers below `n` that misses one has room for another. */
  lemma RoomForOneMore(s: seq<nat>, n: nat, x: nat)
    requires Distinct(s) && (forall i :: 0 <= i < |s| ==> s[i] < n) && x < n && x !in s
    ensures |s| < n
  {
    DistinctBound(s + [x], n);
  }
}
