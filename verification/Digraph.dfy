/** Finite directed graphs as edge sets: walks, cycles, and the induction that
    acyclicity licenses. */
module Digraph {
  import opened Prelude

  type Edge = (string, string)

  ghost predicate IsWalk(edges: set<Edge>, p: seq<string>) {
    p != [] && forall i :: 0 <= i < |p| - 1 ==> (p[i], p[i + 1]) in edges
  }

  ghost predicate IsCycle(edges: set<Edge>, p: seq<string>) {
    |p| >= 2 && IsWalk(edges, p) && p[0] == p[|p| - 1]
  }

  ghost predicate HasCycle(edges: set<Edge>) {
    exists p :: IsCycle(edges, p)
  }

  lemma CycleMonotone(a: set<Edge>, b: set<Edge>)
    requires a <= b && HasCycle(a)
    ensures HasCycle(b)
  {
    var p :| IsCycle(a, p);
    assert IsCycle(b, p);
  }

  lemma SelfEdgeIsCycle(edges: set<Edge>, v: string)
    requires (v, v) in edges
    ensures HasCycle(edges)
  {
    assert IsCycle(edges, [v, v]);
  }

  /** Numbers that fall along every edge rule a cycle out. */
  lemma RankedIsAcyclic(edges: set<Edge>, rank: map<string, nat>)
    requires forall e :: e in edges ==> e.0 in rank && e.1 in rank && rank[e.1] < rank[e.0]
    ensures !HasCycle(edges)
  {
    forall p | IsCycle(edges, p) ensures false {
      RankFalls(edges, rank, p, |p| - 1);
    }
  }

  lemma {:induction false} RankFalls(edges: set<Edge>, rank: map<string, nat>, p: seq<string>, n: nat)
    requires forall e :: e in edges ==> e.0 in rank && e.1 in rank && rank[e.1] < rank[e.0]
    requires IsWalk(edges, p) && 0 < n < |p|
    ensures p[0] in rank && p[n] in rank && rank[p[n]] < rank[p[0]]
  {
    assert (p[n - 1], p[n]) in edges;
    if n > 1 {
      RankFalls(edges, rank, p, n - 1);
    }
  }

  /** A repeated vertex on a walk closes a cycle. */
  lemma RepeatIsCycle(edges: set<Edge>, p: seq<string>, i: nat, j: nat)
    requires IsWalk(edges, p) && i < j < |p| && p[i] == p[j]
    ensures HasCycle(edges)
  {
    var q := p[i..j + 1];
    forall k | 0 <= k < |q| - 1 ensures (q[k], q[k + 1]) in edges {
      assert q[k] == p[i + k] && q[k + 1] == p[i + k + 1];
    }
    assert IsCycle(edges, q);
  }

  ghost predicate HasPredecessorIn(edges: set<Edge>, s: set<string>, v: string) {
    exists u :: u in s && (u, v) in edges
  }

  /** If every vertex of `s` has a predecessor in `s`, walks inside `s` of any
      length exist. */
  lemma {:induction false} LongWalk(edges: set<Edge>, s: set<string>, start: string, n: nat) returns (p: seq<string>)
    requires start in s
    requires forall v :: v in s ==> HasPredecessorIn(edges, s, v)
    ensures IsWalk(edges, p) && |p| == n + 1
    ensures forall v :: v in p ==> v in s
  {
    p := [start];
    if n > 0 {
      var q := LongWalk(edges, s, start, n - 1);
      assert HasPredecessorIn(edges, s, q[0]);
      var u :| u in s && (u, q[0]) in edges;
      p := [u] + q;
    }
  }

  /** Every non-empty vertex set of an acyclic graph has a vertex without a
      predecessor in the set: the induction principle used by the scheduler. */
  lemma AcyclicHasSource(edges: set<Edge>, s: set<string>) returns (v: string)
    requires !HasCycle(edges) && s != {}
    ensures v in s && !HasPredecessorIn(edges, s, v)
  {
    if forall v :: v in s ==> HasPredecessorIn(edges, s, v) {
      var start :| start in s;
      var p := LongWalk(edges, s, start, |s|);
      var i, j := Pigeonhole(p, s);
      RepeatIsCycle(edges, p, i, j);
      assert false;
    }
    v :| v in s && !HasPredecessorIn(edges, s, v);
  }
}
