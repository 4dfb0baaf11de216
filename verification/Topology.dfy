/** Undirected point-to-point topologies, walks over them and hop distances. */
module Topology {

  // Distance that stands for "no path" (arbiter-ecmp-helper.cc, line 49).
  const UNREACHABLE: nat := 100000000

  // Largest topology the all-pairs computation accepts.
  const MAX_NODES: nat := 40000

  datatype Graph = Graph(n: nat, edges: seq<(nat, nat)>)

  // What the topology parser guarantees of the edge list it hands over
  // (it also guarantees left < right and no duplicates, which are not needed).
  ghost predicate Valid(g: Graph) {
    forall m :: 0 <= m < |g.edges| ==>
      g.edges[m].0 < g.n && g.edges[m].1 < g.n && g.edges[m].0 != g.edges[m].1
  }

  predicate Adjacent(g: Graph, a: nat, b: nat) {
    (a, b) in g.edges || (b, a) in g.edges
  }

  ghost predicate IsWalk(g: Graph, p: seq<nat>) {
    && |p| > 0
    && (forall k :: 0 <= k < |p| ==> p[k] < g.n)
    && (forall k :: 0 < k < |p| ==> Adjacent(g, p[k - 1], p[k]))
  }

  ghost predicate Joins(g: Graph, p: seq<nat>, a: nat, b: nat) {
    IsWalk(g, p) && p[0] == a && p[|p| - 1] == b
  }

  // b can be reached from a in exactly h hops.
  ghost predicate Hops(g: Graph, a: nat, b: nat, h: nat) {
    exists p :: Joins(g, p, a, b) && |p| == h + 1
  }

  ghost predicate Reachable(g: Graph, a: nat, b: nat) {
    exists h: nat :: Hops(g, a, b, h)
  }

  lemma LeastHops(g: Graph, a: nat, b: nat, h: nat)
    requires Hops(g, a, b, h)
    ensures exists d: nat :: Hops(g, a, b, d) && forall e: nat :: Hops(g, a, b, e) ==> d <= e
  {
    if e: nat :| Hops(g, a, b, e) && e < h {
      LeastHops(g, a, b, e);
    }
  }

  /** The minimum hop count from a to b, or UNREACHABLE when no walk joins them. */
  ghost function Dist(g: Graph, a: nat, b: nat): (d: nat)
    ensures Reachable(g, a, b) ==> Hops(g, a, b, d)
    ensures forall e: nat :: Hops(g, a, b, e) ==> d <= e
    ensures !Reachable(g, a, b) ==> d == UNREACHABLE
  {
    if h: nat :| Hops(g, a, b, h) then
      LeastHops(g, a, b, h);
      var d: nat :| Hops(g, a, b, d) && forall e: nat :: Hops(g, a, b, e) ==> d <= e;
      d
    else UNREACHABLE
  }

  lemma WalkBoundsDist(g: Graph, p: seq<nat>)
    requires IsWalk(g, p)
    ensures Reachable(g, p[0], p[|p| - 1])
    ensures Dist(g, p[0], p[|p| - 1]) <= |p| - 1
  {
    assert Joins(g, p, p[0], p[|p| - 1]);
    assert Hops(g, p[0], p[|p| - 1], |p| - 1);
  }

  lemma ShortestWalk(g: Graph, a: nat, b: nat) returns (p: seq<nat>)
    requires Reachable(g, a, b)
    ensures Joins(g, p, a, b) && |p| == Dist(g, a, b) + 1
  {
    p :| Joins(g, p, a, b) && |p| == Dist(g, a, b) + 1;
  }

  lemma ConcatWalks(g: Graph, p: seq<nat>, q: seq<nat>)
    requires IsWalk(g, p) && IsWalk(g, q) && p[|p| - 1] == q[0]
    ensures Joins(g, p + q[1..], p[0], q[|q| - 1])
  {
    var r := p + q[1..];
    forall k | 0 < k < |r| ensures Adjacent(g, r[k - 1], r[k]) {
      if k >= |p| {
        assert r[k] == q[k - |p| + 1];
        assert r[k - 1] == q[k - |p|];
      }
    }
  }

  lemma SubWalk(g: Graph, p: seq<nat>, i: nat, j: nat)
    requires IsWalk(g, p) && i <= j < |p|
    ensures Joins(g, p[i..j + 1], p[i], p[j])
  {
    var r := p[i..j + 1];
    forall k | 0 < k < |r| ensures Adjacent(g, r[k - 1], r[k]) {
      assert r[k - 1] == p[i + k - 1] && r[k] == p[i + k];
    }
  }

  lemma Triangle(g: Graph, a: nat, x: nat, b: nat)
    requires Reachable(g, a, x) && Reachable(g, x, b)
    ensures Reachable(g, a, b)
    ensures Dist(g, a, b) <= Dist(g, a, x) + Dist(g, x, b)
  {
    var p := ShortestWalk(g, a, x);
    var q := ShortestWalk(g, x, b);
    ConcatWalks(g, p, q);
    WalkBoundsDist(g, p + q[1..]);
  }

  lemma SelfDist(g: Graph, a: nat)
    requires a < g.n
    ensures Reachable(g, a, a) && Dist(g, a, a) == 0
  {
    WalkBoundsDist(g, [a]);
  }

  lemma ZeroDist(g: Graph, a: nat, b: nat)
    requires Reachable(g, a, b)
    ensures Dist(g, a, b) == 0 <==> a == b
  {
    var p := ShortestWalk(g, a, b);
    if a == b {
      SelfDist(g, a);
    }
  }

  lemma NeighbourDist(g: Graph, a: nat, b: nat, t: nat)
    requires Valid(g) && Adjacent(g, a, b)
    ensures Reachable(g, a, t) <==> Reachable(g, b, t)
    ensures Reachable(g, a, t) ==> Dist(g, a, t) <= Dist(g, b, t) + 1 && Dist(g, b, t) <= Dist(g, a, t) + 1
  {
    WalkBoundsDist(g, [a, b]);
    WalkBoundsDist(g, [b, a]);
    if Reachable(g, b, t) {
      Triangle(g, a, b, t);
    }
    if Reachable(g, a, t) {
      Triangle(g, b, a, t);
    }
  }

  /** Some neighbour of a lies one hop closer to t. */
  lemma CloserNeighbour(g: Graph, a: nat, t: nat) returns (b: nat)
    requires Valid(g) && Reachable(g, a, t) && a != t
    ensures Adjacent(g, a, b) && Reachable(g, b, t) && Dist(g, b, t) + 1 == Dist(g, a, t)
  {
    var p := ShortestWalk(g, a, t);
    ZeroDist(g, a, t);
    b := p[1];
    SubWalk(g, p, 1, |p| - 1);
    WalkBoundsDist(g, p[1..]);
    NeighbourDist(g, a, b, t);
  }

  // The node ids 0, ..., n - 1.
  ghost function NodeIds(n: nat): (ids: set<nat>)
    ensures |ids| == n
    ensures forall x: nat :: x in ids <==> x < n
  {
    if n == 0 then {} else NodeIds(n - 1) + {n - 1}
  }

  lemma DistinctBound(p: seq<nat>, n: nat)
    requires forall k :: 0 <= k < |p| ==> p[k] < n
    requires forall i, j :: 0 <= i < j < |p| ==> p[i] != p[j]
    ensures |p| <= n
  {
    SeqCardinality(p, |p|);
    SubsetCardinality(set k | 0 <= k < |p| :: p[k], NodeIds(n));
  }

  lemma SeqCardinality(p: seq<nat>, m: nat)
    requires m <= |p|
    requires forall i, j :: 0 <= i < j < |p| ==> p[i] != p[j]
    ensures |set k | 0 <= k < m :: p[k]| == m
  {
    if m > 0 {
      SeqCardinality(p, m - 1);
      assert (set k | 0 <= k < m :: p[k]) == (set k | 0 <= k < m - 1 :: p[k]) + {p[m - 1]};
    }
  }

  lemma SubsetCardinality(s: set<nat>, t: set<nat>)
    requires s <= t
    ensures |s| <= |t|
  {
    if s != {} {
      var x :| x in s;
      SubsetCardinality(s - {x}, t - {x});
    }
  }

  /** A shortest walk visits no node twice, so it has fewer hops than there are nodes. */
  lemma DistBound(g: Graph, a: nat, b: nat)
    requires Reachable(g, a, b)
    ensures Dist(g, a, b) < g.n
  {
    var p := ShortestWalk(g, a, b);
    forall i, j | 0 <= i < j < |p| ensures p[i] != p[j] {
      if p[i] == p[j] {
        SubWalk(g, p, 0, i);
        SubWalk(g, p, j, |p| - 1);
        ConcatWalks(g, p[0..i + 1], p[j..|p|]);
        WalkBoundsDist(g, p[0..i + 1] + p[j..|p|][1..]);
      }
    }
    DistinctBound(p, g.n);
  }

  /** The value for unreachable nodes is taken by no reachable one. */
  lemma UnreachableIff(g: Graph, a: nat, b: nat)
    requires g.n <= MAX_NODES
    ensures Dist(g, a, b) == 100000000 <==> !Reachable(g, a, b)
  {
    if Reachable(g, a, b) {
      DistBound(g, a, b);
    }
  }
}
