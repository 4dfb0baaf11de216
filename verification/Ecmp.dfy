/** All-pairs hop distances by in-place Floyd-Warshall and the ordered next-hop
    lists derived from them (ArbiterEcmpHelper::CalculateGlobalState). */
module Ecmp {
  import opened Integers
  import opened Topology

  // dist is an int32_t array: every sum formed on it is proved to stay in range.
  newtype int32 = x: int | -0x8000_0000 <= x < 0x8000_0000

  const INFINITE: int32 := 100000000

  // ---------- the flat n x n matrix ----------

  function Index(n: nat, i: nat, j: nat): nat { n * i + j }

  lemma IndexRange(n: nat, i: nat, j: nat)
    requires i < n && j < n
    ensures Index(n, i, j) < n * n
  {
    assert n * i + n == n * (i + 1) <= n * n;
  }

  lemma IndexInjective(n: nat, i: nat, j: nat, i': nat, j': nat)
    requires i < n && j < n && i' < n && j' < n
    requires Index(n, i, j) == Index(n, i', j')
    ensures i == i' && j == j'
  {
    assert n * (i - i') == j' - j;
    MultipleGap(i - i', n);
  }

  ghost function At(s: seq<int32>, n: nat, i: nat, j: nat): int
    requires |s| == n * n && i < n && j < n
  {
    IndexRange(n, i, j);
    s[Index(n, i, j)] as int
  }

  lemma Written(s: seq<int32>, n: nat, i: nat, j: nat, v: int32, s': seq<int32>)
    requires |s| == n * n && i < n && j < n
    requires (IndexRange(n, i, j); s' == s[Index(n, i, j) := v])
    ensures |s'| == n * n
    ensures At(s', n, i, j) == v as int
    ensures forall i', j' {:trigger At(s', n, i', j')} :: 0 <= i' < n && 0 <= j' < n && (i', j') != (i, j) ==> At(s', n, i', j') == At(s, n, i', j')
  {
    IndexRange(n, i, j);
    forall i', j' | 0 <= i' < n && 0 <= j' < n && (i', j') != (i, j) ensures At(s', n, i', j') == At(s, n, i', j') {
      IndexRange(n, i', j');
      if Index(n, i', j') == Index(n, i, j) {
        IndexInjective(n, i', j', i, j);
      }
    }
  }

  // ---------- invariants of the three nested loops ----------

  // Every entry is UNREACHABLE or the hop count of some walk.
  ghost predicate Sound(g: Graph, s: seq<int32>) {
    && |s| == g.n * g.n
    && forall i: nat, j: nat :: i < g.n && j < g.n ==>
         && 0 <= At(s, g.n, i, j) <= UNREACHABLE
         && (At(s, g.n, i, j) < UNREACHABLE ==> Hops(g, i, j, At(s, g.n, i, j)))
  }

  // All nodes strictly inside the walk are below k.
  ghost predicate Within(p: seq<nat>, k: nat) {
    forall x :: 0 < x < |p| - 1 ==> p[x] < k
  }

  // No entry exceeds the hop count of any walk whose inner nodes are below k.
  ghost predicate Covers(g: Graph, s: seq<int32>, k: nat)
    requires |s| == g.n * g.n
  {
    forall p :: IsWalk(g, p) && Within(p, k) ==> At(s, g.n, p[0], p[|p| - 1]) <= |p| - 1
  }

  ghost predicate Shrunk(n: nat, s: seq<int32>, s0: seq<int32>)
    requires |s| == |s0| == n * n
  {
    forall i: nat, j: nat :: i < n && j < n ==> At(s, n, i, j) <= At(s0, n, i, j)
  }

  // In phase k the rows before i, and row i up to column j, have been relaxed through k.
  ghost predicate Relaxed(n: nat, s: seq<int32>, s0: seq<int32>, k: nat, i: nat, j: nat)
    requires |s| == |s0| == n * n && k < n
  {
    forall i': nat, j': nat :: i' < n && j' < n && (i' < i || (i' == i && j' < j)) ==>
      At(s, n, i', j') <= At(s0, n, i', k) + At(s0, n, k, j')
  }

  // Setting one entry to the sum of two others, when that is smaller.
  ghost predicate RelaxedEntry(n: nat, s: seq<int32>, s': seq<int32>, i: nat, j: nat, k: nat)
    requires |s| == |s'| == n * n && i < n && j < n && k < n
  {
    var through := At(s, n, i, k) + At(s, n, k, j);
    && At(s', n, i, j) == (if At(s, n, i, j) > through then through else At(s, n, i, j))
    && forall i': nat, j': nat :: i' < n && j' < n && (i', j') != (i, j) ==> At(s', n, i', j') == At(s, n, i', j')
  }

  lemma RelaxKeepsSound(g: Graph, s: seq<int32>, s': seq<int32>, i: nat, j: nat, k: nat)
    requires Sound(g, s) && |s'| == |s| && i < g.n && j < g.n && k < g.n
    requires RelaxedEntry(g.n, s, s', i, j, k)
    ensures Sound(g, s')
  {
    var ik, kj := At(s, g.n, i, k), At(s, g.n, k, j);
    if At(s, g.n, i, j) > ik + kj {
      var p :| Joins(g, p, i, k) && |p| == ik + 1;
      var q :| Joins(g, q, k, j) && |q| == kj + 1;
      ConcatWalks(g, p, q);
      assert Hops(g, i, j, ik + kj);
    }
  }

  // A walk through k splits at its first and last visit to k.
  lemma CoverThrough(g: Graph, s0: seq<int32>, p: seq<nat>, k: nat, f: nat, l: nat)
    requires |s0| == g.n * g.n && k < g.n && IsWalk(g, p) && Covers(g, s0, k) && Within(p, k + 1)
    requires 0 < f <= l < |p| - 1 && p[f] == k == p[l]
    requires forall x :: 0 < x < f || l < x < |p| - 1 ==> p[x] != k
    ensures At(s0, g.n, p[0], k) + At(s0, g.n, k, p[|p| - 1]) <= |p| - 1
  {
    var front, back := p[0..f + 1], p[l..|p| - 1 + 1];
    SubWalk(g, p, 0, f);
    SubWalk(g, p, l, |p| - 1);
    assert Within(front, k);
    assert Within(back, k) by {
      forall x | 0 < x < |back| - 1 ensures back[x] < k {
        assert back[x] == p[l + x];
      }
    }
  }

  lemma CoverWalk(g: Graph, s0: seq<int32>, s: seq<int32>, k: nat, p: seq<nat>)
    requires |s| == |s0| == g.n * g.n && k < g.n
    requires Covers(g, s0, k) && Shrunk(g.n, s, s0) && Relaxed(g.n, s, s0, k, g.n, 0)
    requires IsWalk(g, p) && Within(p, k + 1)
    ensures At(s, g.n, p[0], p[|p| - 1]) <= |p| - 1
  {
    if x :| 0 < x < |p| - 1 && p[x] == k {
      var f := FirstVisit(p, k, x);
      var l := LastVisit(p, k, x);
      CoverThrough(g, s0, p, k, f, l);
    } else {
      assert Within(p, k);
    }
  }

  lemma PhaseExtendsCover(g: Graph, s0: seq<int32>, s: seq<int32>, k: nat)
    requires |s| == |s0| == g.n * g.n && k < g.n
    requires Covers(g, s0, k) && Shrunk(g.n, s, s0) && Relaxed(g.n, s, s0, k, g.n, 0)
    ensures Covers(g, s, k + 1)
  {
    forall p | IsWalk(g, p) && Within(p, k + 1) ensures At(s, g.n, p[0], p[|p| - 1]) <= |p| - 1 {
      CoverWalk(g, s0, s, k, p);
    }
  }

  lemma FirstVisit(p: seq<nat>, k: nat, x: nat) returns (f: nat)
    requires 0 < x < |p| && p[x] == k
    ensures 0 < f <= x && p[f] == k
    ensures forall y :: 0 < y < f ==> p[y] != k
  {
    if y :| 0 < y < x && p[y] == k {
      f := FirstVisit(p, k, y);
    } else {
      f := x;
    }
  }

  lemma LastVisit(p: seq<nat>, k: nat, f: nat) returns (l: nat)
    requires 0 < f < |p| - 1 && p[f] == k
    ensures f <= l < |p| - 1 && p[l] == k
    ensures forall x :: l < x < |p| - 1 ==> p[x] != k
    decreases |p| - f
  {
    if x :| f < x < |p| - 1 && p[x] == k {
      l := LastVisit(p, k, x);
    } else {
      l := f;
    }
  }

  // After the last phase every walk is covered, so every entry is the distance.
  lemma SoundAndCovering(g: Graph, s: seq<int32>)
    requires Valid(g) && g.n <= MAX_NODES && Sound(g, s) && Covers(g, s, g.n)
    ensures forall i: nat, j: nat :: i < g.n && j < g.n ==> At(s, g.n, i, j) == Dist(g, i, j)
  {
    forall i: nat, j: nat | i < g.n && j < g.n ensures At(s, g.n, i, j) == Dist(g, i, j) {
      if Reachable(g, i, j) {
        DistBound(g, i, j);
        var p := ShortestWalk(g, i, j);
        assert Within(p, g.n);
      }
    }
  }

  // ---------- the matrix before the first phase ----------

  ghost predicate Linked(edges: seq<(nat, nat)>, m: nat, i: nat, j: nat)
    requires m <= |edges|
  {
    exists x :: 0 <= x < m && (edges[x] == (i, j) || edges[x] == (j, i))
  }

  ghost predicate Initial(g: Graph, s: seq<int32>, m: nat)
    requires m <= |g.edges|
  {
    && |s| == g.n * g.n
    && forall i: nat, j: nat :: i < g.n && j < g.n ==>
         At(s, g.n, i, j) == if i == j then 0 else if Linked(g.edges, m, i, j) then 1 else UNREACHABLE
  }

  lemma InnerNode(p: seq<nat>, k: nat)
    requires |p| > 2 && Within(p, k)
    ensures k > 0
  {
    var inner := p[1];
  }

  lemma InitialIsSound(g: Graph, s: seq<int32>)
    requires Valid(g) && Initial(g, s, |g.edges|)
    ensures Sound(g, s) && Covers(g, s, 0)
  {
    forall i: nat, j: nat | i < g.n && j < g.n && At(s, g.n, i, j) < UNREACHABLE
      ensures Hops(g, i, j, At(s, g.n, i, j))
    {
      if i == j {
        assert Joins(g, [i], i, j);
      } else {
        assert Joins(g, [i, j], i, j);
      }
    }
    forall p | IsWalk(g, p) && Within(p, 0) ensures At(s, g.n, p[0], p[|p| - 1]) <= |p| - 1 {
      if |p| == 2 {
        assert Adjacent(g, p[0], p[1]);
      } else if |p| > 2 {
        InnerNode(p, 0);
      }
    }
  }

  ghost predicate Cleared(n: nat, s: seq<int32>, i: nat, j: nat) {
    && |s| == n * n
    && forall i': nat, j': nat :: i' < n && j' < n && (i' < i || (i' == i && j' < j)) ==>
         At(s, n, i', j') == if i' == j' then 0 else UNREACHABLE
  }

  method InitialDistances(g: Graph) returns (dist: array<int32>)
    requires Valid(g)
    ensures fresh(dist) && Initial(g, dist[..], |g.edges|)
  {
    var n := g.n;
    dist := new int32[n * n];
    for i := 0 to n
      invariant Cleared(n, dist[..], i, 0)
    {
      for j := 0 to n
        invariant Cleared(n, dist[..], i, j)
      {
        ghost var s := dist[..];
        IndexRange(n, i, j);
        dist[Index(n, i, j)] := if i == j then 0 else INFINITE;
        Written(s, n, i, j, if i == j then 0 else INFINITE, dist[..]);
      }
    }
    for m := 0 to |g.edges|
      invariant Initial(g, dist[..], m)
    {
      var (a, b) := g.edges[m];
      ghost var s := dist[..];
      IndexRange(n, a, b);
      dist[Index(n, a, b)] := 1;
      Written(s, n, a, b, 1, dist[..]);
      ghost var s1 := dist[..];
      IndexRange(n, b, a);
      dist[Index(n, b, a)] := 1;
      Written(s1, n, b, a, 1, dist[..]);
      LinkEdge(g, s, dist[..], m);
    }
  }

  lemma LinkEdge(g: Graph, s: seq<int32>, s': seq<int32>, m: nat)
    requires Valid(g) && m < |g.edges| && Initial(g, s, m) && |s'| == |s|
    requires At(s', g.n, g.edges[m].0, g.edges[m].1) == 1 == At(s', g.n, g.edges[m].1, g.edges[m].0)
    requires forall i: nat, j: nat :: i < g.n && j < g.n && (i, j) != g.edges[m] && (j, i) != g.edges[m] ==>
               At(s', g.n, i, j) == At(s, g.n, i, j)
    ensures Initial(g, s', m + 1)
  {
    forall i: nat, j: nat | i < g.n && j < g.n
      ensures At(s', g.n, i, j) == if i == j then 0 else if Linked(g.edges, m + 1, i, j) then 1 else UNREACHABLE
    {
      if (i, j) != g.edges[m] && (j, i) != g.edges[m] {
        assert Linked(g.edges, m + 1, i, j) <==> Linked(g.edges, m, i, j);
      } else {
        assert Linked(g.edges, m + 1, i, j);
      }
    }
  }

  // The innermost statement.
  method Relax(g: Graph, dist: array<int32>, i: nat, j: nat, k: nat)
    requires dist.Length == g.n * g.n && i < g.n && j < g.n && k < g.n && Sound(g, dist[..])
    modifies dist
    ensures RelaxedEntry(g.n, old(dist[..]), dist[..], i, j, k)
  {
    var n := g.n;
    ghost var s := dist[..];
    IndexRange(n, i, j);
    IndexRange(n, i, k);
    IndexRange(n, k, j);
    assert 0 <= At(s, n, i, k) <= UNREACHABLE && 0 <= At(s, n, k, j) <= UNREACHABLE;
    if dist[Index(n, i, j)] > dist[Index(n, i, k)] + dist[Index(n, k, j)] {
      dist[Index(n, i, j)] := dist[Index(n, i, k)] + dist[Index(n, k, j)];
      Written(s, n, i, j, s[Index(n, i, k)] + s[Index(n, k, j)], dist[..]);
    }
  }

  /** The in-place triple loop. Entries of row and column k may already have been
      lowered when they are read in phase k; that never does harm. */
  method ShortestPaths(g: Graph) returns (dist: array<int32>)
    requires Valid(g) && g.n <= MAX_NODES
    ensures fresh(dist) && dist.Length == g.n * g.n
    ensures forall i: nat, j: nat :: i < g.n && j < g.n ==> At(dist[..], g.n, i, j) == Dist(g, i, j)
  {
    var n := g.n;
    dist := InitialDistances(g);
    InitialIsSound(g, dist[..]);
    for k := 0 to n
      invariant Sound(g, dist[..]) && Covers(g, dist[..], k)
    {
      ghost var s0 := dist[..];
      for i := 0 to n
        invariant Sound(g, dist[..]) && Shrunk(n, dist[..], s0) && Relaxed(n, dist[..], s0, k, i, 0)
      {
        for j := 0 to n
          invariant Sound(g, dist[..]) && Shrunk(n, dist[..], s0) && Relaxed(n, dist[..], s0, k, i, j)
        {
          ghost var s := dist[..];
          Relax(g, dist, i, j, k);
          RelaxKeepsSound(g, s, dist[..], i, j, k);
          RelaxAdvances(n, s0, s, dist[..], i, j, k);
        }
      }
      PhaseExtendsCover(g, s0, dist[..], k);
    }
    SoundAndCovering(g, dist[..]);
  }

  lemma RelaxAdvances(n: nat, s0: seq<int32>, s: seq<int32>, s': seq<int32>, i: nat, j: nat, k: nat)
    requires |s0| == |s| == |s'| == n * n && i < n && j < n && k < n
    requires Shrunk(n, s, s0) && Relaxed(n, s, s0, k, i, j) && RelaxedEntry(n, s, s', i, j, k)
    ensures Shrunk(n, s', s0) && Relaxed(n, s', s0, k, i, j + 1)
  {
  }

  // ---------- next-hop candidate lists ----------

  // What edge e contributes to the list of node a towards destination t.
  ghost function Offer(g: Graph, e: (nat, nat), a: nat, t: nat): seq<nat> {
    (if e.0 == a && Dist(g, a, t) - 1 == Dist(g, e.1, t) then [e.1] else []) +
    (if e.1 == a && Dist(g, a, t) - 1 == Dist(g, e.0, t) then [e.0] else [])
  }

  // The list after the first m edges.
  ghost function Offers(g: Graph, m: nat, a: nat, t: nat): seq<nat>
    requires m <= |g.edges|
  {
    if m == 0 then [] else Offers(g, m - 1, a, t) + Offer(g, g.edges[m - 1], a, t)
  }

  ghost function Candidates(g: Graph, a: nat, t: nat): seq<nat> {
    Offers(g, |g.edges|, a, t)
  }

  // b is a neighbour of a on a shortest path from a to t.
  ghost predicate OnShortestPath(g: Graph, a: nat, b: nat, t: nat) {
    Adjacent(g, a, b) && Reachable(g, a, t) && Dist(g, a, t) == 1 + Dist(g, b, t)
  }

  // Both directions of edge m for destination j.
  method OfferEdge(g: Graph, dist: array<int32>, candidates: array2<seq<nat>>, m: nat, j: nat)
    requires Valid(g) && m < |g.edges| && j < g.n && dist.Length == g.n * g.n
    requires forall i: nat, t: nat :: i < g.n && t < g.n ==> At(dist[..], g.n, i, t) == Dist(g, i, t)
    requires candidates.Length0 == candidates.Length1 == g.n
    modifies candidates
    ensures forall x: nat, t: nat :: x < g.n && t < g.n ==>
      candidates[x, t] == old(candidates[x, t]) + if t == j then Offer(g, g.edges[m], x, t) else []
  {
    var (a, b) := g.edges[m];
    var n := g.n;
    IndexRange(n, a, j);
    IndexRange(n, b, j);
    assert At(dist[..], n, a, j) == Dist(g, a, j) && At(dist[..], n, b, j) == Dist(g, b, j);
    if dist[Index(n, a, j)] - 1 == dist[Index(n, b, j)] {
      candidates[a, j] := candidates[a, j] + [b];
    }
    if dist[Index(n, b, j)] - 1 == dist[Index(n, a, j)] {
      candidates[b, j] := candidates[b, j] + [a];
    }
  }

  // After the first m edges.
  ghost predicate Holds(g: Graph, candidates: array2<seq<nat>>, m: nat)
    requires m <= |g.edges|
    reads candidates
  {
    && candidates.Length0 == candidates.Length1 == g.n
    && forall a: nat, t: nat :: a < g.n && t < g.n ==> candidates[a, t] == Offers(g, m, a, t)
  }

  // One edge for all destinations.
  method OfferToAll(g: Graph, dist: array<int32>, candidates: array2<seq<nat>>, m: nat)
    requires Valid(g) && m < |g.edges| && dist.Length == g.n * g.n
    requires forall i: nat, t: nat :: i < g.n && t < g.n ==> At(dist[..], g.n, i, t) == Dist(g, i, t)
    requires candidates.Length0 == candidates.Length1 == g.n
    modifies candidates
    ensures forall x: nat, t: nat :: x < g.n && t < g.n ==>
      candidates[x, t] == old(candidates[x, t]) + Offer(g, g.edges[m], x, t)
    ensures dist[..] == old(dist[..])
  {
    var n := g.n;
    ghost var distances := dist[..];
    for j := 0 to n
      invariant dist[..] == distances
      invariant forall x: nat, t: nat :: x < n && t < n ==>
        candidates[x, t] == old(candidates[x, t]) + if t < j then Offer(g, g.edges[m], x, t) else []
    {
      OfferEdge(g, dist, candidates, m, j);
    }
  }

  method CalculateGlobalState(g: Graph) returns (ok: bool, candidates: array2<seq<nat>>)
    requires Valid(g)
    ensures ok <==> g.n <= 40000
    ensures ok ==> candidates.Length0 == candidates.Length1 == g.n
    ensures ok ==> forall a: nat, t: nat :: a < g.n && t < g.n ==> candidates[a, t] == Candidates(g, a, t)
  {
    var n := g.n;
    if n > MAX_NODES {
      candidates := new seq<nat>[0, 0];
      return false, candidates;
    }
    var dist := ShortestPaths(g);
    ghost var distances := dist[..];
    candidates := new seq<nat>[n, n]((_, _) => []);
    for m := 0 to |g.edges|
      invariant dist[..] == distances
      invariant Holds(g, candidates, m)
    {
      OfferToAll(g, dist, candidates, m);
    }
    return true, candidates;
  }

  // ---------- what the lists mean ----------

  lemma OfferMeans(g: Graph, e: (nat, nat), a: nat, b: nat, t: nat)
    requires Valid(g) && g.n <= MAX_NODES && e in g.edges
    ensures b in Offer(g, e, a, t) <==> (e == (a, b) || e == (b, a)) && OnShortestPath(g, a, b, t)
  {
    if e == (a, b) || e == (b, a) {
      NeighbourDist(g, a, b, t);
      if Reachable(g, b, t) {
        DistBound(g, b, t);
      }
    }
  }

  /** The list for (a, t) holds exactly the neighbours of a on a shortest path to t. */
  lemma CandidateIff(g: Graph, a: nat, b: nat, t: nat)
    requires Valid(g) && g.n <= MAX_NODES
    ensures b in Candidates(g, a, t) <==> OnShortestPath(g, a, b, t)
  {
    var blocks := OfferBlocks(g, |g.edges|, a, t);
    OffersAreBlocks(g, |g.edges|, a, t);
    FlatMember(blocks, b);
    if OnShortestPath(g, a, b, t) {
      var x :| 0 <= x < |g.edges| && (g.edges[x] == (a, b) || g.edges[x] == (b, a));
      OfferMeans(g, g.edges[x], a, b, t);
      assert b in blocks[x];
    }
    if b in Candidates(g, a, t) {
      var x :| 0 <= x < |blocks| && b in blocks[x];
      OfferMeans(g, g.edges[x], a, b, t);
    }
  }

  // One block after the other.
  ghost function Flat(blocks: seq<seq<nat>>): seq<nat> {
    if blocks == [] then [] else Flat(blocks[..|blocks| - 1]) + blocks[|blocks| - 1]
  }

  ghost function OfferBlocks(g: Graph, m: nat, a: nat, t: nat): seq<seq<nat>>
    requires m <= |g.edges|
  {
    seq(m, x requires 0 <= x < |g.edges| => Offer(g, g.edges[x], a, t))
  }

  lemma {:induction false} OffersAreBlocks(g: Graph, m: nat, a: nat, t: nat)
    requires m <= |g.edges|
    ensures Offers(g, m, a, t) == Flat(OfferBlocks(g, m, a, t))
  {
    if m > 0 {
      OffersAreBlocks(g, m - 1, a, t);
      assert OfferBlocks(g, m, a, t)[..m - 1] == OfferBlocks(g, m - 1, a, t);
    }
  }

  lemma {:induction false} FlatMember(blocks: seq<seq<nat>>, b: nat)
    ensures b in Flat(blocks) <==> exists x :: 0 <= x < |blocks| && b in blocks[x]
  {
    if blocks != [] {
      var m := |blocks| - 1;
      FlatMember(blocks[..m], b);
      assert b in Flat(blocks) <==> b in Flat(blocks[..m]) || b in blocks[m];
      if x :| 0 <= x < |blocks| && b in blocks[x] && x < m {
        assert b in blocks[..m][x];
      }
    }
  }

  /** There is no next hop only at the destination itself or when it cannot be reached. */
  lemma NoCandidateIff(g: Graph, a: nat, t: nat)
    requires Valid(g) && g.n <= MAX_NODES && a < g.n && t < g.n
    ensures Candidates(g, a, t) == [] <==> a == t || !Reachable(g, a, t)
  {
    if a != t && Reachable(g, a, t) {
      var b := CloserNeighbour(g, a, t);
      CandidateIff(g, a, b, t);
    } else if Candidates(g, a, t) != [] {
      CandidateIff(g, a, Candidates(g, a, t)[0], t);
      SelfDist(g, a);
    }
  }

  predicate EdgeJoins(e: (nat, nat), a: nat, b: nat) { e == (a, b) || e == (b, a) }

  // Number of the first m edges that join a and b.
  ghost function LinkCount(g: Graph, m: nat, a: nat, b: nat): nat
    requires m <= |g.edges|
  {
    if m == 0 then 0
    else LinkCount(g, m - 1, a, b) + if EdgeJoins(g.edges[m - 1], a, b) then 1 else 0
  }

  lemma OfferCount(g: Graph, e: (nat, nat), a: nat, b: nat, t: nat)
    requires Valid(g) && g.n <= MAX_NODES && e in g.edges
    ensures multiset(Offer(g, e, a, t))[b] == if EdgeJoins(e, a, b) && OnShortestPath(g, a, b, t) then 1 else 0
  {
    OfferMeans(g, e, a, b, t);
    OfferSize(g, e, a, t);
    AtMostOne(Offer(g, e, a, t), b);
  }

  lemma AtMostOne(o: seq<nat>, b: nat)
    requires |o| <= 1
    ensures multiset(o)[b] == if b in o then 1 else 0
  {
    assert o == [] || o == [o[0]];
  }

  // An edge offers one next hop at most.
  lemma OfferSize(g: Graph, e: (nat, nat), a: nat, t: nat)
    requires Valid(g) && e in g.edges
    ensures var o := Offer(g, e, a, t); |o| <= 1 && (o != [] ==> EdgeJoins(e, a, o[0]))
  {
  }

  // Edge x lists b once if it leads there and b is wanted, and otherwise not.
  ghost predicate OfferedOnce(g: Graph, x: nat, a: nat, b: nat, t: nat, wanted: bool)
    requires x < |g.edges|
  {
    multiset(Offer(g, g.edges[x], a, t))[b] == if EdgeJoins(g.edges[x], a, b) && wanted then 1 else 0
  }

  lemma {:induction false} OffersCount(g: Graph, m: nat, a: nat, b: nat, t: nat, wanted: bool)
    requires m <= |g.edges| && forall x :: 0 <= x < |g.edges| ==> OfferedOnce(g, x, a, b, t, wanted)
    ensures multiset(Offers(g, m, a, t))[b] == if wanted then LinkCount(g, m, a, b) else 0
  {
    if m > 0 {
      var x := m - 1;
      OffersCount(g, x, a, b, t, wanted);
      OneMoreCounted(g, x, m, a, b, t, wanted);
    }
  }

  lemma OneMoreCounted(g: Graph, x: nat, m: nat, a: nat, b: nat, t: nat, wanted: bool)
    requires m == x + 1 <= |g.edges| && OfferedOnce(g, x, a, b, t, wanted)
    requires multiset(Offers(g, x, a, t))[b] == if wanted then LinkCount(g, x, a, b) else 0
    ensures multiset(Offers(g, m, a, t))[b] == if wanted then LinkCount(g, m, a, b) else 0
  {
    CountAppend(Offers(g, x, a, t), Offer(g, g.edges[x], a, t), b);
  }

  lemma CountAppend(s: seq<nat>, o: seq<nat>, b: nat)
    ensures multiset(s + o)[b] == multiset(s)[b] + multiset(o)[b]
  {
  }

  /** A neighbour on a shortest path is listed once for every edge that leads to it, any other
      node not at all. */
  lemma CandidateCount(g: Graph, a: nat, b: nat, t: nat)
    requires Valid(g) && g.n <= MAX_NODES
    ensures multiset(Candidates(g, a, t))[b] == if OnShortestPath(g, a, b, t) then LinkCount(g, |g.edges|, a, b) else 0
  {
    forall x | 0 <= x < |g.edges| ensures OfferedOnce(g, x, a, b, t, OnShortestPath(g, a, b, t)) {
      OfferCount(g, g.edges[x], a, b, t);
    }
    OffersCount(g, |g.edges|, a, b, t, OnShortestPath(g, a, b, t));
  }

  // Entry i of the list comes from edge xs[i], and the edges are in their own order.
  ghost predicate InEdgeOrder(g: Graph, a: nat, list: seq<nat>, xs: seq<nat>) {
    && |xs| == |list|
    && (forall i :: 0 <= i < |xs| ==> xs[i] < |g.edges| && EdgeJoins(g.edges[xs[i]], a, list[i]))
    && (forall i, j :: 0 <= i < j < |xs| ==> xs[i] < xs[j])
  }

  lemma {:induction false} OffersInEdgeOrder(g: Graph, m: nat, a: nat, t: nat) returns (xs: seq<nat>)
    requires Valid(g) && g.n <= MAX_NODES && m <= |g.edges|
    ensures InEdgeOrder(g, a, Offers(g, m, a, t), xs)
    ensures forall i :: 0 <= i < |xs| ==> xs[i] < m
  {
    xs := [];
    if m > 0 {
      var before := OffersInEdgeOrder(g, m - 1, a, t);
      xs := OneMoreInOrder(g, m - 1, a, t, Offers(g, m - 1, a, t), before);
    }
  }

  lemma OneMoreInOrder(g: Graph, m: nat, a: nat, t: nat, list: seq<nat>, xs: seq<nat>) returns (more: seq<nat>)
    requires Valid(g) && g.n <= MAX_NODES && m < |g.edges|
    requires InEdgeOrder(g, a, list, xs) && forall i :: 0 <= i < |xs| ==> xs[i] < m
    ensures InEdgeOrder(g, a, list + Offer(g, g.edges[m], a, t), more)
    ensures forall i :: 0 <= i < |more| ==> more[i] <= m
  {
    var o := Offer(g, g.edges[m], a, t);
    OfferSize(g, g.edges[m], a, t);
    if o == [] {
      assert list + o == list;
      more := xs;
    } else {
      assert o == [o[0]];
      more := xs + [m];
    }
  }

  /** The entries of a list come from different edges, in the order of the edges. */
  lemma CandidatesInEdgeOrder(g: Graph, a: nat, t: nat) returns (xs: seq<nat>)
    requires Valid(g) && g.n <= MAX_NODES
    ensures InEdgeOrder(g, a, Candidates(g, a, t), xs)
  {
    xs := OffersInEdgeOrder(g, |g.edges|, a, t);
  }

  // No two edges join the same nodes.
  ghost predicate Simple(g: Graph) {
    forall x, y :: 0 <= x < y < |g.edges| ==> g.edges[x] != g.edges[y] && g.edges[x] != (g.edges[y].1, g.edges[y].0)
  }

  /** Without parallel edges no next hop is listed twice. */
  lemma CandidatesDiffer(g: Graph, a: nat, t: nat, i: nat, j: nat)
    requires Valid(g) && g.n <= MAX_NODES && Simple(g)
    requires i < j < |Candidates(g, a, t)|
    ensures Candidates(g, a, t)[i] != Candidates(g, a, t)[j]
  {
    var xs := CandidatesInEdgeOrder(g, a, t);
    assert xs[i] < xs[j];
  }

  // Every hop goes to some candidate of the node it leaves.
  ghost predicate FollowsCandidates(g: Graph, p: seq<nat>, t: nat) {
    && |p| > 0 && p[0] < g.n
    && forall k :: 0 < k < |p| ==> p[k] in Candidates(g, p[k - 1], t)
  }

  /** Whatever candidate is taken at each hop, after k hops k less remain: the walk can
      always go on until it has made exactly Dist hops, and then it stands at t. */
  lemma {:induction false} AnyCandidateWalkArrives(g: Graph, p: seq<nat>, t: nat)
    requires Valid(g) && g.n <= MAX_NODES && t < g.n
    requires FollowsCandidates(g, p, t) && Reachable(g, p[0], t)
    ensures Reachable(g, p[|p| - 1], t) && Dist(g, p[|p| - 1], t) == Dist(g, p[0], t) - (|p| - 1)
    ensures p[|p| - 1] == t <==> |p| - 1 == Dist(g, p[0], t)
    ensures Candidates(g, p[|p| - 1], t) == [] <==> p[|p| - 1] == t
    decreases |p|
  {
    var q := p[..|p| - 1];
    var last := p[|p| - 1];
    if |p| > 1 {
      AnyCandidateWalkArrives(g, q, t);
      CandidateIff(g, p[|p| - 2], last, t);
      NeighbourDist(g, p[|p| - 2], last, t);
      EdgeInRange(g, p[|p| - 2], last);
    }
    ZeroDist(g, last, t);
    NoCandidateIff(g, last, t);
  }

  lemma EdgeInRange(g: Graph, a: nat, b: nat)
    requires Valid(g) && Adjacent(g, a, b)
    ensures a < g.n && b < g.n && a != b
  {
  }

  // The first element comes from the first block that has one.
  lemma {:induction false} FirstBlock(blocks: seq<seq<nat>>) returns (x: nat)
    requires Flat(blocks) != []
    ensures x < |blocks| && blocks[x] != [] && Flat(blocks)[0] == blocks[x][0]
    ensures forall y :: 0 <= y < x ==> blocks[y] == []
  {
    var m := |blocks| - 1;
    if Flat(blocks[..m]) != [] {
      x := FirstBlock(blocks[..m]);
      forall y | 0 <= y < x ensures blocks[y] == [] {
        assert blocks[y] == blocks[..m][y];
      }
    } else {
      x := m;
      forall y | 0 <= y < m ensures blocks[y] == [] {
        EmptyBlock(blocks[..m], y);
      }
    }
  }

  lemma {:induction false} EmptyBlock(blocks: seq<seq<nat>>, y: nat)
    requires Flat(blocks) == [] && y < |blocks|
    ensures blocks[y] == []
  {
    var m := |blocks| - 1;
    if y < m {
      EmptyBlock(blocks[..m], y);
    }
  }

  // The first candidate comes from the earliest edge that offers one.
  lemma FirstOffer(g: Graph, a: nat, t: nat) returns (x: nat)
    requires Valid(g) && Candidates(g, a, t) != []
    ensures x < |g.edges| && Candidates(g, a, t)[0] in Offer(g, g.edges[x], a, t)
    ensures forall y :: 0 <= y < x ==> Offer(g, g.edges[y], a, t) == []
  {
    var blocks := OfferBlocks(g, |g.edges|, a, t);
    OffersAreBlocks(g, |g.edges|, a, t);
    x := FirstBlock(blocks);
    forall y | 0 <= y < x ensures Offer(g, g.edges[y], a, t) == [] {
      assert blocks[y] == [];
    }
  }

  /** Two destinations whose first candidates also lie on a shortest path to the other
      destination have the same first candidate: both lists are filled in edge order. */
  lemma FirstCandidatesAgree(g: Graph, a: nat, t1: nat, t2: nat)
    requires Valid(g) && g.n <= MAX_NODES
    requires Candidates(g, a, t1) != [] && Candidates(g, a, t2) != []
    requires OnShortestPath(g, a, Candidates(g, a, t1)[0], t2)
    requires OnShortestPath(g, a, Candidates(g, a, t2)[0], t1)
    ensures Candidates(g, a, t1)[0] == Candidates(g, a, t2)[0]
  {
    var b1, b2 := Candidates(g, a, t1)[0], Candidates(g, a, t2)[0];
    var x1 := FirstOffer(g, a, t1);
    var x2 := FirstOffer(g, a, t2);
    OfferMeans(g, g.edges[x1], a, b1, t1);
    OfferMeans(g, g.edges[x1], a, b1, t2);
    OfferMeans(g, g.edges[x2], a, b2, t2);
    OfferMeans(g, g.edges[x2], a, b2, t1);
    assert x1 == x2;
  }
}
