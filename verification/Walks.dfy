/** First-candidate walks from a source to its multicast members, and why the union
    of those walks is a tree. */
module Walks {
  import opened Topology
  import opened Ecmp

  ghost predicate Routable(g: Graph, s: nat, t: nat) {
    Valid(g) && g.n <= MAX_NODES && s < g.n && t < g.n && Reachable(g, s, t)
  }

  lemma FirstHop(g: Graph, s: nat, t: nat)
    requires Routable(g, s, t) && s != t
    ensures Candidates(g, s, t) != []
    ensures var b := Candidates(g, s, t)[0];
      Adjacent(g, s, b) && Routable(g, b, t) && Dist(g, s, t) == 1 + Dist(g, b, t)
  {
    NoCandidateIff(g, s, t);
    var b := Candidates(g, s, t)[0];
    CandidateIff(g, s, b, t);
    NeighbourDist(g, s, b, t);
    EdgeInRange(g, s, b);
  }

  /** The walk that always takes the first candidate. */
  ghost function Path(g: Graph, s: nat, t: nat): (p: seq<nat>)
    requires Routable(g, s, t)
    ensures |p| > 0 && p[0] == s
    decreases Dist(g, s, t)
  {
    if s == t then [s]
    else
      FirstHop(g, s, t);
      [s] + Path(g, Candidates(g, s, t)[0], t)
  }

  /** It is a shortest walk, and every node on it splits it into two shortest walks. */
  lemma {:induction false} PathIsShortest(g: Graph, s: nat, t: nat)
    requires Routable(g, s, t)
    ensures Joins(g, Path(g, s, t), s, t) && |Path(g, s, t)| == Dist(g, s, t) + 1
    decreases Dist(g, s, t)
  {
    SelfDist(g, s);
    if s != t {
      FirstHop(g, s, t);
      PathIsShortest(g, Candidates(g, s, t)[0], t);
    }
  }

  lemma PathSplits(g: Graph, s: nat, t: nat, i: nat)
    requires Routable(g, s, t) && i < |Path(g, s, t)|
    ensures var x := Path(g, s, t)[i];
      Routable(g, s, x) && Routable(g, x, t) && Dist(g, s, x) == i && Dist(g, x, t) == Dist(g, s, t) - i
  {
    var p := Path(g, s, t);
    PathIsShortest(g, s, t);
    SubWalk(g, p, 0, i);
    SubWalk(g, p, i, |p| - 1);
    WalkBoundsDist(g, p[0..i + 1]);
    WalkBoundsDist(g, p[i..|p| - 1 + 1]);
    Triangle(g, s, p[i], t);
  }

  // When a walk to t1 meets x after its first hop, that hop is also good for any t2
  // with x on a shortest path from s.
  lemma HopServesBoth(g: Graph, s: nat, t1: nat, t2: nat, i: nat)
    requires Routable(g, s, t1) && Routable(g, s, t2) && 0 < i < |Path(g, s, t1)|
    requires Routable(g, Path(g, s, t1)[i], t2)
    requires Dist(g, s, t2) == i + Dist(g, Path(g, s, t1)[i], t2)
    ensures s != t1 && Candidates(g, s, t1) != []
    ensures OnShortestPath(g, s, Candidates(g, s, t1)[0], t2)
  {
    FirstHop(g, s, t1);
    PathSplits(g, s, t1, i);
    PathSplits(g, Candidates(g, s, t1)[0], t1, i - 1);
    ShortcutThrough(g, s, Candidates(g, s, t1)[0], Path(g, s, t1)[i], t2, i);
  }

  lemma FirstHopsAgree(g: Graph, s: nat, t1: nat, t2: nat, i: nat)
    requires Routable(g, s, t1) && Routable(g, s, t2)
    requires 0 < i < |Path(g, s, t1)| && i < |Path(g, s, t2)| && Path(g, s, t1)[i] == Path(g, s, t2)[i]
    ensures s != t1 && s != t2 && Path(g, s, t1)[1] == Path(g, s, t2)[1]
  {
    PathSplits(g, s, t1, i);
    PathSplits(g, s, t2, i);
    HopServesBoth(g, s, t1, t2, i);
    HopServesBoth(g, s, t2, t1, i);
    FirstCandidatesAgree(g, s, t1, t2);
  }

  /** Two first-candidate walks from one source that meet have come the same way. */
  lemma {:induction false} WalksAgree(g: Graph, s: nat, t1: nat, t2: nat, i: nat, j: nat)
    requires Routable(g, s, t1) && Routable(g, s, t2)
    requires i < |Path(g, s, t1)| && j < |Path(g, s, t2)| && Path(g, s, t1)[i] == Path(g, s, t2)[j]
    ensures i == j && Path(g, s, t1)[..i + 1] == Path(g, s, t2)[..j + 1]
    decreases i
  {
    PathSplits(g, s, t1, i);
    PathSplits(g, s, t2, j);
    if i > 0 {
      FirstHopsAgree(g, s, t1, t2, i);
      FirstHop(g, s, t1);
      FirstHop(g, s, t2);
      var b := Path(g, s, t1)[1];
      assert Path(g, s, t1) == [s] + Path(g, b, t1) && Path(g, s, t2) == [s] + Path(g, b, t2);
      WalksAgree(g, b, t1, t2, i - 1, i - 1);
      assert Path(g, s, t1)[..i + 1] == [s] + Path(g, b, t1)[..i];
      assert Path(g, s, t2)[..i + 1] == [s] + Path(g, b, t2)[..i];
    }
  }

  // A neighbour b of s one hop closer to x is also one hop closer to any t that
  // has x on a shortest path from s.
  lemma ShortcutThrough(g: Graph, s: nat, b: nat, x: nat, t: nat, i: nat)
    requires Routable(g, s, t) && Routable(g, s, x) && Routable(g, x, t)
    requires Adjacent(g, s, b)
    requires Dist(g, s, x) == i && Dist(g, s, t) == i + Dist(g, x, t) && Dist(g, b, x) + 1 == i
    ensures OnShortestPath(g, s, b, t)
  {
    NeighbourDist(g, s, b, x);
    Triangle(g, b, x, t);
    NeighbourDist(g, s, b, t);
  }

  // How the loop over a walk goes on.
  lemma {:induction false} PathStep(g: Graph, s: nat, t: nat, i: nat)
    requires Routable(g, s, t) && i < |Path(g, s, t)|
    ensures Path(g, s, t)[i] == t <==> i == |Path(g, s, t)| - 1
    ensures Path(g, s, t)[i] != t ==>
      var c := Candidates(g, Path(g, s, t)[i], t);
      i + 1 < |Path(g, s, t)| && c != [] && Path(g, s, t)[i + 1] == c[0]
    decreases i
  {
    if s != t {
      FirstHop(g, s, t);
      if i > 0 {
        PathStep(g, Candidates(g, s, t)[0], t, i - 1);
      }
    }
  }

  lemma PathInRange(g: Graph, s: nat, t: nat, i: nat)
    requires Routable(g, s, t) && i < |Path(g, s, t)|
    ensures Path(g, s, t)[i] < g.n
  {
    PathIsShortest(g, s, t);
  }
}
