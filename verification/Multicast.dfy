/** Multicast route computation (ArbiterMulticastHelper::CalGlobalMulticastState): every
    node on a first-candidate walk from the source to a member gets the set of its
    outgoing interfaces and one incoming interface. */
module Multicast {
  import opened Topology
  import opened Ecmp
  import opened Walks

  type Interface = nat

  // An interface address is identified by its node and interface index.
  datatype Route = Route(origin: (nat, Interface), group: nat, iif: Interface, oifs: set<Interface>)

  datatype Request = Request(id: nat, src: nat, members: set<nat>)

  // nbrIf[a][b] is the interface of node a on its link to b (0, the loop-back, for non-neighbours).
  datatype Net = Net(g: Graph, nbrIf: seq<seq<Interface>>)

  ghost predicate Square(net: Net) {
    |net.nbrIf| == net.g.n && forall a: nat :: a < net.g.n ==> |net.nbrIf[a]| == net.g.n
  }

  ghost predicate ValidNet(net: Net) {
    && Valid(net.g) && net.g.n <= MAX_NODES && Square(net)
    && (forall a: nat, b: nat :: a < net.g.n && b < net.g.n && Adjacent(net.g, a, b) ==> net.nbrIf[a][b] != 0)
    && (forall a: nat, b: nat, c: nat ::
          a < net.g.n && b < net.g.n && c < net.g.n && Adjacent(net.g, a, b) && Adjacent(net.g, a, c) && b != c ==>
            net.nbrIf[a][b] != net.nbrIf[a][c])
  }

  ghost predicate ValidRequest(net: Net, req: Request) {
    ValidNet(net) && req.src < net.g.n && forall d :: d in req.members ==> Routable(net.g, req.src, d)
  }

  // ---------- the tree of a request ----------

  ghost function LinkInto(p: seq<nat>, i: nat): (nat, nat)
    requires 0 < i < |p|
  {
    (p[i - 1], p[i])
  }

  ghost function WalkLinks(p: seq<nat>): set<(nat, nat)> {
    set i | 0 < i < |p| :: LinkInto(p, i)
  }

  // The directed links used by the walks from s to the given members.
  ghost function Links(g: Graph, s: nat, members: set<nat>): set<(nat, nat)>
    requires forall d :: d in members ==> Routable(g, s, d)
  {
    set d, i | d in members && 0 < i < |Path(g, s, d)| :: LinkInto(Path(g, s, d), i)
  }

  lemma LinkWitness(g: Graph, s: nat, members: set<nat>, v: nat, w: nat) returns (d: nat, i: nat)
    requires (forall d :: d in members ==> Routable(g, s, d)) && (v, w) in Links(g, s, members)
    ensures d in members && 0 < i < |Path(g, s, d)| && Path(g, s, d)[i - 1] == v && Path(g, s, d)[i] == w
  {
    d, i :| d in members && 0 < i < |Path(g, s, d)| && LinkInto(Path(g, s, d), i) == (v, w);
  }

  lemma LinksOfOneMore(g: Graph, s: nat, members: set<nat>, d: nat)
    requires (forall e :: e in members + {d} ==> Routable(g, s, e))
    ensures Links(g, s, members + {d}) == Links(g, s, members) + WalkLinks(Path(g, s, d))
  {
    forall l | l in Links(g, s, members) + WalkLinks(Path(g, s, d)) ensures l in Links(g, s, members + {d}) {
      if l in WalkLinks(Path(g, s, d)) {
        var i :| 0 < i < |Path(g, s, d)| && l == LinkInto(Path(g, s, d), i);
      }
    }
  }

  /** No node is entered over two different links, whatever walks enter it, and the
      source is not entered at all: the links form a tree rooted at the source. */
  lemma OneParent(g: Graph, s: nat, members: set<nat>, u: nat, v: nat, x: nat)
    requires forall d :: d in members ==> Routable(g, s, d)
    requires (u, x) in Links(g, s, members) && (v, x) in Links(g, s, members)
    ensures u == v && x != s && Adjacent(g, u, x) && u < g.n && x < g.n
    ensures Reachable(g, s, u) && Dist(g, s, x) == Dist(g, s, u) + 1
  {
    var d, i := LinkWitness(g, s, members, u, x);
    var e, j := LinkWitness(g, s, members, v, x);
    WalksAgree(g, s, d, e, i, j);
    assert Path(g, s, d)[..i + 1][i - 1] == Path(g, s, e)[..j + 1][i - 1];
    PathSplits(g, s, d, i);
    PathSplits(g, s, d, i - 1);
    SelfDist(g, s);
    PathIsShortest(g, s, d);
  }

  // ---------- what is recorded for a set of links ----------

  ghost predicate InRange(net: Net, links: set<(nat, nat)>) {
    forall l :: l in links ==> l.0 < net.g.n && l.1 < net.g.n
  }

  // The nodes with an outgoing link.
  ghost function Senders(links: set<(nat, nat)>): set<nat> {
    set l | l in links :: l.0
  }

  ghost function Oifs(net: Net, links: set<(nat, nat)>, v: nat): set<Interface>
    requires Square(net) && InRange(net, links)
  {
    set l | l in links && l.0 == v :: net.nbrIf[v][l.1]
  }

  ghost predicate OifsRecorded(net: Net, links: set<(nat, nat)>, nodes: set<nat>, oifs: map<nat, set<Interface>>)
    requires Square(net) && InRange(net, links)
  {
    nodes == oifs.Keys == Senders(links) && forall v :: v in nodes ==> oifs[v] == Oifs(net, links, v)
  }

  ghost predicate IifsRecorded(net: Net, links: set<(nat, nat)>, iif: map<nat, Interface>)
    requires Square(net) && InRange(net, links)
  {
    forall l :: l in links ==> l.1 in iif && iif[l.1] == net.nbrIf[l.1][l.0]
  }

  lemma OifsOfOneMore(net: Net, links: set<(nat, nat)>, v: nat, w: nat, x: nat)
    requires Square(net) && InRange(net, links + {(v, w)})
    ensures Oifs(net, links + {(v, w)}, x) == Oifs(net, links, x) + if x == v then {net.nbrIf[v][w]} else {}
  {
    var links' := links + {(v, w)};
    assert (v, w) in links';
    forall o | o in Oifs(net, links, x) ensures o in Oifs(net, links', x) {
      var l :| l in links && l.0 == x && o == net.nbrIf[x][l.1];
      assert l in links';
    }
  }

  lemma SendersOfOneMore(links: set<(nat, nat)>, v: nat, w: nat)
    ensures Senders(links + {(v, w)}) == Senders(links) + {v}
  {
    assert (v, w) in links + {(v, w)};
    forall x | x in Senders(links) ensures x in Senders(links + {(v, w)}) {
      var l :| l in links && l.0 == x;
      assert l in links + {(v, w)};
    }
  }

  // One step of the walk, as the outgoing sets are updated by it.
  lemma RecordOif(net: Net, links: set<(nat, nat)>, nodes: set<nat>, oifs: map<nat, set<Interface>>, v: nat, w: nat)
    requires Square(net) && InRange(net, links + {(v, w)}) && OifsRecorded(net, links, nodes, oifs)
    ensures var o := net.nbrIf[v][w];
      OifsRecorded(net, links + {(v, w)}, nodes + {v}, oifs[v := if v in oifs then oifs[v] + {o} else {o}])
  {
    SendersOfOneMore(links, v, w);
    forall x | x in nodes + {v} ensures Oifs(net, links + {(v, w)}, x) == Oifs(net, links, x) + if x == v then {net.nbrIf[v][w]} else {} {
      OifsOfOneMore(net, links, v, w, x);
    }
    if v !in nodes {
      assert Oifs(net, links, v) == {};
    }
  }

  // The incoming interface may be written over, but only with the value it has.
  lemma RecordIif(net: Net, links: set<(nat, nat)>, iif: map<nat, Interface>, v: nat, w: nat)
    requires Square(net) && InRange(net, links + {(v, w)}) && IifsRecorded(net, links, iif)
    requires forall l :: l in links && l.1 == w ==> l.0 == v
    ensures IifsRecorded(net, links + {(v, w)}, iif[w := net.nbrIf[w][v]])
  {
  }

  ghost predicate Recorded(net: Net, links: set<(nat, nat)>, nodes: set<nat>, oifs: map<nat, set<Interface>>, iif: map<nat, Interface>)
    requires Square(net)
  {
    InRange(net, links) && OifsRecorded(net, links, nodes, oifs) && IifsRecorded(net, links, iif)
  }

  // ---------- the computation ----------

  ghost predicate IsEcmpState(g: Graph, state: array2<seq<nat>>)
    reads state
  {
    && state.Length0 == state.Length1 == g.n
    && forall a: nat, t: nat :: a < g.n && t < g.n ==> state[a, t] == Candidates(g, a, t)
  }

  lemma LinksInRange(g: Graph, s: nat, members: set<nat>)
    requires forall d :: d in members ==> Routable(g, s, d)
    ensures forall l :: l in Links(g, s, members) ==> l.0 < g.n && l.1 < g.n
  {
    forall l | l in Links(g, s, members) ensures l.0 < g.n && l.1 < g.n {
      var d, i := LinkWitness(g, s, members, l.0, l.1);
      PathInRange(g, s, d, i - 1);
      PathInRange(g, s, d, i);
    }
  }

  lemma WalkGrows(p: seq<nat>, k: nat)
    requires k + 1 < |p|
    ensures WalkLinks(p[..k + 2]) == WalkLinks(p[..k + 1]) + {(p[k], p[k + 1])}
  {
    var longer, shorter := p[..k + 2], p[..k + 1];
    assert LinkInto(longer, k + 1) == (p[k], p[k + 1]);
    forall l | l in WalkLinks(shorter) ensures l in WalkLinks(longer) {
      var i :| 0 < i < |shorter| && l == LinkInto(shorter, i);
      assert l == LinkInto(longer, i);
    }
    forall l | l in WalkLinks(longer) ensures l in WalkLinks(shorter) + {(p[k], p[k + 1])} {
      var i :| 0 < i < |longer| && l == LinkInto(longer, i);
      if i <= k {
        assert l == LinkInto(shorter, i);
      }
    }
  }

  // The links seen when the walk to dst has reached its k-th node.
  ghost function LinksSoFar(g: Graph, src: nat, done: set<nat>, dst: nat, k: nat): set<(nat, nat)>
    requires (forall d :: d in done + {dst} ==> Routable(g, src, d)) && k < |Path(g, src, dst)|
  {
    Links(g, src, done) + WalkLinks(Path(g, src, dst)[..k + 1])
  }

  lemma NextLink(g: Graph, src: nat, done: set<nat>, dst: nat, k: nat)
    requires forall d :: d in done + {dst} ==> Routable(g, src, d)
    requires k < |Path(g, src, dst)| && Path(g, src, dst)[k] != dst
    ensures k + 1 < |Path(g, src, dst)|
    ensures var v, w := Path(g, src, dst)[k], Path(g, src, dst)[k + 1];
      && v < g.n && w < g.n && Candidates(g, v, dst) != [] && w == Candidates(g, v, dst)[0]
      && LinksSoFar(g, src, done, dst, k + 1) == LinksSoFar(g, src, done, dst, k) + {(v, w)}
      && (forall l :: l in LinksSoFar(g, src, done, dst, k) && l.1 == w ==> l.0 == v)
  {
    PathStep(g, src, dst, k);
    PathInRange(g, src, dst, k);
    PathInRange(g, src, dst, k + 1);
    WalkGrows(Path(g, src, dst), k);
    OnlyEntry(g, src, done, dst, k);
  }

  lemma OnlyEntry(g: Graph, src: nat, done: set<nat>, dst: nat, k: nat)
    requires (forall d :: d in done + {dst} ==> Routable(g, src, d)) && k + 1 < |Path(g, src, dst)|
    ensures forall l :: l in LinksSoFar(g, src, done, dst, k) && l.1 == Path(g, src, dst)[k + 1] ==> l.0 == Path(g, src, dst)[k]
  {
    forall l | l in LinksSoFar(g, src, done, dst, k) && l.1 == Path(g, src, dst)[k + 1] ensures l.0 == Path(g, src, dst)[k] {
      OnlyEntryIs(g, src, done, dst, k, l.0);
    }
  }

  lemma OnlyEntryIs(g: Graph, src: nat, done: set<nat>, dst: nat, k: nat, u: nat)
    requires (forall d :: d in done + {dst} ==> Routable(g, src, d)) && k + 1 < |Path(g, src, dst)|
    requires (u, Path(g, src, dst)[k + 1]) in LinksSoFar(g, src, done, dst, k)
    ensures u == Path(g, src, dst)[k]
  {
    var p := Path(g, src, dst);
    LinksOfOneMore(g, src, done, dst);
    SomeWalkLink(p, k + 1, (u, p[k + 1]));
    assert (p[k], p[k + 1]) in WalkLinks(p) by {
      assert LinkInto(p, k + 1) == (p[k], p[k + 1]);
    }
    OneParent(g, src, done + {dst}, u, p[k], p[k + 1]);
  }

  lemma SomeWalkLink(p: seq<nat>, m: nat, l: (nat, nat))
    requires m <= |p|
    ensures l in WalkLinks(p[..m]) ==> l in WalkLinks(p)
  {
    if l in WalkLinks(p[..m]) {
      var i :| 0 < i < m && l == LinkInto(p[..m], i);
      assert l == LinkInto(p, i);
    }
  }

  // One hop of a walk; the incoming interface of nxt is written over unconditionally.
  method RecordHop(net: Net, nodes0: set<nat>, oifs0: map<nat, set<Interface>>, iif0: map<nat, Interface>,
                   cur: nat, nxt: nat, ghost links: set<(nat, nat)>)
    returns (nodes: set<nat>, oifs: map<nat, set<Interface>>, iif: map<nat, Interface>)
    requires Square(net) && cur < net.g.n && nxt < net.g.n && Recorded(net, links, nodes0, oifs0, iif0)
    requires forall l :: l in links && l.1 == nxt ==> l.0 == cur
    ensures Recorded(net, links + {(cur, nxt)}, nodes, oifs, iif)
  {
    RecordOif(net, links, nodes0, oifs0, cur, nxt);
    RecordIif(net, links, iif0, cur, nxt);
    var oif := net.nbrIf[cur][nxt];
    nodes := nodes0 + {cur};
    if cur in oifs0 {
      oifs := oifs0[cur := oifs0[cur] + {oif}];
    } else {
      oifs := oifs0[cur := {oif}];
    }
    iif := iif0[nxt := net.nbrIf[nxt][cur]];
  }

  // The walk to one more member.
  method RecordWalk(net: Net, state: array2<seq<nat>>, src: nat, dst: nat,
                    nodes0: set<nat>, oifs0: map<nat, set<Interface>>, iif0: map<nat, Interface>, ghost done: set<nat>)
    returns (nodes: set<nat>, oifs: map<nat, set<Interface>>, iif: map<nat, Interface>)
    requires Square(net) && IsEcmpState(net.g, state)
    requires forall d :: d in done + {dst} ==> Routable(net.g, src, d)
    requires Recorded(net, Links(net.g, src, done), nodes0, oifs0, iif0)
    ensures Recorded(net, Links(net.g, src, done + {dst}), nodes, oifs, iif)
  {
    nodes, oifs, iif := nodes0, oifs0, iif0;
    ghost var p := Path(net.g, src, dst);
    ghost var k := 0;
    assert WalkLinks(p[..1]) == {};
    assert LinksSoFar(net.g, src, done, dst, 0) == Links(net.g, src, done);
    var cur := src;
    while cur != dst
      invariant k < |p| && cur == p[k]
      invariant Recorded(net, LinksSoFar(net.g, src, done, dst, k), nodes, oifs, iif)
      decreases |p| - k
    {
      NextLink(net.g, src, done, dst, k);
      var nxt := state[cur, dst][0];
      nodes, oifs, iif := RecordHop(net, nodes, oifs, iif, cur, nxt, LinksSoFar(net.g, src, done, dst, k));
      cur := nxt;
      k := k + 1;
    }
    PathStep(net.g, src, dst, k);
    assert p[..k + 1] == p;
    LinksOfOneMore(net.g, src, done, dst);
  }
}
