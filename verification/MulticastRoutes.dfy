/** Installing the routes of all requests, and what the installed routes deliver. */
module MulticastRoutes {
  import opened Topology
  import opened Ecmp
  import opened Walks
  import opened Multicast
  import opened Options

  // ---------- routes along an arbitrary tree of links ----------

  ghost function Receivers(links: set<(nat, nat)>): set<nat> {
    set l | l in links :: l.1
  }

  // A walk from the root along the links.
  ghost predicate TreeWalk(links: set<(nat, nat)>, root: nat, q: seq<nat>) {
    |q| > 0 && q[0] == root && forall k :: 0 < k < |q| ==> (q[k - 1], q[k]) in links
  }

  ghost predicate Joined(links: set<(nat, nat)>, root: nat, v: nat) {
    exists q :: TreeWalk(links, root, q) && q[|q| - 1] == v
  }

  // Every node but the root is entered over one link at most, the root over none, only the
  // root and entered nodes send, and every entered node is joined to the root by a walk.
  ghost predicate IsTree(links: set<(nat, nat)>, root: nat) {
    && (forall l, m :: l in links && m in links && l.1 == m.1 ==> l.0 == m.0)
    && (forall l :: l in links ==> l.1 != root)
    && Senders(links) <= Receivers(links) + {root}
    && (forall v :: v in Receivers(links) ==> Joined(links, root, v))
  }

  // Every link leads one hop further from the root, counted in the whole network; so the links
  // close no cycle, and walks along them are as short as any.
  ghost predicate IsShortest(g: Graph, links: set<(nat, nat)>, root: nat) {
    forall l :: l in links ==> Reachable(g, root, l.0) && Reachable(g, root, l.1) && Dist(g, root, l.1) == Dist(g, root, l.0) + 1
  }

  ghost predicate TreeIn(net: Net, links: set<(nat, nat)>, root: nat) {
    && Square(net) && InRange(net, links) && IsTree(links, root)
    && (forall l :: l in links ==> Adjacent(net.g, l.0, l.1))
  }

  ghost function Parent(links: set<(nat, nat)>, v: nat): (u: nat)
    requires v in Receivers(links)
    ensures (u, v) in links
  {
    var l :| l in links && l.1 == v;
    l.0
  }

  // The routing protocol can only send out of one interface at the source.
  ghost predicate OneWayOut(net: Net, links: set<(nat, nat)>, root: nat)
    requires Square(net) && InRange(net, links)
  {
    exists o :: Oifs(net, links, root) == {o}
  }

  // The route a node of the tree gets: in from its parent, out to all its children.
  ghost function RouteAt(net: Net, links: set<(nat, nat)>, root: nat, group: nat, v: nat): Route
    requires TreeIn(net, links, root) && OneWayOut(net, links, root) && v in Senders(links)
  {
    var out :| Oifs(net, links, root) == {out};
    Route((root, out), group, if v == root then 0 else net.nbrIf[v][Parent(links, v)], Oifs(net, links, v))
  }

  ghost function RoutesAt(net: Net, links: set<(nat, nat)>, root: nat, group: nat, v: nat): seq<Route>
    requires TreeIn(net, links, root) && OneWayOut(net, links, root)
  {
    if v in Senders(links) then [RouteAt(net, links, root, group, v)] else []
  }

  // The routes along the tree have been added at the given nodes.
  ghost predicate AddedFor(net: Net, links: set<(nat, nat)>, root: nat, group: nat, nodes: set<nat>,
                           before: seq<seq<Route>>, after: seq<seq<Route>>)
    requires TreeIn(net, links, root) && OneWayOut(net, links, root)
  {
    && |before| == |after| == net.g.n
    && forall v: nat :: v < net.g.n ==>
         after[v] == before[v] + if v in nodes then RoutesAt(net, links, root, group, v) else []
  }

  lemma AddNode(net: Net, links: set<(nat, nat)>, root: nat, group: nat, nodes: set<nat>,
                before: seq<seq<Route>>, after: seq<seq<Route>>, v: nat)
    requires TreeIn(net, links, root) && OneWayOut(net, links, root)
    requires AddedFor(net, links, root, group, nodes, before, after) && v < net.g.n && v !in nodes
    ensures AddedFor(net, links, root, group, nodes + {v}, before, after[v := after[v] + RoutesAt(net, links, root, group, v)])
  {
  }

  lemma DoneWith(nodes: set<nat>, rest: set<nat>, v: nat)
    requires rest <= nodes && v in rest
    ensures nodes - (rest - {v}) == (nodes - rest) + {v}
  {
  }

  // ---------- the tree of a request ----------

  ghost function Tree(net: Net, req: Request): set<(nat, nat)>
    requires ValidRequest(net, req)
    ensures TreeIn(net, Tree(net, req), req.src)
  {
    LinksFormTree(net, req);
    Links(net.g, req.src, req.members)
  }

  /** The links of all walks of a request form a tree of shortest walks from the source: each
      node they enter is joined to the source, is entered over one link only, and that link
      comes from a node one hop closer. */
  lemma LinksFormTree(net: Net, req: Request)
    requires ValidRequest(net, req)
    ensures var links := Links(net.g, req.src, req.members);
      TreeIn(net, links, req.src) && IsShortest(net.g, links, req.src)
  {
    var g, s := net.g, req.src;
    var links := Links(g, s, req.members);
    LinksInRange(g, s, req.members);
    forall l, m | l in links && m in links && l.1 == m.1
      ensures l.0 == m.0 && l.1 != s && Adjacent(g, l.0, l.1)
    {
      assert (l.0, l.1) in links && (m.0, l.1) in links;
      OneParent(g, s, req.members, l.0, m.0, l.1);
    }
    forall v | v in Senders(links) && v != s ensures v in Receivers(links) {
      SenderIsEntered(g, s, req.members, v);
    }
    forall v | v in Receivers(links) ensures Joined(links, s, v) {
      ReceiverIsJoined(g, s, req.members, v);
    }
    LinksAreShortest(g, s, req.members);
  }

  lemma SenderIsEntered(g: Graph, s: nat, members: set<nat>, v: nat)
    requires (forall d :: d in members ==> Routable(g, s, d)) && v in Senders(Links(g, s, members)) && v != s
    ensures v in Receivers(Links(g, s, members))
  {
    var l :| l in Links(g, s, members) && l.0 == v;
    var d, i := LinkWitness(g, s, members, l.0, l.1);
    assert LinkInto(Path(g, s, d), i - 1) in Links(g, s, members);
  }

  lemma ReceiverIsJoined(g: Graph, s: nat, members: set<nat>, v: nat)
    requires (forall d :: d in members ==> Routable(g, s, d)) && v in Receivers(Links(g, s, members))
    ensures Joined(Links(g, s, members), s, v)
  {
    var l :| l in Links(g, s, members) && l.1 == v;
    var d, i := LinkWitness(g, s, members, l.0, l.1);
    var p := Path(g, s, d);
    var q := p[..i + 1];
    forall k | 0 < k < |q| ensures (q[k - 1], q[k]) in Links(g, s, members) {
      assert LinkInto(p, k) in Links(g, s, members);
    }
    assert TreeWalk(Links(g, s, members), s, q);
  }

  lemma LinksAreShortest(g: Graph, s: nat, members: set<nat>)
    requires forall d :: d in members ==> Routable(g, s, d)
    ensures IsShortest(g, Links(g, s, members), s)
  {
    var links := Links(g, s, members);
    forall l | l in links ensures Reachable(g, s, l.0) && Reachable(g, s, l.1) && Dist(g, s, l.1) == Dist(g, s, l.0) + 1 {
      assert (l.0, l.1) in links;
      OneParent(g, s, members, l.0, l.0, l.1);
      var d, i := LinkWitness(g, s, members, l.0, l.1);
      PathSplits(g, s, d, i);
    }
  }

  ghost predicate Accepted(net: Net, req: Request)
    requires ValidRequest(net, req)
  {
    OneWayOut(net, Tree(net, req), req.src)
  }

  // The group address of a request: one per request, counted from the base address.
  function GroupOf(base: nat, req: Request): nat { base + req.id }

  ghost function RoutesFor(net: Net, base: nat, req: Request, v: nat): seq<Route>
    requires ValidRequest(net, req) && Accepted(net, req)
  {
    RoutesAt(net, Tree(net, req), req.src, GroupOf(base, req), v)
  }

  // The first m requests can all be served.
  ghost predicate AllAccepted(net: Net, reqs: seq<Request>, m: nat)
    requires m <= |reqs|
  {
    forall i :: 0 <= i < m ==> ValidRequest(net, reqs[i]) && Accepted(net, reqs[i])
  }

  lemma OneMoreAccepted(net: Net, reqs: seq<Request>, m: nat, m': nat)
    requires m' == m + 1 <= |reqs| && AllAccepted(net, reqs, m)
    requires ValidRequest(net, reqs[m]) && Accepted(net, reqs[m])
    ensures AllAccepted(net, reqs, m')
  {
    forall i | 0 <= i < m' ensures ValidRequest(net, reqs[i]) && Accepted(net, reqs[i]) {
      if i == m {
      } else {
      }
    }
  }

  // Consecutive additions to one node's list of routes.
  ghost function Flatten(blocks: seq<seq<Route>>): seq<Route> {
    if blocks == [] then [] else Flatten(blocks[..|blocks| - 1]) + blocks[|blocks| - 1]
  }

  lemma FlattenLast(blocks: seq<seq<Route>>, m: nat)
    requires |blocks| == m + 1
    ensures Flatten(blocks) == Flatten(blocks[..m]) + blocks[m]
  {
  }

  // What each of the first m requests adds at node v.
  ghost function Blocks(net: Net, base: nat, reqs: seq<Request>, m: nat, v: nat): seq<seq<Route>>
    requires m <= |reqs| && AllAccepted(net, reqs, m)
  {
    seq(m, i requires 0 <= i < m => RoutesFor(net, base, reqs[i], v))
  }

  // Routes of node v after the first m requests, in order of installation.
  ghost function RoutesOf(net: Net, base: nat, reqs: seq<Request>, m: nat, v: nat): seq<Route>
    requires m <= |reqs| && AllAccepted(net, reqs, m)
  {
    Flatten(Blocks(net, base, reqs, m, v))
  }

  lemma RoutesOfNext(net: Net, base: nat, reqs: seq<Request>, m: nat, m': nat)
    requires m' == m + 1 <= |reqs| && AllAccepted(net, reqs, m') && AllAccepted(net, reqs, m)
    ensures forall v: nat {:trigger RoutesOf(net, base, reqs, m', v)} ::
      RoutesOf(net, base, reqs, m', v) == RoutesOf(net, base, reqs, m, v) + RoutesFor(net, base, reqs[m], v)
  {
    forall v: nat
      ensures RoutesOf(net, base, reqs, m', v) == RoutesOf(net, base, reqs, m, v) + RoutesFor(net, base, reqs[m], v)
    {
      var longer, shorter := Blocks(net, base, reqs, m', v), Blocks(net, base, reqs, m, v);
      assert longer[..m] == shorter && longer[m] == RoutesFor(net, base, reqs[m], v);
      FlattenLast(longer, m);
    }
  }

  // ---------- the helper object ----------

  class ArbiterMulticastHelper {
    const net: Net
    const base: nat
    var routes: seq<seq<Route>>   // routes[v] are those of the arbiter of node v

    constructor (net: Net, base: nat)
      ensures this.net == net && this.base == base
      ensures routes == seq(net.g.n, _ => [])
    {
      this.net, this.base := net, base;
      routes := seq(net.g.n, _ => []);
    }

    // Members may be visited in any order; a std::set visits them in ascending order.
    method RecordTree(state: array2<seq<nat>>, req: Request)
      returns (nodes: set<nat>, oifs: map<nat, set<Interface>>, iif: map<nat, Interface>)
      requires ValidRequest(net, req) && IsEcmpState(net.g, state)
      ensures Recorded(net, Tree(net, req), nodes, oifs, iif)
    {
      nodes, oifs, iif := {}, map[], map[];
      var rest := req.members;
      assert Links(net.g, req.src, {}) == {};
      while rest != {}
        invariant rest <= req.members
        invariant Recorded(net, Links(net.g, req.src, req.members - rest), nodes, oifs, iif)
      {
        var dst :| dst in rest;
        nodes, oifs, iif := RecordWalk(net, state, req.src, dst, nodes, oifs, iif, req.members - rest);
        assert req.members - (rest - {dst}) == (req.members - rest) + {dst};
        rest := rest - {dst};
      }
      assert req.members - rest == req.members;
    }

    method MakeRoute(ghost links: set<(nat, nat)>, origin: (nat, Interface), group: nat,
                     ghost nodes: set<nat>, oifs: map<nat, set<Interface>>, iif: map<nat, Interface>, v: nat)
      returns (route: Route)
      requires TreeIn(net, links, origin.0) && Recorded(net, links, nodes, oifs, iif) && v in nodes
      requires OneWayOut(net, links, origin.0) && Oifs(net, links, origin.0) == {origin.1}
      ensures [route] == RoutesAt(net, links, origin.0, group, v)
    {
      var iifId := 0;
      if v != origin.0 {
        assert v in Receivers(links) && (Parent(links, v), v) in links;
        iifId := iif[v];
      }
      route := Route(origin, group, iifId, oifs[v]);
    }

    method Install(ghost links: set<(nat, nat)>, origin: (nat, Interface), group: nat,
                   nodes: set<nat>, oifs: map<nat, set<Interface>>, iif: map<nat, Interface>)
      requires TreeIn(net, links, origin.0) && Recorded(net, links, nodes, oifs, iif) && |routes| == net.g.n
      requires Oifs(net, links, origin.0) == {origin.1}
      modifies this
      ensures OneWayOut(net, links, origin.0) && |routes| == net.g.n
      ensures forall v: nat :: v < net.g.n ==> routes[v] == old(routes[v]) + RoutesAt(net, links, origin.0, group, v)
    {
      assert OneWayOut(net, links, origin.0);
      var rest := nodes;
      while rest != {}
        invariant rest <= nodes
        invariant AddedFor(net, links, origin.0, group, nodes - rest, old(routes), routes)
      {
        var v :| v in rest;
        AddNode(net, links, origin.0, group, nodes - rest, old(routes), routes, v);
        var route := MakeRoute(links, origin, group, nodes, oifs, iif, v);
        routes := routes[v := routes[v] + [route]];
        DoneWith(nodes, rest, v);
        rest := rest - {v};
      }
    }

    // The single interface out of the source, if there is exactly one.
    method SourceInterface(ghost links: set<(nat, nat)>, src: nat, ghost nodes: set<nat>, oifs: map<nat, set<Interface>>)
      returns (out: Option<Interface>)
      requires Square(net) && InRange(net, links) && OifsRecorded(net, links, nodes, oifs)
      ensures out.Some? <==> OneWayOut(net, links, src)
      ensures out.Some? ==> Oifs(net, links, src) == {out.value}
    {
      var atSource := if src in oifs then oifs[src] else {};
      assert atSource == Oifs(net, links, src);
      if |atSource| != 1 {
        return None;
      }
      var o :| o in atSource;
      assert atSource == {o} by {
        assert |atSource - {o}| == 0;
      }
      return Some(o);
    }

    method AddRequest(state: array2<seq<nat>>, req: Request) returns (ok: bool)
      requires ValidRequest(net, req) && IsEcmpState(net.g, state) && |routes| == net.g.n
      modifies this
      ensures ok <==> Accepted(net, req)
      ensures |routes| == net.g.n
      ensures forall v: nat :: v < net.g.n ==> routes[v] == old(routes[v]) + if ok then RoutesFor(net, base, req, v) else []
    {
      var nodes, oifs, iif := RecordTree(state, req);
      var out := SourceInterface(Tree(net, req), req.src, nodes, oifs);
      if out.None? {
        return false;
      }
      Install(Tree(net, req), (req.src, out.value), GroupOf(base, req), nodes, oifs, iif);
      return true;
    }

    /** All requests in order. The first request that cannot be served aborts the run, with
        the routes of the earlier requests in place. */
    method CalGlobalMulticastState(state: array2<seq<nat>>, reqs: seq<Request>) returns (ok: bool, ghost served: nat)
      requires ValidNet(net) && IsEcmpState(net.g, state) && |routes| == net.g.n
      requires forall i :: 0 <= i < |reqs| ==> ValidRequest(net, reqs[i])
      modifies this
      ensures served <= |reqs| && AllAccepted(net, reqs, served)
      ensures if served == |reqs| then ok else !ok && !Accepted(net, reqs[served])
      ensures |routes| == net.g.n
      ensures forall v: nat :: v < net.g.n ==> routes[v] == old(routes[v]) + RoutesOf(net, base, reqs, served, v)
    {
      served := 0;
      for i := 0 to |reqs|
        invariant served == i && AllAccepted(net, reqs, served) && |routes| == net.g.n
        invariant forall v: nat :: v < net.g.n ==> routes[v] == old(routes[v]) + RoutesOf(net, base, reqs, served, v)
      {
        var added := AddRequest(state, reqs[i]);
        if !added {
          return false, served;
        }
        served := i + 1;
        OneMoreAccepted(net, reqs, i, served);
        RoutesOfNext(net, base, reqs, i, served);
      }
      return true, served;
    }
  }
}
