/** What a packet sent by the source of a request does in a network whose nodes hold the
    installed routes: every copy of it is identified with the trail of nodes it crossed. */
module MulticastDelivery {
  import opened Topology
  import opened Ecmp
  import opened Walks
  import opened Multicast
  import opened MulticastRoutes
  import opened Options

  // The first installed route of the group decides (ArbiterMulticast::DecideMulticast).
  function Lookup(routes: seq<Route>, group: nat): Option<Route> {
    if routes == [] then None
    else if routes[0].group == group then Some(routes[0])
    else Lookup(routes[1..], group)
  }

  // Node v sends a copy to its neighbour w; interface 0 is skipped.
  ghost predicate Copies(net: Net, tables: seq<seq<Route>>, group: nat, v: nat, w: nat)
    requires Square(net) && |tables| == net.g.n
  {
    && v < net.g.n && w < net.g.n && Adjacent(net.g, v, w)
    && var r := Lookup(tables[v], group);
       r.Some? && net.nbrIf[v][w] != 0 && net.nbrIf[v][w] in r.value.oifs
  }

  ghost predicate Trail(net: Net, tables: seq<seq<Route>>, group: nat, src: nat, q: seq<nat>)
    requires Square(net) && |tables| == net.g.n
  {
    |q| > 0 && q[0] == src && forall k :: 0 < k < |q| ==> Copies(net, tables, group, q[k - 1], q[k])
  }

  // ---------- trails of a tree ----------

  lemma {:induction false} TreeWalkUnique(links: set<(nat, nat)>, root: nat, q1: seq<nat>, q2: seq<nat>)
    requires IsTree(links, root) && TreeWalk(links, root, q1) && TreeWalk(links, root, q2)
    requires q1[|q1| - 1] == q2[|q2| - 1]
    ensures q1 == q2
    decreases |q1|
  {
    var m, n := |q1| - 1, |q2| - 1;
    assert m > 0 ==> (q1[m - 1], q1[m]) in links;
    assert n > 0 ==> (q2[n - 1], q2[n]) in links;
    if m == 0 {
      assert q1 == [root] == q2;
    } else {
      TreeWalkUnique(links, root, q1[..m], q2[..n]);
      assert q1 == q1[..m] + [q1[m]] && q2 == q2[..n] + [q2[n]];
    }
  }

  // The tables hold the tree's route for the group wherever the tree sends, and no other.
  ghost predicate TablesFollow(net: Net, tables: seq<seq<Route>>, group: nat, links: set<(nat, nat)>, root: nat)
    requires TreeIn(net, links, root) && OneWayOut(net, links, root)
  {
    && |tables| == net.g.n
    && forall v: nat :: v < net.g.n ==>
         Lookup(tables[v], group) == if v in Senders(links) then Some(RouteAt(net, links, root, group, v)) else None
  }

  lemma CopiesIff(net: Net, tables: seq<seq<Route>>, group: nat, links: set<(nat, nat)>, root: nat, v: nat, w: nat)
    requires ValidNet(net) && TreeIn(net, links, root) && OneWayOut(net, links, root)
    requires TablesFollow(net, tables, group, links, root)
    ensures Copies(net, tables, group, v, w) <==> (v, w) in links
  {
    if (v, w) in links {
      assert v in Senders(links);
      assert net.nbrIf[v][w] in Oifs(net, links, v);
    }
    if Copies(net, tables, group, v, w) {
      var l :| l in links && l.0 == v && net.nbrIf[v][w] == net.nbrIf[v][l.1];
      assert l.1 == w && l == (v, w);
    }
  }

  lemma TrailIff(net: Net, tables: seq<seq<Route>>, group: nat, links: set<(nat, nat)>, root: nat, q: seq<nat>)
    requires ValidNet(net) && TreeIn(net, links, root) && OneWayOut(net, links, root)
    requires TablesFollow(net, tables, group, links, root)
    ensures Trail(net, tables, group, root, q) <==> TreeWalk(links, root, q)
  {
    forall k | 0 < k < |q| ensures Copies(net, tables, group, q[k - 1], q[k]) <==> (q[k - 1], q[k]) in links {
      CopiesIff(net, tables, group, links, root, q[k - 1], q[k]);
    }
  }

  // ---------- the tables after a successful run ----------

  ghost predicate DistinctIds(reqs: seq<Request>) {
    forall i, j :: 0 <= i < j < |reqs| ==> reqs[i].id != reqs[j].id
  }

  lemma LookupAppend(a: seq<Route>, b: seq<Route>, group: nat)
    ensures Lookup(a + b, group) == if Lookup(a, group).Some? then Lookup(a, group) else Lookup(b, group)
  {
    if a == [] {
      assert a + b == b;
    } else {
      assert (a + b)[1..] == a[1..] + b;
    }
  }

  // Requests of distinct groups do not disturb each other.
  lemma {:induction false} LookupFlatten(blocks: seq<seq<Route>>, groups: seq<nat>, i: nat)
    requires i < |groups| == |blocks|
    requires forall j, k :: 0 <= j < k < |groups| ==> groups[j] != groups[k]
    requires forall j :: 0 <= j < |blocks| ==> |blocks[j]| <= 1
    requires forall j :: 0 <= j < |blocks| && blocks[j] != [] ==> blocks[j][0].group == groups[j]
    ensures Lookup(Flatten(blocks), groups[i]) == if blocks[i] == [] then None else Some(blocks[i][0])
  {
    var m := |blocks| - 1;
    var before, own := Flatten(blocks[..m]), blocks[m];
    LookupAppend(before, own, groups[i]);
    if own != [] {
      assert own == [own[0]] && own[1..] == [];
    }
    if i < m {
      LookupFlatten(blocks[..m], groups[..m], i);
    } else {
      NotInstalled(blocks[..m], groups[..m], groups[i]);
    }
  }

  lemma {:induction false} NotInstalled(blocks: seq<seq<Route>>, groups: seq<nat>, group: nat)
    requires |groups| == |blocks| && group !in groups
    requires forall j :: 0 <= j < |blocks| ==> |blocks[j]| <= 1
    requires forall j :: 0 <= j < |blocks| && blocks[j] != [] ==> blocks[j][0].group == groups[j]
    ensures Lookup(Flatten(blocks), group) == None
  {
    if blocks != [] {
      var m := |blocks| - 1;
      NotInstalled(blocks[..m], groups[..m], group);
      LookupAppend(Flatten(blocks[..m]), blocks[m], group);
      if blocks[m] != [] {
        assert blocks[m] == [blocks[m][0]] && blocks[m][1..] == [];
      }
    }
  }

  // The state CalGlobalMulticastState leaves behind when it starts from empty tables and succeeds.
  ghost predicate Installed(net: Net, base: nat, reqs: seq<Request>, tables: seq<seq<Route>>) {
    && ValidNet(net) && AllAccepted(net, reqs, |reqs|) && DistinctIds(reqs)
    && |tables| == net.g.n
    && forall v: nat :: v < net.g.n ==> tables[v] == RoutesOf(net, base, reqs, |reqs|, v)
  }

  lemma InstalledFollows(net: Net, base: nat, reqs: seq<Request>, tables: seq<seq<Route>>, i: nat)
    requires Installed(net, base, reqs, tables) && i < |reqs|
    ensures ValidRequest(net, reqs[i]) && Accepted(net, reqs[i])
    ensures TablesFollow(net, tables, GroupOf(base, reqs[i]), Tree(net, reqs[i]), reqs[i].src)
  {
    forall v: nat | v < net.g.n
      ensures Lookup(tables[v], GroupOf(base, reqs[i])) ==
        var own := RoutesFor(net, base, reqs[i], v); if own == [] then None else Some(own[0])
    {
      LookupInstalled(net, base, reqs, i, v);
    }
  }

  lemma LookupInstalled(net: Net, base: nat, reqs: seq<Request>, i: nat, v: nat)
    requires AllAccepted(net, reqs, |reqs|) && DistinctIds(reqs) && i < |reqs|
    ensures Lookup(RoutesOf(net, base, reqs, |reqs|, v), GroupOf(base, reqs[i])) ==
      var own := RoutesFor(net, base, reqs[i], v); if own == [] then None else Some(own[0])
  {
    var groups := seq(|reqs|, j requires 0 <= j < |reqs| => GroupOf(base, reqs[j]));
    LookupFlatten(Blocks(net, base, reqs, |reqs|, v), groups, i);
  }

  /** From the topology alone: candidate lists first, then the routes of all requests. */
  method SetupMulticast(net: Net, base: nat, reqs: seq<Request>) returns (ok: bool, helper: ArbiterMulticastHelper)
    requires Valid(net.g) && (net.g.n <= MAX_NODES ==> ValidNet(net))
    requires net.g.n <= MAX_NODES ==> forall i :: 0 <= i < |reqs| ==> ValidRequest(net, reqs[i])
    ensures ok ==> ValidNet(net) && AllAccepted(net, reqs, |reqs|)
    ensures ok && DistinctIds(reqs) ==> Installed(net, base, reqs, helper.routes)
    ensures !ok ==> net.g.n > MAX_NODES || exists i :: 0 <= i < |reqs| && !Accepted(net, reqs[i])
  {
    helper := new ArbiterMulticastHelper(net, base);
    var state;
    ok, state := CalculateGlobalState(net.g);
    if ok {
      ghost var served;
      ok, served := helper.CalGlobalMulticastState(state, reqs);
    }
  }

  ghost predicate RequestTrail(net: Net, base: nat, req: Request, tables: seq<seq<Route>>, q: seq<nat>)
    requires Square(net) && |tables| == net.g.n
  {
    Trail(net, tables, GroupOf(base, req), req.src, q)
  }

  lemma RequestTrailIff(net: Net, base: nat, reqs: seq<Request>, tables: seq<seq<Route>>, i: nat, q: seq<nat>)
    requires Installed(net, base, reqs, tables) && i < |reqs|
    ensures ValidRequest(net, reqs[i])
    ensures RequestTrail(net, base, reqs[i], tables, q) <==> TreeWalk(Tree(net, reqs[i]), reqs[i].src, q)
  {
    InstalledFollows(net, base, reqs, tables, i);
    TrailIff(net, tables, GroupOf(base, reqs[i]), Tree(net, reqs[i]), reqs[i].src, q);
  }

  // ---------- what the installed routes deliver ----------

  /** A copy crosses every walk of the request, so every member is reached. */
  lemma EveryMemberReached(net: Net, base: nat, reqs: seq<Request>, tables: seq<seq<Route>>, i: nat, d: nat, k: nat)
    requires Installed(net, base, reqs, tables) && i < |reqs| && d in reqs[i].members
    requires ValidRequest(net, reqs[i]) && k < |Path(net.g, reqs[i].src, d)|
    ensures RequestTrail(net, base, reqs[i], tables, Path(net.g, reqs[i].src, d)[..k + 1])
    ensures Path(net.g, reqs[i].src, d)[|Path(net.g, reqs[i].src, d)| - 1] == d
  {
    var p := Path(net.g, reqs[i].src, d);
    var q := p[..k + 1];
    forall j | 0 < j < |q| ensures (q[j - 1], q[j]) in Tree(net, reqs[i]) {
      assert LinkInto(p, j) in Links(net.g, reqs[i].src, reqs[i].members);
    }
    RequestTrailIff(net, base, reqs, tables, i, q);
    PathIsShortest(net.g, reqs[i].src, d);
  }

  /** No node gets two copies. */
  lemma OneCopyEach(net: Net, base: nat, reqs: seq<Request>, tables: seq<seq<Route>>, i: nat, q1: seq<nat>, q2: seq<nat>)
    requires Installed(net, base, reqs, tables) && i < |reqs|
    requires RequestTrail(net, base, reqs[i], tables, q1) && RequestTrail(net, base, reqs[i], tables, q2)
    requires q1[|q1| - 1] == q2[|q2| - 1]
    ensures q1 == q2
  {
    RequestTrailIff(net, base, reqs, tables, i, q1);
    RequestTrailIff(net, base, reqs, tables, i, q2);
    TreeWalkUnique(Tree(net, reqs[i]), reqs[i].src, q1, q2);
  }

  /** Every copy is on a walk to some member and has taken a shortest way so far. A node that
      sends it no further is that member; a node that does got it on its installed interface. */
  lemma CopyOnWalk(net: Net, base: nat, reqs: seq<Request>, tables: seq<seq<Route>>, i: nat, q: seq<nat>)
    returns (d: nat)
    requires Installed(net, base, reqs, tables) && i < |reqs|
    requires RequestTrail(net, base, reqs[i], tables, q) && |q| > 1
    ensures ValidRequest(net, reqs[i]) && d in reqs[i].members
    ensures |q| <= |Path(net.g, reqs[i].src, d)| && q == Path(net.g, reqs[i].src, d)[..|q|]
    ensures |q| - 1 == Dist(net.g, reqs[i].src, q[|q| - 1])
    ensures q[|q| - 1] < net.g.n && q[|q| - 2] < net.g.n
    ensures var r := Lookup(tables[q[|q| - 1]], GroupOf(base, reqs[i]));
      if r.None? then q[|q| - 1] == d else r.value.iif == net.nbrIf[q[|q| - 1]][q[|q| - 2]]
  {
    var req := reqs[i];
    InstalledFollows(net, base, reqs, tables, i);
    RequestTrailIff(net, base, reqs, tables, i, q);
    var m := |q| - 1;
    var k;
    assert (q[m - 1], q[m]) in Links(net.g, req.src, req.members);
    d, k := LinkWitness(net.g, req.src, req.members, q[m - 1], q[m]);
    EveryMemberReached(net, base, reqs, tables, i, d, k);
    OneCopyEach(net, base, reqs, tables, i, q, Path(net.g, req.src, d)[..k + 1]);
    PathSplits(net.g, req.src, d, k);
    CopyStops(net, req, d, k);
  }

  /** Every route of a request carries its group and names as origin the interface over which the
      source sends its first copy; at the source the incoming interface is 0 and that interface
      is the only one going out. */
  lemma RouteNamesSource(net: Net, base: nat, reqs: seq<Request>, tables: seq<seq<Route>>, i: nat, q: seq<nat>, v: nat)
    requires Installed(net, base, reqs, tables) && i < |reqs| && v < net.g.n
    requires RequestTrail(net, base, reqs[i], tables, q) && |q| > 1
    requires Lookup(tables[v], GroupOf(base, reqs[i])).Some?
    ensures reqs[i].src < net.g.n && q[1] < net.g.n
    ensures var r, src := Lookup(tables[v], GroupOf(base, reqs[i])).value, reqs[i].src;
      && r.group == base + reqs[i].id && r.origin == (src, net.nbrIf[src][q[1]])
      && (v == src ==> r.iif == 0 && r.oifs == {net.nbrIf[src][q[1]]})
  {
    var req := reqs[i];
    var links := Tree(net, req);
    InstalledFollows(net, base, reqs, tables, i);
    RequestTrailIff(net, base, reqs, tables, i, q);
    assert (q[0], q[1]) in links && q[0] == req.src;
    RouteFromSource(net, links, req.src, GroupOf(base, req), q[1], v);
  }

  lemma RouteFromSource(net: Net, links: set<(nat, nat)>, root: nat, group: nat, w: nat, v: nat)
    requires TreeIn(net, links, root) && OneWayOut(net, links, root) && v in Senders(links) && (root, w) in links
    ensures var r := RouteAt(net, links, root, group, v);
      && r.group == group && r.origin == (root, net.nbrIf[root][w])
      && (v == root ==> r.iif == 0 && r.oifs == {net.nbrIf[root][w]})
  {
    assert net.nbrIf[root][w] in Oifs(net, links, root);
  }

  lemma CopyStops(net: Net, req: Request, d: nat, k: nat)
    requires ValidRequest(net, req) && d in req.members && 0 < k < |Path(net.g, req.src, d)|
    ensures var p := Path(net.g, req.src, d);
      if p[k] in Senders(Tree(net, req)) then p[k] != req.src && Parent(Tree(net, req), p[k]) == p[k - 1] else p[k] == d
  {
    var p := Path(net.g, req.src, d);
    var links := Links(net.g, req.src, req.members);
    assert LinkInto(p, k) in links;
    PathStep(net.g, req.src, d, k);
    if p[k] != d {
      assert LinkInto(p, k + 1) in links;
    }
    if p[k] in Senders(links) {
      assert (Parent(links, p[k]), p[k]) in links;
    }
  }

  // The neighbour through which the walk to d leaves s.
  ghost function Exit(g: Graph, s: nat, d: nat): (w: nat)
    requires Routable(g, s, d) && s != d
    ensures w < g.n && Adjacent(g, s, w)
  {
    FirstHop(g, s, d);
    Candidates(g, s, d)[0]
  }

  ghost function ExitIf(net: Net, req: Request, d: nat): Interface
    requires ValidRequest(net, req) && d in req.members && d != req.src
  {
    net.nbrIf[req.src][Exit(net.g, req.src, d)]
  }

  lemma SameExit(net: Net, req: Request, d: nat, e: nat)
    requires ValidRequest(net, req) && d in req.members && d != req.src && e in req.members && e != req.src
    requires ExitIf(net, req, d) == ExitIf(net, req, e)
    ensures Exit(net.g, req.src, d) == Exit(net.g, req.src, e)
  {
  }

  lemma ExitLink(net: Net, req: Request, d: nat)
    requires ValidRequest(net, req) && d in req.members && d != req.src
    ensures (req.src, Exit(net.g, req.src, d)) in Tree(net, req)
  {
    FirstHop(net.g, req.src, d);
    assert LinkInto(Path(net.g, req.src, d), 1) in Links(net.g, req.src, req.members);
  }

  lemma SourceLinkIsExit(net: Net, req: Request, w: nat) returns (d: nat)
    requires ValidRequest(net, req) && (req.src, w) in Tree(net, req)
    ensures d in req.members && d != req.src && Exit(net.g, req.src, d) == w
  {
    var i;
    d, i := LinkWitness(net.g, req.src, req.members, req.src, w);
    PathSplits(net.g, req.src, d, i - 1);
    SelfDist(net.g, req.src);
    FirstHop(net.g, req.src, d);
  }

  // The interfaces out of the source are the exits of the walks.
  lemma SourceOifs(net: Net, req: Request, o: Interface)
    requires ValidRequest(net, req)
    ensures o in Oifs(net, Tree(net, req), req.src) <==>
      exists d :: d in req.members && d != req.src && o == ExitIf(net, req, d)
  {
    var links := Tree(net, req);
    if d :| d in req.members && d != req.src && o == ExitIf(net, req, d) {
      ExitLink(net, req, d);
    }
    if o in Oifs(net, links, req.src) {
      var l :| l in links && l.0 == req.src && o == net.nbrIf[req.src][l.1];
      assert l == (req.src, l.1);
      var d := SourceLinkIsExit(net, req, l.1);
    }
  }

  // The walks to all members other than the source leave it over the same link.
  ghost predicate SharedExit(net: Net, req: Request)
    requires ValidRequest(net, req)
  {
    forall d, e :: d in req.members && e in req.members && d != req.src && e != req.src ==>
      Exit(net.g, req.src, d) == Exit(net.g, req.src, e)
  }

  /** A request can be served exactly when some member is not the source itself and the
      walks to all such members leave the source over the same link. */
  lemma AcceptedIff(net: Net, req: Request)
    requires ValidRequest(net, req)
    ensures Accepted(net, req) <==> (exists d :: d in req.members && d != req.src) && SharedExit(net, req)
  {
    if Accepted(net, req) {
      AcceptedShares(net, req);
    }
    if d :| d in req.members && d != req.src && SharedExit(net, req) {
      SharedAccepted(net, req, d);
    }
  }

  lemma AcceptedShares(net: Net, req: Request)
    requires ValidRequest(net, req) && Accepted(net, req)
    ensures exists d :: d in req.members && d != req.src
    ensures SharedExit(net, req)
  {
    var o :| Oifs(net, Tree(net, req), req.src) == {o};
    SourceOifs(net, req, o);
    forall d, e | d in req.members && e in req.members && d != req.src && e != req.src
      ensures Exit(net.g, req.src, d) == Exit(net.g, req.src, e)
    {
      SourceOifs(net, req, ExitIf(net, req, d));
      SourceOifs(net, req, ExitIf(net, req, e));
      SameExit(net, req, d, e);
    }
  }

  lemma SharedAccepted(net: Net, req: Request, d: nat)
    requires ValidRequest(net, req) && d in req.members && d != req.src && SharedExit(net, req)
    ensures Accepted(net, req)
  {
    var o := ExitIf(net, req, d);
    SourceOifs(net, req, o);
    forall o' | o' in Oifs(net, Tree(net, req), req.src) ensures o' == o {
      SourceOifs(net, req, o');
    }
    assert Oifs(net, Tree(net, req), req.src) == {o};
  }
}
