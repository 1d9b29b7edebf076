/**
 Who hears a finding once the gossip has come to rest, on a client graph that
 does not change and without lost calls.
 */
module Coverage {
  import opened Sequences
  import opened SeenSet
  import opened Gossip
  import opened Network
  import opened HopBound
  import opened Spreading
  import opened AtMostOnce

  /** The client graph stays as it is and no call is lost. */
  ghost predicate Lossless(steps: seq<Step>) {
    forall step :: step in steps ==> !step.Refresh? && !step.Drop?
  }

  ghost predicate OnItsWay(net: Net, h: Host, id: FindingId) {
    exists c :: c in net.inflight && c.dest == h && c.id == id
  }

  ghost predicate Reached(net: Net, h: Host, id: FindingId) {
    Marked(net, h, id) || OnItsWay(net, h, id)
  }

  /** Every client of a switch that spreads the finding knows it or is about to be told. */
  ghost predicate Offered(net: Net) {
    forall u, w, id :: u in net.nodes && w in net.nodes[u].clients && Spreads(net, u, id) ==> Reached(net, w, id)
  }

  ghost predicate Quiet(net: Net, id: FindingId) {
    forall c :: c in net.inflight ==> c.id != id
  }

  lemma InFlightStays(net: Net, step: Step, c: Message)
    requires !step.Drop? && c in net.inflight
    ensures c in Apply(net, step).inflight || (Possible(net, step) && step.Deliver? && c == net.inflight[step.k])
  {
    if Possible(net, step) && step.Deliver? {
      var i :| 0 <= i < |net.inflight| && net.inflight[i] == c;
      var rest := Remove(net.inflight, step.k);
      if i != step.k {
        assert rest[if i < step.k then i else i - 1] == c;
      }
    }
  }

  /** A copy in flight stays there or marks its receiver. */
  lemma ReachedStays(net: Net, step: Step, h: Host, id: FindingId)
    requires Sound(net) && !step.Drop? && Reached(net, h, id)
    ensures Reached(Apply(net, step), h, id)
  {
    StepExtends(net, step);
    if !Marked(net, h, id) {
      var c :| c in net.inflight && c.dest == h && c.id == id;
      InFlightStays(net, step, c);
      if c !in Apply(net, step).inflight {
        DeliveryMarks(net, step.k);
      }
    }
  }

  lemma DeliveryMarks(net: Net, k: nat)
    requires NodesOk(net) && Possible(net, Deliver(k))
    ensures Marked(Apply(net, Deliver(k)), net.inflight[k].dest, net.inflight[k].id)
  {
    var m := net.inflight[k];
    if m.id in net.nodes[m.dest].seen {
      SeenWasMarked(net.nodes[m.dest], m.id);
    } else {
      MarkExtends(net, Apply(net, Deliver(k)), m.dest, FromPeer(m.id, EventOf(m)));
    }
  }

  lemma WithoutKeeps(clients: seq<Host>, sender: Host, w: Host)
    requires w in clients && w != sender
    ensures w in Without(clients, sender)
  {
    WithoutElems(clients, sender);
    assert w in Elems(Without(clients, sender));
  }

  lemma CopyFor(dests: seq<Host>, sender: Host, origin: Host, ttl: int, id: FindingId, alert: Alert, w: Host)
    requires w in dests
    ensures Message(sender, w, origin, ttl, id, alert) in Copies(dests, sender, origin, ttl, id, alert)
  {
    var i :| 0 <= i < |dests| && dests[i] == w;
    assert Copies(dests, sender, origin, ttl, id, alert)[i] == Message(sender, w, origin, ttl, id, alert);
  }

  lemma NewSpreader(net: Net, step: Step, u: Host, id: FindingId)
    requires Spreads(Apply(net, step), u, id) && !Spreads(net, u, id)
    ensures Possible(net, step)
    ensures (step.Originate? && step.host == u && step.id == id && Shareable(step.canShare, step.alert)) ||
            (step.Deliver? && net.inflight[step.k].dest == u && net.inflight[step.k].id == id
             && net.inflight[step.k].ttl > 1 && id !in net.nodes[u].seen)
  {
    var net' := Apply(net, step);
    if !IsOrigin(net', u, id) {
      var a :| AcceptedCopy(net', a, u, id) && a.ttl > 1;
      if a in net.accepted {
        assert AcceptedCopy(net, a, u, id);
      }
    }
  }

  lemma ShareOffers(net: Net, step: Step, w: Host)
    requires step.Originate? && Possible(net, step) && Shareable(step.canShare, step.alert)
    requires w in net.nodes[step.host].clients
    ensures OnItsWay(Apply(net, step), w, step.id)
  {
    var n := net.nodes[step.host];
    CopyFor(n.clients, n.name, n.name, n.findingTtl, step.id, step.alert, w);
    assert Message(n.name, w, n.name, n.findingTtl, step.id, step.alert) in Apply(net, step).inflight;
  }

  lemma AcceptOffers(net: Net, k: nat, w: Host)
    requires Possible(net, Deliver(k))
    requires var m := net.inflight[k];
             m.ttl > 1 && m.id !in net.nodes[m.dest].seen && w in net.nodes[m.dest].clients && w != m.sender
    ensures OnItsWay(Apply(net, Deliver(k)), w, net.inflight[k].id)
  {
    var m := net.inflight[k];
    var n := net.nodes[m.dest];
    WithoutKeeps(n.clients, m.sender, w);
    CopyFor(Without(n.clients, m.sender), n.name, m.origin, m.ttl - 1, m.id, m.alert, w);
    assert Message(n.name, w, m.origin, m.ttl - 1, m.id, m.alert) in Apply(net, Deliver(k)).inflight;
  }

  /** A switch that starts to spread a finding has just put a copy on the wire for each client that may not know it. */
  lemma NewSpreaderOffers(net: Net, step: Step, u: Host, w: Host, id: FindingId)
    requires Sound(net)
    requires u in net.nodes && w in net.nodes[u].clients
    requires Spreads(Apply(net, step), u, id) && !Spreads(net, u, id)
    ensures Reached(Apply(net, step), w, id)
  {
    NewSpreader(net, step, u, id);
    if step.Originate? {
      ShareOffers(net, step, w);
    } else {
      var m := net.inflight[step.k];
      if w == m.sender {
        EndsWereSent(net, m);
        assert Genuine(net, m);
        StepExtends(net, step);
      } else {
        AcceptOffers(net, step.k, w);
      }
    }
  }

  lemma StillOffered(net: Net, step: Step, u: Host, w: Host, id: FindingId)
    requires Sound(net) && Offered(net) && !step.Drop?
    requires u in net.nodes && w in net.nodes[u].clients && Spreads(Apply(net, step), u, id)
    ensures Reached(Apply(net, step), w, id)
  {
    if Spreads(net, u, id) {
      ReachedStays(net, step, w, id);
    } else {
      NewSpreaderOffers(net, step, u, w, id);
    }
  }

  lemma StepKeepsClients(net: Net, step: Step, h: Host)
    requires !step.Refresh? && h in Apply(net, step).nodes
    ensures h in net.nodes && Apply(net, step).nodes[h].clients == net.nodes[h].clients
  {
  }

  lemma {:induction false} OfferedStep(net: Net, step: Step)
    requires Sound(net) && Offered(net) && !step.Drop? && !step.Refresh?
    ensures Offered(Apply(net, step))
  {
    var net' := Apply(net, step);
    forall u, w, id | u in net'.nodes && w in net'.nodes[u].clients && Spreads(net', u, id)
      ensures Reached(net', w, id)
    {
      StepKeepsClients(net, step, u);
      StillOffered(net, step, u, w, id);
    }
  }

  lemma {:induction false} RunOffered(start: Net, steps: seq<Step>)
    requires Initial(start) && Lossless(steps)
    ensures Offered(Run(start, steps))
  {
    if steps == [] {
    } else {
      var init, last := steps[..|steps| - 1], steps[|steps| - 1];
      assert last in steps && forall s :: s in init ==> s in steps;
      RunOffered(start, init);
      RunSound(start, init);
      OfferedStep(Run(start, init), last);
    }
  }

  lemma AcceptedOverLink(net: Net, a: Message)
    requires Sound(net) && Traced(net) && AllRouted(net) && a in net.accepted
    ensures Spreads(net, a.sender, a.id) && (a.sender, a.dest) in net.links
  {
    EndsWereSent(net, a);
    assert Routed(net, a);
    var p :| Carries(net, a, p);
    assert (p[|p| - 2], p[|p| - 2 + 1]) in net.links;
  }

  ghost predicate HasSpreadingPeer(net: Net, nodes: map<Host, Node>, w: Host, id: FindingId) {
    exists u :: u in nodes && w in nodes[u].clients && Spreads(net, u, id)
  }

  /**
   Main result: exactly who has heard. At rest, a switch other than the origin knows the
   finding if and only if it is a client of the origin or of a switch that accepted a copy with TTL above 1.
   */
  lemma HeardExactly(start: Net, steps: seq<Step>, id: FindingId, w: Host)
    requires Initial(start) && Lossless(steps) && Quiet(Run(start, steps), id)
    requires id in Run(start, steps).sources && !IsOrigin(Run(start, steps), w, id)
    ensures Marked(Run(start, steps), w, id) <==> HasSpreadingPeer(Run(start, steps), start.nodes, w, id)
  {
    var net := Run(start, steps);
    RunOffered(start, steps);
    RunTraced(start, steps);
    RunRouted(start, steps);
    FixedGraph(start, steps);
    if Marked(net, w, id) {
      var a :| AcceptedCopy(net, a, w, id);
      AcceptedOverLink(net, a);
      assert (a.sender, w) in Edges(start.nodes);
    }
    if HasSpreadingPeer(net, start.nodes, w, id) {
      var u :| u in start.nodes && w in start.nodes[u].clients && Spreads(net, u, id);
      assert Reached(net, w, id);
    }
  }

  // ---- Everyone ---------------------------------------------------------------

  /** Every switch that the origin can reach over client links knows the finding. */
  ghost predicate EveryoneKnows(net: Net, id: FindingId)
    requires id in net.sources
  {
    forall p :: Walk(net.links, p) && p[0] == net.sources[id].host && p[|p| - 1] in net.nodes ==>
                  Marked(net, p[|p| - 1], id)
  }

  /** Nobody is left out behind a switch whose copy arrived with its last TTL. */
  ghost predicate FrontierClosed(net: Net, id: FindingId) {
    forall a, w ::
      (a in net.accepted && a.id == id && a.ttl <= 1 && a.dest in net.nodes
       && w in net.nodes[a.dest].clients && w in net.nodes)
      ==> Marked(net, w, id)
  }

  lemma WalkPrefix(links: set<(Host, Host)>, p: seq<Host>)
    requires Walk(links, p) && |p| > 1
    ensures Walk(links, p[..|p| - 1])
  {
    var q := p[..|p| - 1];
    forall i | 0 <= i < |q| - 1 ensures (q[i], q[i + 1]) in links {
      assert (p[i], p[i + 1]) in links;
    }
  }

  lemma {:induction false} KnownAlongWalk(net: Net, id: FindingId, p: seq<Host>)
    requires Sound(net) && Traced(net) && Offered(net) && Quiet(net, id) && FrontierClosed(net, id)
    requires net.links == Edges(net.nodes)
    requires id in net.sources && Walk(net.links, p)
    requires p[0] == net.sources[id].host && p[|p| - 1] in net.nodes
    ensures Marked(net, p[|p| - 1], id)
  {
    if |p| > 1 {
      var q := p[..|p| - 1];
      WalkPrefix(net.links, p);
      var u := p[|p| - 2];
      assert (p[|p| - 2], p[|p| - 2 + 1]) in net.links;
      KnownAlongWalk(net, id, q);
      assert u == q[|q| - 1];
      if !Spreads(net, u, id) {
        var a :| AcceptedCopy(net, a, u, id);
        assert a.ttl <= 1;
      }
    }
  }

  /** In one run: who is left out is left out behind a switch whose copy arrived with its last TTL. */
  lemma EveryoneKnowsIff(start: Net, steps: seq<Step>, id: FindingId)
    requires Initial(start) && Lossless(steps) && Quiet(Run(start, steps), id)
    requires id in Run(start, steps).sources
    ensures EveryoneKnows(Run(start, steps), id) <==> FrontierClosed(Run(start, steps), id)
  {
    var net := Run(start, steps);
    RunOffered(start, steps);
    RunTraced(start, steps);
    RunRouted(start, steps);
    FixedGraph(start, steps);
    GraphKept(start, net);
    if FrontierClosed(net, id) {
      forall p | Walk(net.links, p) && p[0] == net.sources[id].host && p[|p| - 1] in net.nodes
        ensures Marked(net, p[|p| - 1], id) {
        KnownAlongWalk(net, id, p);
      }
    }
    if EveryoneKnows(net, id) {
      forall a, w | a in net.accepted && a.id == id && a.ttl <= 1 &&
                    a.dest in net.nodes && w in net.nodes[a.dest].clients && w in net.nodes
        ensures Marked(net, w, id)
      {
        ClientIsReachable(net, a, w);
      }
    }
  }

  lemma GraphKept(start: Net, net: Net)
    requires start.nodes.Keys == net.nodes.Keys && net.links == Edges(start.nodes)
    requires forall h :: h in start.nodes ==> net.nodes[h].clients == start.nodes[h].clients
    ensures net.links == Edges(net.nodes)
  {
  }

  lemma WalkOn(links: set<(Host, Host)>, p: seq<Host>, w: Host)
    requires Walk(links, p) && (p[|p| - 1], w) in links
    ensures Walk(links, p + [w])
  {
    var q := p + [w];
    forall i | 0 <= i < |q| - 1 ensures (q[i], q[i + 1]) in links {
      if i < |p| - 1 {
        assert (p[i], p[i + 1]) in links;
      }
    }
  }

  lemma WalkTo(net: Net, a: Message) returns (p: seq<Host>)
    requires AllRouted(net) && a in net.sent
    ensures Walk(net.links, p) && p[0] == a.origin && p[|p| - 1] == a.dest
  {
    assert Routed(net, a);
    p :| Carries(net, a, p);
  }

  lemma ClientIsReachable(net: Net, a: Message, w: Host)
    requires Sound(net) && AllRouted(net) && a in net.accepted
    requires a.dest in net.nodes && w in net.nodes[a.dest].clients && w in net.nodes
    requires a.id in net.sources && EveryoneKnows(net, a.id)
    ensures Marked(net, w, a.id)
  {
    EndsWereSent(net, a);
    assert Genuine(net, a);
    var p := WalkTo(net, a);
    WalkOn(net.links, p, w);
    var q := p + [w];
    assert q[0] == a.origin && q[|q| - 1] == w;
  }

  /** Whoever knows the finding can be reached from its origin. */
  lemma MarkedIsReachable(net: Net, h: Host, id: FindingId)
    requires Sound(net) && Traced(net) && AllRouted(net) && net.links == Edges(net.nodes)
    requires Marked(net, h, id) && id in net.sources
    ensures h in ReachableFrom(net.nodes, net.sources[id].host)
  {
    if IsOrigin(net, h, id) {
      assert WalkOf(net.links, [h], h, h);
    } else {
      var a :| AcceptedCopy(net, a, h, id);
      EndsWereSent(net, a);
      assert Genuine(net, a);
      var p := WalkTo(net, a);
      assert WalkOf(net.links, p, a.origin, h);
    }
  }

  ghost predicate AcceptedAbove(net: Net, h: Host, id: FindingId, k: int) {
    exists a :: AcceptedCopy(net, a, h, id) && a.ttl >= k
  }

  /** Accepters with different TTLs are different switches, so a copy that ran down passed through many of them. */
  lemma {:induction false} ManyAccepters(net: Net, id: FindingId, k: int) returns (s: set<Host>)
    requires Sound(net) && AcceptedOnce(net, id) && id in net.sources && net.sources[id].host in net.nodes
    requires forall j :: k <= j <= net.nodes[net.sources[id].host].findingTtl ==> SomeAcceptedAt(net, id, j)
    requires k <= net.nodes[net.sources[id].host].findingTtl + 1
    ensures |s| == net.nodes[net.sources[id].host].findingTtl + 1 - k
    ensures s <= net.nodes.Keys - {net.sources[id].host}
    ensures forall h :: h in s ==> AcceptedAbove(net, h, id, k) && Marked(net, h, id)
    decreases net.nodes[net.sources[id].host].findingTtl + 1 - k
  {
    if k == net.nodes[net.sources[id].host].findingTtl + 1 {
      s := {};
    } else {
      var rest := ManyAccepters(net, id, k + 1);
      assert SomeAcceptedAt(net, id, k);
      var a :| AcceptedAt(net, a, id, k);
      assert AcceptedCopy(net, a, a.dest, id);
      assert Marked(net, a.dest, id);
      forall b | AcceptedCopy(net, b, a.dest, id) ensures b == a {
        SameCopy(net, a, b);
      }
      assert !AcceptedAbove(net, a.dest, id, k + 1);
      s := rest + {a.dest};
    }
  }

  lemma SameCopy(net: Net, a: Message, b: Message)
    requires AcceptedOnce(net, a.id) && a in net.accepted && b in net.accepted
    requires a.dest == b.dest && a.id == b.id
    ensures a == b
  {
    var i :| 0 <= i < |net.accepted| && net.accepted[i] == a;
    var j :| 0 <= j < |net.accepted| && net.accepted[j] == b;
  }

  lemma FillsUp(s: set<Host>, all: set<Host>, x: Host)
    requires x in all && s <= all - {x} && |s| >= |all| - 1
    ensures s == all - {x}
  {
    var others := all - {x};
    assert all == others + {x};
    assert others == s + (others - s);
  }

  lemma RanDown(net: Net, a: Message)
    requires Sound(net) && Traced(net) && AllRouted(net) && AcceptedOnce(net, a.id)
    requires a in net.accepted && a.ttl <= 1
    ensures a.id in net.sources && net.sources[a.id].host == a.origin && a.origin in net.nodes
    ensures net.nodes[a.origin].findingTtl >= 1 ==> a.ttl == 1
    ensures ChainBehind(net, a)
    ensures Marked(net, a.origin, a.id) && Marked(net, a.dest, a.id) && a.dest != a.origin
  {
    EndsWereSent(net, a);
    assert Genuine(net, a) && Routed(net, a) && ChainBehind(net, a);
    assert Marked(net, net.sources[a.id].host, a.id);
    assert !IsOrigin(net, a.dest, a.id);
  }

  lemma EveryTtlAccepted(net: Net, a: Message)
    requires a in net.accepted && a.ttl == 1 && ChainBehind(net, a)
    ensures forall j :: 1 <= j <= net.nodes[a.origin].findingTtl ==> SomeAcceptedAt(net, a.id, j)
  {
    assert AcceptedAt(net, a, a.id, 1);
  }

  ghost predicate AllMarked(net: Net, s: set<Host>, id: FindingId) {
    forall h :: h in s ==> Marked(net, h, id)
  }

  /** Behind a copy that ran down there are as many accepters as it could make hops. */
  lemma LastHopMeansMany(net: Net, a: Message) returns (s: set<Host>)
    requires Sound(net) && Traced(net) && AllRouted(net) && AcceptedOnce(net, a.id)
    requires a in net.accepted && a.ttl <= 1
    ensures a.id in net.sources && net.sources[a.id].host == a.origin && a.origin in net.nodes
    ensures AllMarked(net, s + {a.origin}, a.id) && s <= net.nodes.Keys - {a.origin}
    ensures |s| == Reach(net.nodes[a.origin].findingTtl)
  {
    RanDown(net, a);
    if net.nodes[a.origin].findingTtl >= 1 {
      s := RanAllTheWay(net, a);
    } else {
      s := {a.dest};
    }
  }

  lemma RanAllTheWay(net: Net, a: Message) returns (s: set<Host>)
    requires Sound(net) && AcceptedOnce(net, a.id) && a in net.accepted && a.ttl == 1 && ChainBehind(net, a)
    requires a.id in net.sources && net.sources[a.id].host == a.origin && a.origin in net.nodes
    requires net.nodes[a.origin].findingTtl >= 1
    ensures AllMarked(net, s, a.id) && s <= net.nodes.Keys - {a.origin} && |s| == net.nodes[a.origin].findingTtl
  {
    EveryTtlAccepted(net, a);
    s := ManyAccepters(net, a.id, 1);
  }

  lemma MarkedAreReachable(net: Net, s: set<Host>, id: FindingId)
    requires Sound(net) && Traced(net) && AllRouted(net) && net.links == Edges(net.nodes)
    requires AllMarked(net, s, id) && id in net.sources
    ensures s <= ReachableFrom(net.nodes, net.sources[id].host)
  {
    forall h | h in s ensures h in ReachableFrom(net.nodes, net.sources[id].host) {
      MarkedIsReachable(net, h, id);
    }
  }

  /**
   If a copy ran down to its last hop where no more switches can be reached than the TTL and one,
   each of them knows the finding.
   */
  lemma LastHopMeansAll(net: Net, a: Message)
    requires Sound(net) && Traced(net) && AllRouted(net) && AcceptedOnce(net, a.id) && net.links == Edges(net.nodes)
    requires a in net.accepted && a.ttl <= 1
    requires a.origin in net.nodes ==>
               Reach(net.nodes[a.origin].findingTtl) >= |ReachableFrom(net.nodes, a.origin)| - 1
    ensures AllMarked(net, ReachableFrom(net.nodes, a.origin), a.id)
  {
    var s := LastHopMeansMany(net, a);
    MarkedAreReachable(net, s + {a.origin}, a.id);
    FillsUp(s, ReachableFrom(net.nodes, a.origin), a.origin);
    assert ReachableFrom(net.nodes, a.origin) == s + {a.origin};
  }

  /**
   A lossless run, at rest, in which the finding had TTL `t` and was never evicted, on a fabric where
   `n` switches can be reached from its origin.
   */
  ghost predicate Settled(start: Net, steps: seq<Step>, id: FindingId, n: nat, t: int) {
    && Initial(start) && Lossless(steps)
    && NeverEvicted(start, steps, id) && Quiet(Run(start, steps), id)
    && id in Run(start, steps).sources
    && var origin := Run(start, steps).sources[id].host;
    && origin in start.nodes && start.nodes[origin].findingTtl == t
    && |ReachableFrom(start.nodes, origin)| == n
  }

  /** The same for a switch with other clients, as seen at the end of a run. */
  lemma SameReachable(start: Net, net: Net, origin: Host)
    requires start.nodes.Keys == net.nodes.Keys
    requires forall h :: h in start.nodes ==> net.nodes[h].clients == start.nodes[h].clients
    ensures Edges(net.nodes) == Edges(start.nodes)
    ensures ReachableFrom(net.nodes, origin) == ReachableFrom(start.nodes, origin)
  {
    assert Edges(net.nodes) == Edges(start.nodes);
  }

  /** What every such run is known to satisfy. */
  lemma SettledFacts(start: Net, steps: seq<Step>, id: FindingId, n: nat, t: int)
    requires Settled(start, steps, id, n, t)
    ensures var net := Run(start, steps);
            && Sound(net) && Traced(net) && AllRouted(net) && AcceptedOnce(net, id) && Offered(net)
            && net.links == Edges(net.nodes) == Edges(start.nodes) && net.nodes.Keys == start.nodes.Keys
            && var origin := net.sources[id].host;
            && net.nodes[origin].findingTtl == t && Marked(net, origin, id)
            && |ReachableFrom(net.nodes, origin)| == n
  {
    RunOnce(start, steps, id);
    RunTraced(start, steps);
    RunRouted(start, steps);
    RunOffered(start, steps);
    FixedGraph(start, steps);
    SameReachable(start, Run(start, steps), Run(start, steps).sources[id].host);
  }

  /**
   Main result. If `finding_ttl` is at least the number of switches that can be reached from the
   origin less one, itself included, and no switch evicts the finding, then at rest each of them knows it.
   */
  lemma FullCoverage(start: Net, steps: seq<Step>, id: FindingId, n: nat, t: int)
    requires Settled(start, steps, id, n, t) && Reach(t) >= n - 1
    ensures EveryoneKnows(Run(start, steps), id)
  {
    var net := Run(start, steps);
    SettledFacts(start, steps, id, n, t);
    if a :| a in net.accepted && a.id == id && a.ttl <= 1 {
      EndsWereSent(net, a);
      assert Genuine(net, a);
      LastHopMeansAll(net, a);
      ReachableKnow(net, id);
    } else {
      EveryoneKnowsIff(start, steps, id);
    }
  }

  lemma ReachableKnow(net: Net, id: FindingId)
    requires net.links == Edges(net.nodes) && id in net.sources
    requires AllMarked(net, ReachableFrom(net.nodes, net.sources[id].host), id)
    ensures EveryoneKnows(net, id)
  {
    forall p | Walk(net.links, p) && p[0] == net.sources[id].host && p[|p| - 1] in net.nodes
      ensures Marked(net, p[|p| - 1], id)
    {
      assert WalkOf(net.links, p, p[0], p[|p| - 1]);
      assert p[|p| - 1] in ReachableFrom(net.nodes, net.sources[id].host);
    }
  }

  ghost function Informed(net: Net, id: FindingId): set<Host> {
    set h | h in net.nodes && Marked(net, h, id)
  }

  /** The switches within `hops` links of the origin. */
  ghost function InRangeOf(nodes: map<Host, Node>, origin: Host, hops: nat): set<Host> {
    set h | h in nodes && exists p :: WalkOf(Edges(nodes), p, origin, h) && |p| - 1 <= hops
  }

  /** Every switch within the links a copy may travel knows the finding. */
  ghost predicate RangeKnows(net: Net, id: FindingId, t: int)
    requires id in net.sources
  {
    InRangeOf(net.nodes, net.sources[id].host, Reach(t)) <= Informed(net, id)
  }

  lemma ClientOfSpreaderKnows(net: Net, u: Host, w: Host, id: FindingId)
    requires Offered(net) && Quiet(net, id) && Spreads(net, u, id) && (u, w) in Edges(net.nodes)
    ensures Marked(net, w, id)
  {
    assert Reached(net, w, id);
  }

  lemma OneLinkKnows(net: Net, id: FindingId, t: int)
    requires Offered(net) && EndsMarked(net) && Quiet(net, id) && id in net.sources && t <= 1
    ensures RangeKnows(net, id, t)
  {
    var origin := net.sources[id].host;
    forall h | h in InRangeOf(net.nodes, origin, Reach(t)) ensures Marked(net, h, id) {
      var p :| WalkOf(Edges(net.nodes), p, origin, h) && |p| - 1 <= Reach(t);
      if |p| == 2 {
        assert (p[0], p[0 + 1]) in Edges(net.nodes);
        ClientOfSpreaderKnows(net, origin, h, id);
      }
    }
  }

  /** The sufficient half of what `finding_ttl` guarantees about the switches in its range. */
  lemma RangeCoverage(start: Net, steps: seq<Step>, id: FindingId, n: nat, t: int)
    requires Settled(start, steps, id, n, t) && (t <= 1 || t >= n - 1)
    ensures RangeKnows(Run(start, steps), id, t)
  {
    var net := Run(start, steps);
    SettledFacts(start, steps, id, n, t);
    if t <= 1 {
      OneLinkKnows(net, id, t);
    } else {
      FullCoverage(start, steps, id, n, t);
      EveryoneInRange(net, id, t);
    }
  }

  lemma EveryoneInRange(net: Net, id: FindingId, t: int)
    requires id in net.sources && net.links == Edges(net.nodes) && EveryoneKnows(net, id)
    ensures RangeKnows(net, id, t)
  {
    forall h | h in InRangeOf(net.nodes, net.sources[id].host, Reach(t)) ensures Marked(net, h, id) {
      var p :| WalkOf(Edges(net.nodes), p, net.sources[id].host, h) && |p| - 1 <= Reach(t);
      assert Walk(net.links, p) && p[|p| - 1] == h;
    }
  }
}
