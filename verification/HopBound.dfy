/**
 How far a finding travels: in every run, with any losses, evictions, delivery
 order and peer refreshes, a copy has made exactly as many hops as its TTL says.
 */
module HopBound {
  import opened Sequences
  import opened Gossip
  import opened Network

  ghost predicate Walk(links: set<(Host, Host)>, p: seq<Host>) {
    |p| > 0 && forall i :: 0 <= i < |p| - 1 ==> (p[i], p[i + 1]) in links
  }

  ghost predicate WalkOf(links: set<(Host, Host)>, p: seq<Host>, from: Host, to: Host) {
    Walk(links, p) && p[0] == from && p[|p| - 1] == to
  }

  ghost predicate Reaches(links: set<(Host, Host)>, from: Host, to: Host) {
    exists p :: WalkOf(links, p, from, to)
  }

  /** The switches that can be reached from `from`, itself included. */
  ghost function ReachableFrom(nodes: map<Host, Node>, from: Host): set<Host> {
    set h | h in nodes && Reaches(Edges(nodes), from, h)
  }

  /** The walk never turns straight back to the switch it just came from. */
  ghost predicate Forward(p: seq<Host>) {
    forall i :: 0 <= i < |p| - 2 ==> p[i] != p[i + 2]
  }

  ghost predicate ForwardWalk(links: set<(Host, Host)>, p: seq<Host>, from: Host, to: Host) {
    Walk(links, p) && Forward(p) && p[0] == from && p[|p| - 1] == to
  }

  ghost predicate Carries(net: Net, m: Message, p: seq<Host>)
    requires m.origin in net.nodes
  {
    && |p| - 1 == net.nodes[m.origin].findingTtl - m.ttl + 1
    && |p| >= 2 && p[|p| - 2] == m.sender
    && ForwardWalk(net.links, p, m.origin, m.dest)
  }

  /** How many links a copy may travel when `finding_ttl` is `limit`: always at least the first one. */
  function Reach(limit: int): (hops: nat)
    ensures hops >= 1 && hops >= limit
  {
    if limit >= 1 then limit else 1
  }

  ghost predicate TtlInRange(ttl: int, limit: int) {
    1 <= limit - ttl + 1 <= Reach(limit)
  }

  /** A forward walk of `limit - ttl + 1` links leads from the origin over the sender to the receiver. */
  ghost predicate Routed(net: Net, m: Message) {
    && m.origin in net.nodes
    && TtlInRange(m.ttl, net.nodes[m.origin].findingTtl)
    && exists p :: Carries(net, m, p)
  }

  ghost predicate AllRouted(net: Net) {
    forall m :: m in net.sent ==> Routed(net, m)
  }

  lemma WalkExtends(links: set<(Host, Host)>, p: seq<Host>, from: Host, to: Host, next: Host)
    requires ForwardWalk(links, p, from, to) && (to, next) in links
    requires |p| >= 2 ==> p[|p| - 2] != next
    ensures ForwardWalk(links, p + [next], from, next)
  {
    var q := p + [next];
    forall i | 0 <= i < |q| - 1 ensures (q[i], q[i + 1]) in links {
      if i < |p| - 1 {
        assert (p[i], p[i + 1]) in links;
      }
    }
    forall i | 0 <= i < |q| - 2 ensures q[i] != q[i + 2] {
      if i < |p| - 2 {
        assert p[i] != p[i + 2];
      }
    }
  }

  lemma StaysRouted(net: Net, net': Net, m: Message)
    requires Routed(net, m) && Extends(net, net')
    ensures Routed(net', m)
  {
    var p :| Carries(net, m, p);
    assert Carries(net', m, p);
  }

  lemma WithoutMember(clients: seq<Host>, sender: Host, c: Host)
    requires c in Without(clients, sender)
    ensures c in clients && c != sender
  {
    WithoutElems(clients, sender);
    assert c in Elems(Without(clients, sender));
  }

  /** The copies a switch passes on continue the walk of the copy it accepted. */
  lemma ForwardsRouted(net: Net, m: Message, c: Message)
    requires Linked(net) && Routed(net, m)
    requires m.dest in net.nodes && net.nodes[m.dest].name == m.dest
    requires c in Forwards(net.nodes[m.dest], m)
    ensures Routed(net, c)
  {
    var p :| Carries(net, m, p);
    WithoutMember(net.nodes[m.dest].clients, m.sender, c.dest);
    WalkExtends(net.links, p, m.origin, m.dest, c.dest);
    assert Carries(net, c, p + [c.dest]);
  }

  lemma OriginRouted(net: Net, host: Host, m: Message)
    requires Linked(net) && host in net.nodes
    requires m.sender == m.origin == host && m.ttl == net.nodes[host].findingTtl
    requires m.dest in net.nodes[host].clients
    ensures Routed(net, m)
  {
    assert Carries(net, m, [host, m.dest]);
  }

  lemma NewlyRouted(net: Net, step: Step, m: Message)
    requires Sound(net) && AllRouted(net) && Extends(net, Apply(net, step))
    requires Linked(Apply(net, step)) && NodesOk(Apply(net, step))
    requires m in Apply(net, step).sent && m !in net.sent
    ensures Routed(Apply(net, step), m)
  {
    var net' := Apply(net, step);
    NewlySent(net, step, m);
    if step.Originate? {
      OriginRouted(net', step.host, m);
    } else {
      var cause := net.inflight[step.k];
      EndsWereSent(net, cause);
      StaysRouted(net, net', cause);
      ForwardsRouted(net', cause, m);
    }
  }

  lemma RoutedStep(net: Net, step: Step)
    requires Sound(net) && AllRouted(net)
    ensures AllRouted(Apply(net, step))
  {
    StepExtends(net, step);
    StepSound(net, step);
    forall m | m in Apply(net, step).sent ensures Routed(Apply(net, step), m) {
      if m in net.sent {
        StaysRouted(net, Apply(net, step), m);
      } else {
        NewlyRouted(net, step, m);
      }
    }
  }

  /** Only sharing and accepting put new copies on the wire. */
  lemma NewlySent(net: Net, step: Step, m: Message)
    requires NodesOk(net)
    requires m in Apply(net, step).sent && m !in net.sent
    ensures Possible(net, step) && (step.Originate? || step.Deliver?)
    ensures step.Originate? ==>
              && m.sender == m.origin == step.host && m.id == step.id && m.alert == step.alert
              && m.ttl == net.nodes[step.host].findingTtl && m.dest in net.nodes[step.host].clients
    ensures step.Deliver? ==>
              var cause := net.inflight[step.k];
              && cause.id !in net.nodes[cause.dest].seen
              && m in Forwards(net.nodes[cause.dest], cause)
              && m in Forwards(Apply(net, step).nodes[cause.dest], cause)
  {
  }

  lemma {:induction false} RunRouted(start: Net, steps: seq<Step>)
    requires Initial(start)
    ensures Sound(Run(start, steps)) && AllRouted(Run(start, steps))
  {
    RunSound(start, steps);
    if steps == [] {
    } else {
      var before := Run(start, steps[..|steps| - 1]);
      RunRouted(start, steps[..|steps| - 1]);
      RoutedStep(before, steps[|steps| - 1]);
    }
  }

  lemma {:induction false} EventWasAccepted(accepted: seq<Message>, h: Host, e: PeerEvent) returns (m: Message)
    requires e in EventsAt(accepted, h)
    ensures m in accepted && m.dest == h && EventOf(m) == e
  {
    var last := accepted[|accepted| - 1];
    if last.dest == h && EventOf(last) == e {
      m := last;
    } else {
      m := EventWasAccepted(accepted[..|accepted| - 1], h, e);
    }
  }

  /** `to` can be reached from `from` over `hops` links, the last one leaving `via`. */
  ghost predicate Within(links: set<(Host, Host)>, from: Host, via: Host, to: Host, hops: int) {
    exists p :: ForwardWalk(links, p, from, to) && |p| >= 2 && p[|p| - 2] == via && |p| - 1 == hops
  }

  /**
   Main result. Every peer event a switch ever stores names a true source and its
   true severity, summary and scope, came from a switch that had marked the id, and
   travelled `limit - ttl + 1` hops, which is at most `finding_ttl` hops (one hop
   when `finding_ttl` is below one).
   */
  lemma HopBound(start: Net, steps: seq<Step>, h: Host, e: PeerEvent)
    requires Initial(start)
    requires h in Run(start, steps).nodes && e in Run(start, steps).nodes[h].events
    ensures var net := Run(start, steps);
            && e.id in net.sources && e.origin in net.nodes
            && net.sources[e.id].host == e.origin
            && net.sources[e.id].alert.severity == e.severity
            && net.sources[e.id].alert.summary == e.summary
            && net.sources[e.id].alert.scope == e.scope
            && Marked(net, e.sender, e.id)
            && var limit := net.nodes[e.origin].findingTtl;
            && 1 <= limit - e.ttl + 1 <= Reach(limit)
            && Within(net.links, e.origin, e.sender, h, limit - e.ttl + 1)
  {
    var net := Run(start, steps);
    RunRouted(start, steps);
    var m := EventWasAccepted(net.accepted, h, e);
    EndsWereSent(net, m);
    assert Genuine(net, m) && Routed(net, m);
    var p :| Carries(net, m, p);
    assert ForwardWalk(net.links, p, e.origin, h);
  }

  // ---- Fixed client graphs ---------------------------------------------------

  ghost predicate NoRefresh(steps: seq<Step>) {
    forall step :: step in steps ==> !step.Refresh?
  }

  /** Without peer refreshes the links of the run are the client graph it started with. */
  lemma {:induction false} FixedGraph(start: Net, steps: seq<Step>)
    requires Initial(start) && NoRefresh(steps)
    ensures Run(start, steps).links == Edges(start.nodes)
    ensures Run(start, steps).nodes.Keys == start.nodes.Keys
    ensures forall h :: h in start.nodes ==>
              && Run(start, steps).nodes[h].clients == start.nodes[h].clients
              && Run(start, steps).nodes[h].findingTtl == start.nodes[h].findingTtl
  {
    if steps == [] {
    } else {
      var init, last := steps[..|steps| - 1], steps[|steps| - 1];
      assert last in steps && forall s :: s in init ==> s in steps;
      FixedGraph(start, init);
    }
  }
}
