/**
 Gossip on a client graph without cycles: no switch is offered a finding twice,
 and without losses exactly the switches within `finding_ttl` links record it.
 */
module Trees {
  import opened Sequences
  import opened SeenSet
  import opened Gossip
  import opened Network
  import opened HopBound
  import opened Spreading
  import opened Coverage

  /**
   There is at most one way to walk from one switch to another without turning
   straight back. For symmetric links this says that the graph has no cycles.
   */
  ghost predicate Forest(links: set<(Host, Host)>) {
    forall p, q, a, b :: ForwardWalk(links, p, a, b) && ForwardWalk(links, q, a, b) ==> p == q
  }

  /** No two copies of a finding are addressed to the same switch, and none to its origin. */
  ghost predicate SentOnce(net: Net) {
    && (forall i, j :: 0 <= i < j < |net.sent| && net.sent[i].id == net.sent[j].id ==> net.sent[i].dest != net.sent[j].dest)
    && (forall m :: m in net.sent ==> m.dest != m.origin)
  }

  lemma {:induction false} Twice(s: seq<Message>, x: Message) returns (i: nat, j: nat)
    requires multiset(s)[x] >= 2
    ensures i < j < |s| && s[i] == s[j] == x
  {
    var k := |s| - 1;
    assert s == s[..k] + [s[k]];
    if s[k] == x {
      assert x in multiset(s[..k]);
      i :| 0 <= i < k && s[i] == x;
      j := k;
    } else {
      i, j := Twice(s[..k], x);
    }
  }

  /** A copy in flight to `u` and an accepted copy at `u` would be two copies addressed to `u`. */
  lemma NotYetAccepted(net: Net, m: Message, a: Message)
    requires Conserved(net) && SentOnce(net)
    requires m in net.inflight && a in net.accepted
    ensures m.dest != a.dest || m.id != a.id
  {
    EndsWereSent(net, m);
    EndsWereSent(net, a);
    if a == m {
      assert multiset(net.sent)[m] >= 2;
      var i, j := Twice(net.sent, m);
    } else {
      var i :| 0 <= i < |net.sent| && net.sent[i] == m;
      var j :| 0 <= j < |net.sent| && net.sent[j] == a;
    }
  }

  /** So a copy always arrives at a switch that has not heard of the finding: the seen check never fires. */
  lemma ArrivesFirst(net: Net, m: Message)
    requires Sound(net) && Traced(net) && SentOnce(net)
    requires m in net.inflight
    ensures !Marked(net, m.dest, m.id) && !Spreads(net, m.dest, m.id)
  {
    EndsWereSent(net, m);
    assert Genuine(net, m);
    forall a | a in net.accepted ensures !AcceptedCopy(net, a, m.dest, m.id) {
      NotYetAccepted(net, m, a);
    }
  }

  lemma BackToOrigin(net: Net, m: Message)
    requires Forest(net.links) && Routed(net, m)
    ensures m.dest != m.origin
  {
    var p :| Carries(net, m, p);
    if m.dest == m.origin {
      assert ForwardWalk(net.links, [m.origin], m.origin, m.origin);
    }
  }

  /** Two copies with the same source and receiver were sent by the same switch. */
  lemma SameSender(net: Net, m: Message, c: Message)
    requires Forest(net.links) && Routed(net, m) && Routed(net, c)
    requires m.origin == c.origin && m.dest == c.dest
    ensures m.sender == c.sender
  {
    var p :| Carries(net, m, p);
    var q :| Carries(net, c, q);
    assert p == q;
  }

  lemma BatchKeepsDests(sent: seq<Message>, dests: seq<Host>, sender: Host, origin: Host, ttl: int, id: FindingId, alert: Alert)
    requires forall i, j :: 0 <= i < j < |sent| && sent[i].id == sent[j].id ==> sent[i].dest != sent[j].dest
    requires Distinct(dests)
    requires forall m :: m in sent && m.id == id ==> m.dest !in dests
    ensures var all := sent + Copies(dests, sender, origin, ttl, id, alert);
            forall i, j :: 0 <= i < j < |all| && all[i].id == all[j].id ==> all[i].dest != all[j].dest
  {
    var all := sent + Copies(dests, sender, origin, ttl, id, alert);
    forall i, j | 0 <= i < j < |all| && all[i].id == all[j].id ensures all[i].dest != all[j].dest {
      if j >= |sent| && i < |sent| {
        assert all[i] in sent;
      }
    }
  }

  lemma ShareSentOnce(net: Net, step: Step)
    requires Sound(net) && SentOnce(net)
    requires step.Originate? && Possible(net, step) && Shareable(step.canShare, step.alert)
    requires AllRouted(Apply(net, step)) && Forest(Apply(net, step).links)
    ensures SentOnce(Apply(net, step))
  {
    var n := net.nodes[step.host];
    var net' := Apply(net, step);
    forall m | m in net.sent ensures m.id != step.id {
      assert Genuine(net, m);
    }
    BatchKeepsDests(net.sent, n.clients, n.name, n.name, n.findingTtl, step.id, step.alert);
    forall m | m in net'.sent ensures m.dest != m.origin {
      assert Routed(net', m);
      BackToOrigin(net', m);
    }
  }

  function Passed(net: Net, k: nat, w: Host): Message
    requires k < |net.inflight| && net.inflight[k].dest in net.nodes
  {
    var m := net.inflight[k];
    Message(net.nodes[m.dest].name, w, m.origin, m.ttl - 1, m.id, m.alert)
  }

  lemma PassedIsSent(net: Net, k: nat, w: Host)
    requires Possible(net, Deliver(k)) && net.inflight[k].id !in net.nodes[net.inflight[k].dest].seen
    requires net.inflight[k].ttl > 1
    requires w in Without(net.nodes[net.inflight[k].dest].clients, net.inflight[k].sender)
    ensures Passed(net, k, w) in Apply(net, Deliver(k)).sent
  {
    var m := net.inflight[k];
    var n := net.nodes[m.dest];
    CopyFor(Without(n.clients, m.sender), n.name, m.origin, m.ttl - 1, m.id, m.alert, w);
  }

  /** An accepting switch never sends to a switch that was already sent a copy. */
  lemma ForwardsAreNew(net: Net, k: nat, c: Message)
    requires Sound(net) && Traced(net) && SentOnce(net)
    requires Possible(net, Deliver(k)) && net.inflight[k].id !in net.nodes[net.inflight[k].dest].seen
    requires AllRouted(Apply(net, Deliver(k))) && Forest(Apply(net, Deliver(k)).links)
    requires c in net.sent && c.id == net.inflight[k].id
    requires net.inflight[k].ttl > 1
    ensures c.dest !in Without(net.nodes[net.inflight[k].dest].clients, net.inflight[k].sender)
  {
    var m := net.inflight[k];
    if c.dest in Without(net.nodes[m.dest].clients, m.sender) {
      PassedIsSent(net, k, c.dest);
      StepExtends(net, Deliver(k));
      SameSender(Apply(net, Deliver(k)), c, Passed(net, k, c.dest)) by {
        EndsWereSent(net, m);
        assert Genuine(net, m) && Genuine(net, c);
      }
      assert Spreads(net, c.sender, c.id);
      ArrivesFirst(net, m);
    }
  }

  lemma AcceptSentOnce(net: Net, k: nat)
    requires Sound(net) && Traced(net) && SentOnce(net)
    requires Possible(net, Deliver(k)) && net.inflight[k].id !in net.nodes[net.inflight[k].dest].seen
    requires AllRouted(Apply(net, Deliver(k))) && Forest(Apply(net, Deliver(k)).links)
    ensures SentOnce(Apply(net, Deliver(k)))
  {
    var m := net.inflight[k];
    var n := net.nodes[m.dest];
    var net' := Apply(net, Deliver(k));
    if m.ttl > 1 {
      forall c | c in net.sent && c.id == m.id ensures c.dest !in Without(n.clients, m.sender) {
        ForwardsAreNew(net, k, c);
      }
      WithoutDistinct(n.clients, m.sender);
      BatchKeepsDests(net.sent, Without(n.clients, m.sender), n.name, m.origin, m.ttl - 1, m.id, m.alert);
    }
    forall c | c in net'.sent ensures c.dest != c.origin {
      assert Routed(net', c);
      BackToOrigin(net', c);
    }
  }

  lemma SentOnceStep(net: Net, step: Step)
    requires Sound(net) && Traced(net) && SentOnce(net)
    requires AllRouted(Apply(net, step)) && Forest(Apply(net, step).links)
    ensures SentOnce(Apply(net, step))
    ensures Apply(net, step).suppressed == net.suppressed
  {
    if Possible(net, step) {
      match step
      case Originate(_, canShare, _, alert) =>
        if Shareable(canShare, alert) {
          ShareSentOnce(net, step);
        }
      case Deliver(k) =>
        var m := net.inflight[k];
        ArrivesFirst(net, m);
        SeenWasMarked(net.nodes[m.dest], m.id);
        AcceptSentOnce(net, k);
      case Drop(_) =>
      case Refresh(_, _) =>
    }
  }

  /**
   Main result, any losses, evictions and delivery order: on a client graph without cycles a
   finding is sent to each switch at most once and never back to its origin, the seen check
   never fires, and every switch records it at most once.
   */
  lemma {:induction false} OneCopyEach(start: Net, steps: seq<Step>)
    requires Initial(start) && NoRefresh(steps) && Forest(Edges(start.nodes))
    ensures SentOnce(Run(start, steps))
    ensures Run(start, steps).suppressed == []
    ensures forall h, id :: h in Run(start, steps).nodes ==> RecordsOnce(Run(start, steps).nodes[h].events, id)
  {
    if steps == [] {
    } else {
      var init, last := steps[..|steps| - 1], steps[|steps| - 1];
      assert last in steps && forall s :: s in init ==> s in steps;
      OneCopyEach(start, init);
      RunTraced(start, init);
      RunRouted(start, steps);
      FixedGraph(start, steps);
      SentOnceStep(Run(start, init), last);
    }
    RunSound(start, steps);
    forall h, id | h in Run(start, steps).nodes ensures RecordsOnce(Run(start, steps).nodes[h].events, id) {
      SentOnceRecordsOnce(Run(start, steps), id);
    }
  }

  lemma AcceptedDiffer(net: Net, i: nat, j: nat)
    requires Conserved(net) && SentOnce(net) && i < j < |net.accepted|
    ensures net.accepted[i].dest != net.accepted[j].dest || net.accepted[i].id != net.accepted[j].id
  {
    var a, b := net.accepted[i], net.accepted[j];
    EndsWereSent(net, a);
    EndsWereSent(net, b);
    if a == b {
      assert net.accepted == net.accepted[..j] + [b] + net.accepted[j + 1..];
      assert net.accepted[..j][i] == a;
      assert multiset(net.accepted)[a] >= 2;
      assert multiset(net.sent)[a] >= 2;
      var k, l := Twice(net.sent, a);
    } else {
      var k :| 0 <= k < |net.sent| && net.sent[k] == a;
      var l :| 0 <= l < |net.sent| && net.sent[l] == b;
    }
  }

  lemma SentOnceRecordsOnce(net: Net, id: FindingId)
    requires Sound(net) && SentOnce(net)
    ensures forall h :: h in net.nodes ==> RecordsOnce(net.nodes[h].events, id)
  {
    forall i, j | 0 <= i < j < |net.accepted| && net.accepted[i].id == net.accepted[j].id == id
      ensures net.accepted[i].dest != net.accepted[j].dest
    {
      AcceptedDiffer(net, i, j);
    }
    forall a | a in net.accepted && a.id == id ensures !IsOrigin(net, a.dest, id) {
      EndsWereSent(net, a);
      assert Genuine(net, a);
    }
    forall h | h in net.nodes ensures RecordsOnce(net.nodes[h].events, id) {
      AcceptedOnceRecordsOnce(net, h, id);
    }
  }

  // ---- Exactly who records, without losses ------------------------------------

  ghost predicate SomeCopy(net: Net, u: Host, w: Host, id: FindingId, ttl: int) {
    exists c :: c in net.sent && c.sender == u && c.dest == w && c.id == id && c.ttl == ttl
  }

  ghost predicate SharedToAll(net: Net) {
    forall id, w ::
      (id in net.sources && net.sources[id].host in net.nodes && w in net.nodes[net.sources[id].host].clients)
      ==> SomeCopy(net, net.sources[id].host, w, id, net.nodes[net.sources[id].host].findingTtl)
  }

  ghost predicate PassedToAll(net: Net) {
    forall a, w ::
      (a in net.accepted && a.ttl > 1 && a.dest in net.nodes && w in net.nodes[a.dest].clients && w != a.sender)
      ==> SomeCopy(net, a.dest, w, a.id, a.ttl - 1)
  }

  lemma CopyStays(net: Net, net': Net, u: Host, w: Host, id: FindingId, ttl: int)
    requires Extends(net, net') && SomeCopy(net, u, w, id, ttl)
    ensures SomeCopy(net', u, w, id, ttl)
  {
  }

  lemma ShareSends(net: Net, step: Step, w: Host)
    requires NodesOk(net) && step.Originate? && Possible(net, step) && Shareable(step.canShare, step.alert)
    requires w in net.nodes[step.host].clients
    ensures SomeCopy(Apply(net, step), step.host, w, step.id, net.nodes[step.host].findingTtl)
  {
    var n := net.nodes[step.host];
    CopyFor(n.clients, n.name, n.name, n.findingTtl, step.id, step.alert, w);
    assert Message(n.name, w, n.name, n.findingTtl, step.id, step.alert) in Apply(net, step).sent;
  }

  lemma SharedStep(net: Net, step: Step)
    requires NodesOk(net) && SharedToAll(net) && !step.Refresh?
    ensures SharedToAll(Apply(net, step))
  {
    var net' := Apply(net, step);
    StepExtends(net, step);
    forall id, w | id in net'.sources && net'.sources[id].host in net'.nodes
                   && w in net'.nodes[net'.sources[id].host].clients
      ensures SomeCopy(net', net'.sources[id].host, w, id, net'.nodes[net'.sources[id].host].findingTtl)
    {
      var host := net'.sources[id].host;
      assert net'.nodes[host].clients == net.nodes[host].clients;
      if id in net.sources {
        CopyStays(net, net', host, w, id, net.nodes[host].findingTtl);
      } else {
        ShareSends(net, step, w);
      }
    }
  }

  lemma AcceptPasses(net: Net, k: nat, w: Host)
    requires NodesOk(net) && Possible(net, Deliver(k)) && net.inflight[k].id !in net.nodes[net.inflight[k].dest].seen
    requires net.inflight[k].ttl > 1 && w in net.nodes[net.inflight[k].dest].clients && w != net.inflight[k].sender
    ensures var a := net.inflight[k]; SomeCopy(Apply(net, Deliver(k)), a.dest, w, a.id, a.ttl - 1)
  {
    var a := net.inflight[k];
    WithoutKeeps(net.nodes[a.dest].clients, a.sender, w);
    PassedIsSent(net, k, w);
  }

  lemma PassedStep(net: Net, step: Step)
    requires NodesOk(net) && PassedToAll(net) && !step.Refresh?
    ensures PassedToAll(Apply(net, step))
  {
    var net' := Apply(net, step);
    StepExtends(net, step);
    forall a, w | a in net'.accepted && a.ttl > 1 && a.dest in net'.nodes && w in net'.nodes[a.dest].clients
                  && w != a.sender
      ensures SomeCopy(net', a.dest, w, a.id, a.ttl - 1)
    {
      assert net'.nodes[a.dest].clients == net.nodes[a.dest].clients;
      if a in net.accepted {
        CopyStays(net, net', a.dest, w, a.id, a.ttl - 1);
      } else {
        AcceptPasses(net, step.k, w);
      }
    }
  }

  lemma {:induction false} RunSpreads(start: Net, steps: seq<Step>)
    requires Initial(start) && Lossless(steps)
    ensures SharedToAll(Run(start, steps)) && PassedToAll(Run(start, steps))
    ensures Run(start, steps).dropped == []
  {
    if steps == [] {
    } else {
      var init, last := steps[..|steps| - 1], steps[|steps| - 1];
      assert last in steps && forall s :: s in init ==> s in steps;
      RunSpreads(start, init);
      RunSound(start, init);
      SharedStep(Run(start, init), last);
      PassedStep(Run(start, init), last);
    }
  }

  /** A copy that was neither lost nor suppressed and is no longer in flight was accepted. */
  lemma Arrived(net: Net, c: Message)
    requires Conserved(net) && net.dropped == net.suppressed == []
    requires c in net.sent && Quiet(net, c.id)
    ensures c in net.accepted
  {
    assert c in multiset(net.sent);
  }

  ghost predicate AcceptedFrom(net: Net, u: Host, w: Host, id: FindingId, ttl: int) {
    exists c :: c in net.accepted && c.sender == u && c.dest == w && c.id == id && c.ttl == ttl
  }

  lemma CopyArrived(net: Net, u: Host, w: Host, id: FindingId, ttl: int)
    requires Conserved(net) && net.dropped == net.suppressed == []
    requires SomeCopy(net, u, w, id, ttl) && Quiet(net, id)
    ensures AcceptedFrom(net, u, w, id, ttl)
  {
    var c :| c in net.sent && c.sender == u && c.dest == w && c.id == id && c.ttl == ttl;
    Arrived(net, c);
  }

  /** The finding follows every forward walk from its origin for as long as the TTL lasts. */
  lemma {:induction false} FollowsWalk(net: Net, id: FindingId, p: seq<Host>)
    requires Sound(net) && SharedToAll(net) && PassedToAll(net)
    requires net.dropped == net.suppressed == [] && Quiet(net, id)
    requires net.links == Edges(net.nodes)
    requires id in net.sources && net.sources[id].host in net.nodes
    requires Walk(net.links, p) && Forward(p) && |p| >= 2 && p[0] == net.sources[id].host
    requires |p| == 2 || |p| - 1 <= net.nodes[p[0]].findingTtl
    ensures AcceptedFrom(net, p[|p| - 2], p[|p| - 1], id, net.nodes[p[0]].findingTtl - |p| + 2)
  {
    var u, w := p[|p| - 2], p[|p| - 1];
    assert (p[|p| - 2], p[|p| - 2 + 1]) in net.links;
    var limit := net.nodes[p[0]].findingTtl;
    if |p| > 2 {
      var q := p[..|p| - 1];
      WalkPrefix(net.links, p);
      assert Forward(q) by {
        forall i | 0 <= i < |q| - 2 ensures q[i] != q[i + 2] {
          assert p[i] != p[i + 2];
        }
      }
      FollowsWalk(net, id, q);
      var a :| a in net.accepted && a.sender == q[|q| - 2] && a.dest == u && a.id == id && a.ttl == limit - |q| + 2;
      assert p[|p| - 3] != p[|p| - 3 + 2];
    }
    CopyArrived(net, u, w, id, limit - |p| + 2);
  }

  // ---- Distance ------------------------------------------------------------------

  /** `hops` is the length of a shortest walk. */
  ghost predicate Distance(links: set<(Host, Host)>, from: Host, to: Host, hops: int) {
    && (exists p :: WalkOf(links, p, from, to) && |p| - 1 == hops)
    && (forall p :: WalkOf(links, p, from, to) ==> |p| - 1 >= hops)
  }

  /** Cutting out the places where a walk turns straight back makes it a forward walk, and no longer. */
  lemma {:induction false} Straighten(links: set<(Host, Host)>, p: seq<Host>, from: Host, to: Host)
    returns (q: seq<Host>)
    requires WalkOf(links, p, from, to)
    ensures ForwardWalk(links, q, from, to) && |q| <= |p|
    decreases |p|
  {
    if Forward(p) {
      q := p;
    } else {
      var i :| 0 <= i < |p| - 2 && p[i] == p[i + 2];
      var r := p[..i] + p[i + 2..];
      forall j | 0 <= j < |r| - 1 ensures (r[j], r[j + 1]) in links {
        var k := if j < i then j else j + 2;
        assert (p[k], p[k + 1]) in links;
      }
      q := Straighten(links, r, from, to);
    }
  }

  /** Without cycles a forward walk is a shortest walk. */
  lemma ForwardIsShortest(links: set<(Host, Host)>, p: seq<Host>, from: Host, to: Host)
    requires Forest(links) && ForwardWalk(links, p, from, to)
    ensures Distance(links, from, to, |p| - 1)
  {
    assert WalkOf(links, p, from, to);
    forall q | WalkOf(links, q, from, to) ensures |q| >= |p| {
      var r := Straighten(links, q, from, to);
      assert r == p;
    }
  }

  ghost predicate RecordsFinding(net: Net, h: Host, id: FindingId) {
    h in net.nodes && exists e :: e in net.nodes[h].events && e.id == id
  }

  /** `h` lies at a distance from the origin that the finding can travel. */
  ghost predicate InRange(net: Net, h: Host, id: FindingId) {
    id in net.sources && net.sources[id].host in net.nodes &&
    var limit := net.nodes[net.sources[id].host].findingTtl;
    exists d :: 1 <= d <= Reach(limit) && Distance(net.links, net.sources[id].host, h, d)
  }

  lemma {:induction false} EventsOfAccepted(accepted: seq<Message>, h: Host, m: Message)
    requires m in accepted && m.dest == h
    ensures EventOf(m) in EventsAt(accepted, h)
  {
    var init, last := accepted[..|accepted| - 1], accepted[|accepted| - 1];
    assert accepted == init + [last];
    if m in init {
      EventsOfAccepted(init, h, m);
    }
  }

  lemma {:induction false} InRangeRecords(net: Net, h: Host, id: FindingId)
    requires Sound(net) && SharedToAll(net) && PassedToAll(net) && Forest(net.links)
    requires net.dropped == net.suppressed == [] && Quiet(net, id)
    requires net.links == Edges(net.nodes)
    requires InRange(net, h, id)
    ensures RecordsFinding(net, h, id)
  {
    var origin := net.sources[id].host;
    var limit := net.nodes[origin].findingTtl;
    var d :| 1 <= d <= Reach(limit) && Distance(net.links, origin, h, d);
    var p :| WalkOf(net.links, p, origin, h) && |p| - 1 == d;
    var q := Straighten(net.links, p, origin, h);
    assert WalkOf(net.links, q, origin, h);
    FollowsWalk(net, id, q);
    var a :| a in net.accepted && a.sender == q[|q| - 2] && a.dest == h && a.id == id
             && a.ttl == limit - |q| + 2;
    assert Marked(net, h, id);
    EventsOfAccepted(net.accepted, h, a);
  }

  /** Every record tells the distance: its TTL is `finding_ttl` less the distance plus one. */
  lemma RecordTellsDistance(net: Net, h: Host, e: PeerEvent)
    requires Sound(net) && AllRouted(net) && Forest(net.links)
    requires h in net.nodes && e in net.nodes[h].events
    ensures e.id in net.sources && net.sources[e.id].host == e.origin && e.origin in net.nodes
    ensures Distance(net.links, e.origin, h, net.nodes[e.origin].findingTtl - e.ttl + 1)
    ensures InRange(net, h, e.id)
  {
    var m := EventWasAccepted(net.accepted, h, e);
    EndsWereSent(net, m);
    assert Genuine(net, m) && Routed(net, m);
    var p :| Carries(net, m, p);
    ForwardIsShortest(net.links, p, e.origin, h);
  }

  lemma ExactAtRest(net: Net, id: FindingId, h: Host)
    requires Sound(net) && AllRouted(net) && SharedToAll(net) && PassedToAll(net) && Forest(net.links)
    requires net.dropped == net.suppressed == [] && Quiet(net, id)
    requires net.links == Edges(net.nodes)
    ensures RecordsFinding(net, h, id) <==> InRange(net, h, id)
  {
    if InRange(net, h, id) {
      InRangeRecords(net, h, id);
    }
    if RecordsFinding(net, h, id) {
      var e :| e in net.nodes[h].events && e.id == id;
      RecordTellsDistance(net, h, e);
    }
  }

  /**
   Main result. On a client graph without cycles and without losses, once the gossip of a
   finding is at rest, a switch has recorded it if and only if its distance from the origin is
   between 1 and `finding_ttl` (1 when `finding_ttl` is below one), and then exactly once.
   */
  lemma TreeExactness(start: Net, steps: seq<Step>, id: FindingId, h: Host)
    requires Initial(start) && Lossless(steps) && Forest(Edges(start.nodes))
    requires Quiet(Run(start, steps), id)
    ensures Run(start, steps).links == Edges(start.nodes)
    ensures RecordsFinding(Run(start, steps), h, id) <==> InRange(Run(start, steps), h, id)
    ensures h in Run(start, steps).nodes ==> RecordsOnce(Run(start, steps).nodes[h].events, id)
  {
    var net := Run(start, steps);
    RunSpreads(start, steps);
    RunRouted(start, steps);
    FixedGraph(start, steps);
    GraphKept(start, net);
    OneCopyEach(start, steps);
    ExactAtRest(net, id, h);
  }

  /** Main result: in any run without cycles, what a switch stores tells how far away the origin is. */
  lemma TtlTellsDistance(start: Net, steps: seq<Step>, h: Host, e: PeerEvent)
    requires Initial(start) && NoRefresh(steps) && Forest(Edges(start.nodes))
    requires h in Run(start, steps).nodes && e in Run(start, steps).nodes[h].events
    ensures e.origin in start.nodes
    ensures Distance(Edges(start.nodes), e.origin, h, start.nodes[e.origin].findingTtl - e.ttl + 1)
  {
    RunRouted(start, steps);
    FixedGraph(start, steps);
    RecordTellsDistance(Run(start, steps), h, e);
  }
}
