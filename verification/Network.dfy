/**
 The fabric: all switches, the copies in flight between them, and the steps by
 which they move. A run is any sequence of steps; a step that is not possible in
 the current state changes nothing.
 */
module Network {
  import opened Sequences
  import opened SeenSet
  import opened Gossip

  datatype Source = Source(host: Host, alert: Alert)

  /**
   `nodes` and `inflight` are the state of the fabric. The rest are history
   variables: every copy ever sent, and how it ended (accepted, suppressed by the
   seen check, or lost); the source of every shared id; and every client link
   that ever existed.
   */
  datatype Net = Net(nodes: map<Host, Node>, inflight: seq<Message>,
                     sent: seq<Message>, accepted: seq<Message>,
                     suppressed: seq<Message>, dropped: seq<Message>,
                     sources: map<FindingId, Source>, links: set<(Host, Host)>)

  datatype Step =
    | Originate(host: Host, canShare: bool, id: FindingId, alert: Alert)
    | Deliver(k: nat)
    | Drop(k: nat)
    | Refresh(host: Host, clients: seq<Host>)

  function Remove<T>(s: seq<T>, k: nat): seq<T>
    requires k < |s|
  {
    s[..k] + s[k + 1..]
  }

  function Edges(nodes: map<Host, Node>): set<(Host, Host)> {
    set h, c | h in nodes && c in nodes[h].clients :: (h, c)
  }

  /** Ids are unique across the fabric, so a finding is originated once. */
  ghost predicate Possible(net: Net, step: Step) {
    match step
    case Originate(host, _, id, _) => host in net.nodes && id !in net.sources
    case Deliver(k) => k < |net.inflight| && net.inflight[k].dest in net.nodes
    case Drop(k) => k < |net.inflight|
    case Refresh(host, clients) => host in net.nodes && Distinct(clients)
  }

  function AfterOriginate(net: Net, host: Host, canShare: bool, id: FindingId, alert: Alert): Net
    requires host in net.nodes
  {
    if !Shareable(canShare, alert) then net
    else
      var r := Share(net.nodes[host], canShare, id, alert);
      net.(nodes := net.nodes[host := r.node],
           inflight := net.inflight + r.sends,
           sent := net.sent + r.sends,
           sources := net.sources[id := Source(host, alert)])
  }

  function AfterDeliver(net: Net, k: nat): Net
    requires k < |net.inflight| && net.inflight[k].dest in net.nodes
  {
    var m := net.inflight[k];
    var r := Receive(net.nodes[m.dest], m);
    if r.alreadySeen then
      net.(inflight := Remove(net.inflight, k), suppressed := net.suppressed + [m])
    else
      net.(nodes := net.nodes[m.dest := r.node],
           inflight := Remove(net.inflight, k) + r.sends,
           sent := net.sent + r.sends,
           accepted := net.accepted + [m])
  }

  function AfterRefresh(net: Net, host: Host, clients: seq<Host>): Net
    requires host in net.nodes
  {
    net.(nodes := net.nodes[host := net.nodes[host].(clients := clients)],
         links := net.links + (set c | c in clients :: (host, c)))
  }

  ghost function Apply(net: Net, step: Step): Net {
    if !Possible(net, step) then net
    else
      match step
      case Originate(host, canShare, id, alert) => AfterOriginate(net, host, canShare, id, alert)
      case Deliver(k) => AfterDeliver(net, k)
      case Drop(k) => net.(inflight := Remove(net.inflight, k), dropped := net.dropped + [net.inflight[k]])
      case Refresh(host, clients) => AfterRefresh(net, host, clients)
  }

  ghost function Run(net: Net, steps: seq<Step>): Net {
    if steps == [] then net
    else Apply(Run(net, steps[..|steps| - 1]), steps[|steps| - 1])
  }

  ghost predicate Fresh(name: Host, n: Node) {
    n.name == name && n.seen == [] && n.events == [] && n.history == [] && Distinct(n.clients)
  }

  ghost predicate Initial(net: Net) {
    && (forall h :: h in net.nodes ==> Fresh(h, net.nodes[h]))
    && net.inflight == net.sent == net.accepted == net.suppressed == net.dropped == []
    && net.sources == map[]
    && net.links == Edges(net.nodes)
  }

  // ---- Invariants of every run -------------------------------------------

  /** Every copy ever sent is in flight or ended in exactly one way. */
  ghost predicate Conserved(net: Net) {
    multiset(net.sent) == multiset(net.inflight) + multiset(net.accepted)
                          + multiset(net.suppressed) + multiset(net.dropped)
  }

  /** Some switch `h` marked `id`, ever. */
  ghost predicate Marked(net: Net, h: Host, id: FindingId) {
    h in net.nodes && id in Ids(net.nodes[h].history)
  }

  ghost predicate NodesOk(net: Net) {
    forall h :: h in net.nodes ==>
      NodeOk(net.nodes[h]) && net.nodes[h].name == h && Elems(Ids(net.nodes[h].history)) <= net.sources.Keys
  }

  /** A copy carries its source's alert unchanged, and was sent by a switch that marked the id. */
  ghost predicate Genuine(net: Net, m: Message) {
    && m.id in net.sources && net.sources[m.id] == Source(m.origin, m.alert)
    && m.origin in net.nodes
    && Marked(net, m.sender, m.id)
  }

  ghost predicate Linked(net: Net) {
    forall h, c :: h in net.nodes && c in net.nodes[h].clients ==> (h, c) in net.links
  }

  /** What an accepting switch stored: the accepted copies addressed to it, in order. */
  function EventsAt(accepted: seq<Message>, h: Host): seq<PeerEvent> {
    if accepted == [] then []
    else
      var rest, m := EventsAt(accepted[..|accepted| - 1], h), accepted[|accepted| - 1];
      if m.dest == h then rest + [EventOf(m)] else rest
  }

  ghost predicate AllGenuine(net: Net) {
    forall m :: m in net.sent ==> Genuine(net, m)
  }

  ghost predicate Logged(net: Net) {
    forall h :: h in net.nodes ==> net.nodes[h].events == EventsAt(net.accepted, h)
  }

  /** An id is marked where it originated and wherever a copy of it was accepted. */
  ghost predicate EndsMarked(net: Net) {
    && (forall m :: m in net.accepted ==> Marked(net, m.dest, m.id))
    && (forall id :: id in net.sources ==> Marked(net, net.sources[id].host, id))
  }

  ghost predicate Sound(net: Net) {
    && Conserved(net)
    && NodesOk(net)
    && Linked(net)
    && AllGenuine(net)
    && Logged(net)
    && EndsMarked(net)
  }

  /** What no step takes back. */
  ghost predicate Extends(net: Net, net': Net) {
    && net.nodes.Keys == net'.nodes.Keys
    && (forall h :: h in net.nodes ==> net'.nodes[h].findingTtl == net.nodes[h].findingTtl)
    && (forall h, id :: Marked(net, h, id) ==> Marked(net', h, id))
    && (forall id :: id in net.sources ==> id in net'.sources && net'.sources[id] == net.sources[id])
    && net.links <= net'.links
    && net.sent <= net'.sent
    && net.accepted <= net'.accepted
  }

  lemma RemoveOne<T>(s: seq<T>, k: nat)
    requires k < |s|
    ensures multiset(s) == multiset(Remove(s, k)) + multiset{s[k]}
    ensures forall x :: x in Remove(s, k) ==> x in s
  {
    assert s == s[..k] + [s[k]] + s[k + 1..];
  }

  lemma EndsWereSent(net: Net, m: Message)
    requires Conserved(net)
    requires m in net.inflight || m in net.accepted || m in net.suppressed || m in net.dropped
    ensures m in net.sent
  {
    assert m in multiset(net.sent);
  }

  lemma MarkedGrows(n: Node, e: Mention)
    ensures Ids(n.history + [e]) == Ids(n.history) + [e.id]
    ensures Elems(Ids(n.history + [e])) == Elems(Ids(n.history)) + {e.id}
  {
    assert Ids(n.history + [e]) == Ids(n.history) + [e.id];
    ElemsConcat(Ids(n.history), [e.id]);
  }

  lemma SeenWasMarked(n: Node, id: FindingId)
    requires NodeOk(n)
    ensures id in n.seen ==> id in Elems(Ids(n.history))
  {
    SeenIffRecent(Ids(n.history), id);
  }

  lemma InitialSound(net: Net)
    requires Initial(net)
    ensures Sound(net)
  {
    forall h | h in net.nodes ensures NodeOk(net.nodes[h]) {
      assert Ids(net.nodes[h].history) == [];
    }
  }

  lemma MarkExtends(net: Net, net': Net, h: Host, e: Mention)
    requires h in net.nodes && net'.nodes.Keys == net.nodes.Keys
    requires forall g :: g in net.nodes && g != h ==> net'.nodes[g] == net.nodes[g]
    requires net'.nodes[h].history == net.nodes[h].history + [e]
    ensures forall g, id :: Marked(net', g, id) <==> Marked(net, g, id) || (g == h && id == e.id)
  {
    MarkedGrows(net.nodes[h], e);
    var ids, ids' := Ids(net.nodes[h].history), Ids(net'.nodes[h].history);
    assert forall id :: id in ids' <==> id in ids || id == e.id;
  }

  /** An accepted copy marks its id at its receiver, and nothing else is marked. */
  lemma AcceptMarks(net: Net, k: nat)
    requires Possible(net, Deliver(k)) && net.inflight[k].id !in net.nodes[net.inflight[k].dest].seen
    ensures forall h, id :: Marked(Apply(net, Deliver(k)), h, id) <==>
              Marked(net, h, id) || (h == net.inflight[k].dest && id == net.inflight[k].id)
  {
    var m := net.inflight[k];
    MarkExtends(net, Apply(net, Deliver(k)), m.dest, FromPeer(m.id, EventOf(m)));
  }

  lemma StepExtends(net: Net, step: Step)
    ensures Extends(net, Apply(net, step))
  {
    var net' := Apply(net, step);
    if Possible(net, step) {
      match step
      case Originate(host, canShare, id, alert) =>
        if Shareable(canShare, alert) {
          MarkExtends(net, net', host, Own(id));
        }
      case Deliver(k) =>
        var m := net.inflight[k];
        if m.id !in net.nodes[m.dest].seen {
          MarkExtends(net, net', m.dest, FromPeer(m.id, EventOf(m)));
        }
      case Drop(k) =>
      case Refresh(host, clients) =>
    }
  }

  lemma StaysGenuine(net: Net, net': Net)
    requires AllGenuine(net) && Extends(net, net')
    ensures forall m :: m in net.sent ==> Genuine(net', m)
  {
    forall m | m in net.sent ensures Genuine(net', m) {
      assert Genuine(net, m);
    }
  }

  lemma ConservedStep(net: Net, step: Step)
    requires Conserved(net)
    ensures Conserved(Apply(net, step))
  {
    if Possible(net, step) && (step.Deliver? || step.Drop?) {
      RemoveOne(net.inflight, step.k);
    }
  }

  lemma ShareNodeOk(net: Net, host: Host, canShare: bool, id: FindingId, alert: Alert)
    requires NodesOk(net) && host in net.nodes && id !in net.sources
    ensures NodeOk(Share(net.nodes[host], canShare, id, alert).node)
  {
    SeenWasMarked(net.nodes[host], id);
    ShareKeepsOk(net.nodes[host], canShare, id, alert);
  }

  lemma NodesOkAfterMark(net: Net, net': Net, h: Host, e: Mention)
    requires NodesOk(net) && h in net.nodes && net'.nodes.Keys == net.nodes.Keys
    requires forall g :: g in net.nodes && g != h ==> net'.nodes[g] == net.nodes[g]
    requires NodeOk(net'.nodes[h]) && net'.nodes[h].name == h
    requires net'.nodes[h].history == net.nodes[h].history + [e]
    requires net'.sources.Keys == net.sources.Keys + {e.id}
    ensures NodesOk(net')
  {
    MarkedGrows(net.nodes[h], e);
  }

  lemma NodesOkDeliver(net: Net, k: nat)
    requires Conserved(net) && AllGenuine(net) && NodesOk(net) && Possible(net, Deliver(k))
    ensures NodesOk(AfterDeliver(net, k))
  {
    var m := net.inflight[k];
    EndsWereSent(net, m);
    assert Genuine(net, m);
    ReceiveKeepsOk(net.nodes[m.dest], m);
    if m.id !in net.nodes[m.dest].seen {
      NodesOkAfterMark(net, AfterDeliver(net, k), m.dest, FromPeer(m.id, EventOf(m)));
    }
  }

  lemma NodesOkStep(net: Net, step: Step)
    requires Conserved(net) && AllGenuine(net) && NodesOk(net)
    ensures NodesOk(Apply(net, step))
  {
    if Possible(net, step) {
      match step
      case Originate(host, canShare, id, alert) =>
        ShareNodeOk(net, host, canShare, id, alert);
        if Shareable(canShare, alert) {
          NodesOkAfterMark(net, AfterOriginate(net, host, canShare, id, alert), host, Own(id));
        }
      case Deliver(k) =>
        NodesOkDeliver(net, k);
      case Drop(k) =>
      case Refresh(host, clients) =>
    }
  }

  lemma LinkedStep(net: Net, step: Step)
    requires Linked(net)
    ensures Linked(Apply(net, step))
  {
  }

  lemma SharedGenuine(net: Net, step: Step)
    requires NodesOk(net) && step.Originate? && Possible(net, step) && Shareable(step.canShare, step.alert)
    ensures forall c :: c in Share(net.nodes[step.host], step.canShare, step.id, step.alert).sends ==>
              Genuine(Apply(net, step), c)
  {
    MarkExtends(net, Apply(net, step), step.host, Own(step.id));
  }

  lemma ForwardedGenuine(net: Net, k: nat)
    requires NodesOk(net) && Possible(net, Deliver(k)) && Genuine(net, net.inflight[k])
    requires net.inflight[k].id !in net.nodes[net.inflight[k].dest].seen
    ensures forall c :: c in Forwards(net.nodes[net.inflight[k].dest], net.inflight[k]) ==>
              Genuine(Apply(net, Deliver(k)), c)
  {
    var m := net.inflight[k];
    MarkExtends(net, Apply(net, Deliver(k)), m.dest, FromPeer(m.id, EventOf(m)));
  }

  lemma GenuineStep(net: Net, step: Step)
    requires Conserved(net) && NodesOk(net) && AllGenuine(net)
    ensures AllGenuine(Apply(net, step))
  {
    StepExtends(net, step);
    StaysGenuine(net, Apply(net, step));
    if Possible(net, step) {
      match step
      case Originate(_, canShare, _, alert) =>
        if Shareable(canShare, alert) {
          SharedGenuine(net, step);
        }
      case Deliver(k) =>
        var m := net.inflight[k];
        EndsWereSent(net, m);
        if m.id !in net.nodes[m.dest].seen {
          ForwardedGenuine(net, k);
        }
      case Drop(k) =>
      case Refresh(host, clients) =>
    }
  }

  lemma EventsAppend(accepted: seq<Message>, m: Message, h: Host)
    ensures EventsAt(accepted + [m], h) == EventsAt(accepted, h) + if m.dest == h then [EventOf(m)] else []
  {
    assert (accepted + [m])[..|accepted|] == accepted;
  }

  lemma LoggedStep(net: Net, step: Step)
    requires Logged(net)
    ensures Logged(Apply(net, step))
  {
    var net' := Apply(net, step);
    forall h | h in net'.nodes ensures net'.nodes[h].events == EventsAt(net'.accepted, h) {
      if net'.accepted != net.accepted {
        EventsAppend(net.accepted, net.inflight[step.k], h);
      }
    }
  }

  lemma EndsMarkedStep(net: Net, step: Step)
    requires EndsMarked(net)
    ensures EndsMarked(Apply(net, step))
  {
    var net' := Apply(net, step);
    StepExtends(net, step);
    if Possible(net, step) {
      match step
      case Originate(host, canShare, id, alert) =>
        if Shareable(canShare, alert) {
          MarkExtends(net, net', host, Own(id));
        }
      case Deliver(k) =>
        var m := net.inflight[k];
        if m.id !in net.nodes[m.dest].seen {
          MarkExtends(net, net', m.dest, FromPeer(m.id, EventOf(m)));
        }
      case Drop(k) =>
      case Refresh(host, clients) =>
    }
  }

  lemma StepSound(net: Net, step: Step)
    requires Sound(net)
    ensures Sound(Apply(net, step))
  {
    ConservedStep(net, step);
    NodesOkStep(net, step);
    LinkedStep(net, step);
    GenuineStep(net, step);
    LoggedStep(net, step);
    EndsMarkedStep(net, step);
  }

  lemma {:induction false} RunSound(start: Net, steps: seq<Step>)
    requires Initial(start)
    ensures Sound(Run(start, steps))
  {
    if steps == [] {
      InitialSound(start);
    } else {
      RunSound(start, steps[..|steps| - 1]);
      StepSound(Run(start, steps[..|steps| - 1]), steps[|steps| - 1]);
    }
  }

  /** A finding shared after a refresh goes to exactly the new clients, in their order. */
  lemma SharedAfterRefresh(net: Net, host: Host, clients: seq<Host>, id: FindingId, alert: Alert)
    requires NodesOk(net) && host in net.nodes && id !in net.sources && Distinct(clients)
    requires alert.severity == "warning" || alert.severity == "critical"
    ensures var before := net.inflight;
            var after := Apply(Apply(net, Refresh(host, clients)), Originate(host, true, id, alert)).inflight;
            && |after| == |before| + |clients| && after[..|before|] == before
            && forall i :: 0 <= i < |clients| ==>
                 && after[|before| + i].sender == host && after[|before| + i].dest == clients[i]
                 && after[|before| + i].ttl == net.nodes[host].findingTtl
  {
  }

  // ---- Which findings get shared ----------------------------------------------------

  /** At step k a switch that may share at all raised a finding of at least warning severity, for the first time. */
  ghost predicate Raised(start: Net, steps: seq<Step>, k: nat, id: FindingId, source: Source) {
    && k < |steps| && steps[k] == Originate(source.host, true, id, source.alert)
    && (source.alert.severity == "warning" || source.alert.severity == "critical")
    && source.host in Run(start, steps[..k]).nodes && id !in Run(start, steps[..k]).sources
  }

  lemma RaisedEarlier(start: Net, steps: seq<Step>, k: nat, id: FindingId, source: Source)
    requires steps != [] && k < |steps| - 1
    ensures Raised(start, steps, k, id, source) <==> Raised(start, steps[..|steps| - 1], k, id, source)
  {
    assert steps[..|steps| - 1][..k] == steps[..k];
  }

  /** What one step adds to the shared findings. */
  lemma SharedByStep(net: Net, step: Step, id: FindingId, source: Source)
    ensures var net' := Apply(net, step);
            (id in net'.sources && net'.sources[id] == source) <==>
            (id in net.sources && net.sources[id] == source)
            || (&& step == Originate(source.host, true, id, source.alert)
                && (source.alert.severity == "warning" || source.alert.severity == "critical")
                && source.host in net.nodes && id !in net.sources)
  {
  }

  /**
   Main result: in every run a finding is shared if and only if a switch that is enabled and not dormant
   raised it with severity warning or critical, and then by that switch and with that content.
   */
  lemma {:induction false} SharedIff(start: Net, steps: seq<Step>, id: FindingId, source: Source)
    requires Initial(start)
    ensures (id in Run(start, steps).sources && Run(start, steps).sources[id] == source) <==>
            exists k: nat :: Raised(start, steps, k, id, source)
  {
    if steps == [] {
    } else {
      var n := |steps| - 1;
      var init := steps[..n];
      SharedIff(start, init, id, source);
      SharedByStep(Run(start, init), steps[n], id, source);
      if k: nat :| Raised(start, init, k, id, source) {
        RaisedEarlier(start, steps, k, id, source);
      }
      if k: nat :| Raised(start, steps, k, id, source) {
        if k < n {
          RaisedEarlier(start, steps, k, id, source);
        }
      }
      if steps[n] == Originate(source.host, true, id, source.alert) {
        assert Raised(start, steps, n, id, source) <==>
               (source.alert.severity == "warning" || source.alert.severity == "critical")
               && source.host in Run(start, init).nodes && id !in Run(start, init).sources;
      }
    }
  }
}
