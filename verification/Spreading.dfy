/**
 Which switches put a finding on the wire, and how accepted copies chain back to
 the origin. Everything here holds in every run.
 */
module Spreading {
  import opened SeenSet
  import opened Gossip
  import opened Network
  import opened HopBound

  ghost predicate IsOrigin(net: Net, h: Host, id: FindingId) {
    id in net.sources && net.sources[id].host == h
  }

  ghost predicate AcceptedCopy(net: Net, a: Message, h: Host, id: FindingId) {
    a in net.accepted && a.dest == h && a.id == id
  }

  /** `h` shared the finding itself, or accepted a copy it may pass on. */
  ghost predicate Spreads(net: Net, h: Host, id: FindingId) {
    IsOrigin(net, h, id) || exists a :: AcceptedCopy(net, a, h, id) && a.ttl > 1
  }

  ghost predicate SentBySpreaders(net: Net) {
    forall m :: m in net.sent ==> Spreads(net, m.sender, m.id)
  }

  /** A switch knows an id because it originated it or because it accepted a copy. */
  ghost predicate HeardSomehow(net: Net) {
    forall h, id :: Marked(net, h, id) ==> IsOrigin(net, h, id) || exists a :: AcceptedCopy(net, a, h, id)
  }

  ghost predicate AcceptedAt(net: Net, a: Message, id: FindingId, ttl: int) {
    a in net.accepted && a.id == id && a.ttl == ttl
  }

  ghost predicate SomeAcceptedAt(net: Net, id: FindingId, ttl: int) {
    exists a :: AcceptedAt(net, a, id, ttl)
  }

  /** Behind a copy with TTL t there is an accepted copy for every larger TTL up to the origin's. */
  ghost predicate ChainBehind(net: Net, m: Message) {
    m.origin in net.nodes &&
    forall k :: m.ttl < k <= net.nodes[m.origin].findingTtl ==> SomeAcceptedAt(net, m.id, k)
  }

  ghost predicate Chained(net: Net) {
    forall m :: m in net.sent ==> ChainBehind(net, m)
  }

  ghost predicate Traced(net: Net) {
    SentBySpreaders(net) && HeardSomehow(net) && Chained(net)
  }

  lemma SpreadsStays(net: Net, net': Net, h: Host, id: FindingId)
    requires Extends(net, net') && Spreads(net, h, id)
    ensures Spreads(net', h, id)
  {
    if !IsOrigin(net, h, id) {
      var a :| AcceptedCopy(net, a, h, id) && a.ttl > 1;
      assert AcceptedCopy(net', a, h, id);
    }
  }

  lemma ChainStays(net: Net, net': Net, m: Message)
    requires Extends(net, net') && ChainBehind(net, m)
    ensures ChainBehind(net', m)
  {
    assert net'.nodes[m.origin].findingTtl == net.nodes[m.origin].findingTtl;
    forall k | m.ttl < k <= net'.nodes[m.origin].findingTtl
      ensures SomeAcceptedAt(net', m.id, k)
    {
      assert SomeAcceptedAt(net, m.id, k);
      var a :| AcceptedAt(net, a, m.id, k);
      assert AcceptedAt(net', a, m.id, k);
    }
  }

  lemma NewlySpread(net: Net, step: Step, m: Message)
    requires NodesOk(net) && m in Apply(net, step).sent && m !in net.sent
    ensures Spreads(Apply(net, step), m.sender, m.id)
  {
    NewlySent(net, step, m);
    if step.Deliver? {
      assert AcceptedCopy(Apply(net, step), net.inflight[step.k], m.sender, m.id);
    }
  }

  lemma SpreadersStep(net: Net, step: Step)
    requires NodesOk(net) && SentBySpreaders(net)
    ensures SentBySpreaders(Apply(net, step))
  {
    StepExtends(net, step);
    forall m | m in Apply(net, step).sent ensures Spreads(Apply(net, step), m.sender, m.id) {
      if m in net.sent {
        SpreadsStays(net, Apply(net, step), m.sender, m.id);
      } else {
        NewlySpread(net, step, m);
      }
    }
  }

  lemma HeardStep(net: Net, step: Step)
    requires HeardSomehow(net)
    ensures HeardSomehow(Apply(net, step))
  {
    var net' := Apply(net, step);
    StepExtends(net, step);
    forall h, id | Marked(net', h, id)
      ensures IsOrigin(net', h, id) || exists a :: AcceptedCopy(net', a, h, id)
    {
      if Marked(net, h, id) {
        if !IsOrigin(net, h, id) {
          var a :| AcceptedCopy(net, a, h, id);
          assert AcceptedCopy(net', a, h, id);
        }
      } else {
        NewlyMarked(net, step, h, id);
        if step.Deliver? {
          assert AcceptedCopy(net', net.inflight[step.k], h, id);
        }
      }
    }
  }

  lemma NewlyMarked(net: Net, step: Step, h: Host, id: FindingId)
    requires Marked(Apply(net, step), h, id) && !Marked(net, h, id)
    ensures Possible(net, step)
    ensures (step.Originate? && IsOrigin(Apply(net, step), h, id)) ||
            (step.Deliver? && net.inflight[step.k].dest == h && net.inflight[step.k].id == id
             && net.inflight[step.k] in Apply(net, step).accepted)
  {
    var net' := Apply(net, step);
    match step
    case Originate(host, canShare, i, alert) =>
      if Shareable(canShare, alert) {
        MarkExtends(net, net', host, Own(i));
      }
    case Deliver(k) =>
      var m := net.inflight[k];
      if m.id !in net.nodes[m.dest].seen {
        MarkExtends(net, net', m.dest, FromPeer(m.id, EventOf(m)));
      }
    case Drop(_) =>
    case Refresh(_, _) =>
  }

  lemma ChainExtends(net: Net, cause: Message, m: Message)
    requires ChainBehind(net, cause) && cause in net.accepted
    requires m.id == cause.id && m.origin == cause.origin && m.ttl == cause.ttl - 1
    ensures ChainBehind(net, m)
  {
    assert AcceptedAt(net, cause, m.id, cause.ttl);
  }

  lemma NewlyChained(net: Net, step: Step, m: Message)
    requires Conserved(net) && NodesOk(net) && Chained(net) && Extends(net, Apply(net, step))
    requires m in Apply(net, step).sent && m !in net.sent
    ensures ChainBehind(Apply(net, step), m)
  {
    NewlySent(net, step, m);
    if step.Deliver? {
      var cause := net.inflight[step.k];
      EndsWereSent(net, cause);
      ChainStays(net, Apply(net, step), cause);
      ChainExtends(Apply(net, step), cause, m);
    }
  }

  lemma ChainedStep(net: Net, step: Step)
    requires Conserved(net) && NodesOk(net) && Chained(net)
    ensures Chained(Apply(net, step))
  {
    StepExtends(net, step);
    forall m | m in Apply(net, step).sent ensures ChainBehind(Apply(net, step), m) {
      if m in net.sent {
        ChainStays(net, Apply(net, step), m);
      } else {
        NewlyChained(net, step, m);
      }
    }
  }

  lemma {:induction false} RunTraced(start: Net, steps: seq<Step>)
    requires Initial(start)
    ensures Sound(Run(start, steps)) && Traced(Run(start, steps))
  {
    RunSound(start, steps);
    if steps == [] {
      assert forall h :: h in start.nodes ==> Ids(start.nodes[h].history) == [];
    } else {
      var before, last := Run(start, steps[..|steps| - 1]), steps[|steps| - 1];
      RunTraced(start, steps[..|steps| - 1]);
      SpreadersStep(before, last);
      HeardStep(before, last);
      ChainedStep(before, last);
    }
  }

  // ---- Recording a finding at most once ------------------------------------

  ghost predicate Apart(accepted: seq<Message>, id: FindingId) {
    forall i, j :: 0 <= i < j < |accepted| && accepted[i].id == accepted[j].id == id ==>
      accepted[i].dest != accepted[j].dest
  }

  /** No switch accepts two copies of the finding, and its origin accepts none. */
  ghost predicate AcceptedOnce(net: Net, id: FindingId) {
    && Apart(net.accepted, id)
    && (forall a :: a in net.accepted && a.id == id ==> !IsOrigin(net, a.dest, id))
  }

  ghost predicate RecordsOnce(events: seq<PeerEvent>, id: FindingId) {
    forall i, j :: 0 <= i < j < |events| && events[i].id == id ==> events[j].id != id
  }

  lemma {:induction false} EventsAtOnce(accepted: seq<Message>, h: Host, id: FindingId)
    requires Apart(accepted, id)
    ensures RecordsOnce(EventsAt(accepted, h), id)
  {
    if accepted == [] {
    } else {
      var init, last := accepted[..|accepted| - 1], accepted[|accepted| - 1];
      EventsAtOnce(init, h, id);
      if last.dest == h && last.id == id {
        forall e | e in EventsAt(init, h) ensures e.id != id {
          var m := EventWasAccepted(init, h, e);
        }
      }
    }
  }

  /** Then a switch stores the finding at most once, and its origin never. */
  lemma AcceptedOnceRecordsOnce(net: Net, h: Host, id: FindingId)
    requires Sound(net) && AcceptedOnce(net, id) && h in net.nodes
    ensures RecordsOnce(net.nodes[h].events, id)
    ensures IsOrigin(net, h, id) ==> forall e :: e in net.nodes[h].events ==> e.id != id
  {
    EventsAtOnce(net.accepted, h, id);
    forall e | e in net.nodes[h].events && e.id == id ensures !IsOrigin(net, h, id) {
      var m := EventWasAccepted(net.accepted, h, e);
    }
  }
}
