/**
 How well the bounded seen set deduplicates: in any run a repeat needs a gap of
 MAX_SEEN distinct other findings, and a finding that is never evicted is not
 recorded twice and crosses no link twice.
 */
module AtMostOnce {
  import opened Sequences
  import opened SeenSet
  import opened Gossip
  import opened Network
  import opened HopBound
  import opened Spreading
  import opened MessageBudget

  /** The positions of two recorded events in the history, in the same order. */
  lemma {:induction false} RecordedPositions(history: seq<Mention>, i: nat, j: nat) returns (p: nat, q: nat)
    requires i < j < |Recorded(history)|
    ensures p < q < |history|
    ensures history[p].FromPeer? && history[p].event == Recorded(history)[i]
    ensures history[q].FromPeer? && history[q].event == Recorded(history)[j]
  {
    var n := |history| - 1;
    if j < |Recorded(history[..n])| {
      p, q := RecordedPositions(history[..n], i, j);
    } else {
      p := RecordedPosition(history[..n], i);
      q := n;
    }
  }

  lemma {:induction false} RecordedPosition(history: seq<Mention>, i: nat) returns (p: nat)
    requires i < |Recorded(history)|
    ensures p < |history| && history[p].FromPeer? && history[p].event == Recorded(history)[i]
  {
    var n := |history| - 1;
    if i < |Recorded(history[..n])| {
      p := RecordedPosition(history[..n], i);
    } else {
      p := n;
    }
  }

  /** A switch has not heard of a finding before it shares it. */
  ghost predicate OwnFirst(history: seq<Mention>) {
    forall i, j :: 0 <= i < j < |history| && history[j].Own? ==> history[i].id != history[j].id
  }

  ghost predicate AllOwnFirst(net: Net) {
    forall h :: h in net.nodes ==> OwnFirst(net.nodes[h].history)
  }

  lemma NotMentioned(history: seq<Mention>, id: FindingId)
    requires id !in Elems(Ids(history))
    ensures forall i :: 0 <= i < |history| ==> history[i].id != id
  {
    assert forall i :: 0 <= i < |history| ==> Ids(history)[i] == history[i].id;
  }

  /** A step appends at most one mention to the history of a switch, an own one only for a new id. */
  ghost predicate Appends(net: Net, now: seq<Mention>, later: seq<Mention>) {
    later == now ||
    (|later| == |now| + 1 && later == now + [later[|now|]] && (later[|now|].Own? ==> later[|now|].id !in net.sources))
  }

  lemma StepAppends(net: Net, step: Step, h: Host)
    requires h in net.nodes
    ensures h in Apply(net, step).nodes && Appends(net, net.nodes[h].history, Apply(net, step).nodes[h].history)
  {
  }

  lemma OwnFirstAppend(history: seq<Mention>, e: Mention)
    requires OwnFirst(history) && (e.Own? ==> e.id !in Elems(Ids(history)))
    ensures OwnFirst(history + [e])
  {
    if e.Own? {
      NotMentioned(history, e.id);
    }
  }

  lemma OwnFirstStep(net: Net, step: Step)
    requires NodesOk(net) && AllOwnFirst(net)
    ensures AllOwnFirst(Apply(net, step))
  {
    var net' := Apply(net, step);
    StepExtends(net, step);
    forall h | h in net'.nodes ensures OwnFirst(net'.nodes[h].history) {
      var now, later := net.nodes[h].history, net'.nodes[h].history;
      StepAppends(net, step, h);
      if later != now {
        OwnFirstAppend(now, later[|now|]);
      }
    }
  }

  lemma {:induction false} RunOwnFirst(start: Net, steps: seq<Step>)
    requires Initial(start)
    ensures AllOwnFirst(Run(start, steps))
  {
    if steps == [] {
    } else {
      RunOwnFirst(start, steps[..|steps| - 1]);
      RunSound(start, steps[..|steps| - 1]);
      OwnFirstStep(Run(start, steps[..|steps| - 1]), steps[|steps| - 1]);
    }
  }

  /** The switch that shared a finding keeps that in its history. */
  ghost predicate OwnNoted(net: Net) {
    forall id :: id in net.sources ==>
      net.sources[id].host in net.nodes && Own(id) in net.nodes[net.sources[id].host].history
  }

  lemma {:induction false} RunOwnNoted(start: Net, steps: seq<Step>)
    requires Initial(start)
    ensures OwnNoted(Run(start, steps))
  {
    if steps == [] {
    } else {
      RunOwnNoted(start, steps[..|steps| - 1]);
    }
  }

  /** Between positions p and q of its history the switch marked MAX_SEEN distinct other ids. */
  ghost predicate FarApart(history: seq<Mention>, p: nat, q: nat) {
    p < q < |history| && history[p].id == history[q].id && Between(history, p, q) >= MAX_SEEN
  }

  /**
   Main result, any run: a switch records a finding as a peer event twice only if it marked
   at least MAX_SEEN distinct other ids in between.
   */
  lemma RecordedTwiceNeedsEviction(start: Net, steps: seq<Step>, h: Host, i: nat, j: nat) returns (p: nat, q: nat)
    requires Initial(start) && h in Run(start, steps).nodes
    requires i < j < |Run(start, steps).nodes[h].events|
    requires Run(start, steps).nodes[h].events[i].id == Run(start, steps).nodes[h].events[j].id
    ensures var n := Run(start, steps).nodes[h];
            && FarApart(n.history, p, q)
            && n.history[p] == FromPeer(n.events[i].id, n.events[i])
            && n.history[q] == FromPeer(n.events[j].id, n.events[j])
  {
    RunSound(start, steps);
    p, q := RecordedPositions(Run(start, steps).nodes[h].history, i, j);
  }

  /** The switch shared the finding at position p and recorded event i, the same finding, at a later position q. */
  ghost predicate SharedThenRecorded(n: Node, i: nat, p: nat, q: nat)
    requires i < |n.events|
  {
    && FarApart(n.history, p, q)
    && n.history[p] == Own(n.events[i].id)
    && n.history[q] == FromPeer(n.events[i].id, n.events[i])
  }

  lemma OwnAndRecorded(n: Node, i: nat) returns (p: nat, q: nat)
    requires NodeOk(n) && OwnFirst(n.history) && i < |n.events| && Own(n.events[i].id) in n.history
    ensures SharedThenRecorded(n, i, p, q)
  {
    q := RecordedPosition(n.history, i);
    p :| p < |n.history| && n.history[p] == Own(n.events[i].id);
  }

  /**
   Main result, any run: a switch records a finding of its own only after it marked at least
   MAX_SEEN distinct other ids since it shared the finding.
   */
  lemma OwnRecordedNeedsEviction(start: Net, steps: seq<Step>, h: Host, i: nat) returns (p: nat, q: nat)
    requires Initial(start) && h in Run(start, steps).nodes
    requires i < |Run(start, steps).nodes[h].events|
    requires IsOrigin(Run(start, steps), h, Run(start, steps).nodes[h].events[i].id)
    ensures SharedThenRecorded(Run(start, steps).nodes[h], i, p, q)
  {
    RunSound(start, steps);
    RunOwnNoted(start, steps);
    RunOwnFirst(start, steps);
    p, q := OwnAndRecorded(Run(start, steps).nodes[h], i);
  }

  // ---- Findings that are never evicted ----------------------------------------------

  /** Every switch that marked the finding still remembers it. */
  ghost predicate Remembered(net: Net, id: FindingId) {
    forall h :: Marked(net, h, id) ==> id in net.nodes[h].seen
  }

  /** No switch evicts the finding while the run lasts. */
  ghost predicate NeverEvicted(start: Net, steps: seq<Step>, id: FindingId) {
    forall k :: 0 <= k <= |steps| ==> Remembered(Run(start, steps[..k]), id)
  }

  lemma {:induction false} NeverEvictedPrefix(start: Net, steps: seq<Step>, id: FindingId)
    requires steps != [] && NeverEvicted(start, steps, id)
    ensures NeverEvicted(start, steps[..|steps| - 1], id)
    ensures Remembered(Run(start, steps[..|steps| - 1]), id) && Remembered(Run(start, steps), id)
  {
    var init := steps[..|steps| - 1];
    forall k | 0 <= k <= |init| ensures Remembered(Run(start, init[..k]), id) {
      assert init[..k] == steps[..k];
    }
    assert init[..|init|] == init && steps[..|steps|] == steps;
  }

  lemma NeverEvictedMore(start: Net, steps: seq<Step>, id: FindingId)
    requires steps != [] ==> NeverEvicted(start, steps[..|steps| - 1], id)
    requires Remembered(Run(start, steps), id)
    ensures NeverEvicted(start, steps, id)
  {
    forall k | 0 <= k <= |steps| ensures Remembered(Run(start, steps[..k]), id) {
      if k == |steps| {
        assert steps[..k] == steps;
      } else {
        assert steps[..|steps| - 1][..k] == steps[..k];
      }
    }
  }

  ghost predicate FewAfterEverywhere(net: Net, id: FindingId) {
    forall h :: h in net.nodes ==> FewAfter(Ids(net.nodes[h].history), id)
  }

  lemma FewAfterBefore(net: Net, step: Step, id: FindingId)
    requires FewAfterEverywhere(Apply(net, step), id)
    ensures FewAfterEverywhere(net, id)
  {
    StepExtends(net, step);
    forall h | h in net.nodes ensures FewAfter(Ids(net.nodes[h].history), id) {
      var now, later := net.nodes[h].history, Apply(net, step).nodes[h].history;
      StepAppends(net, step, h);
      if later != now {
        MarkedGrows(net.nodes[h], later[|now|]);
        FewAfterPrefix(Ids(now), later[|now|].id, id);
      }
    }
  }

  lemma FewAfterRemembered(net: Net, id: FindingId)
    requires NodesOk(net) && FewAfterEverywhere(net, id)
    ensures Remembered(net, id)
  {
    forall h | Marked(net, h, id) ensures id in net.nodes[h].seen {
      FewAfterSeen(Ids(net.nodes[h].history), id);
    }
  }

  lemma {:induction false} FewAfterNeverEvicted(start: Net, steps: seq<Step>, id: FindingId)
    requires Initial(start) && FewAfterEverywhere(Run(start, steps), id)
    ensures NeverEvicted(start, steps, id)
  {
    if steps == [] {
    } else {
      FewAfterBefore(Run(start, steps[..|steps| - 1]), steps[|steps| - 1], id);
      FewAfterNeverEvicted(start, steps[..|steps| - 1], id);
    }
    RunSound(start, steps);
    FewAfterRemembered(Run(start, steps), id);
    NeverEvictedMore(start, steps, id);
  }

  ghost predicate MentionedOnce(net: Net, id: FindingId) {
    forall h :: h in net.nodes ==> Once(Ids(net.nodes[h].history), id)
  }

  lemma MentionedOnceStep(net: Net, step: Step, id: FindingId)
    requires NodesOk(net) && MentionedOnce(net, id) && Remembered(net, id)
    ensures MentionedOnce(Apply(net, step), id)
  {
    var net' := Apply(net, step);
    StepExtends(net, step);
    forall h | h in net'.nodes ensures Once(Ids(net'.nodes[h].history), id) {
      var now, later := net.nodes[h].history, net'.nodes[h].history;
      StepAppends(net, step, h);
      if later != now {
        MarkedGrows(net.nodes[h], later[|now|]);
        MarksAreNew(net, step, h);
      }
    }
  }

  /** A switch that remembers what it marked marks an id only for the first time. */
  lemma MarksAreNew(net: Net, step: Step, h: Host)
    requires NodesOk(net) && h in net.nodes && Apply(net, step).nodes[h].history != net.nodes[h].history
    ensures var now, later := net.nodes[h].history, Apply(net, step).nodes[h].history;
            |later| > |now| && (Remembered(net, later[|now|].id) ==> later[|now|].id !in Ids(now))
  {
    var now, later := net.nodes[h].history, Apply(net, step).nodes[h].history;
    assert later[|now|].id in Ids(now) ==> Marked(net, h, later[|now|].id);
    assert later[|now|].id in Ids(now) <==> later[|now|].id in Elems(Ids(now));
  }

  lemma {:induction false} RunMentionedOnce(start: Net, steps: seq<Step>, id: FindingId)
    requires Initial(start) && NeverEvicted(start, steps, id)
    ensures MentionedOnce(Run(start, steps), id)
  {
    if steps == [] {
    } else {
      NeverEvictedPrefix(start, steps, id);
      RunMentionedOnce(start, steps[..|steps| - 1], id);
      RunSound(start, steps[..|steps| - 1]);
      MentionedOnceStep(Run(start, steps[..|steps| - 1]), steps[|steps| - 1], id);
    }
  }

  /**
   Main result: what the whole run asks of every seen set can be read off the histories at its
   end. A finding is never evicted if and only if no switch marked MAX_SEEN distinct other ids after it.
   */
  lemma NeverEvictedIff(start: Net, steps: seq<Step>, id: FindingId)
    requires Initial(start)
    ensures NeverEvicted(start, steps, id) <==> FewAfterEverywhere(Run(start, steps), id)
  {
    var net := Run(start, steps);
    if FewAfterEverywhere(net, id) {
      FewAfterNeverEvicted(start, steps, id);
    }
    if NeverEvicted(start, steps, id) {
      RunSound(start, steps);
      RunMentionedOnce(start, steps, id);
      assert steps[..|steps|] == steps;
      forall h | h in net.nodes ensures FewAfter(Ids(net.nodes[h].history), id) {
        assert id in Ids(net.nodes[h].history) <==> Marked(net, h, id);
        SeenFewAfter(Ids(net.nodes[h].history), id);
      }
    }
  }

  /** In particular nothing is evicted while no more than MAX_SEEN findings were shared in all. */
  lemma FewFindingsNeverEvicted(start: Net, steps: seq<Step>, id: FindingId)
    requires Initial(start) && |Run(start, steps).sources| <= MAX_SEEN
    ensures NeverEvicted(start, steps, id)
  {
    var net := Run(start, steps);
    RunSound(start, steps);
    forall h | h in net.nodes ensures FewAfter(Ids(net.nodes[h].history), id) {
      SubsetCard(Elems(Ids(net.nodes[h].history)), net.sources.Keys);
      FewIdsFewAfter(Ids(net.nodes[h].history), id);
    }
    NeverEvictedIff(start, steps, id);
  }

  lemma ApartAppend(accepted: seq<Message>, m: Message, id: FindingId)
    requires Apart(accepted, id)
    requires m.id == id ==> forall a :: a in accepted && a.id == id ==> a.dest != m.dest
    ensures Apart(accepted + [m], id)
  {
    assert forall i :: 0 <= i < |accepted| ==> accepted[i] in accepted;
  }

  /** A switch that is about to accept the finding has not heard of it before. */
  lemma NewToReceiver(net: Net, m: Message)
    requires EndsMarked(net) && Remembered(net, m.id) && m.dest in net.nodes && m.id !in net.nodes[m.dest].seen
    ensures !IsOrigin(net, m.dest, m.id)
    ensures forall a :: a in net.accepted && a.id == m.id ==> a.dest != m.dest
  {
    assert !Marked(net, m.dest, m.id);
  }

  lemma AcceptOnce(net: Net, k: nat, id: FindingId)
    requires Sound(net) && AcceptedOnce(net, id) && Remembered(net, id)
    requires Possible(net, Deliver(k)) && net.inflight[k].id !in net.nodes[net.inflight[k].dest].seen
    ensures AcceptedOnce(Apply(net, Deliver(k)), id)
  {
    var m := net.inflight[k];
    if m.id == id {
      NewToReceiver(net, m);
    }
    ApartAppend(net.accepted, m, id);
  }

  lemma NeverAcceptedBefore(net: Net, id: FindingId)
    requires Sound(net) && id !in net.sources
    ensures forall a :: a in net.accepted ==> a.id != id
  {
    forall a | a in net.accepted ensures a.id != id {
      EndsWereSent(net, a);
      assert Genuine(net, a);
    }
  }

  lemma AcceptedOnceStep(net: Net, step: Step, id: FindingId)
    requires Sound(net) && AcceptedOnce(net, id) && Remembered(net, id)
    ensures AcceptedOnce(Apply(net, step), id)
  {
    if Possible(net, step) {
      match step
      case Originate(_, _, i, _) => NeverAcceptedBefore(net, i);
      case Deliver(k) =>
        if net.inflight[k].id !in net.nodes[net.inflight[k].dest].seen {
          AcceptOnce(net, k, id);
        }
      case Drop(_) =>
      case Refresh(_, _) =>
    }
  }

  /** No two copies of the finding were sent over the same link in the same direction. */
  ghost predicate LinksUsedOnce(sent: seq<Message>, id: FindingId) {
    forall i, j :: 0 <= i < j < |sent| && sent[i].id == sent[j].id == id ==>
      sent[i].sender != sent[j].sender || sent[i].dest != sent[j].dest
  }

  lemma BatchKeepsLinks(sent: seq<Message>, dests: seq<Host>, sender: Host, origin: Host, ttl: int, id: FindingId, alert: Alert)
    requires LinksUsedOnce(sent, id) && Distinct(dests)
    requires forall m :: m in sent && m.id == id ==> m.sender != sender
    ensures LinksUsedOnce(sent + Copies(dests, sender, origin, ttl, id, alert), id)
  {
    var all := sent + Copies(dests, sender, origin, ttl, id, alert);
    forall i, j | 0 <= i < j < |all| && all[i].id == all[j].id == id
      ensures all[i].sender != all[j].sender || all[i].dest != all[j].dest
    {
      if j >= |sent| && i < |sent| {
        assert all[i] in sent;
      }
    }
  }

  lemma OthersKeepLinks(sent: seq<Message>, more: seq<Message>, id: FindingId)
    requires LinksUsedOnce(sent, id) && forall m :: m in more ==> m.id != id
    ensures LinksUsedOnce(sent + more, id)
  {
    var all := sent + more;
    forall i | |sent| <= i < |all| ensures all[i].id != id {
      assert all[i] == more[i - |sent|];
    }
  }

  lemma ShareKeepsLinks(net: Net, step: Step, id: FindingId)
    requires Sound(net) && LinksUsedOnce(net.sent, id)
    requires step.Originate? && Possible(net, step) && Shareable(step.canShare, step.alert)
    ensures LinksUsedOnce(Apply(net, step).sent, id)
  {
    var n := net.nodes[step.host];
    if step.id == id {
      forall m | m in net.sent ensures m.id != id {
        assert Genuine(net, m);
      }
      BatchKeepsLinks(net.sent, n.clients, n.name, n.name, n.findingTtl, id, step.alert);
    } else {
      OthersKeepLinks(net.sent, Copies(n.clients, n.name, n.name, n.findingTtl, step.id, step.alert), id);
    }
  }

  lemma AcceptKeepsLinks(net: Net, k: nat, id: FindingId)
    requires Sound(net) && LinksUsedOnce(net.sent, id) && Remembered(net, id)
    requires Possible(net, Deliver(k)) && net.inflight[k].id !in net.nodes[net.inflight[k].dest].seen
    ensures LinksUsedOnce(Apply(net, Deliver(k)).sent, id)
  {
    var m := net.inflight[k];
    var n := net.nodes[m.dest];
    if m.id == id {
      forall c | c in net.sent && c.id == id ensures c.sender != n.name {
        assert Genuine(net, c);
      }
      WithoutDistinct(n.clients, m.sender);
      BatchKeepsLinks(net.sent, Without(n.clients, m.sender), n.name, m.origin, m.ttl - 1, id, m.alert);
    } else {
      OthersKeepLinks(net.sent, Forwards(n, m), id);
    }
  }

  lemma LinksStep(net: Net, step: Step, id: FindingId)
    requires Sound(net) && LinksUsedOnce(net.sent, id) && Remembered(net, id)
    ensures LinksUsedOnce(Apply(net, step).sent, id)
  {
    if Possible(net, step) {
      match step
      case Originate(_, canShare, _, alert) =>
        if Shareable(canShare, alert) {
          ShareKeepsLinks(net, step, id);
        }
      case Deliver(k) =>
        if net.inflight[k].id !in net.nodes[net.inflight[k].dest].seen {
          AcceptKeepsLinks(net, k, id);
        }
      case Drop(_) =>
      case Refresh(_, _) =>
    }
  }

  lemma {:induction false} RunOnce(start: Net, steps: seq<Step>, id: FindingId)
    requires Initial(start) && NeverEvicted(start, steps, id)
    ensures AcceptedOnce(Run(start, steps), id) && LinksUsedOnce(Run(start, steps).sent, id)
  {
    if steps == [] {
    } else {
      var before, last := Run(start, steps[..|steps| - 1]), steps[|steps| - 1];
      NeverEvictedPrefix(start, steps, id);
      RunOnce(start, steps[..|steps| - 1], id);
      RunSound(start, steps[..|steps| - 1]);
      AcceptedOnceStep(before, last, id);
      LinksStep(before, last, id);
    }
  }

  function PairsOf(s: seq<Message>, id: FindingId): set<(Host, Host)> {
    set m | m in s && m.id == id :: (m.sender, m.dest)
  }

  lemma PairsOfCons(m: Message, s: seq<Message>, id: FindingId)
    ensures PairsOf([m] + s, id) == PairsOf(s, id) + if m.id == id then {(m.sender, m.dest)} else {}
  {
    assert forall x :: x in [m] + s <==> x == m || x in s;
  }

  lemma NewLink(s: seq<Message>, id: FindingId)
    requires LinksUsedOnce(s, id) && s != [] && s[0].id == id
    ensures (s[0].sender, s[0].dest) !in PairsOf(s[1..], id)
  {
    forall m | m in s[1..] && m.id == id ensures (m.sender, m.dest) != (s[0].sender, s[0].dest) {
      var i :| 0 <= i < |s[1..]| && s[1..][i] == m;
      assert s[i + 1] == m;
    }
  }

  lemma {:induction false} PairsCount(s: seq<Message>, id: FindingId)
    requires LinksUsedOnce(s, id)
    ensures |PairsOf(s, id)| == Total(s, IsOf(id))
  {
    if s == [] {
    } else {
      PairsCount(s[1..], id);
      PairsOfCons(s[0], s[1..], id);
      assert s == [s[0]] + s[1..];
      if s[0].id == id {
        NewLink(s, id);
      }
    }
  }

  lemma UsedLinksExist(net: Net, id: FindingId)
    requires AllRouted(net)
    ensures PairsOf(net.sent, id) <= net.links
  {
    forall m | m in net.sent && m.id == id ensures (m.sender, m.dest) in net.links {
      assert Routed(net, m);
      var p :| Carries(net, m, p);
      assert (p[|p| - 2], p[|p| - 2 + 1]) in net.links;
    }
  }

  /**
   Main result. A finding that is never evicted is recorded by each switch at most once and
   never by its origin, and it crosses each link at most once in each direction, so it causes
   at most as many sends as there are links.
   */
  lemma OncePerSwitchAndLink(start: Net, steps: seq<Step>, id: FindingId)
    requires Initial(start) && NeverEvicted(start, steps, id)
    ensures var net := Run(start, steps);
            && (forall h :: h in net.nodes ==> RecordsOnce(net.nodes[h].events, id))
            && (forall h, e :: h in net.nodes && e in net.nodes[h].events && IsOrigin(net, h, id) ==> e.id != id)
            && LinksUsedOnce(net.sent, id)
            && Spent(net, id) <= |net.links|
  {
    var net := Run(start, steps);
    RunOnce(start, steps, id);
    RunRouted(start, steps);
    forall h | h in net.nodes
      ensures RecordsOnce(net.nodes[h].events, id)
      ensures IsOrigin(net, h, id) ==> forall e :: e in net.nodes[h].events ==> e.id != id
    {
      AcceptedOnceRecordsOnce(net, h, id);
    }
    PairsCount(net.sent, id);
    UsedLinksExist(net, id);
    SubsetCard(PairsOf(net.sent, id), net.links);
  }
}
