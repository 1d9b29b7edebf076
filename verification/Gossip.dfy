/**
 One switch of the finding gossip: what a peer manager does when it shares a
 finding of its own and when a peer hands it one.
 */
module Gossip {
  import opened Sequences
  import opened SeenSet

  type Host = string

  /** The part of a finding that every copy carries unchanged. */
  datatype Alert = Alert(timestamp: string, severity: string, summary: string, scope: string)

  /** One ShareFinding call: `sender` is the calling switch, `dest` the switch its client is connected to. */
  datatype Message = Message(sender: Host, dest: Host, origin: Host, ttl: int, id: FindingId, alert: Alert)

  /** What a switch stores when it accepts a copy. */
  datatype PeerEvent = PeerEvent(sender: Host, origin: Host, ttl: int, id: FindingId,
                                 severity: string, summary: string, scope: string)

  /** Why an id was marked: the switch shared a finding of its own, or it recorded a peer's. */
  datatype Mention = Own(id: FindingId) | FromPeer(id: FindingId, event: PeerEvent)

  /**
   The state of one switch. `clients` lists the hostnames of the client
   dictionary in insertion order. `history` is a history variable: the program
   does not store it.
   */
  datatype Node = Node(name: Host, findingTtl: int, clients: seq<Host>,
                       seen: seq<FindingId>, events: seq<PeerEvent>, history: seq<Mention>)

  datatype Reaction = Reaction(node: Node, sends: seq<Message>, alreadySeen: bool)

  function EventOf(m: Message): PeerEvent {
    PeerEvent(m.sender, m.origin, m.ttl, m.id, m.alert.severity, m.alert.summary, m.alert.scope)
  }

  /** One copy for each destination, in order. */
  function Copies(dests: seq<Host>, sender: Host, origin: Host, ttl: int, id: FindingId, alert: Alert): seq<Message> {
    seq(|dests|, i requires 0 <= i < |dests| => Message(sender, dests[i], origin, ttl, id, alert))
  }

  /** Only warnings and critical findings leave the switch, and only while it may share at all. */
  predicate Shareable(canShare: bool, alert: Alert) {
    canShare && (alert.severity == "warning" || alert.severity == "critical")
  }

  /** `canShare` says that the protocol is enabled and the resource governor is not dormant. */
  function Share(n: Node, canShare: bool, id: FindingId, alert: Alert): Reaction {
    if !Shareable(canShare, alert) then Reaction(n, [], false)
    else Reaction(n.(seen := Mark(n.seen, id), history := n.history + [Own(id)]),
                  Copies(n.clients, n.name, n.name, n.findingTtl, id, alert),
                  false)
  }

  /** The copies a switch passes on after accepting `m`: to every client but the sender, while the TTL lasts. */
  function Forwards(n: Node, m: Message): seq<Message> {
    if m.ttl > 1 then Copies(Without(n.clients, m.sender), n.name, m.origin, m.ttl - 1, m.id, m.alert)
    else []
  }

  function Receive(n: Node, m: Message): Reaction {
    if m.id in n.seen then Reaction(n, [], true)
    else Reaction(n.(seen := Mark(n.seen, m.id),
                     events := n.events + [EventOf(m)],
                     history := n.history + [FromPeer(m.id, EventOf(m))]),
                  Forwards(n, m),
                  false)
  }

  function Ids(history: seq<Mention>): seq<FindingId> {
    seq(|history|, i requires 0 <= i < |history| => history[i].id)
  }

  /** The peer events among the mentions, in order. */
  function Recorded(history: seq<Mention>): seq<PeerEvent> {
    if history == [] then []
    else
      var rest := Recorded(history[..|history| - 1]);
      match history[|history| - 1]
      case Own(_) => rest
      case FromPeer(_, event) => rest + [event]
  }

  /** How many distinct other ids were mentioned between positions `i` and `j`. */
  ghost function Between(history: seq<Mention>, i: nat, j: nat): nat
    requires i < j <= |history|
  {
    |Elems(Ids(history)[i + 1..j]) - {history[i].id}|
  }

  /** A mention repeats an earlier one only across a gap of at least MAX_SEEN distinct other ids. */
  ghost predicate Spaced(history: seq<Mention>) {
    forall i, j :: 0 <= i < j < |history| && history[i].id == history[j].id ==>
      Between(history, i, j) >= MAX_SEEN
  }

  ghost predicate NodeOk(n: Node) {
    && Distinct(n.clients)
    && n.seen == MarkAll(Ids(n.history))
    && n.events == Recorded(n.history)
    && (forall i :: 0 <= i < |n.history| && n.history[i].FromPeer? ==> n.history[i].event.id == n.history[i].id)
    && Spaced(n.history)
  }

  lemma BetweenPrefix(history: seq<Mention>, e: Mention, i: nat, j: nat)
    requires i < j <= |history|
    ensures Between(history + [e], i, j) == Between(history, i, j)
  {
    assert Ids(history + [e])[i + 1..j] == Ids(history)[i + 1..j];
  }

  lemma GapIsWide(history: seq<Mention>, i: nat)
    requires i < |history| && history[i].id !in MarkAll(Ids(history))
    ensures Between(history, i, |history|) >= MAX_SEEN
  {
    ForgottenOnlyAfterMany(Ids(history), i);
    assert Ids(history)[i + 1..|history|] == Ids(history)[i + 1..];
  }

  lemma SpacedExtends(history: seq<Mention>, e: Mention)
    requires Spaced(history)
    requires e.id !in MarkAll(Ids(history))
    ensures Spaced(history + [e])
  {
    var longer := history + [e];
    forall i, j | 0 <= i < j < |longer| && longer[i].id == longer[j].id
      ensures Between(longer, i, j) >= MAX_SEEN
    {
      BetweenPrefix(history, e, i, j);
      if j == |history| {
        GapIsWide(history, i);
      }
    }
  }

  lemma HistoryExtends(n: Node, e: Mention)
    requires NodeOk(n)
    requires e.id !in n.seen
    requires e.FromPeer? ==> e.event.id == e.id
    ensures NodeOk(n.(seen := Mark(n.seen, e.id),
                      events := if e.FromPeer? then n.events + [e.event] else n.events,
                      history := n.history + [e]))
  {
    var longer := n.history + [e];
    assert Ids(longer)[..|n.history|] == Ids(n.history);
    assert longer[..|n.history|] == n.history;
    SpacedExtends(n.history, e);
  }

  /** Marking keeps `seen` equal to the LRU of the history, also for an id that is shared for the first time. */
  lemma ShareKeepsOk(n: Node, canShare: bool, id: FindingId, alert: Alert)
    requires NodeOk(n) && id !in n.seen
    ensures NodeOk(Share(n, canShare, id, alert).node)
  {
    HistoryExtends(n, Own(id));
  }

  lemma ReceiveKeepsOk(n: Node, m: Message)
    requires NodeOk(n)
    ensures NodeOk(Receive(n, m).node)
  {
    if m.id !in n.seen {
      HistoryExtends(n, FromPeer(m.id, EventOf(m)));
    }
  }
}
