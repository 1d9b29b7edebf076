/**
 The peer manager object: its bounded seen set, its client connections, and the
 finding handlers, each tied to the value-level description of one switch.
 */
module PeerManager {
  import opened Sequences
  import opened SeenSet
  import opened Gossip
  import opened Discovery
  import opened Wrappers

  /** A connection to one peer. `serial` tells connection objects apart. */
  datatype PeerClient = PeerClient(hostname: Host, address: string, port: int, serial: nat)

  function Hosts(clients: seq<PeerClient>): seq<Host> {
    seq(|clients|, i requires 0 <= i < |clients| => clients[i].hostname)
  }

  /** `clients` without the entry for `h`. */
  function Dropped(clients: seq<PeerClient>, h: Host): seq<PeerClient> {
    if clients == [] then []
    else if clients[0].hostname == h then Dropped(clients[1..], h)
    else [clients[0]] + Dropped(clients[1..], h)
  }

  /** The dictionary entry for `h`. */
  function Lookup(clients: seq<PeerClient>, h: Host): (c: PeerClient)
    requires h in Hosts(clients)
    ensures c in clients && c.hostname == h
  {
    if clients[0].hostname == h then clients[0]
    else
      assert Hosts(clients)[1..] == Hosts(clients[1..]);
      Lookup(clients[1..], h)
  }

  /** Serial numbers are handed out in order, so all created connections differ. */
  ghost predicate Numbered(created: seq<PeerClient>) {
    forall i :: 0 <= i < |created| ==> created[i].serial == i
  }

  /** Every connection ever created is live in the dictionary or was closed. */
  ghost predicate Accounted(created: seq<PeerClient>, live: seq<PeerClient>, closed: seq<PeerClient>) {
    Numbered(created) && multiset(created) == multiset(live) + multiset(closed)
  }

  lemma {:induction false} CreatedOnce(created: seq<PeerClient>, c: PeerClient)
    requires Numbered(created) && c in created
    ensures multiset(created)[c] == 1
  {
    var init, last := created[..|created| - 1], created[|created| - 1];
    assert created == init + [last];
    if c in init {
      CreatedOnce(init, c);
    } else {
      assert c !in multiset(init);
    }
  }

  /** So it is either live, once, and was never closed, or it was closed exactly once. */
  lemma LiveOrClosedOnce(created: seq<PeerClient>, live: seq<PeerClient>, closed: seq<PeerClient>, c: PeerClient)
    requires Accounted(created, live, closed) && c in created
    ensures multiset(live)[c] + multiset(closed)[c] == 1
  {
    CreatedOnce(created, c);
  }

  // ---- The client connections over a run of calls --------------------------------------

  /** The client dictionary, every connection ever created, and every one that was closed, in order. */
  datatype Connections = Connections(live: seq<PeerClient>, created: seq<PeerClient>, closed: seq<PeerClient>)

  /** `enabled` is the switch of the protocol at the time of the call. */
  datatype PeerCall =
    | Refresh(enabled: bool, entries: seq<TopologyEntry>, resolve: string -> Option<string>, connects: Endpoint -> bool)
    | Stop

  /**
   The live hosts are the discovered ones that were connected before or could be connected now.
   Surviving peers keep their connection, and the others are new ones to the address discovered.
   */
  ghost predicate Refreshed(s: Connections, call: PeerCall, port: int, s': Connections)
    requires call.Refresh?
  {
    && (forall h :: h in Hosts(s'.live) <==>
          && Discoverable(call.entries, call.resolve, h)
          && (h in Hosts(s.live) || call.connects(Endpoint(h, call.resolve(h).value, port))))
    && (forall c :: c in s.live && Discoverable(call.entries, call.resolve, c.hostname) ==> c in s'.live)
    && (forall c :: c in s'.live && c !in s.live ==>
          c !in s.created && call.resolve(c.hostname) == Some(c.address) && c.port == port)
  }

  /**
   The books of one call: nothing that was created or closed is taken back, new connections get
   the next serial numbers, and what was live or is new is now live or newly closed.
   */
  ghost predicate Booked(s: Connections, s': Connections) {
    && s.created <= s'.created && s.closed <= s'.closed
    && (forall i :: |s.created| <= i < |s'.created| ==> s'.created[i].serial == i)
    && multiset(s.live) + multiset(s'.created[|s.created|..]) == multiset(s'.live) + multiset(s'.closed[|s.closed|..])
  }

  /** What one call does to the connections. */
  ghost predicate Follows(s: Connections, call: PeerCall, port: int, s': Connections) {
    && Booked(s, s')
    && match call
       case Refresh(enabled, _, _, _) => if enabled then Refreshed(s, call, port, s') else s' == s
       case Stop => s' == Connections([], s.created, s.closed + s.live)
  }

  /** A manager's life: from no connections at all through any calls. */
  ghost predicate Life(states: seq<Connections>, calls: seq<PeerCall>, port: int) {
    && |states| == |calls| + 1 && states[0] == Connections([], [], [])
    && forall i :: 0 <= i < |calls| ==> Follows(states[i], calls[i], port, states[i + 1])
  }

  lemma Extended<T>(a: seq<T>, b: seq<T>)
    requires a <= b
    ensures multiset(b) == multiset(a) + multiset(b[|a|..])
  {
    assert b == a + b[|a|..];
  }

  lemma Cancel<T>(a: multiset<T>, b: multiset<T>, c: multiset<T>)
    ensures a + c == b + c <==> a == b
  {
    assert a == (a + c) - c && b == (b + c) - c;
  }

  /** Balanced books before and after a call give the books of the call. */
  lemma BookedBetween(s: Connections, s': Connections)
    requires Accounted(s.created, s.live, s.closed) && Accounted(s'.created, s'.live, s'.closed)
    requires s.created <= s'.created && s.closed <= s'.closed
    ensures Booked(s, s')
  {
    Extended(s.created, s'.created);
    Extended(s.closed, s'.closed);
    var opening, ending := multiset(s'.created[|s.created|..]), multiset(s'.closed[|s.closed|..]);
    calc {
      multiset(s.live) + opening + multiset(s.closed);
      multiset(s'.created);
      multiset(s'.live) + ending + multiset(s.closed);
    }
    Cancel(multiset(s.live) + opening, multiset(s'.live) + ending, multiset(s.closed));
  }

  /** And the books of a call keep balanced books balanced. */
  lemma BookedKeepsAccounts(s: Connections, s': Connections)
    requires Accounted(s.created, s.live, s.closed) && Booked(s, s')
    ensures Accounted(s'.created, s'.live, s'.closed)
  {
    Extended(s.created, s'.created);
    Extended(s.closed, s'.closed);
    assert forall i :: 0 <= i < |s.created| ==> s'.created[i] == s.created[i];
    var opening, ending := multiset(s'.created[|s.created|..]), multiset(s'.closed[|s.closed|..]);
    calc {
      multiset(s'.created);
      multiset(s.live) + multiset(s.closed) + opening;
      multiset(s.live) + opening + multiset(s.closed);
      multiset(s'.live) + ending + multiset(s.closed);
      multiset(s'.live) + multiset(s'.closed);
    }
  }

  ghost predicate Conserved(s: Connections, c: PeerClient) {
    multiset(s.live)[c] + multiset(s.closed)[c] == 1
  }

  lemma GoneWasClosed(s: Connections, s': Connections, c: PeerClient)
    requires Booked(s, s') && c in s.live && c !in s'.live
    ensures c in s'.closed
  {
    var ending := s'.closed[|s.closed|..];
    assert c in multiset(s.live) && c !in multiset(s'.live);
    var all := multiset(s.live) + multiset(s'.created[|s.created|..]);
    assert all[c] > 0 && all == multiset(s'.live) + multiset(ending);
    assert c in multiset(ending);
    assert s'.closed == s'.closed[..|s.closed|] + ending;
  }

  /**
   The live hosts are the named, listed and resolvable neighbours that were connected before or could be
   connected now; a peer that stays keeps its connection, a new one gets a new connection to its address,
   and the connection of one that goes is closed.
   */
  ghost predicate UpToDate(s: Connections, s': Connections, entries: seq<TopologyEntry>,
                           resolve: string -> Option<string>, connects: Endpoint -> bool, port: int) {
    && (forall h :: h in Hosts(s'.live) <==>
          && h != "" && (exists e :: e in entries && e.neighborHostname == h) && resolve(h).Some?
          && (h in Hosts(s.live) || connects(Endpoint(h, resolve(h).value, port))))
    && (forall c :: c in s.live ==> (c in s'.live <==> c.hostname in Hosts(s'.live)))
    && (forall c :: c in s'.live && c !in s.live ==>
          c !in s.created && resolve(c.hostname) == Some(c.address) && c.port == port)
    && (forall c :: c in s.live && c !in s'.live ==> c in s'.closed)
  }

  /** What a refresh of an enabled manager does, read off the relation. */
  lemma RefreshTells(s: Connections, call: PeerCall, port: int, s': Connections)
    requires call.Refresh? && Booked(s, s') && Refreshed(s, call, port, s')
    ensures UpToDate(s, s', call.entries, call.resolve, call.connects, port)
  {
    forall c | c in s.live ensures c in s'.live <==> c.hostname in Hosts(s'.live) {
      if c in s'.live {
        HostIn(s'.live, c);
      }
    }
    forall c | c in s.live && c !in s'.live ensures c in s'.closed {
      GoneWasClosed(s, s', c);
    }
  }

  lemma {:induction false} NothingTakenBack(states: seq<Connections>, calls: seq<PeerCall>, port: int, i: nat, j: nat)
    requires Life(states, calls, port) && i <= j < |states|
    ensures states[i].created <= states[j].created && states[i].closed <= states[j].closed
    ensures Accounted(states[j].created, states[j].live, states[j].closed)
    decreases j
  {
    if j == 0 {
      assert states[0] == Connections([], [], []);
    } else {
      assert Follows(states[j - 1], calls[j - 1], port, states[j - 1 + 1]);
      NothingTakenBack(states, calls, port, if i < j then i else j - 1, j - 1);
      BookedKeepsAccounts(states[j - 1], states[j]);
    }
  }

  /**
   Main result: over any calls, every connection ever created is live once and was never closed,
   or it was closed exactly once; and once closed it stays closed.
   */
  lemma ConnectionsConserved(states: seq<Connections>, calls: seq<PeerCall>, port: int, i: nat, j: nat, c: PeerClient)
    requires Life(states, calls, port) && i <= j < |states| && c in states[i].created
    ensures c in states[j].created && Conserved(states[j], c)
    ensures c in states[i].closed ==> c in states[j].closed && c !in states[j].live
  {
    NothingTakenBack(states, calls, port, i, j);
    LiveOrClosedOnce(states[j].created, states[j].live, states[j].closed, c);
    assert c in states[j].closed <==> c in multiset(states[j].closed);
    assert c in states[j].live <==> c in multiset(states[j].live);
  }

  /** The call lets go of the peer: it stops the manager, or the peer is no longer discovered. */
  ghost predicate LetsGo(call: PeerCall, h: Host) {
    call.Stop? || (call.enabled && !Discoverable(call.entries, call.resolve, h))
  }

  /** Main result: a connection is closed only by a call that lets go of its peer. */
  lemma {:induction false} ClosedForAReason(states: seq<Connections>, calls: seq<PeerCall>, port: int,
                                            i: nat, j: nat, c: PeerClient) returns (k: nat)
    requires Life(states, calls, port) && i <= j < |states| && c in states[i].live && c !in states[j].live
    ensures i <= k < j && LetsGo(calls[k], c.hostname)
    decreases j
  {
    if c in states[j - 1].live {
      k := j - 1;
      assert Follows(states[k], calls[k], port, states[k + 1]);
    } else {
      k := ClosedForAReason(states, calls, port, i, j - 1, c);
    }
  }

  lemma HostsTail(clients: seq<PeerClient>)
    requires clients != []
    ensures Hosts(clients) == [clients[0].hostname] + Hosts(clients[1..])
    ensures Distinct(Hosts(clients)) ==> clients[0].hostname !in Hosts(clients[1..]) && Distinct(Hosts(clients[1..]))
  {
    var rest := Hosts(clients[1..]);
    assert forall i :: 0 <= i < |rest| ==> Hosts(clients)[i + 1] == rest[i];
    if Distinct(Hosts(clients)) {
      assert forall i :: 0 <= i < |rest| ==> Hosts(clients)[0] != Hosts(clients)[i + 1] == rest[i];
    }
  }

  lemma {:induction false} DroppedMultiset(clients: seq<PeerClient>, h: Host)
    requires Distinct(Hosts(clients)) && h in Hosts(clients)
    ensures multiset(clients) == multiset(Dropped(clients, h)) + multiset{Lookup(clients, h)}
  {
    HostsTail(clients);
    assert clients == [clients[0]] + clients[1..];
    if clients[0].hostname == h {
      DroppedAbsent(clients[1..], h);
    } else {
      DroppedMultiset(clients[1..], h);
    }
  }

  lemma {:induction false} DroppedHosts(clients: seq<PeerClient>, h: Host)
    requires Distinct(Hosts(clients))
    ensures Hosts(Dropped(clients, h)) == Without(Hosts(clients), h)
    ensures forall c :: c in Dropped(clients, h) <==> c in clients && c.hostname != h
  {
    if clients == [] {
    } else {
      HostsTail(clients);
      DroppedHosts(clients[1..], h);
      assert clients == [clients[0]] + clients[1..];
      if clients[0].hostname != h {
        HostsTail(Dropped(clients, h));
      }
    }
  }

  lemma DroppedFacts(clients: seq<PeerClient>, h: Host)
    requires Distinct(Hosts(clients)) && h in Hosts(clients)
    ensures multiset(clients) == multiset(Dropped(clients, h)) + multiset{Lookup(clients, h)}
    ensures Distinct(Hosts(Dropped(clients, h)))
    ensures forall g :: g in Hosts(Dropped(clients, h)) <==> g in Hosts(clients) && g != h
    ensures forall c :: c in Dropped(clients, h) <==> c in clients && c.hostname != h
  {
    DroppedMultiset(clients, h);
    DroppedHosts(clients, h);
    WithoutDistinct(Hosts(clients), h);
    WithoutElems(Hosts(clients), h);
    forall g ensures g in Hosts(Dropped(clients, h)) <==> g in Hosts(clients) && g != h {
      assert g in Elems(Without(Hosts(clients), h)) <==> g in Elems(Hosts(clients)) - {h};
    }
  }

  lemma {:induction false} DroppedAbsent(clients: seq<PeerClient>, h: Host)
    requires h !in Hosts(clients)
    ensures Dropped(clients, h) == clients
    ensures forall c :: c in clients ==> c.hostname != h
  {
    if clients == [] {
    } else {
      assert Hosts(clients)[0] != h;
      assert Hosts(clients)[1..] == Hosts(clients[1..]);
      DroppedAbsent(clients[1..], h);
      assert clients == [clients[0]] + clients[1..];
    }
  }

  lemma HostsAppend(clients: seq<PeerClient>, c: PeerClient)
    ensures Hosts(clients + [c]) == Hosts(clients) + [c.hostname]
  {
  }

  lemma HostIn(clients: seq<PeerClient>, c: PeerClient)
    requires c in clients
    ensures c.hostname in Hosts(clients)
  {
    var i :| 0 <= i < |clients| && clients[i] == c;
    assert Hosts(clients)[i] == c.hostname;
  }

  /** The calls made on top of the earlier ones when `host` shares its own finding: one to each client, in order. */
  ghost predicate CalledAll(before: seq<Message>, after: seq<Message>, clients: seq<PeerClient>, host: Host, ttl: int,
                            id: FindingId, alert: Alert) {
    && |after| == |before| + |clients| && after[..|before|] == before
    && forall i :: 0 <= i < |clients| ==>
         var m := after[|before| + i];
         && m.sender == host && m.dest == clients[i].hostname && m.origin == host
         && m.ttl == ttl && m.id == id && m.alert == alert
  }

  lemma CopiesCallAll(before: seq<Message>, clients: seq<PeerClient>, host: Host, ttl: int, id: FindingId, alert: Alert)
    ensures CalledAll(before, before + Copies(Hosts(clients), host, host, ttl, id, alert), clients, host, ttl, id, alert)
  {
  }

  /** Wherever `a` and `b` stand in the list, `a` stands first. */
  ghost predicate Precedes(hosts: seq<Host>, a: Host, b: Host) {
    forall p, q :: 0 <= p < |hosts| && 0 <= q < |hosts| && hosts[p] == a && hosts[q] == b ==> p < q
  }

  /**
   The calls made on top of the earlier ones when `host` passes a finding on: one to each client but
   the sender, in the order of the dictionary, all with the same content.
   */
  ghost predicate PassedOn(before: seq<Message>, after: seq<Message>, hosts: seq<Host>, host: Host, sender: Host,
                           origin: Host, ttl: int, id: FindingId, alert: Alert) {
    && |after| >= |before| && after[..|before|] == before
    && (forall k :: |before| <= k < |after| ==>
          && after[k].sender == host && after[k].origin == origin && after[k].ttl == ttl
          && after[k].id == id && after[k].alert == alert)
    && (forall h :: (exists k :: |before| <= k < |after| && after[k].dest == h) <==> h in hosts && h != sender)
    && (forall j, k :: |before| <= j < k < |after| ==> Precedes(hosts, after[j].dest, after[k].dest))
  }

  lemma {:induction false} WithoutOrder(hosts: seq<Host>, x: Host, j: nat, k: nat, p: nat, q: nat)
    requires Distinct(hosts) && p < |hosts| && q < |hosts|
    requires j < k < |Without(hosts, x)| && Without(hosts, x)[j] == hosts[p] && Without(hosts, x)[k] == hosts[q]
    ensures p < q
  {
    var rest := Without(hosts[1..], x);
    assert forall y :: y in rest ==> y in hosts[1..] by {
      WithoutElems(hosts[1..], x);
      assert forall y :: y in rest <==> y in Elems(rest);
    }
    if hosts[0] == x {
      assert rest[j] in rest && rest[k] in rest;
      WithoutOrder(hosts[1..], x, j, k, p - 1, q - 1);
    } else {
      assert rest[k - 1] in rest;
      if j > 0 {
        assert rest[j - 1] in rest;
        WithoutOrder(hosts[1..], x, j - 1, k - 1, p - 1, q - 1);
      }
    }
  }

  lemma CopiesReach(before: seq<Message>, dests: seq<Host>, host: Host, origin: Host, ttl: int, id: FindingId, alert: Alert)
    ensures var after := before + Copies(dests, host, origin, ttl, id, alert);
            && (forall k :: |before| <= k < |after| ==> after[k].dest == dests[k - |before|])
            && (forall h :: (exists k :: |before| <= k < |after| && after[k].dest == h) <==> h in dests)
  {
    var after := before + Copies(dests, host, origin, ttl, id, alert);
    assert forall k :: |before| <= k < |after| ==> after[k].dest == dests[k - |before|];
    forall h | h in dests ensures exists k :: |before| <= k < |after| && after[k].dest == h {
      var i :| 0 <= i < |dests| && dests[i] == h;
      assert after[|before| + i].dest == h;
    }
  }

  lemma CopiesPassOn(before: seq<Message>, hosts: seq<Host>, host: Host, sender: Host, origin: Host, ttl: int,
                     id: FindingId, alert: Alert)
    requires Distinct(hosts)
    ensures PassedOn(before, before + Copies(Without(hosts, sender), host, origin, ttl, id, alert),
                     hosts, host, sender, origin, ttl, id, alert)
  {
    var dests := Without(hosts, sender);
    var after := before + Copies(dests, host, origin, ttl, id, alert);
    CopiesReach(before, dests, host, origin, ttl, id, alert);
    forall h ensures (exists k :: |before| <= k < |after| && after[k].dest == h) <==> h in hosts && h != sender {
      WithoutElems(hosts, sender);
      assert h in dests <==> h in Elems(dests);
      assert h in hosts <==> h in Elems(hosts);
    }
    forall j, k | |before| <= j < k < |after| ensures Precedes(hosts, after[j].dest, after[k].dest) {
      WithoutPrecedes(hosts, sender, j - |before|, k - |before|);
    }
  }

  lemma WithoutPrecedes(hosts: seq<Host>, x: Host, j: nat, k: nat)
    requires Distinct(hosts) && j < k < |Without(hosts, x)|
    ensures Precedes(hosts, Without(hosts, x)[j], Without(hosts, x)[k])
  {
    forall p, q | 0 <= p < |hosts| && 0 <= q < |hosts| && hosts[p] == Without(hosts, x)[j] && hosts[q] == Without(hosts, x)[k]
      ensures p < q
    {
      WithoutOrder(hosts, x, j, k, p, q);
    }
  }

  class PeerManager {
    const hostname: Host
    const findingTtl: int
    const peerPort: int
    var enabled: bool
    /** The client dictionary, in insertion order. */
    var clients: seq<PeerClient>
    /** The ordered seen set, oldest first. */
    var seen: seq<FindingId>
    /** The peer events recorded in the journal. */
    var events: seq<PeerEvent>
    /** The ShareFinding calls made, in order. */
    var calls: seq<Message>
    ghost var history: seq<Mention>
    ghost var created: seq<PeerClient>
    ghost var closed: seq<PeerClient>
    var nextSerial: nat

    ghost predicate Valid()
      reads this
    {
      && Distinct(Hosts(clients))
      && seen == MarkAll(Ids(history))
      && nextSerial == |created|
      && Accounted(created, clients, closed)
    }

    /** This switch as the network sees it. */
    ghost function State(): Node
      reads this
    {
      Node(hostname, findingTtl, Hosts(clients), seen, events, history)
    }

    ghost function Connected(): Connections
      reads this
    {
      Connections(clients, created, closed)
    }

    constructor (hostname: Host, findingTtl: int, peerPort: int, enabled: bool)
      ensures Valid()
      ensures State() == Node(hostname, findingTtl, [], [], [], [])
      ensures this.enabled == enabled && this.peerPort == peerPort && calls == []
      ensures Connected() == Connections([], [], [])
    {
      this.hostname := hostname;
      this.findingTtl := findingTtl;
      this.peerPort := peerPort;
      this.enabled := enabled;
      clients, seen, events, calls := [], [], [], [];
      history, created, closed := [], [], [];
      nextSerial := 0;
    }

    method MarkSeen(id: FindingId)
      modifies `seen
      ensures seen == Mark(old(seen), id)
      ensures id in old(seen) ==> seen == Without(old(seen), id) + [id]
      ensures id !in old(seen) && |old(seen)| < 1000 ==> seen == old(seen) + [id]
      ensures id !in old(seen) && |old(seen)| >= 1000 ==> seen == old(seen)[1..] + [id]
    {
      if id in seen {
        seen := Without(seen, id) + [id];
        return;
      }
      if |seen| >= MAX_SEEN {
        seen := seen[1..];
      }
      seen := seen + [id];
    }

    /** True exactly when fewer than MAX_SEEN distinct ids were marked since `id` last was. */
    method HasSeen(id: FindingId) returns (b: bool)
      requires Valid()
      ensures b <==> id in seen
      ensures b <==> id in Ids(history) && |Elems(AfterLast(Ids(history), id))| < 1000
    {
      SeenIffRecent(Ids(history), id);
      b := id in seen;
    }

    method ShareFinding(dormant: bool, id: FindingId, alert: Alert)
      requires Valid()
      modifies `seen, `calls, `history
      ensures Valid()
      ensures State() == Share(old(State()), enabled && !dormant, id, alert).node
      ensures calls == old(calls) + Share(old(State()), enabled && !dormant, id, alert).sends
      ensures enabled && !dormant && (alert.severity == "warning" || alert.severity == "critical") ==>
                && id in seen && history == old(history) + [Own(id)]
                && CalledAll(old(calls), calls, clients, hostname, findingTtl, id, alert)
      ensures !(enabled && !dormant && (alert.severity == "warning" || alert.severity == "critical")) ==>
                seen == old(seen) && calls == old(calls) && history == old(history)
    {
      if !enabled || dormant {
        return;
      }
      if alert.severity != "warning" && alert.severity != "critical" {
        return;
      }
      MarkSeen(id);
      Remember(Own(id));
      for i := 0 to |clients|
        modifies `calls
        invariant calls == old(calls) + Copies(Hosts(clients)[..i], hostname, hostname, findingTtl, id, alert)
      {
        calls := calls + [Message(hostname, clients[i].hostname, hostname, findingTtl, id, alert)];
      }
      assert Hosts(clients)[..|clients|] == Hosts(clients);
      CopiesCallAll(old(calls), clients, hostname, findingTtl, id, alert);
    }

    ghost method Remember(e: Mention)
      requires seen == Mark(MarkAll(Ids(history)), e.id)
      modifies `history
      ensures history == old(history) + [e]
      ensures seen == MarkAll(Ids(history))
    {
      assert Ids(history + [e]) == Ids(history) + [e.id];
      assert (Ids(history) + [e.id])[..|history|] == Ids(history);
      history := history + [e];
    }

    /** Returns (accepted, already seen). */
    method HandleFinding(m: Message) returns (accepted: bool, alreadySeen: bool)
      requires Valid()
      modifies `seen, `events, `calls, `history
      ensures Valid() && accepted
      ensures State() == Receive(old(State()), m).node
      ensures calls == old(calls) + Receive(old(State()), m).sends
      ensures alreadySeen == Receive(old(State()), m).alreadySeen
      ensures alreadySeen <==> m.id in old(seen)
      ensures m.id in old(seen) ==>
                seen == old(seen) && events == old(events) && calls == old(calls) && history == old(history)
      ensures m.id !in old(seen) ==>
                && m.id in seen
                && |events| == |old(events)| + 1 && events[..|old(events)|] == old(events)
                && var e := events[|old(events)|];
                && e.sender == m.sender && e.origin == m.origin && e.ttl == m.ttl && e.id == m.id
                && e.severity == m.alert.severity && e.summary == m.alert.summary && e.scope == m.alert.scope
      ensures m.id !in old(seen) && m.ttl <= 1 ==> calls == old(calls)
      ensures m.id !in old(seen) && m.ttl > 1 ==>
                PassedOn(old(calls), calls, Hosts(clients), hostname, m.sender, m.origin, m.ttl - 1, m.id, m.alert)
    {
      var known := HasSeen(m.id);
      if known {
        return true, true;
      }
      MarkSeen(m.id);
      Remember(FromPeer(m.id, EventOf(m)));
      events := events + [EventOf(m)];
      if m.ttl > 1 {
        GossipFinding(m.sender, m.origin, m.ttl - 1, m.id, m.alert);
      }
      return true, false;
    }

    /** Re-shares a finding with every client but the sender. */
    method GossipFinding(sender: Host, origin: Host, ttl: int, id: FindingId, alert: Alert)
      requires Distinct(Hosts(clients))
      modifies `calls
      ensures calls == old(calls) + Copies(Without(Hosts(clients), sender), hostname, origin, ttl, id, alert)
      ensures PassedOn(old(calls), calls, Hosts(clients), hostname, sender, origin, ttl, id, alert)
    {
      for i := 0 to |clients|
        modifies `calls
        invariant calls == old(calls) + Copies(Without(Hosts(clients)[..i], sender), hostname, origin, ttl, id, alert)
      {
        var peer := clients[i].hostname;
        assert Hosts(clients)[..i + 1] == Hosts(clients)[..i] + [peer];
        WithoutConcat(Hosts(clients)[..i], [peer], sender);
        if peer != sender {
          assert Without([peer], sender) == [peer];
          calls := calls + [Message(hostname, peer, origin, ttl, id, alert)];
        }
      }
      assert Hosts(clients)[..|clients|] == Hosts(clients);
      CopiesPassOn(old(calls), Hosts(clients), hostname, sender, origin, ttl, id, alert);
    }

    // ---- Client connections ----------------------------------------------------

    /** `ok` says whether the connection could be set up. */
    method ConnectPeer(e: Endpoint, ok: bool)
      requires Valid() && e.hostname !in Hosts(clients)
      modifies `clients, `created, `nextSerial
      ensures Valid()
      ensures !ok ==> clients == old(clients) && created == old(created)
      ensures ok ==>
                var c := PeerClient(e.hostname, e.address, e.port, |old(created)|);
                clients == old(clients) + [c] && created == old(created) + [c]
    {
      if ok {
        var c := PeerClient(e.hostname, e.address, e.port, nextSerial);
        HostsAppend(clients, c);
        clients := clients + [c];
        created := created + [c];
        nextSerial := nextSerial + 1;
      }
    }

    method Close(h: Host)
      requires Valid() && h in Hosts(clients)
      modifies `clients, `closed
      ensures Valid()
      ensures clients == Dropped(old(clients), h)
      ensures closed == old(closed) + [Lookup(old(clients), h)]
    {
      DroppedFacts(clients, h);
      closed := closed + [Lookup(clients, h)];
      clients := Dropped(clients, h);
    }

    /**
     Brings the client dictionary in line with the topology. A peer keeps its
     connection as long as it is discovered; one whose name no longer resolves
     counts as gone.
     */
    method RefreshPeers(entries: seq<TopologyEntry>, resolve: string -> Option<string>, connects: Endpoint -> bool)
      requires Valid()
      modifies `clients, `created, `closed, `nextSerial
      ensures Valid()
      ensures Follows(old(Connected()), Refresh(enabled, entries, resolve, connects), peerPort, Connected())
      ensures !enabled ==> clients == old(clients) && created == old(created) && closed == old(closed)
      ensures enabled ==> UpToDate(old(Connected()), Connected(), entries, resolve, connects, peerPort)
    {
      if !enabled {
        return;
      }
      var endpoints := DiscoverPeers(entries, resolve, peerPort);
      ConnectAll(endpoints, resolve, connects);
      HostnamesAsSet(endpoints);
      RemoveStale(set e | e in endpoints :: e.hostname);
      BookedBetween(old(Connected()), Connected());
      RefreshTells(old(Connected()), Refresh(enabled, entries, resolve, connects), peerPort, Connected());
    }

    /** Connects to every endpoint that has no client yet. */
    method ConnectAll(endpoints: seq<Endpoint>, resolve: string -> Option<string>, connects: Endpoint -> bool)
      requires Valid()
      requires forall e :: e in endpoints ==> resolve(e.hostname) == Some(e.address) && e.port == peerPort
      modifies `clients, `created, `nextSerial
      ensures Valid() && old(created) <= created
      ensures forall h :: h in Hosts(clients) <==>
                h in old(Hosts(clients)) ||
                (h in Hostnames(endpoints) && connects(Endpoint(h, resolve(h).value, peerPort)))
      ensures forall c :: c in old(clients) ==> c in clients
      ensures forall c :: c in clients && c !in old(clients) ==>
                c.serial >= |old(created)| && resolve(c.hostname) == Some(c.address) && c.port == peerPort
    {
      for k := 0 to |endpoints|
        invariant Valid() && old(created) <= created
        invariant forall h :: h in Hosts(clients) <==>
                    h in old(Hosts(clients)) ||
                    (h in Hostnames(endpoints)[..k] && connects(Endpoint(h, resolve(h).value, peerPort)))
        invariant forall c :: c in old(clients) ==> c in clients
        invariant forall c :: c in clients && c !in old(clients) ==>
                    c.serial >= |old(created)| && resolve(c.hostname) == Some(c.address) && c.port == peerPort
      {
        var e := endpoints[k];
        assert Hostnames(endpoints)[..k + 1] == Hostnames(endpoints)[..k] + [e.hostname];
        if e.hostname !in Hosts(clients) {
          HostsAppend(clients, PeerClient(e.hostname, e.address, e.port, nextSerial));
          ConnectPeer(e, connects(e));
        }
      }
      assert Hostnames(endpoints)[..|endpoints|] == Hostnames(endpoints);
    }

    /** Closes every client that was not discovered, in any order. */
    method RemoveStale(discovered: set<string>)
      requires Valid()
      modifies `clients, `closed
      ensures Valid()
      ensures forall h :: h in Hosts(clients) <==> h in old(Hosts(clients)) && h in discovered
      ensures forall c :: c in clients <==> c in old(clients) && c.hostname in discovered
      ensures old(closed) <= closed
    {
      var stale := (set h | h in Hosts(clients)) - discovered;
      assert forall c :: c in clients ==> c.hostname in Hosts(clients) by {
        forall c | c in clients ensures c.hostname in Hosts(clients) {
          HostIn(clients, c);
        }
      }
      while stale != {}
        invariant Valid()
        invariant stale !! discovered
        invariant forall h :: h in Hosts(clients) <==> h in old(Hosts(clients)) && (h in discovered || h in stale)
        invariant stale <= set h | h in old(Hosts(clients))
        invariant forall c :: c in clients <==> c in old(clients) && (c.hostname in discovered || c.hostname in stale)
        invariant old(closed) <= closed
      {
        var h :| h in stale;
        DroppedFacts(clients, h);
        Close(h);
        stale := stale - {h};
      }
    }

    /** Closes every connection, whether or not the protocol is enabled. */
    method Stop()
      requires Valid()
      modifies `clients, `closed
      ensures Valid()
      ensures Follows(old(Connected()), PeerCall.Stop, peerPort, Connected())
      ensures clients == [] && created == old(created) && closed == old(closed) + old(clients)
    {
      closed := closed + clients;
      clients := [];
    }
  }
}
