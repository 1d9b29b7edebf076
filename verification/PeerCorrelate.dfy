/** Matching local events with peer events: an indexed join that agrees with the plain one. */
module PeerCorrelate {
  import opened Wrappers
  import opened TopologyDiff

  /** `peerHostname` is the sender named in the event's data, if there is one. */
  datatype Event = Event(id: int, source: string, port: Option<string>, peerHostname: Option<string>)

  datatype Correlation = Correlation(local: Event, peer: Event, localPort: string, peerHostname: string, peerPort: string)

  function FromSource(events: seq<Event>, source: string): seq<Event> {
    if events == [] then []
    else
      var rest, last := FromSource(events[..|events| - 1], source), events[|events| - 1];
      if last.source == source then rest + [last] else rest
  }

  /** The neighbour behind the port a local event is about. */
  function NeighborOf(topology: map<string, Neighbor>, local: Event): Option<Neighbor> {
    if local.port.Some? && local.port.value != "" && local.port.value in topology
    then Some(topology[local.port.value]) else None
  }

  predicate Related(topology: map<string, Neighbor>, local: Event, peer: Event) {
    var n := NeighborOf(topology, local);
    n.Some? && n.value.hostname != "" && peer.peerHostname == Some(n.value.hostname)
  }

  function Correlate(topology: map<string, Neighbor>, local: Event, peer: Event): Correlation
    requires Related(topology, local, peer)
  {
    var n := NeighborOf(topology, local).value;
    Correlation(local, peer, local.port.value, n.hostname, n.port)
  }

  /** The plain join of one local event with a list of peer events. */
  function JoinOne(topology: map<string, Neighbor>, local: Event, peers: seq<Event>): seq<Correlation> {
    if peers == [] then []
    else
      var rest, last := JoinOne(topology, local, peers[..|peers| - 1]), peers[|peers| - 1];
      if Related(topology, local, last) then rest + [Correlate(topology, local, last)] else rest
  }

  /** The plain nested join. */
  function Join(topology: map<string, Neighbor>, locals: seq<Event>, peers: seq<Event>): seq<Correlation> {
    if locals == [] then []
    else Join(topology, locals[..|locals| - 1], peers) + JoinOne(topology, locals[|locals| - 1], peers)
  }

  function PairOf(c: Correlation): (int, int) {
    (c.local.id, c.peer.id)
  }

  function Pairs(cs: seq<Correlation>): set<(int, int)> {
    set c | c in cs :: PairOf(c)
  }

  /** The first correlation for each pair of event ids. */
  function FirstOfEach(cs: seq<Correlation>): seq<Correlation> {
    if cs == [] then []
    else
      var init, last := cs[..|cs| - 1], cs[|cs| - 1];
      if PairOf(last) in Pairs(init) then FirstOfEach(init) else FirstOfEach(init) + [last]
  }

  /** The peer events a hostname is indexed under. */
  function Bucket(peers: seq<Event>, hostname: string): seq<Event> {
    if peers == [] then []
    else
      var rest, last := Bucket(peers[..|peers| - 1], hostname), peers[|peers| - 1];
      if hostname != "" && last.peerHostname == Some(hostname) then rest + [last] else rest
  }

  lemma {:induction false} JoinOneIsBucket(topology: map<string, Neighbor>, local: Event, peers: seq<Event>)
    ensures NeighborOf(topology, local).None? ==> JoinOne(topology, local, peers) == []
    ensures NeighborOf(topology, local).Some? ==>
              var b := Bucket(peers, NeighborOf(topology, local).value.hostname);
              && (forall i :: 0 <= i < |b| ==> Related(topology, local, b[i]))
              && JoinOne(topology, local, peers) == JoinOne(topology, local, b)
  {
    if peers == [] {
    } else {
      JoinOneIsBucket(topology, local, peers[..|peers| - 1]);
      if NeighborOf(topology, local).Some? {
        var h := NeighborOf(topology, local).value.hostname;
        var b, b' := Bucket(peers[..|peers| - 1], h), Bucket(peers, h);
        if |b'| > |b| {
          assert b'[..|b|] == b;
        }
      }
    }
  }

  lemma FirstOfEachAppend(cs: seq<Correlation>, c: Correlation)
    ensures Pairs(cs + [c]) == Pairs(cs) + {PairOf(c)}
    ensures FirstOfEach(cs + [c]) == if PairOf(c) in Pairs(cs) then FirstOfEach(cs) else FirstOfEach(cs) + [c]
  {
    assert (cs + [c])[..|cs|] == cs;
    assert forall x :: x in cs + [c] <==> x in cs || x == c;
  }

  // ---- Distinct ids -------------------------------------------------------------

  ghost predicate DistinctIds(events: seq<Event>) {
    forall i, j :: 0 <= i < j < |events| ==> events[i].id != events[j].id
  }

  ghost predicate DistinctPairs(cs: seq<Correlation>) {
    forall i, j :: 0 <= i < j < |cs| ==> PairOf(cs[i]) != PairOf(cs[j])
  }

  lemma {:induction false} FirstOfEachDistinct(cs: seq<Correlation>)
    requires DistinctPairs(cs)
    ensures FirstOfEach(cs) == cs
  {
    if cs == [] {
    } else {
      var init, last := cs[..|cs| - 1], cs[|cs| - 1];
      FirstOfEachDistinct(init);
      assert cs == init + [last];
      assert PairOf(last) !in Pairs(init) by {
        forall c | c in init ensures PairOf(c) != PairOf(last) {
          var i :| 0 <= i < |init| && init[i] == c;
          assert PairOf(cs[i]) != PairOf(cs[|cs| - 1]);
        }
      }
    }
  }

  /** A correlation pairs a local event with a related peer event; every such pair is found. */
  lemma {:induction false} JoinOneMembers(topology: map<string, Neighbor>, local: Event, peers: seq<Event>)
    ensures forall c :: c in JoinOne(topology, local, peers) <==>
              c.local == local && c.peer in peers && Related(topology, local, c.peer) && c == Correlate(topology, local, c.peer)
  {
    if peers == [] {
    } else {
      var init, last := peers[..|peers| - 1], peers[|peers| - 1];
      JoinOneMembers(topology, local, init);
      assert peers == init + [last];
      assert forall e :: e in peers <==> e in init || e == last;
    }
  }

  lemma {:induction false} JoinMembers(topology: map<string, Neighbor>, locals: seq<Event>, peers: seq<Event>)
    ensures forall c :: c in Join(topology, locals, peers) <==>
              c.local in locals && c.peer in peers && Related(topology, c.local, c.peer) && c == Correlate(topology, c.local, c.peer)
  {
    if locals == [] {
    } else {
      var init, last := locals[..|locals| - 1], locals[|locals| - 1];
      JoinMembers(topology, init, peers);
      JoinOneMembers(topology, last, peers);
      assert locals == init + [last];
      assert forall e :: e in locals <==> e in init || e == last;
    }
  }

  lemma {:induction false} JoinOneDistinct(topology: map<string, Neighbor>, local: Event, peers: seq<Event>)
    requires DistinctIds(peers)
    ensures DistinctPairs(JoinOne(topology, local, peers))
  {
    if peers == [] {
    } else {
      var init, last := peers[..|peers| - 1], peers[|peers| - 1];
      JoinOneDistinct(topology, local, init);
      JoinOneMembers(topology, local, init);
      forall c | c in JoinOne(topology, local, init) ensures c.peer.id != last.id {
        var i :| 0 <= i < |init| && init[i] == c.peer;
        assert peers[i].id != peers[|peers| - 1].id;
      }
    }
  }

  lemma {:induction false} JoinDistinct(topology: map<string, Neighbor>, locals: seq<Event>, peers: seq<Event>)
    requires DistinctIds(locals) && DistinctIds(peers)
    ensures DistinctPairs(Join(topology, locals, peers))
  {
    if locals == [] {
    } else {
      var init, last := locals[..|locals| - 1], locals[|locals| - 1];
      JoinDistinct(topology, init, peers);
      JoinMembers(topology, init, peers);
      JoinOneDistinct(topology, last, peers);
      JoinOneMembers(topology, last, peers);
      var a, b := Join(topology, init, peers), JoinOne(topology, last, peers);
      forall c, d | c in a && d in b ensures PairOf(c) != PairOf(d) {
        var i :| 0 <= i < |init| && init[i] == c.local;
        assert locals[i].id != locals[|locals| - 1].id;
      }
      DistinctAppend(a, b);
    }
  }

  lemma DistinctAppend(a: seq<Correlation>, b: seq<Correlation>)
    requires DistinctPairs(a) && DistinctPairs(b)
    requires forall c, d :: c in a && d in b ==> PairOf(c) != PairOf(d)
    ensures DistinctPairs(a + b)
  {
    forall i, j | 0 <= i < j < |a + b| ensures PairOf((a + b)[i]) != PairOf((a + b)[j]) {
      if i < |a| <= j {
        assert a[i] in a && b[j - |a|] in b;
      }
    }
  }

  lemma {:induction false} FromSourceDistinct(events: seq<Event>, source: string)
    requires DistinctIds(events)
    ensures DistinctIds(FromSource(events, source))
    ensures forall e :: e in FromSource(events, source) <==> e in events && e.source == source
  {
    if events == [] {
    } else {
      var init, last := events[..|events| - 1], events[|events| - 1];
      FromSourceDistinct(init, source);
      assert events == init + [last];
      assert forall e :: e in events <==> e in init || e == last;
      forall e | e in init ensures e.id != last.id {
        var i :| 0 <= i < |init| && init[i] == e;
        assert events[i].id != events[|events| - 1].id;
      }
    }
  }

  /**
   Main result. Since event ids are distinct, the correlations are exactly the pairs of a local
   event and a peer event from the named neighbour behind its port, each pair once.
   */
  lemma CorrelationsExact(topology: map<string, Neighbor>, events: seq<Event>)
    requires DistinctIds(events)
    ensures var joined := Join(topology, FromSource(events, "local"), FromSource(events, "peer"));
            && FirstOfEach(joined) == joined
            && DistinctPairs(joined)
            && forall c :: c in joined <==> SameLink(topology, events, c)
  {
    var locals, peers := FromSource(events, "local"), FromSource(events, "peer");
    FromSourceDistinct(events, "local");
    FromSourceDistinct(events, "peer");
    JoinDistinct(topology, locals, peers);
    JoinMembers(topology, locals, peers);
    FirstOfEachDistinct(Join(topology, locals, peers));
  }

  // ---- What a correlation says ------------------------------------------------------

  /** The local event is about a port behind which the topology has the sender of the peer event. */
  ghost predicate SameLink(topology: map<string, Neighbor>, events: seq<Event>, c: Correlation) {
    && c.local in events && c.local.source == "local" && c.peer in events && c.peer.source == "peer"
    && c.local.port == Some(c.localPort) && c.localPort != "" && c.localPort in topology
    && topology[c.localPort].hostname == c.peerHostname && topology[c.localPort].port == c.peerPort
    && c.peerHostname != "" && c.peer.peerHostname == Some(c.peerHostname)
  }

  /** A local and a peer event that belong together. */
  ghost predicate BelongTogether(topology: map<string, Neighbor>, events: seq<Event>, local: Event, peer: Event) {
    && local in events && local.source == "local" && peer in events && peer.source == "peer"
    && local.port.Some? && local.port.value != "" && local.port.value in topology
    && topology[local.port.value].hostname != "" && peer.peerHostname == Some(topology[local.port.value].hostname)
  }

  ghost predicate Reports(results: seq<Correlation>, local: Event, peer: Event) {
    exists i :: 0 <= i < |results| && results[i].local == local && results[i].peer == peer
  }

  lemma {:induction false} FromSourceMembers(events: seq<Event>, source: string)
    ensures forall e :: e in FromSource(events, source) <==> e in events && e.source == source
  {
    if events == [] {
    } else {
      var init, last := events[..|events| - 1], events[|events| - 1];
      FromSourceMembers(init, source);
      assert events == init + [last];
    }
  }

  lemma {:induction false} FirstOfEachMembers(cs: seq<Correlation>)
    ensures forall c :: c in FirstOfEach(cs) ==> c in cs
    ensures Pairs(FirstOfEach(cs)) == Pairs(cs)
    ensures DistinctPairs(FirstOfEach(cs))
  {
    if cs == [] {
    } else {
      var init, last := cs[..|cs| - 1], cs[|cs| - 1];
      FirstOfEachMembers(init);
      assert cs == init + [last];
      FirstOfEachAppend(init, last);
      if PairOf(last) !in Pairs(init) {
        NewPairAppend(FirstOfEach(init), last);
      }
    }
  }

  lemma NewPairAppend(cs: seq<Correlation>, c: Correlation)
    requires DistinctPairs(cs) && PairOf(c) !in Pairs(cs)
    ensures DistinctPairs(cs + [c]) && Pairs(cs + [c]) == Pairs(cs) + {PairOf(c)}
  {
    FirstOfEachAppend(cs, c);
    forall i | 0 <= i < |cs| ensures PairOf(cs[i]) != PairOf(c) {
      assert cs[i] in cs && PairOf(cs[i]) in Pairs(cs);
    }
  }

  lemma JoinedOnSameLink(topology: map<string, Neighbor>, events: seq<Event>, c: Correlation)
    ensures c in Join(topology, FromSource(events, "local"), FromSource(events, "peer")) ==> SameLink(topology, events, c)
  {
    FromSourceMembers(events, "local");
    FromSourceMembers(events, "peer");
    JoinMembers(topology, FromSource(events, "local"), FromSource(events, "peer"));
  }

  lemma TogetherIsJoined(topology: map<string, Neighbor>, events: seq<Event>, local: Event, peer: Event)
    requires BelongTogether(topology, events, local, peer)
    ensures var joined := Join(topology, FromSource(events, "local"), FromSource(events, "peer"));
            (local.id, peer.id) in Pairs(joined)
  {
    FromSourceMembers(events, "local");
    FromSourceMembers(events, "peer");
    JoinMembers(topology, FromSource(events, "local"), FromSource(events, "peer"));
    assert PairOf(Correlate(topology, local, peer)) == (local.id, peer.id);
  }

  lemma SameIdSameEvent(events: seq<Event>, a: Event, b: Event)
    requires DistinctIds(events) && a in events && b in events && a.id == b.id
    ensures a == b
  {
    var i :| 0 <= i < |events| && events[i] == a;
    var j :| 0 <= j < |events| && events[j] == b;
  }

  ghost predicate HasPair(results: seq<Correlation>, pair: (int, int)) {
    exists i :: 0 <= i < |results| && (results[i].local.id, results[i].peer.id) == pair
  }

  /** What is left of the join once repeated pairs of ids are dropped. */
  lemma ResultsTell(topology: map<string, Neighbor>, events: seq<Event>, results: seq<Correlation>)
    requires results == FirstOfEach(Join(topology, FromSource(events, "local"), FromSource(events, "peer")))
    ensures forall i :: 0 <= i < |results| ==> SameLink(topology, events, results[i])
    ensures forall local, peer :: BelongTogether(topology, events, local, peer) ==> HasPair(results, (local.id, peer.id))
    ensures forall i, j :: 0 <= i < j < |results| ==>
              results[i].local.id != results[j].local.id || results[i].peer.id != results[j].peer.id
  {
    var joined := Join(topology, FromSource(events, "local"), FromSource(events, "peer"));
    FirstOfEachMembers(joined);
    forall i | 0 <= i < |results| ensures SameLink(topology, events, results[i]) {
      assert results[i] in joined;
      JoinedOnSameLink(topology, events, results[i]);
    }
    forall local, peer | BelongTogether(topology, events, local, peer) ensures HasPair(results, (local.id, peer.id)) {
      TogetherIsJoined(topology, events, local, peer);
      var c :| c in results && PairOf(c) == (local.id, peer.id);
    }
    forall i, j | 0 <= i < j < |results|
      ensures results[i].local.id != results[j].local.id || results[i].peer.id != results[j].peer.id
    {
      assert PairOf(results[i]) != PairOf(results[j]);
    }
  }

  lemma TogetherIsReported(topology: map<string, Neighbor>, events: seq<Event>, results: seq<Correlation>,
                           local: Event, peer: Event)
    requires DistinctIds(events) && BelongTogether(topology, events, local, peer)
    requires forall i :: 0 <= i < |results| ==> SameLink(topology, events, results[i])
    requires HasPair(results, (local.id, peer.id))
    ensures Reports(results, local, peer)
  {
    var i :| 0 <= i < |results| && (results[i].local.id, results[i].peer.id) == (local.id, peer.id);
    SameIdSameEvent(events, results[i].local, local);
    SameIdSameEvent(events, results[i].peer, peer);
  }

  // ---- The program ------------------------------------------------------------------

  lemma BucketStep(peers: seq<Event>, i: nat)
    requires i < |peers|
    ensures forall h :: Bucket(peers[..i + 1], h) ==
              if h != "" && peers[i].peerHostname == Some(h) then Bucket(peers[..i], h) + [peers[i]]
              else Bucket(peers[..i], h)
  {
    assert peers[..i + 1][..i] == peers[..i];
  }

  /** The peer events indexed under a hostname. */
  function Listed(index: map<string, seq<Event>>, hostname: string): seq<Event> {
    if hostname in index then index[hostname] else []
  }

  lemma IndexStep(index: map<string, seq<Event>>, peers: seq<Event>, i: nat)
    requires i < |peers| && forall h :: Listed(index, h) == Bucket(peers[..i], h)
    ensures var pe := peers[i];
            var index' := if pe.peerHostname.Some? && pe.peerHostname.value != ""
                          then index[pe.peerHostname.value := Listed(index, pe.peerHostname.value) + [pe]] else index;
            forall h :: Listed(index', h) == Bucket(peers[..i + 1], h)
  {
    BucketStep(peers, i);
  }

  /** Indexes the peer events by the hostname of their sender. */
  method IndexByHost(peers: seq<Event>) returns (index: map<string, seq<Event>>)
    ensures forall h :: Listed(index, h) == Bucket(peers, h)
  {
    index := map[];
    for i := 0 to |peers|
      invariant forall h :: Listed(index, h) == Bucket(peers[..i], h)
    {
      var pe := peers[i];
      IndexStep(index, peers, i);
      if pe.peerHostname.Some? && pe.peerHostname.value != "" {
        var h := pe.peerHostname.value;
        index := index[h := Listed(index, h) + [pe]];
      }
    }
    assert peers[..|peers|] == peers;
  }

  method Analyze(topology: map<string, Neighbor>, events: seq<Event>) returns (results: seq<Correlation>)
    ensures results == FirstOfEach(Join(topology, FromSource(events, "local"), FromSource(events, "peer")))
    ensures forall i :: 0 <= i < |results| ==> SameLink(topology, events, results[i])
    ensures forall local, peer :: BelongTogether(topology, events, local, peer) ==> HasPair(results, (local.id, peer.id))
    ensures forall i, j :: 0 <= i < j < |results| ==>
              results[i].local.id != results[j].local.id || results[i].peer.id != results[j].peer.id
    ensures DistinctIds(events) ==>
              forall local, peer :: BelongTogether(topology, events, local, peer) <==> Reports(results, local, peer)
  {
    results := JoinByIndex(topology, events);
    ResultsTell(topology, events, results);
    if DistinctIds(events) {
      forall local, peer ensures BelongTogether(topology, events, local, peer) <==> Reports(results, local, peer) {
        if BelongTogether(topology, events, local, peer) {
          TogetherIsReported(topology, events, results, local, peer);
        }
        if i :| 0 <= i < |results| && results[i].local == local && results[i].peer == peer {
          assert SameLink(topology, events, results[i]);
        }
      }
    }
  }

  method JoinByIndex(topology: map<string, Neighbor>, events: seq<Event>) returns (results: seq<Correlation>)
    ensures results == FirstOfEach(Join(topology, FromSource(events, "local"), FromSource(events, "peer")))
  {
    var peers := Select(events, "peer");
    var locals := Select(events, "local");
    if locals == [] || peers == [] {
      NothingToJoin(topology, locals);
      return [];
    }
    var index := IndexByHost(peers);
    results := [];
    var seen: set<(int, int)> := {};
    ghost var done: seq<Correlation> := [];
    for i := 0 to |locals|
      invariant done == Join(topology, locals[..i], peers)
      invariant results == FirstOfEach(done) && seen == Pairs(done)
    {
      assert locals[..i + 1][..i] == locals[..i];
      JoinOneIsBucket(topology, locals[i], peers);
      var neighbor := NeighborOf(topology, locals[i]);
      if neighbor.Some? {
        var hostname := neighbor.value.hostname;
        var matching := Listed(index, hostname);
        assert matching == Bucket(peers, hostname);
        results, seen := Collect(topology, locals[i], matching, results, seen, done);
        done := done + JoinOne(topology, locals[i], matching);
      }
    }
    assert locals[..|locals|] == locals;
  }

  lemma CollectStep(topology: map<string, Neighbor>, local: Event, matching: seq<Event>, j: nat, done: seq<Correlation>)
    requires j < |matching| && Related(topology, local, matching[j])
    ensures var sofar := done + JoinOne(topology, local, matching[..j]);
            var next := done + JoinOne(topology, local, matching[..j + 1]);
            var c := Correlate(topology, local, matching[j]);
            && FirstOfEach(next) == FirstOfEach(sofar) + (if PairOf(c) in Pairs(sofar) then [] else [c])
            && Pairs(next) == Pairs(sofar) + {PairOf(c)}
  {
    var c := Correlate(topology, local, matching[j]);
    assert matching[..j + 1][..j] == matching[..j];
    var before := JoinOne(topology, local, matching[..j]);
    assert JoinOne(topology, local, matching[..j + 1]) == before + [c];
    assert done + (before + [c]) == (done + before) + [c];
    FirstOfEachAppend(done + before, c);
  }

  /** Adds the correlations of one local event with its matching peer events, unless their pair is known already. */
  method Collect(topology: map<string, Neighbor>, local: Event, matching: seq<Event>,
                 results0: seq<Correlation>, seen0: set<(int, int)>, ghost done: seq<Correlation>)
    returns (results: seq<Correlation>, seen: set<(int, int)>)
    requires forall j :: 0 <= j < |matching| ==> Related(topology, local, matching[j])
    requires results0 == FirstOfEach(done) && seen0 == Pairs(done)
    ensures results == FirstOfEach(done + JoinOne(topology, local, matching))
    ensures seen == Pairs(done + JoinOne(topology, local, matching))
  {
    results, seen := results0, seen0;
    assert done + JoinOne(topology, local, matching[..0]) == done;
    for j := 0 to |matching|
      invariant results == FirstOfEach(done + JoinOne(topology, local, matching[..j]))
      invariant seen == Pairs(done + JoinOne(topology, local, matching[..j]))
    {
      var c := Correlate(topology, local, matching[j]);
      CollectStep(topology, local, matching, j, done);
      if PairOf(c) !in seen {
        seen := seen + {PairOf(c)};
        results := results + [c];
      }
    }
    assert matching[..|matching|] == matching;
  }

  method Select(events: seq<Event>, source: string) returns (r: seq<Event>)
    ensures r == FromSource(events, source)
  {
    r := [];
    for i := 0 to |events|
      invariant r == FromSource(events[..i], source)
    {
      assert events[..i + 1][..i] == events[..i];
      if events[i].source == source {
        r := r + [events[i]];
      }
    }
    assert events[..|events|] == events;
  }

  lemma {:induction false} NothingToJoin(topology: map<string, Neighbor>, locals: seq<Event>)
    ensures Join(topology, locals, []) == []
  {
    if locals == [] {
    } else {
      NothingToJoin(topology, locals[..|locals| - 1]);
    }
  }
}
