/**
 What `finding_ttl` promises before a run has started. "Every switch within `finding_ttl` links
 hears of a finding" is not a property of this gossip: a switch that first accepts a copy that
 went the long way round suppresses the later copy with more TTL left. It holds on all fabrics
 of a given size if and only if the TTL is at most one or reaches around the whole fabric.
 */
module Shortfall {
  import opened Sequences
  import opened SeenSet
  import opened Gossip
  import opened Network
  import opened HopBound
  import opened Coverage
  import opened Trees
  import opened GossipTrees

  /**
   Switches in a row, as many links long as a copy may travel, with one more switch behind the
   last one, and a link that closes the row to a ring where it is long enough. The other switches
   hang off the first one. It lists its neighbour in the row first, so that the program, which makes
   its calls one after the other, informs the row before it uses the closing link.
   */
  datatype Lasso = Lasso(hosts: seq<Host>, ttl: int, id: FindingId, alert: Alert) {
    function Row(): nat {
      Reach(ttl)
    }

    ghost predicate Valid() {
      Distinct(hosts) && |hosts| >= Row() + 2 && alert.severity == "warning"
    }

    /** The positions of the switches off the row. */
    function Spares(): seq<nat>
      requires |hosts| >= Row() + 2
    {
      seq(|hosts| - Row() - 2, k requires 0 <= k => Row() + 2 + k)
    }

    /** The positions of the clients of switch i. */
    function Peers(i: nat): (peers: seq<nat>)
      requires |hosts| >= Row() + 2
      ensures forall j :: 0 <= j < |peers| ==> peers[j] < |hosts|
    {
      var m := Row();
      if i == 0 then [1] + (if m >= 2 then [m] else []) + Spares()
      else if i < m then [i - 1, i + 1]
      else if i == m then (if m >= 2 then [m - 1, 0, m + 1] else [0, 2])
      else if i == m + 1 then [m]
      else [0]
    }

    ghost function Clients(i: nat): seq<Host>
      requires |hosts| >= Row() + 2
    {
      seq(|Peers(i)|, j requires 0 <= j < |Peers(i)| => hosts[Peers(i)[j]])
    }

    ghost function Switch(i: nat): Node
      requires Valid() && i < |hosts|
    {
      Node(hosts[i], ttl, Clients(i), [], [], [])
    }

    ghost function Fabric(): Net
      requires Valid()
    {
      var nodes := map i | 0 <= i < |hosts| :: hosts[i] := Switch(i);
      Net(nodes, [], [], [], [], [], map[], Edges(nodes))
    }

    /** The position of the switch that tells switch i, and how far it is from the first one. */
    function Teller(i: nat): nat {
      if 0 < i <= Row() then i - 1 else 0
    }

    function Depth(i: nat): nat {
      if i <= Row() then i else 1
    }

    /** The row, told one after the other, and the switches off the row: all but the one behind the row. */
    ghost function Long(): Tree
      requires Valid()
    {
      Tree(map i | 0 <= i < |hosts| && i != Row() + 1 :: hosts[i] := Depth(i),
           map i | 0 < i < |hosts| && i != Row() + 1 :: hosts[i] := hosts[Teller(i)])
    }
  }

  lemma PeersDistinct(l: Lasso, i: nat)
    requires l.Valid()
    ensures Distinct(l.Peers(i))
  {
  }

  lemma FabricSwitch(l: Lasso, i: nat)
    requires l.Valid() && i < |l.hosts|
    ensures l.hosts[i] in l.Fabric().nodes && l.Fabric().nodes[l.hosts[i]] == l.Switch(i)
  {
  }

  lemma FabricInitial(l: Lasso)
    requires l.Valid()
    ensures Initial(l.Fabric()) && l.Fabric().nodes.Keys == Elems(l.hosts)
  {
    var nodes := l.Fabric().nodes;
    forall h | h in nodes ensures Fresh(h, nodes[h]) {
      var i :| 0 <= i < |l.hosts| && l.hosts[i] == h;
      FabricSwitch(l, i);
      PeersDistinct(l, i);
    }
    assert nodes.Keys == Elems(l.hosts);
  }

  // ---- The links ---------------------------------------------------------------------

  /** LLDP neighbours see each other. */
  ghost predicate Symmetric(links: set<(Host, Host)>) {
    forall a, b :: (a, b) in links ==> (b, a) in links
  }

  lemma ClientIsPeer(l: Lasso, i: nat, j: nat)
    requires l.Valid() && j < |l.hosts|
    ensures l.hosts[j] in l.Clients(i) <==> j in l.Peers(i)
  {
    if j in l.Peers(i) {
      var k :| 0 <= k < |l.Peers(i)| && l.Peers(i)[k] == j;
      assert l.Clients(i)[k] == l.hosts[j];
    }
  }

  lemma LassoLink(l: Lasso, i: nat, j: nat)
    requires l.Valid() && i < |l.hosts| && j < |l.hosts|
    ensures (l.hosts[i], l.hosts[j]) in Edges(l.Fabric().nodes) <==> j in l.Peers(i)
  {
    FabricSwitch(l, i);
    ClientIsPeer(l, i, j);
  }

  lemma LassoLinkEnds(l: Lasso, a: Host, b: Host) returns (i: nat, j: nat)
    requires l.Valid() && (a, b) in Edges(l.Fabric().nodes)
    ensures i < |l.hosts| && l.hosts[i] == a && j < |l.hosts| && l.hosts[j] == b
  {
    i :| 0 <= i < |l.hosts| && l.hosts[i] == a;
    FabricSwitch(l, i);
    assert b in l.Clients(i);
    var k :| 0 <= k < |l.Peers(i)| && l.Clients(i)[k] == b;
    j := l.Peers(i)[k];
  }

  lemma SpareIn(l: Lasso, i: nat)
    requires |l.hosts| >= l.Row() + 2
    ensures i in l.Spares() <==> l.Row() + 2 <= i < |l.hosts|
  {
    if l.Row() + 2 <= i < |l.hosts| {
      assert l.Spares()[i - l.Row() - 2] == i;
    }
  }

  lemma PeersOfFirst(l: Lasso, j: nat)
    requires |l.hosts| >= l.Row() + 2
    ensures j in l.Peers(0) <==> j == 1 || (j == l.Row() && j >= 2) || l.Row() + 2 <= j < |l.hosts|
  {
    SpareIn(l, j);
  }

  lemma PeersMutual(l: Lasso, i: nat, j: nat)
    requires |l.hosts| >= l.Row() + 2 && i < |l.hosts| && j in l.Peers(i)
    ensures i in l.Peers(j)
  {
    PeersOfFirst(l, i);
    PeersOfFirst(l, j);
  }

  lemma LassoSymmetric(l: Lasso)
    requires l.Valid()
    ensures Symmetric(Edges(l.Fabric().nodes))
  {
    forall a, b | (a, b) in Edges(l.Fabric().nodes) ensures (b, a) in Edges(l.Fabric().nodes) {
      var i, j := LassoLinkEnds(l, a, b);
      LassoLink(l, i, j);
      PeersMutual(l, i, j);
      LassoLink(l, j, i);
    }
  }

  lemma ReachesNext(links: set<(Host, Host)>, a: Host, b: Host, c: Host)
    requires Reaches(links, a, b) && (b, c) in links
    ensures Reaches(links, a, c)
  {
    var p :| WalkOf(links, p, a, b);
    WalkOn(links, p, c);
    assert WalkOf(links, p + [c], a, c);
  }

  /** The first switch reaches all others. */
  lemma {:induction false} FirstReaches(l: Lasso, i: nat)
    requires l.Valid() && i < |l.hosts|
    ensures Reaches(Edges(l.Fabric().nodes), l.hosts[0], l.hosts[i])
  {
    if i == 0 {
      assert WalkOf(Edges(l.Fabric().nodes), [l.hosts[0]], l.hosts[0], l.hosts[0]);
    } else {
      var before := if i <= l.Row() + 1 then i - 1 else 0;
      FirstReaches(l, before);
      PeersOfFirst(l, i);
      LassoLink(l, before, i);
      ReachesNext(Edges(l.Fabric().nodes), l.hosts[0], l.hosts[before], l.hosts[i]);
    }
  }

  lemma AllReachable(l: Lasso)
    requires l.Valid()
    ensures ReachableFrom(l.Fabric().nodes, l.hosts[0]) == Elems(l.hosts)
    ensures |ReachableFrom(l.Fabric().nodes, l.hosts[0])| == |l.hosts|
  {
    FabricInitial(l);
    forall h | h in Elems(l.hosts) ensures h in ReachableFrom(l.Fabric().nodes, l.hosts[0]) {
      var i :| 0 <= i < |l.hosts| && l.hosts[i] == h;
      FirstReaches(l, i);
    }
    assert ReachableFrom(l.Fabric().nodes, l.hosts[0]) == Elems(l.hosts);
    DistinctCard(l.hosts);
  }

  lemma OneLinkWalk(links: set<(Host, Host)>, p: seq<Host>, a: Host, b: Host)
    requires WalkOf(links, p, a, b) && |p| == 2
    ensures (a, b) in links
  {
    assert (p[0], p[0 + 1]) in links;
  }

  lemma TwoLinkWalk(links: set<(Host, Host)>, a: Host, b: Host, c: Host)
    requires (a, b) in links && (b, c) in links && (a, c) !in links && a != c
    ensures Distance(links, a, c, 2)
  {
    assert WalkOf(links, [a, b, c], a, c);
    forall q | WalkOf(links, q, a, c) ensures |q| - 1 >= 2 {
      if |q| == 2 {
        OneLinkWalk(links, q, a, c);
      }
    }
  }

  lemma ClosingLink(l: Lasso)
    requires l.Valid()
    ensures (l.hosts[0], l.hosts[l.Row()]) in Edges(l.Fabric().nodes)
  {
    PeersOfFirst(l, l.Row());
    LassoLink(l, 0, l.Row());
  }

  lemma LastLink(l: Lasso)
    requires l.Valid()
    ensures (l.hosts[l.Row()], l.hosts[l.Row() + 1]) in Edges(l.Fabric().nodes)
  {
    LassoLink(l, l.Row(), l.Row() + 1);
  }

  lemma NoShortcut(l: Lasso, j: nat)
    requires l.Valid() && j == l.Row() + 1
    ensures (l.hosts[0], l.hosts[j]) !in Edges(l.Fabric().nodes)
  {
    PeersOfFirst(l, j);
    LassoLink(l, 0, j);
  }

  /** The switch behind the row is two links away from the origin. */
  lemma TwoLinksAway(l: Lasso)
    requires l.Valid()
    ensures Distance(Edges(l.Fabric().nodes), l.hosts[0], l.hosts[l.Row() + 1], 2)
  {
    ClosingLink(l);
    LastLink(l);
    NoShortcut(l, l.Row() + 1);
    assert l.hosts[0] != l.hosts[l.Row() + 1];
    TwoLinkWalk(Edges(l.Fabric().nodes), l.hosts[0], l.hosts[l.Row()], l.hosts[l.Row() + 1]);
  }

  // ---- The tree ------------------------------------------------------------------------

  /** The tree at the switch in position i. */
  lemma LongAt(l: Lasso, i: nat)
    requires l.Valid() && i < |l.hosts|
    ensures l.hosts[i] in l.Long().level <==> i != l.Row() + 1
    ensures i != l.Row() + 1 ==> l.Long().level[l.hosts[i]] == l.Depth(i)
    ensures 0 < i && i != l.Row() + 1 ==>
              l.hosts[i] in l.Long().parent && l.Long().parent[l.hosts[i]] == l.hosts[l.Teller(i)]
  {
  }

  lemma TellerTells(l: Lasso, i: nat)
    requires |l.hosts| >= l.Row() + 2 && 0 < i < |l.hosts| && i != l.Row() + 1
    ensures i in l.Peers(l.Teller(i)) && l.Teller(i) <= l.Row()
    ensures l.Depth(i) == l.Depth(l.Teller(i)) + 1 <= l.Row()
  {
    PeersOfFirst(l, i);
  }

  lemma LongHangs(l: Lasso, i: nat)
    requires l.Valid() && 0 < i < |l.hosts| && i != l.Row() + 1
    ensures HangsOn(l.Fabric().nodes, l.ttl, l.Long(), l.hosts[i])
  {
    LongAt(l, i);
    LongAt(l, l.Teller(i));
    TellerTells(l, i);
    LassoLink(l, l.Teller(i), i);
    FabricSwitch(l, l.Teller(i));
  }

  lemma PeersClosed(l: Lasso, i: nat, j: nat)
    requires |l.hosts| >= l.Row() + 2 && i < |l.hosts| && j in l.Peers(i)
    requires i != l.Row() + 1 && l.Depth(i) < l.Row()
    ensures j != l.Row() + 1
  {
    PeersOfFirst(l, j);
  }

  lemma LongIsClosed(l: Lasso, i: nat, j: nat)
    requires l.Valid() && i < |l.hosts| && j < |l.hosts|
    requires MayTell(l.Fabric().nodes, l.ttl, l.Long(), l.hosts[i], l.hosts[j])
    ensures l.hosts[j] in l.Long().level
  {
    LongAt(l, i);
    LongAt(l, j);
    LassoLink(l, i, j);
    PeersClosed(l, i, j);
  }

  lemma LongIsGossipTree(l: Lasso)
    requires l.Valid()
    ensures GossipTree(l.Fabric().nodes, l.hosts[0], l.ttl, l.Long())
  {
    var nodes, tree := l.Fabric().nodes, l.Long();
    FabricInitial(l);
    LongAt(l, 0);
    forall v | v in tree.level && v != l.hosts[0] ensures HangsOn(nodes, l.ttl, tree, v) {
      var i :| 0 <= i < |l.hosts| && l.hosts[i] == v;
      LongAt(l, i);
      LongHangs(l, i);
    }
    forall u, w | MayTell(nodes, l.ttl, tree, u, w) ensures w in tree.level {
      var i, j := LassoLinkEnds(l, u, w);
      LongIsClosed(l, i, j);
    }
  }

  /**
   For every TTL and any switches in number at least two more than the links a copy may travel: a
   connected fabric with symmetric links and a lossless run without evictions on it that comes to
   rest although a switch two links away from the origin never hears of the finding.
   */
  lemma InRangeButMissed(l: Lasso) returns (steps: seq<Step>)
    requires l.Valid()
    ensures Settled(l.Fabric(), steps, l.id, |l.hosts|, l.ttl)
    ensures Cabled(l.Fabric().nodes, l.hosts[0])
    ensures var net := Run(l.Fabric(), steps);
            var missed := l.hosts[l.Row() + 1];
            && net.sources[l.id].host == l.hosts[0] && missed in net.nodes
            && Distance(Edges(net.nodes), l.hosts[0], missed, 2)
            && missed !in Informed(net, l.id)
  {
    var p := Plan(l.Fabric(), l.hosts[0], l.ttl, l.Long(), l.id, l.alert);
    FabricInitial(l);
    FabricSwitch(l, 0);
    LongIsGossipTree(l);
    steps := TreeIsLeft(p);
    LassoSymmetric(l);
    AllReachable(l);
    TwoLinksAway(l);
    LongAt(l, l.Row() + 1);
    SettledFacts(l.Fabric(), steps, l.id, |l.hosts|, l.ttl);
  }

  // ---- What finding_ttl promises ---------------------------------------------------

  /** Neighbours see each other and every switch can be reached. */
  ghost predicate Cabled(nodes: map<Host, Node>, origin: Host) {
    Symmetric(Edges(nodes)) && ReachableFrom(nodes, origin) == nodes.Keys
  }

  /**
   A settled run of a finding with TTL `t` where `n` switches can be reached from its origin; with
   `cabled` set, on a connected fabric of n switches with symmetric links.
   */
  ghost predicate Admitted(start: Net, steps: seq<Step>, id: FindingId, n: nat, t: int, cabled: bool) {
    && Settled(start, steps, id, n, t)
    && (cabled ==> Cabled(start.nodes, Run(start, steps).sources[id].host))
  }

  /** Whatever the fabric and the run, all switches in range of the finding know it. */
  ghost predicate RangeAlwaysKnows(n: nat, t: int, cabled: bool) {
    forall start, steps, id :: Admitted(start, steps, id, n, t, cabled) ==> RangeKnows(Run(start, steps), id, t)
  }

  /** And here all switches that can be reached at all. */
  ghost predicate EveryoneAlwaysKnows(n: nat, t: int, cabled: bool) {
    forall start, steps, id :: Admitted(start, steps, id, n, t, cabled) ==> EveryoneKnows(Run(start, steps), id)
  }

  function SomeHosts(n: nat): seq<Host> {
    seq(n, i requires 0 <= i < n => seq(i, _ => 'x'))
  }

  lemma SomeHostsDistinct(n: nat)
    ensures Distinct(SomeHosts(n))
  {
    forall i, j | 0 <= i < j < n ensures SomeHosts(n)[i] != SomeHosts(n)[j] {
      assert |SomeHosts(n)[i]| == i && |SomeHosts(n)[j]| == j;
    }
  }

  /** A fabric and run that leave out a switch two links from the origin. */
  lemma SomeoneMissed(n: nat, t: int, cabled: bool) returns (start: Net, steps: seq<Step>, id: FindingId, missed: Host)
    requires Reach(t) < n - 1
    ensures Admitted(start, steps, id, n, t, cabled)
    ensures var net := Run(start, steps);
            && net.links == Edges(net.nodes) && missed in net.nodes && missed !in Informed(net, id)
            && Distance(net.links, net.sources[id].host, missed, 2)
  {
    var l := Lasso(SomeHosts(n), t, "f", Alert("", "warning", "", ""));
    SomeHostsDistinct(n);
    start, id, missed := l.Fabric(), l.id, l.hosts[l.Row() + 1];
    steps := InRangeButMissed(l);
    SettledFacts(start, steps, id, n, t);
  }

  /**
   Main result: when `finding_ttl` means what it says. Where n switches can be reached, in all lossless
   runs without evictions, every switch within the range of a finding with TTL t hears of it, if and
   only if t is at most 1 or at least n - 1; on connected fabrics with symmetric links just the same.
   */
  lemma RangeKnowsIff(n: nat, t: int, cabled: bool)
    ensures RangeAlwaysKnows(n, t, cabled) <==> t <= 1 || t >= n - 1
  {
    if t <= 1 || t >= n - 1 {
      forall start, steps, id | Admitted(start, steps, id, n, t, cabled) ensures RangeKnows(Run(start, steps), id, t) {
        RangeCoverage(start, steps, id, n, t);
      }
    } else {
      var start, steps, id, missed := SomeoneMissed(n, t, cabled);
      var net := Run(start, steps);
      var p :| WalkOf(net.links, p, net.sources[id].host, missed) && |p| - 1 == 2;
      assert missed in InRangeOf(net.nodes, net.sources[id].host, Reach(t));
      assert !RangeKnows(net, id, t);
    }
  }

  /**
   Main result: and when it covers the whole fabric. Every switch that can be reached hears of every
   finding with TTL t, if and only if t, or the one link that each copy travels anyway, is at least n - 1.
   */
  lemma EveryoneAlwaysKnowsIff(n: nat, t: int, cabled: bool)
    ensures EveryoneAlwaysKnows(n, t, cabled) <==> Reach(t) >= n - 1
  {
    if Reach(t) >= n - 1 {
      forall start, steps, id | Admitted(start, steps, id, n, t, cabled) ensures EveryoneKnows(Run(start, steps), id) {
        FullCoverage(start, steps, id, n, t);
      }
    } else {
      var start, steps, id, missed := SomeoneMissed(n, t, cabled);
      var net := Run(start, steps);
      var p :| WalkOf(net.links, p, net.sources[id].host, missed) && |p| - 1 == 2;
      assert !EveryoneKnows(net, id);
    }
  }

  /**
   Why ids have to be unique across the fabric: of two findings that share an id, a switch that
   accepted the first neither records nor passes on the second, whoever it comes from.
   */
  lemma SharedIdHidesFinding(n: Node, first: Message, second: Message)
    requires NodeOk(n) && first.id == second.id
    ensures var n' := Receive(n, first).node;
            && Receive(n', second).alreadySeen
            && Receive(n', second).sends == []
            && Receive(n', second).node.events == n'.events
  {
    WithoutElems(n.seen, first.id);
  }
}
