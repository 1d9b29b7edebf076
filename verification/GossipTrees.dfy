/**
 What one fabric can do to a finding. Lossless runs without evictions differ in the order in which
 copies arrive; the sets of switches that they inform are exactly the sets covered by a gossip tree,
 which can be told from the client graph and the TTL alone.
 */
module GossipTrees {
  import opened Sequences
  import opened SeenSet
  import opened Gossip
  import opened Network
  import opened HopBound
  import opened Spreading
  import opened AtMostOnce
  import opened Coverage

  /** Who told whom: each switch's distance from the origin along the tree, and the switch it heard from. */
  datatype Tree = Tree(level: map<Host, nat>, parent: map<Host, Host>)

  /** `v` hears from a client link of its parent, within the reach of the finding. */
  ghost predicate HangsOn(nodes: map<Host, Node>, limit: int, tree: Tree, v: Host) {
    && v in tree.level && v in tree.parent
    && var u := tree.parent[v];
    && u in tree.level && u in nodes && v in nodes[u].clients
    && tree.level[v] == tree.level[u] + 1 <= Reach(limit)
  }

  /** `u` may pass the finding on to its client `w`. */
  ghost predicate MayTell(nodes: map<Host, Node>, limit: int, tree: Tree, u: Host, w: Host) {
    u in tree.level && tree.level[u] < Reach(limit) && u in nodes && w in nodes[u].clients
  }

  /** A tree of client links below the origin that leaves out no client of a switch with TTL left. */
  ghost predicate GossipTree(nodes: map<Host, Node>, origin: Host, limit: int, tree: Tree) {
    && origin in tree.level && tree.level[origin] == 0 && tree.level.Keys <= nodes.Keys
    && (forall v {:trigger HangsOn(nodes, limit, tree, v)} ::
          v in tree.level && v != origin ==> HangsOn(nodes, limit, tree, v))
    && (forall u, w {:trigger MayTell(nodes, limit, tree, u, w)} :: MayTell(nodes, limit, tree, u, w) ==> w in tree.level)
  }

  // ---- Every run leaves a tree --------------------------------------------------

  /** The accepted copy that made `sender` send this one had one more hop left. */
  ghost predicate Prompted(net: Net, m: Message) {
    exists a :: AcceptedCopy(net, a, m.sender, m.id) && a.ttl == m.ttl + 1
  }

  ghost predicate Caused(net: Net, m: Message) {
    || (IsOrigin(net, m.sender, m.id) && m.sender in net.nodes && m.ttl == net.nodes[m.sender].findingTtl)
    || (m.ttl >= 1 && Prompted(net, m))
  }

  ghost predicate AllCaused(net: Net) {
    forall m :: m in net.sent ==> Caused(net, m)
  }

  lemma StaysCaused(net: Net, net': Net, m: Message)
    requires Extends(net, net') && Caused(net, m)
    ensures Caused(net', m)
  {
    if Prompted(net, m) {
      var a :| AcceptedCopy(net, a, m.sender, m.id) && a.ttl == m.ttl + 1;
      assert AcceptedCopy(net', a, m.sender, m.id);
    }
  }

  lemma NewlyCaused(net: Net, step: Step, m: Message)
    requires NodesOk(net) && m in Apply(net, step).sent && m !in net.sent
    ensures Caused(Apply(net, step), m)
  {
    NewlySent(net, step, m);
    if step.Deliver? {
      assert AcceptedCopy(Apply(net, step), net.inflight[step.k], m.sender, m.id);
    }
  }

  lemma CausedStep(net: Net, step: Step)
    requires NodesOk(net) && AllCaused(net)
    ensures AllCaused(Apply(net, step))
  {
    StepExtends(net, step);
    forall m | m in Apply(net, step).sent ensures Caused(Apply(net, step), m) {
      if m in net.sent {
        StaysCaused(net, Apply(net, step), m);
      } else {
        NewlyCaused(net, step, m);
      }
    }
  }

  lemma {:induction false} RunCaused(start: Net, steps: seq<Step>)
    requires Initial(start)
    ensures AllCaused(Run(start, steps))
  {
    if steps == [] {
    } else {
      RunCaused(start, steps[..|steps| - 1]);
      RunSound(start, steps[..|steps| - 1]);
      CausedStep(Run(start, steps[..|steps| - 1]), steps[|steps| - 1]);
    }
  }

  ghost predicate AcceptedSome(net: Net, h: Host, id: FindingId, limit: int) {
    exists a :: AcceptedCopy(net, a, h, id) && a.ttl <= limit
  }

  ghost function AcceptedBy(net: Net, h: Host, id: FindingId, limit: int): (a: Message)
    requires AcceptedSome(net, h, id, limit)
    ensures AcceptedCopy(net, a, h, id) && a.ttl <= limit
  {
    var a :| AcceptedCopy(net, a, h, id) && a.ttl <= limit;
    a
  }

  /** How many links the copy that `h` accepted had travelled; 0 if it accepted none. */
  ghost function LevelOf(net: Net, h: Host, id: FindingId, limit: int): nat {
    if AcceptedSome(net, h, id, limit) then limit - AcceptedBy(net, h, id, limit).ttl + 1 else 0
  }

  ghost function ParentOf(net: Net, h: Host, id: FindingId, limit: int): Host {
    if AcceptedSome(net, h, id, limit) then AcceptedBy(net, h, id, limit).sender else h
  }

  ghost function TreeOf(net: Net, id: FindingId, limit: int): Tree {
    Tree(map h | h in Informed(net, id) :: LevelOf(net, h, id, limit),
         map h | h in Informed(net, id) :: ParentOf(net, h, id, limit))
  }

  lemma LevelTells(net: Net, a: Message, limit: int)
    requires AcceptedOnce(net, a.id) && a in net.accepted && a.ttl <= limit
    ensures LevelOf(net, a.dest, a.id, limit) == limit - a.ttl + 1
    ensures ParentOf(net, a.dest, a.id, limit) == a.sender
  {
    assert AcceptedCopy(net, a, a.dest, a.id);
    SameCopy(net, a, AcceptedBy(net, a.dest, a.id, limit));
  }

  /** The facts about the end of a settled run that the tree is read from. */
  ghost predicate Readable(net: Net, id: FindingId, limit: int) {
    && Sound(net) && Traced(net) && AllRouted(net) && AllCaused(net) && AcceptedOnce(net, id) && Offered(net)
    && Quiet(net, id) && net.links == Edges(net.nodes)
    && id in net.sources && net.sources[id].host in net.nodes
    && net.nodes[net.sources[id].host].findingTtl == limit
  }

  lemma OriginIsRoot(net: Net, id: FindingId, limit: int)
    requires Readable(net, id, limit)
    ensures net.sources[id].host in Informed(net, id) && LevelOf(net, net.sources[id].host, id, limit) == 0
  {
    assert Marked(net, net.sources[id].host, id);
    assert IsOrigin(net, net.sources[id].host, id);
  }

  /** A switch that knows the finding and is not its origin hangs below the sender of the copy it accepted. */
  lemma InformedHangs(net: Net, id: FindingId, limit: int, v: Host)
    requires Readable(net, id, limit) && v in Informed(net, id) && !IsOrigin(net, v, id)
    ensures HangsOn(net.nodes, limit, TreeOf(net, id, limit), v)
  {
    var a :| AcceptedCopy(net, a, v, id);
    EndsWereSent(net, a);
    assert Genuine(net, a) && Routed(net, a) && Caused(net, a);
    AcceptedOverLink(net, a);
    LevelTells(net, a, limit);
    if IsOrigin(net, a.sender, id) {
      OriginIsRoot(net, id, limit);
      assert a.ttl == limit || Prompted(net, a);
    } else {
      var b :| AcceptedCopy(net, b, a.sender, id) && b.ttl == a.ttl + 1;
      EndsWereSent(net, b);
      assert Genuine(net, b) && Routed(net, b);
      LevelTells(net, b, limit);
    }
  }

  lemma ClientsAreInformed(net: Net, id: FindingId, limit: int, u: Host, w: Host)
    requires Readable(net, id, limit) && u in Informed(net, id) && w in net.nodes[u].clients
    requires LevelOf(net, u, id, limit) < Reach(limit)
    ensures w in Informed(net, id)
  {
    if !IsOrigin(net, u, id) {
      var a :| AcceptedCopy(net, a, u, id);
      EndsWereSent(net, a);
      assert Genuine(net, a) && Routed(net, a);
      LevelTells(net, a, limit);
    }
    assert Spreads(net, u, id);
    ClientOfSpreaderKnows(net, u, w, id);
  }

  lemma TreeIsGossipTree(net: Net, id: FindingId, limit: int)
    requires Readable(net, id, limit)
    ensures GossipTree(net.nodes, net.sources[id].host, limit, TreeOf(net, id, limit))
  {
    var tree, origin := TreeOf(net, id, limit), net.sources[id].host;
    OriginIsRoot(net, id, limit);
    forall v | v in tree.level && v != origin ensures HangsOn(net.nodes, limit, tree, v) {
      InformedHangs(net, id, limit, v);
    }
    forall u, w | MayTell(net.nodes, limit, tree, u, w) ensures w in tree.level {
      ClientsAreInformed(net, id, limit, u, w);
    }
  }

  /** Trees only look at the names and clients of the switches. */
  lemma SameTrees(nodes: map<Host, Node>, nodes': map<Host, Node>, origin: Host, limit: int, tree: Tree)
    requires nodes.Keys == nodes'.Keys && forall h :: h in nodes ==> nodes'[h].clients == nodes[h].clients
    requires GossipTree(nodes', origin, limit, tree)
    ensures GossipTree(nodes, origin, limit, tree)
  {
    forall v | v in tree.level && v != origin ensures HangsOn(nodes, limit, tree, v) {
      assert HangsOn(nodes', limit, tree, v);
    }
    forall u, w | MayTell(nodes, limit, tree, u, w) ensures w in tree.level {
      assert MayTell(nodes', limit, tree, u, w);
    }
  }

  /** One half: the switches that a run has informed form a gossip tree. */
  lemma RunLeavesTree(start: Net, steps: seq<Step>, id: FindingId, n: nat, limit: int) returns (tree: Tree)
    requires Settled(start, steps, id, n, limit)
    ensures GossipTree(start.nodes, Run(start, steps).sources[id].host, limit, tree)
    ensures tree.level.Keys == Informed(Run(start, steps), id)
  {
    var net := Run(start, steps);
    SettledFacts(start, steps, id, n, limit);
    RunCaused(start, steps);
    FixedGraph(start, steps);
    tree := TreeOf(net, id, limit);
    TreeIsGossipTree(net, id, limit);
    SameTrees(start.nodes, net.nodes, net.sources[id].host, limit, tree);
  }

  // ---- Every tree is left by a run ------------------------------------------------

  /** A finding to be shared on an unused fabric, and the tree it is to spread along. */
  datatype Plan = Plan(start: Net, origin: Host, limit: int, tree: Tree, id: FindingId, alert: Alert) {
    ghost predicate Valid() {
      && Initial(start) && alert.severity == "warning"
      && origin in start.nodes && start.nodes[origin].findingTtl == limit
      && GossipTree(start.nodes, origin, limit, tree)
    }

    function Copy(u: Host, w: Host): Message
      requires u in tree.level
    {
      Message(u, w, origin, limit - tree.level[u], id, alert)
    }

    /** Each switch that knows the finding and had TTL left has a copy on its way to every client that does not know it. */
    ghost predicate Telling(net: Net, heard: set<Host>) {
      forall u, w {:trigger MayTell(start.nodes, limit, tree, u, w)} ::
        u in heard && w !in heard && MayTell(start.nodes, limit, tree, u, w) ==> Copy(u, w) in net.inflight
    }

    /** The finding has spread along the tree to the switches in `heard`. */
    ghost predicate Stage(net: Net, heard: set<Host>) {
      && heard <= tree.level.Keys && origin in heard
      && (forall h :: h in net.nodes ==> (Marked(net, h, id) <==> h in heard))
      && Telling(net, heard)
      && (forall m :: m in net.inflight ==> m.id == id && m.dest in tree.level)
    }

    /** What stays true of the run whoever has heard. */
    ghost predicate Under(net: Net) {
      && NodesOk(net) && Remembered(net, id)
      && net.nodes.Keys == start.nodes.Keys && net.sources == map[id := Source(origin, alert)]
      && (forall h :: h in start.nodes ==> net.nodes[h].clients == start.nodes[h].clients)
    }
  }

  lemma RunMore(net: Net, steps: seq<Step>, step: Step)
    ensures Run(net, steps + [step]) == Apply(Run(net, steps), step)
    ensures Lossless(steps) && !step.Refresh? && !step.Drop? ==> Lossless(steps + [step])
  {
    assert (steps + [step])[..|steps|] == steps;
  }

  /** The finding is shared, nothing else, and the copies have reached the switches in `heard`. */
  ghost predicate Spread(p: Plan, steps: seq<Step>, heard: set<Host>) {
    && Lossless(steps) && NeverEvicted(p.start, steps, p.id)
    && p.Under(Run(p.start, steps)) && p.Stage(Run(p.start, steps), heard)
  }

  lemma IsSpread(p: Plan, steps: seq<Step>, heard: set<Host>)
    requires p.Valid() && Lossless(steps) && p.Stage(Run(p.start, steps), heard)
    requires Run(p.start, steps).sources == map[p.id := Source(p.origin, p.alert)]
    ensures Spread(p, steps, heard)
  {
    RunSound(p.start, steps);
    FixedGraph(p.start, steps);
    assert |Run(p.start, steps).sources| == 1;
    FewFindingsNeverEvicted(p.start, steps, p.id);
    assert steps[..|steps|] == steps;
  }

  lemma ShareStage(p: Plan, net: Net)
    requires p.Valid() && net == Apply(p.start, Originate(p.origin, true, p.id, p.alert))
    ensures p.Stage(net, {p.origin}) && net.sources == map[p.id := Source(p.origin, p.alert)]
  {
    var clients := p.start.nodes[p.origin].clients;
    MarkExtends(p.start, net, p.origin, Own(p.id));
    forall w | MayTell(p.start.nodes, p.limit, p.tree, p.origin, w) ensures p.Copy(p.origin, w) in net.inflight {
      CopyFor(clients, p.origin, p.origin, p.limit, p.id, p.alert, w);
    }
    forall m | m in net.inflight ensures m.id == p.id && m.dest in p.tree.level {
      assert m.dest in clients;
      assert MayTell(p.start.nodes, p.limit, p.tree, p.origin, m.dest);
    }
  }

  /** Below a switch that has not heard there is one whose parent has. */
  lemma {:induction false} NextToHear(p: Plan, net: Net, heard: set<Host>, v: Host) returns (next: Host)
    requires p.Valid() && p.Stage(net, heard) && v in p.tree.level && v !in heard
    ensures HangsOn(p.start.nodes, p.limit, p.tree, next) && next !in heard && p.tree.parent[next] in heard
    decreases p.tree.level[v]
  {
    assert HangsOn(p.start.nodes, p.limit, p.tree, v);
    if p.tree.parent[v] in heard {
      next := v;
    } else {
      next := NextToHear(p, net, heard, p.tree.parent[v]);
    }
  }

  /** A copy that is not the one delivered stays on its way. */
  lemma OthersStay(net: Net, k: nat, c: Message)
    requires Possible(net, Deliver(k)) && c in net.inflight && c != net.inflight[k]
    ensures c in Apply(net, Deliver(k)).inflight
  {
    InFlightStays(net, Deliver(k), c);
  }

  /** An accepted copy with TTL left is passed on to each client but its sender. */
  lemma AcceptSends(net: Net, k: nat, w: Host)
    requires Possible(net, Deliver(k)) && net.nodes[net.inflight[k].dest].name == net.inflight[k].dest
    requires var m := net.inflight[k];
             m.ttl > 1 && m.id !in net.nodes[m.dest].seen && w in net.nodes[m.dest].clients && w != m.sender
    ensures var m := net.inflight[k];
            Message(m.dest, w, m.origin, m.ttl - 1, m.id, m.alert) in Apply(net, Deliver(k)).inflight
  {
    var m := net.inflight[k];
    var n := net.nodes[m.dest];
    WithoutKeeps(n.clients, m.sender, w);
    CopyFor(Without(n.clients, m.sender), n.name, m.origin, m.ttl - 1, m.id, m.alert, w);
  }

  lemma NewCopies(net: Net, k: nat, c: Message)
    requires Possible(net, Deliver(k)) && c in Apply(net, Deliver(k)).inflight
    ensures c in net.inflight ||
            (var m := net.inflight[k]; m.ttl > 1 && c.id == m.id && c.dest in net.nodes[m.dest].clients)
  {
    var m := net.inflight[k];
    if c !in net.inflight {
      WithoutMember(net.nodes[m.dest].clients, m.sender, c.dest);
    }
  }

  /** The k-th copy in flight is about to tell `v`. */
  ghost predicate Next(p: Plan, net: Net, heard: set<Host>, v: Host, k: nat) {
    && p.Valid() && p.Under(net) && p.Stage(net, heard) && v !in heard
    && HangsOn(p.start.nodes, p.limit, p.tree, v) && p.tree.parent[v] in heard
    && k < |net.inflight| && net.inflight[k] == p.Copy(p.tree.parent[v], v)
  }

  lemma NextIsNews(p: Plan, net: Net, heard: set<Host>, v: Host, k: nat)
    requires Next(p, net, heard, v, k)
    ensures Possible(net, Deliver(k)) && p.id !in net.nodes[v].seen
    ensures net.nodes[v].name == v && net.nodes[v].clients == p.start.nodes[v].clients
  {
    SeenWasMarked(net.nodes[v], p.id);
    assert p.id in Ids(net.nodes[v].history) <==> p.id in Elems(Ids(net.nodes[v].history));
  }

  lemma PassesOn(p: Plan, net: Net, v: Host, k: nat, w: Host)
    requires HangsOn(p.start.nodes, p.limit, p.tree, v) && MayTell(p.start.nodes, p.limit, p.tree, v, w)
    requires k < |net.inflight| && net.inflight[k] == p.Copy(p.tree.parent[v], v) && w != p.tree.parent[v]
    requires v in net.nodes && net.nodes[v].name == v && p.id !in net.nodes[v].seen
    requires net.nodes[v].clients == p.start.nodes[v].clients
    ensures p.Copy(v, w) in Apply(net, Deliver(k)).inflight
  {
    assert net.inflight[k].ttl > 1;
    AcceptSends(net, k, w);
  }

  lemma NextTells(p: Plan, net: Net, heard: set<Host>, v: Host, k: nat, w: Host)
    requires Next(p, net, heard, v, k) && MayTell(p.start.nodes, p.limit, p.tree, v, w) && w !in heard
    ensures p.Copy(v, w) in Apply(net, Deliver(k)).inflight
  {
    NextIsNews(p, net, heard, v, k);
    PassesOn(p, net, v, k, w);
  }

  lemma OthersStillTell(p: Plan, net: Net, heard: set<Host>, v: Host, k: nat, u: Host, w: Host)
    requires Next(p, net, heard, v, k) && u in heard && w !in heard && w != v && MayTell(p.start.nodes, p.limit, p.tree, u, w)
    ensures p.Copy(u, w) in Apply(net, Deliver(k)).inflight
  {
    NextIsNews(p, net, heard, v, k);
    OthersStay(net, k, p.Copy(u, w));
  }

  lemma NextMarks(p: Plan, net: Net, heard: set<Host>, v: Host, k: nat)
    requires Next(p, net, heard, v, k)
    ensures var net' := Apply(net, Deliver(k));
            forall h :: h in net'.nodes ==> (Marked(net', h, p.id) <==> h in heard + {v})
  {
    NextIsNews(p, net, heard, v, k);
    AcceptMarks(net, k);
  }

  lemma NextStaysInTree(p: Plan, net: Net, heard: set<Host>, v: Host, k: nat, c: Message)
    requires Next(p, net, heard, v, k) && c in Apply(net, Deliver(k)).inflight
    ensures c.id == p.id && c.dest in p.tree.level
  {
    NextIsNews(p, net, heard, v, k);
    NewCopies(net, k, c);
    assert c in net.inflight || MayTell(p.start.nodes, p.limit, p.tree, v, c.dest);
  }

  lemma NextKeepsTelling(p: Plan, net: Net, heard: set<Host>, v: Host, k: nat)
    requires Next(p, net, heard, v, k)
    ensures p.Telling(Apply(net, Deliver(k)), heard + {v})
  {
    forall u, w | u in heard + {v} && w !in heard + {v} && MayTell(p.start.nodes, p.limit, p.tree, u, w)
      ensures p.Copy(u, w) in Apply(net, Deliver(k)).inflight
    {
      if u == v {
        NextTells(p, net, heard, v, k, w);
      } else {
        OthersStillTell(p, net, heard, v, k, u, w);
      }
    }
  }

  lemma TellStage(p: Plan, net: Net, heard: set<Host>, v: Host, k: nat)
    requires Next(p, net, heard, v, k)
    ensures p.Stage(Apply(net, Deliver(k)), heard + {v})
  {
    NextMarks(p, net, heard, v, k);
    NextKeepsTelling(p, net, heard, v, k);
    forall c | c in Apply(net, Deliver(k)).inflight ensures c.id == p.id && c.dest in p.tree.level {
      NextStaysInTree(p, net, heard, v, k, c);
    }
  }

  lemma CopyOnItsWay(p: Plan, net: Net, heard: set<Host>, v: Host) returns (k: nat)
    requires p.Telling(net, heard)
    requires HangsOn(p.start.nodes, p.limit, p.tree, v) && v !in heard && p.tree.parent[v] in heard
    ensures k < |net.inflight| && net.inflight[k] == p.Copy(p.tree.parent[v], v)
  {
    assert MayTell(p.start.nodes, p.limit, p.tree, p.tree.parent[v], v);
    k :| k < |net.inflight| && net.inflight[k] == p.Copy(p.tree.parent[v], v);
  }

  lemma TellOne(p: Plan, steps: seq<Step>, heard: set<Host>, v: Host) returns (more: seq<Step>)
    requires p.Valid() && Spread(p, steps, heard)
    requires HangsOn(p.start.nodes, p.limit, p.tree, v) && v !in heard && p.tree.parent[v] in heard
    ensures Spread(p, more, heard + {v})
  {
    var k := CopyOnItsWay(p, Run(p.start, steps), heard, v);
    TellStage(p, Run(p.start, steps), heard, v, k);
    RunMore(p.start, steps, Deliver(k));
    more := steps + [Deliver(k)];
    IsSpread(p, more, heard + {v});
  }

  /** Along the tree, everybody gets told. */
  lemma {:induction false} TellAll(p: Plan, steps: seq<Step>, heard: set<Host>) returns (more: seq<Step>)
    requires p.Valid() && Spread(p, steps, heard)
    ensures Spread(p, more, p.tree.level.Keys)
    decreases p.tree.level.Keys - heard
  {
    if heard == p.tree.level.Keys {
      more := steps;
    } else {
      var u :| u in p.tree.level && u !in heard;
      var v := NextToHear(p, Run(p.start, steps), heard, u);
      more := TellOne(p, steps, heard, v);
      more := TellAll(p, more, heard + {v});
    }
  }

  /** A copy to a switch that knows the finding ends there. */
  lemma DrainStage(p: Plan, net: Net)
    requires p.Valid() && p.Under(net) && p.Stage(net, p.tree.level.Keys) && net.inflight != []
    ensures var net' := Apply(net, Deliver(0));
            && net' == net.(inflight := net.inflight[1..], suppressed := net.suppressed + [net.inflight[0]])
            && p.Stage(net', p.tree.level.Keys)
  {
    assert net.inflight[0] in net.inflight && Marked(net, net.inflight[0].dest, p.id);
    assert Remove(net.inflight, 0) == net.inflight[1..];
    var net' := Apply(net, Deliver(0));
    assert forall h :: Marked(net', h, p.id) <==> Marked(net, h, p.id);
  }

  lemma DrainOne(p: Plan, steps: seq<Step>)
    requires p.Valid() && Spread(p, steps, p.tree.level.Keys) && Run(p.start, steps).inflight != []
    ensures Spread(p, steps + [Deliver(0)], p.tree.level.Keys)
    ensures |Run(p.start, steps + [Deliver(0)]).inflight| < |Run(p.start, steps).inflight|
  {
    DrainStage(p, Run(p.start, steps));
    RunMore(p.start, steps, Deliver(0));
    IsSpread(p, steps + [Deliver(0)], p.tree.level.Keys);
  }

  /** And the copies left over all go to switches that know the finding already. */
  lemma {:induction false} DrainAll(p: Plan, steps: seq<Step>) returns (more: seq<Step>)
    requires p.Valid() && Spread(p, steps, p.tree.level.Keys)
    ensures Spread(p, more, p.tree.level.Keys) && Run(p.start, more).inflight == []
    decreases |Run(p.start, steps).inflight|
  {
    if Run(p.start, steps).inflight == [] {
      more := steps;
    } else {
      DrainOne(p, steps);
      more := DrainAll(p, steps + [Deliver(0)]);
    }
  }

  lemma Begin(p: Plan) returns (steps: seq<Step>)
    requires p.Valid()
    ensures Spread(p, steps, {p.origin})
  {
    steps := [Originate(p.origin, true, p.id, p.alert)];
    RunMore(p.start, [], steps[0]);
    assert [] + steps == steps;
    ShareStage(p, Run(p.start, steps));
    IsSpread(p, steps, {p.origin});
  }

  /** The other half: for each gossip tree there is a run that informs exactly its switches. */
  lemma TreeIsLeft(p: Plan) returns (steps: seq<Step>)
    requires p.Valid()
    ensures Settled(p.start, steps, p.id, |ReachableFrom(p.start.nodes, p.origin)|, p.limit)
    ensures Run(p.start, steps).sources[p.id].host == p.origin
    ensures Informed(Run(p.start, steps), p.id) == p.tree.level.Keys
  {
    steps := Begin(p);
    steps := TellAll(p, steps, {p.origin});
    steps := DrainAll(p, steps);
  }

  // ---- The criterion --------------------------------------------------------------------

  /** A settled run of a finding that originated at `origin`, at the end of which exactly `knows` know it. */
  ghost predicate EndsWith(start: Net, origin: Host, knows: set<Host>, steps: seq<Step>, id: FindingId) {
    && origin in start.nodes
    && Settled(start, steps, id, |ReachableFrom(start.nodes, origin)|, start.nodes[origin].findingTtl)
    && Run(start, steps).sources[id].host == origin
    && Informed(Run(start, steps), id) == knows
  }

  ghost predicate Covers(start: Net, origin: Host, knows: set<Host>, tree: Tree) {
    origin in start.nodes && GossipTree(start.nodes, origin, start.nodes[origin].findingTtl, tree) && tree.level.Keys == knows
  }

  /**
   Main result: what the order of arrival can make of one finding on one fabric. The sets of switches
   that lossless runs without evictions inform are exactly those that a gossip tree covers.
   */
  lemma InformedSetsIff(start: Net, origin: Host, knows: set<Host>)
    requires Initial(start) && origin in start.nodes
    ensures (exists steps, id :: EndsWith(start, origin, knows, steps, id)) <==>
            (exists tree :: Covers(start, origin, knows, tree))
  {
    if steps, id :| EndsWith(start, origin, knows, steps, id) {
      var tree := RunLeavesTree(start, steps, id, |ReachableFrom(start.nodes, origin)|, start.nodes[origin].findingTtl);
      assert Covers(start, origin, knows, tree);
    }
    if tree :| Covers(start, origin, knows, tree) {
      var p := Plan(start, origin, start.nodes[origin].findingTtl, tree, "f", Alert("", "warning", "", ""));
      var steps := TreeIsLeft(p);
      assert EndsWith(start, origin, knows, steps, p.id);
    }
  }

  /**
   Main result: the exact condition for one fabric. Every run informs all switches of a set, for
   instance those in range of the finding, if and only if every gossip tree covers the set.
   */
  lemma AlwaysInformedIff(start: Net, origin: Host, wanted: set<Host>)
    requires Initial(start) && origin in start.nodes
    ensures (forall knows, steps, id :: EndsWith(start, origin, knows, steps, id) ==> wanted <= knows) <==>
            (forall knows, tree :: Covers(start, origin, knows, tree) ==> wanted <= knows)
  {
    if forall knows, steps, id :: EndsWith(start, origin, knows, steps, id) ==> wanted <= knows {
      forall knows, tree | Covers(start, origin, knows, tree) ensures wanted <= knows {
        InformedSetsIff(start, origin, knows);
      }
    }
    if forall knows, tree :: Covers(start, origin, knows, tree) ==> wanted <= knows {
      forall knows, steps, id | EndsWith(start, origin, knows, steps, id) ensures wanted <= knows {
        InformedSetsIff(start, origin, knows);
      }
    }
  }
}
