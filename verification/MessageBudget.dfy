/**
 How much traffic a finding causes: bounds that hold whatever the seen check
 does, and the tighter bound that holds while nothing is evicted.
 */
module MessageBudget {
  import opened Sequences
  import opened SeenSet
  import opened Gossip
  import opened Network
  import opened HopBound

  /** The most copies that one copy with this TTL stands for, itself included, when no switch has more than `d` clients. */
  function Worth(ttl: int, d: nat): (w: nat)
    ensures w >= 1
    decreases if ttl > 1 then ttl else 1
  {
    if ttl <= 1 then 1 else 1 + d * Worth(ttl - 1, d)
  }

  /** d + d^2 + ... + d^n */
  function Powers(d: nat, n: nat): nat {
    if n == 0 then 0 else d + d * Powers(d, n - 1)
  }

  lemma {:induction false} WorthIsGeometric(ttl: int, d: nat)
    requires ttl >= 1
    ensures d * Worth(ttl, d) == Powers(d, ttl)
    decreases ttl
  {
    if ttl > 1 {
      WorthIsGeometric(ttl - 1, d);
      calc {
        d * Worth(ttl, d);
        d * (1 + d * Worth(ttl - 1, d));
        d + d * (d * Worth(ttl - 1, d));
        d + d * Powers(d, ttl - 1);
      }
    } else {
      assert Powers(d, 1) == d + d * Powers(d, 0);
    }
  }

  function Total(s: seq<Message>, weight: Message -> nat): nat {
    if s == [] then 0 else weight(s[0]) + Total(s[1..], weight)
  }

  lemma {:induction false} TotalConcat(a: seq<Message>, b: seq<Message>, weight: Message -> nat)
    ensures Total(a + b, weight) == Total(a, weight) + Total(b, weight)
  {
    if a == [] {
      assert a + b == b;
    } else {
      assert (a + b)[1..] == a[1..] + b;
      TotalConcat(a[1..], b, weight);
    }
  }

  lemma TotalRemove(s: seq<Message>, k: nat, weight: Message -> nat)
    requires k < |s|
    ensures Total(s, weight) == Total(Remove(s, k), weight) + weight(s[k])
  {
    assert s == s[..k] + ([s[k]] + s[k + 1..]);
    TotalConcat(s[..k], [s[k]] + s[k + 1..], weight);
    TotalConcat([s[k]], s[k + 1..], weight);
    TotalConcat(s[..k], s[k + 1..], weight);
  }

  lemma {:induction false} TotalUniform(s: seq<Message>, weight: Message -> nat, w: nat)
    requires forall m :: m in s ==> weight(m) == w
    ensures Total(s, weight) == |s| * w
  {
    if s == [] {
    } else {
      TotalUniform(s[1..], weight, w);
    }
  }

  /** What the copies in `s` stand for. */
  function WorthOf(d: nat): Message -> nat {
    (m: Message) => Worth(m.ttl, d)
  }

  function Potential(net: Net, d: nat): nat {
    Total(net.inflight, WorthOf(d))
  }

  ghost predicate DegreeAtMost(net: Net, d: nat) {
    forall h :: h in net.nodes ==> |net.nodes[h].clients| <= d
  }

  ghost predicate NarrowStep(step: Step, d: nat) {
    step.Refresh? ==> |step.clients| <= d
  }

  lemma {:induction false} WithoutShortens(s: seq<Host>, x: Host)
    ensures |Without(s, x)| <= |s|
  {
    if s == [] {
    } else {
      WithoutShortens(s[1..], x);
    }
  }

  lemma Scale(a: nat, b: nat, w: nat)
    requires a <= b
    ensures a * w <= b * w
  {
  }

  lemma ForwardsShape(n: Node, m: Message)
    ensures |Forwards(n, m)| <= |n.clients|
    ensures m.ttl <= 1 ==> Forwards(n, m) == []
    ensures forall c :: c in Forwards(n, m) ==> c.id == m.id && c.ttl == m.ttl - 1
  {
    WithoutShortens(n.clients, m.sender);
  }

  /** Passing a copy on never puts more on the wire than the copy stood for, less one. */
  lemma ForwardsWorth(n: Node, m: Message, d: nat)
    requires |n.clients| <= d
    ensures Total(Forwards(n, m), WorthOf(d)) < Worth(m.ttl, d)
  {
    var sends := Forwards(n, m);
    ForwardsShape(n, m);
    TotalUniform(sends, WorthOf(d), Worth(m.ttl - 1, d));
    Scale(|sends|, d, Worth(m.ttl - 1, d));
  }

  /** The termination measure: each delivery and each loss lowers it, whether or not the seen check fires. */
  lemma ProgressLowersPotential(net: Net, step: Step, d: nat)
    requires DegreeAtMost(net, d)
    requires (step.Deliver? || step.Drop?) && Possible(net, step)
    ensures Potential(Apply(net, step), d) < Potential(net, d)
  {
    var m := net.inflight[step.k];
    TotalRemove(net.inflight, step.k, WorthOf(d));
    if step.Deliver? && m.id !in net.nodes[m.dest].seen {
      ForwardsWorth(net.nodes[m.dest], m, d);
      TotalConcat(Remove(net.inflight, step.k), Forwards(net.nodes[m.dest], m), WorthOf(d));
    }
  }

  /** Copies arrive or are lost and clients are refreshed, but no finding is shared. */
  ghost predicate Unfolds(net: Net, steps: seq<Step>, d: nat) {
    steps == [] ||
    var init, last := steps[..|steps| - 1], steps[|steps| - 1];
    Unfolds(net, init, d) && NarrowStep(last, d) && !last.Originate? && Possible(Run(net, init), last)
  }

  /** How many of the steps deliver or lose a copy. */
  function Arrivals(steps: seq<Step>): nat {
    if steps == [] then 0
    else
      var last := steps[|steps| - 1];
      Arrivals(steps[..|steps| - 1]) + if last.Deliver? || last.Drop? then 1 else 0
  }

  /**
   Main result: gossip dies out. Without new findings no run delivers or loses more copies than the
   potential it starts with, however its clients are refreshed and whether or not the seen check fires.
   */
  lemma {:induction false} GossipDiesOut(net: Net, steps: seq<Step>, d: nat)
    requires DegreeAtMost(net, d) && Unfolds(net, steps, d)
    ensures DegreeAtMost(Run(net, steps), d)
    ensures Arrivals(steps) + Potential(Run(net, steps), d) <= Potential(net, d)
  {
    if steps == [] {
    } else {
      var init, last := steps[..|steps| - 1], steps[|steps| - 1];
      GossipDiesOut(net, init, d);
      if !last.Refresh? {
        ProgressLowersPotential(Run(net, init), last, d);
      }
    }
  }

  // ---- Copies of one finding -------------------------------------------------

  function IsOf(id: FindingId): Message -> nat {
    (m: Message) => if m.id == id then 1 else 0
  }

  function SpareOf(id: FindingId, d: nat): Message -> nat {
    (m: Message) => if m.id == id then Worth(m.ttl, d) - 1 else 0
  }

  /** The copies of a finding sent so far, and those its copies in flight may still cause. */
  function Spent(net: Net, id: FindingId): nat {
    Total(net.sent, IsOf(id))
  }

  function Pending(net: Net, id: FindingId, d: nat): nat {
    Total(net.inflight, SpareOf(id, d))
  }

  ghost function Budget(net: Net, id: FindingId, d: nat): int {
    if id in net.sources && net.sources[id].host in net.nodes
    then d * Worth(net.nodes[net.sources[id].host].findingTtl, d)
    else 0
  }

  ghost predicate WithinBudget(net: Net, id: FindingId, d: nat) {
    Spent(net, id) + Pending(net, id, d) <= Budget(net, id, d)
  }

  lemma CopiesTotals(sends: seq<Message>, id: FindingId, ttl: int, d: nat)
    requires forall m :: m in sends ==> m.id == id && m.ttl == ttl
    ensures Total(sends, IsOf(id)) + Total(sends, SpareOf(id, d)) == |sends| * Worth(ttl, d)
  {
    TotalUniform(sends, IsOf(id), 1);
    TotalUniform(sends, SpareOf(id, d), Worth(ttl, d) - 1);
    assert |sends| * 1 + |sends| * (Worth(ttl, d) - 1) == |sends| * Worth(ttl, d);
  }

  lemma OtherTotals(sends: seq<Message>, id: FindingId, d: nat)
    requires forall m :: m in sends ==> m.id != id
    ensures Total(sends, IsOf(id)) == 0 && Total(sends, SpareOf(id, d)) == 0
  {
    TotalUniform(sends, IsOf(id), 0);
    TotalUniform(sends, SpareOf(id, d), 0);
  }

  lemma ShareBudget(net: Net, step: Step, id: FindingId, d: nat)
    requires step.Originate? && Possible(net, step) && Shareable(step.canShare, step.alert)
    requires DegreeAtMost(net, d) && WithinBudget(net, id, d)
    ensures WithinBudget(Apply(net, step), id, d)
  {
    var n := net.nodes[step.host];
    var sends := Copies(n.clients, n.name, n.name, n.findingTtl, step.id, step.alert);
    TotalConcat(net.sent, sends, IsOf(id));
    TotalConcat(net.inflight, sends, SpareOf(id, d));
    if id == step.id {
      CopiesTotals(sends, id, n.findingTtl, d);
      Scale(|sends|, d, Worth(n.findingTtl, d));
    } else {
      OtherTotals(sends, id, d);
    }
  }

  lemma ForwardsBudget(n: Node, m: Message, id: FindingId, d: nat)
    requires |n.clients| <= d
    ensures var sends := Forwards(n, m);
            Total(sends, IsOf(id)) + Total(sends, SpareOf(id, d)) <= SpareOf(id, d)(m)
  {
    var sends := Forwards(n, m);
    ForwardsShape(n, m);
    if id == m.id {
      CopiesTotals(sends, id, m.ttl - 1, d);
      Scale(|sends|, d, Worth(m.ttl - 1, d));
    } else {
      OtherTotals(sends, id, d);
    }
  }

  lemma DeliverBudget(net: Net, k: nat, id: FindingId, d: nat)
    requires Possible(net, Deliver(k))
    requires DegreeAtMost(net, d) && WithinBudget(net, id, d)
    ensures WithinBudget(Apply(net, Deliver(k)), id, d)
  {
    var m := net.inflight[k];
    var n := net.nodes[m.dest];
    TotalRemove(net.inflight, k, SpareOf(id, d));
    if m.id !in n.seen {
      ForwardsBudget(n, m, id, d);
      TotalConcat(net.sent, Forwards(n, m), IsOf(id));
      TotalConcat(Remove(net.inflight, k), Forwards(n, m), SpareOf(id, d));
    }
  }

  lemma BudgetStep(net: Net, step: Step, id: FindingId, d: nat)
    requires NarrowStep(step, d)
    requires DegreeAtMost(net, d) && WithinBudget(net, id, d)
    ensures DegreeAtMost(Apply(net, step), d) && WithinBudget(Apply(net, step), id, d)
  {
    if Possible(net, step) {
      match step
      case Originate(_, canShare, _, alert) =>
        if Shareable(canShare, alert) {
          ShareBudget(net, step, id, d);
        }
      case Deliver(k) => DeliverBudget(net, k, id, d);
      case Drop(k) => TotalRemove(net.inflight, k, SpareOf(id, d));
      case Refresh(_, _) =>
    }
  }

  lemma {:induction false} RunBudget(start: Net, steps: seq<Step>, id: FindingId, d: nat)
    requires Initial(start) && DegreeAtMost(start, d)
    requires forall step :: step in steps ==> NarrowStep(step, d)
    ensures DegreeAtMost(Run(start, steps), d) && WithinBudget(Run(start, steps), id, d)
  {
    if steps == [] {
    } else {
      var init, last := steps[..|steps| - 1], steps[|steps| - 1];
      assert last in steps && forall s :: s in init ==> s in steps;
      RunBudget(start, init, id, d);
      BudgetStep(Run(start, init), last, id, d);
    }
  }

  /**
   Main result. With at most `d` clients a switch, one finding causes at most
   d + d^2 + ... + d^TTL sends in any run, even if the seen check never fires.
   */
  lemma SendsBounded(start: Net, steps: seq<Step>, id: FindingId, d: nat)
    requires Initial(start) && DegreeAtMost(start, d)
    requires forall step :: step in steps ==> NarrowStep(step, d)
    ensures var net := Run(start, steps);
            id in net.sources ==>
              && net.sources[id].host in net.nodes
              && var limit := net.nodes[net.sources[id].host].findingTtl;
              Spent(net, id) <= Powers(d, Reach(limit))
    ensures id !in Run(start, steps).sources ==> Spent(Run(start, steps), id) == 0
  {
    var net := Run(start, steps);
    RunBudget(start, steps, id, d);
    RunSound(start, steps);
    if id in net.sources {
      assert Marked(net, net.sources[id].host, id);
      var limit := net.nodes[net.sources[id].host].findingTtl;
      assert Worth(limit, d) == Worth(Reach(limit), d);
      WorthIsGeometric(Reach(limit), d);
    }
  }
}
