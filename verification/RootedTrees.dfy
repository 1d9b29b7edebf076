/** Client graphs that are trees have no cycles in the sense the tree results ask for. */
module RootedTrees {
  import opened SeenSet
  import opened Gossip
  import opened Network
  import opened HopBound
  import opened Spreading
  import opened Coverage
  import opened Trees

  /** `parent` gives the next switch towards the root, `depth` the distance to it. */
  datatype Rooting = Rooting(parent: map<Host, Host>, depth: map<Host, nat>)

  ghost predicate Up(t: Rooting, a: Host, b: Host) {
    a in t.parent && t.parent[a] == b
  }

  /** Every link joins a switch and its parent, in either direction. */
  ghost predicate TreeLinks(links: set<(Host, Host)>, t: Rooting) {
    && (forall h :: h in t.parent ==>
          h in t.depth && t.parent[h] in t.depth && t.depth[h] == t.depth[t.parent[h]] + 1)
    && (forall a, b :: (a, b) in links ==> Up(t, a, b) || Up(t, b, a))
  }

  ghost predicate Straight(links: set<(Host, Host)>, p: seq<Host>) {
    Walk(links, p) && Forward(p)
  }

  lemma LinkAt(links: set<(Host, Host)>, t: Rooting, p: seq<Host>, i: nat)
    requires TreeLinks(links, t) && Straight(links, p) && i < |p| - 1
    ensures Up(t, p[i], p[i + 1]) || Up(t, p[i + 1], p[i])
  {
    assert (p[i], p[i + 1]) in links;
  }

  lemma SubWalk(links: set<(Host, Host)>, p: seq<Host>, i: nat, j: nat)
    requires Straight(links, p) && i < j <= |p|
    ensures Straight(links, p[i..j])
  {
    var q := p[i..j];
    forall k | 0 <= k < |q| - 1 ensures (q[k], q[k + 1]) in links {
      assert (p[i + k], p[i + k + 1]) in links;
    }
    forall k | 0 <= k < |q| - 2 ensures q[k] != q[k + 2] {
      assert p[i + k] != p[i + k + 2];
    }
  }

  /** A walk that goes down once keeps going down. */
  lemma {:induction false} DownStaysDown(links: set<(Host, Host)>, t: Rooting, p: seq<Host>)
    requires TreeLinks(links, t) && Straight(links, p) && |p| >= 2 && Up(t, p[1], p[0])
    ensures Up(t, p[|p| - 1], p[|p| - 2])
    ensures p[0] in t.depth && p[|p| - 1] in t.depth && t.depth[p[|p| - 1]] == t.depth[p[0]] + |p| - 1
  {
    if |p| > 2 {
      LinkAt(links, t, p, 1);
      assert p[0] != p[0 + 2];
      SubWalk(links, p, 1, |p|);
      DownStaysDown(links, t, p[1..]);
    }
  }

  /** So a walk whose last step goes up went up all the way. */
  lemma {:induction false} UpWasUp(links: set<(Host, Host)>, t: Rooting, p: seq<Host>)
    requires TreeLinks(links, t) && Straight(links, p) && |p| >= 2 && Up(t, p[|p| - 2], p[|p| - 1])
    ensures Up(t, p[0], p[1])
    ensures p[0] in t.depth && p[|p| - 1] in t.depth && t.depth[p[0]] == t.depth[p[|p| - 1]] + |p| - 1
  {
    if |p| > 2 {
      var n := |p| - 1;
      LinkAt(links, t, p, n - 2);
      assert p[n - 2] != p[n - 2 + 2];
      SubWalk(links, p, 0, n);
      UpWasUp(links, t, p[0..n]);
    }
  }

  /** A straight walk never comes back to where it started. */
  lemma {:induction false} NoReturn(links: set<(Host, Host)>, t: Rooting, p: seq<Host>)
    requires TreeLinks(links, t) && Straight(links, p) && |p| >= 2
    ensures p[0] != p[|p| - 1]
  {
    var n := |p| - 1;
    if Up(t, p[1], p[0]) {
      DownStaysDown(links, t, p);
    } else if Up(t, p[n - 1], p[n]) {
      UpWasUp(links, t, p);
    } else {
      LinkAt(links, t, p, 0);
      LinkAt(links, t, p, n - 1);
      assert n >= 2;
      assert p[0] != p[0 + 2];
      if n > 2 {
        SubWalk(links, p, 1, n);
        NoReturn(links, t, p[1..n]);
        assert p[1..n][0] == p[1] && p[1..n][n - 2] == p[n - 1];
      }
    }
  }

  /** Two straight walks with the same ends share their last step or their first one. */
  lemma ShareAStep(links: set<(Host, Host)>, t: Rooting, p: seq<Host>, q: seq<Host>)
    requires TreeLinks(links, t) && Straight(links, p) && Straight(links, q)
    requires |p| >= 2 && |q| >= 2 && p[0] == q[0] && p[|p| - 1] == q[|q| - 1]
    ensures p[|p| - 2] == q[|q| - 2] || p[1] == q[1]
  {
    LinkAt(links, t, p, |p| - 2);
    LinkAt(links, t, q, |q| - 2);
    if Up(t, p[|p| - 2], p[|p| - 1]) || Up(t, q[|q| - 2], q[|q| - 1]) {
      FirstStepUp(links, t, p, q);
      FirstStepUp(links, t, q, p);
    }
  }

  /** Two straight walks with the same ends take the same steps. */
  lemma {:induction false} SameEndsSameWalk(links: set<(Host, Host)>, t: Rooting, p: seq<Host>, q: seq<Host>)
    requires TreeLinks(links, t) && Straight(links, p) && Straight(links, q)
    requires p[0] == q[0] && p[|p| - 1] == q[|q| - 1]
    ensures p == q
    decreases |p| + |q|
  {
    if |p| == 1 {
      if |q| > 1 {
        NoReturn(links, t, q);
      }
    } else if |q| == 1 {
      NoReturn(links, t, p);
    } else {
      var n, m := |p| - 1, |q| - 1;
      ShareAStep(links, t, p, q);
      if p[n - 1] == q[m - 1] {
        SubWalk(links, p, 0, n);
        SubWalk(links, q, 0, m);
        SameEndsSameWalk(links, t, p[0..n], q[0..m]);
        assert p == p[0..n] + [p[n]] && q == q[0..m] + [q[m]];
      } else {
        SubWalk(links, p, 1, n + 1);
        SubWalk(links, q, 1, m + 1);
        SameEndsSameWalk(links, t, p[1..n + 1], q[1..m + 1]);
        assert false;
      }
    }
  }

  /** If one of two walks with the same ends goes up at its end, the other one starts by going up. */
  lemma FirstStepUp(links: set<(Host, Host)>, t: Rooting, p: seq<Host>, q: seq<Host>)
    requires TreeLinks(links, t) && Straight(links, p) && Straight(links, q)
    requires |p| >= 2 && |q| >= 2 && p[0] == q[0] && p[|p| - 1] == q[|q| - 1]
    requires Up(t, p[|p| - 2], p[|p| - 1]) || Up(t, q[|q| - 2], q[|q| - 1])
    ensures Up(t, p[0], p[1])
  {
    LinkAt(links, t, p, 0);
    if Up(t, p[|p| - 2], p[|p| - 1]) {
      UpWasUp(links, t, p);
    } else {
      UpWasUp(links, t, q);
      if Up(t, p[1], p[0]) {
        DownStaysDown(links, t, p);
      }
    }
  }

  /** A tree, however it is rooted, meets the hypothesis of the tree results. */
  lemma TreesAreForests(links: set<(Host, Host)>, t: Rooting)
    requires TreeLinks(links, t)
    ensures Forest(links)
  {
    forall p, q, a, b | ForwardWalk(links, p, a, b) && ForwardWalk(links, q, a, b) ensures p == q {
      SameEndsSameWalk(links, t, p, q);
    }
  }

  /**
   Main result: on a fabric whose client links form a tree, a lossless run that has come to rest
   left a record of the finding exactly at the switches whose distance from the origin is between 1
   and `finding_ttl`, one each, no copy was suppressed, and every record tells its distance.
   */
  lemma RootedTreeExactness(start: Net, steps: seq<Step>, id: FindingId, h: Host, t: Rooting)
    requires Initial(start) && Lossless(steps) && TreeLinks(Edges(start.nodes), t)
    requires Quiet(Run(start, steps), id)
    ensures var net := Run(start, steps);
            && net.links == Edges(start.nodes) && net.suppressed == []
            && (RecordsFinding(net, h, id) <==> InRange(net, h, id))
            && (h in net.nodes ==> RecordsOnce(net.nodes[h].events, id))
            && (h in net.nodes ==> forall e :: e in net.nodes[h].events ==>
                  && e.origin in start.nodes
                  && Distance(net.links, e.origin, h, start.nodes[e.origin].findingTtl - e.ttl + 1))
  {
    TreesAreForests(Edges(start.nodes), t);
    TreeExactness(start, steps, id, h);
    OneCopyEach(start, steps);
    var net := Run(start, steps);
    if h in net.nodes {
      forall e | e in net.nodes[h].events
        ensures e.origin in start.nodes
        ensures Distance(net.links, e.origin, h, start.nodes[e.origin].findingTtl - e.ttl + 1)
      {
        TtlTellsDistance(start, steps, h, e);
      }
    }
  }
}
