/** Change lists between LLDP snapshots: computed in one pass, and lossless in both directions. */
module TopologyDiff {
  import opened Discovery
  import opened Wrappers

  datatype Neighbor = Neighbor(hostname: string, port: string)

  type Snapshot = map<string, Neighbor>

  datatype Change =
    | NeighborAdded(localPort: string, neighbor: Neighbor)
    | NeighborChanged(localPort: string, neighbor: Neighbor, oldNeighbor: Neighbor)
    | NeighborRemoved(localPort: string, neighbor: Neighbor)

  /** LLDP entries without a neighbour name do not count. */
  function FromLldp(lldp: map<string, Neighbor>): Snapshot {
    map p | p in lldp && lldp[p].hostname != "" :: lldp[p]
  }

  /** The stored topology; of several entries for a port the last one counts. */
  function FromStore(entries: seq<TopologyEntry>): Snapshot {
    if entries == [] then map[]
    else
      var e := entries[|entries| - 1];
      FromStore(entries[..|entries| - 1])[e.localPort := Neighbor(e.neighborHostname, e.neighborPort)]
  }

  ghost predicate HasPort(entries: seq<TopologyEntry>, p: string) {
    exists i :: 0 <= i < |entries| && entries[i].localPort == p
  }

  /** Entry i is the last one for its port. */
  ghost predicate LastFor(entries: seq<TopologyEntry>, i: int) {
    0 <= i < |entries| && forall j :: i < j < |entries| ==> entries[j].localPort != entries[i].localPort
  }

  lemma {:induction false} StoredPorts(entries: seq<TopologyEntry>, p: string)
    ensures p in FromStore(entries) <==> HasPort(entries, p)
  {
    if entries == [] {
    } else {
      var init := entries[..|entries| - 1];
      StoredPorts(init, p);
      if i :| 0 <= i < |init| && init[i].localPort == p {
        assert entries[i].localPort == p;
      }
      if i :| 0 <= i < |entries| && entries[i].localPort == p {
        assert i < |init| ==> init[i].localPort == p;
      }
    }
  }

  lemma {:induction false} StoredLast(entries: seq<TopologyEntry>, i: int)
    requires LastFor(entries, i)
    ensures entries[i].localPort in FromStore(entries)
    ensures FromStore(entries)[entries[i].localPort] == Neighbor(entries[i].neighborHostname, entries[i].neighborPort)
  {
    var n := |entries| - 1;
    if i < n {
      assert entries[n].localPort != entries[i].localPort;
      assert LastFor(entries[..n], i);
      StoredLast(entries[..n], i);
    }
  }

  /** The stored topology has the last entry for each port, and nothing else. */
  lemma FromStoreTells(entries: seq<TopologyEntry>)
    ensures forall p :: p in FromStore(entries) <==> HasPort(entries, p)
    ensures forall i :: LastFor(entries, i) ==>
              && entries[i].localPort in FromStore(entries)
              && FromStore(entries)[entries[i].localPort].hostname == entries[i].neighborHostname
              && FromStore(entries)[entries[i].localPort].port == entries[i].neighborPort
  {
    forall p ensures p in FromStore(entries) <==> HasPort(entries, p) {
      StoredPorts(entries, p);
    }
    forall i | LastFor(entries, i)
      ensures && entries[i].localPort in FromStore(entries)
              && FromStore(entries)[entries[i].localPort].hostname == entries[i].neighborHostname
              && FromStore(entries)[entries[i].localPort].port == entries[i].neighborPort
    {
      StoredLast(entries, i);
    }
  }

  /** `c` is what happened to its port between the two snapshots. */
  predicate Happened(before: Snapshot, current: Snapshot, c: Change) {
    match c
    case NeighborAdded(p, n) => p !in before && p in current && current[p] == n
    case NeighborChanged(p, n, o) => p in before && p in current && before[p] == o && current[p] == n && n != o
    case NeighborRemoved(p, o) => p in before && p !in current && before[p] == o
  }

  ghost predicate OncePerPort(changes: seq<Change>) {
    forall i, j :: 0 <= i < j < |changes| ==> changes[i].localPort != changes[j].localPort
  }

  /** A complete list of the changes, in any order. */
  ghost predicate IsDiff(before: Snapshot, current: Snapshot, changes: seq<Change>) {
    OncePerPort(changes) && forall c :: c in changes <==> Happened(before, current, c)
  }

  function PatchOne(s: Snapshot, c: Change): Snapshot {
    if c.NeighborRemoved? then s - {c.localPort} else s[c.localPort := c.neighbor]
  }

  function UndoOne(s: Snapshot, c: Change): Snapshot {
    match c
    case NeighborAdded(p, _) => s - {p}
    case NeighborChanged(p, _, o) => s[p := o]
    case NeighborRemoved(p, o) => s[p := o]
  }

  function Patch(s: Snapshot, changes: seq<Change>): Snapshot {
    if changes == [] then s else PatchOne(Patch(s, changes[..|changes| - 1]), changes[|changes| - 1])
  }

  /** Takes the changes back, last one first. */
  function Undo(s: Snapshot, changes: seq<Change>): Snapshot
    decreases |changes|
  {
    if changes == [] then s else Undo(UndoOne(s, changes[|changes| - 1]), changes[..|changes| - 1])
  }

  ghost predicate SameAt(a: Snapshot, b: Snapshot, p: string) {
    (p in a <==> p in b) && (p in a ==> a[p] == b[p])
  }

  ghost predicate Touches(changes: seq<Change>, p: string) {
    exists c :: c in changes && c.localPort == p
  }

  lemma OnlyLast(changes: seq<Change>)
    requires OncePerPort(changes) && changes != []
    ensures !Touches(changes[..|changes| - 1], changes[|changes| - 1].localPort)
  {
    var init := changes[..|changes| - 1];
    forall c | c in init ensures c.localPort != changes[|changes| - 1].localPort {
      var i :| 0 <= i < |init| && init[i] == c;
      assert changes[i].localPort != changes[|changes| - 1].localPort;
    }
  }

  lemma PatchOneAt(t: Snapshot, s: Snapshot, c: Change, p: string)
    ensures if p == c.localPort then SameAt(PatchOne(t, c), PatchOne(s, c), p) else SameAt(PatchOne(t, c), t, p)
  {
  }

  lemma UndoOneAt(t: Snapshot, s: Snapshot, c: Change, p: string)
    ensures if p == c.localPort then SameAt(UndoOne(t, c), UndoOne(s, c), p) else SameAt(UndoOne(t, c), t, p)
  {
  }

  /** What a list without the last change touches. */
  lemma TouchesInit(changes: seq<Change>, p: string)
    requires OncePerPort(changes) && changes != []
    ensures OncePerPort(changes[..|changes| - 1])
    ensures var init, last := changes[..|changes| - 1], changes[|changes| - 1];
            && (forall c :: c in changes <==> c in init || c == last)
            && (Touches(changes, p) <==> Touches(init, p) || last.localPort == p)
            && (last.localPort == p ==> !Touches(init, p))
  {
    var init, last := changes[..|changes| - 1], changes[|changes| - 1];
    assert changes == init + [last];
    assert last in changes;
    OnlyLast(changes);
  }

  /** Patching changes a port as its own entry says, and no other port. */
  lemma {:induction false} PatchAt(s: Snapshot, changes: seq<Change>, p: string)
    requires OncePerPort(changes)
    ensures !Touches(changes, p) ==> SameAt(Patch(s, changes), s, p)
    ensures forall c :: c in changes && c.localPort == p ==> SameAt(Patch(s, changes), PatchOne(s, c), p)
  {
    if changes == [] {
    } else {
      var init, last := changes[..|changes| - 1], changes[|changes| - 1];
      TouchesInit(changes, p);
      PatchAt(s, init, p);
      PatchOneAt(Patch(s, init), s, last, p);
    }
  }

  lemma {:induction false} UndoAt(s: Snapshot, changes: seq<Change>, p: string)
    requires OncePerPort(changes)
    ensures !Touches(changes, p) ==> SameAt(Undo(s, changes), s, p)
    ensures forall c :: c in changes && c.localPort == p ==> SameAt(Undo(s, changes), UndoOne(s, c), p)
    decreases |changes|
  {
    if changes == [] {
    } else {
      var init, last := changes[..|changes| - 1], changes[|changes| - 1];
      TouchesInit(changes, p);
      UndoAt(UndoOne(s, last), init, p);
      UndoOneAt(s, s, last, p);
      forall c | c in init && c.localPort == p ensures SameAt(Undo(s, changes), UndoOne(s, c), p) {
        UndoOneAt(UndoOne(s, last), s, c, p);
      }
    }
  }

  lemma SameEverywhere(a: Snapshot, b: Snapshot)
    requires forall p :: SameAt(a, b, p)
    ensures a == b
  {
    forall p ensures p in a <==> p in b {
      assert SameAt(a, b, p);
    }
    forall p | p in a ensures a[p] == b[p] {
      assert SameAt(a, b, p);
    }
  }

  function ChangeAt(before: Snapshot, current: Snapshot, p: string): Change
    requires p in before || p in current
  {
    if p !in before then NeighborAdded(p, current[p])
    else if p !in current then NeighborRemoved(p, before[p])
    else NeighborChanged(p, current[p], before[p])
  }

  /**
   Main result. A change list applied to the old snapshot gives the new one, taken back from the
   new one it gives the old, whatever its order; it is empty exactly when nothing changed.
   */
  lemma DiffRoundTrip(before: Snapshot, current: Snapshot, changes: seq<Change>)
    requires IsDiff(before, current, changes)
    ensures Patch(before, changes) == current
    ensures Undo(current, changes) == before
    ensures changes == [] <==> before == current
  {
    forall p ensures SameAt(Patch(before, changes), current, p) && SameAt(Undo(current, changes), before, p) {
      PatchAt(before, changes, p);
      UndoAt(current, changes, p);
      if Touches(changes, p) {
        var c :| c in changes && c.localPort == p;
        assert Happened(before, current, c);
      } else if p in before || p in current {
        var c := ChangeAt(before, current, p);
        assert c !in changes;
        assert !Happened(before, current, c);
      }
    }
    SameEverywhere(Patch(before, changes), current);
    SameEverywhere(Undo(current, changes), before);
    assert changes != [] ==> Happened(before, current, changes[0]);
  }

  lemma {:induction false} PatchConcat(s: Snapshot, a: seq<Change>, b: seq<Change>)
    ensures Patch(s, a + b) == Patch(Patch(s, a), b)
  {
    if b == [] {
      assert a + b == a;
    } else {
      assert (a + b)[..|a + b| - 1] == a + b[..|b| - 1];
      PatchConcat(s, a, b[..|b| - 1]);
    }
  }

  lemma {:induction false} UndoConcat(s: Snapshot, a: seq<Change>, b: seq<Change>)
    ensures Undo(s, a + b) == Undo(Undo(s, b), a)
    decreases |b|
  {
    if b == [] {
      assert a + b == a;
    } else {
      assert (a + b)[..|a + b| - 1] == a + b[..|b| - 1];
      UndoConcat(UndoOne(s, b[|b| - 1]), a, b[..|b| - 1]);
    }
  }

  function Flat(lists: seq<seq<Change>>): seq<Change> {
    if lists == [] then [] else Flat(lists[..|lists| - 1]) + lists[|lists| - 1]
  }

  /** Main result: over a whole run the change lists lead from the first snapshot to the last, and back. */
  lemma {:induction false} DiffsTelescope(snaps: seq<Snapshot>, lists: seq<seq<Change>>)
    requires |snaps| == |lists| + 1
    requires forall i :: 0 <= i < |lists| ==> IsDiff(snaps[i], snaps[i + 1], lists[i])
    ensures Patch(snaps[0], Flat(lists)) == snaps[|snaps| - 1]
    ensures Undo(snaps[|snaps| - 1], Flat(lists)) == snaps[0]
  {
    if lists == [] {
    } else {
      var n := |lists| - 1;
      DiffsTelescope(snaps[..|snaps| - 1], lists[..n]);
      DiffRoundTrip(snaps[n], snaps[n + 1], lists[n]);
      PatchConcat(snaps[0], Flat(lists[..n]), lists[n]);
      UndoConcat(snaps[n + 1], Flat(lists[..n]), lists[n]);
    }
  }

  class TopologyDiffAnalyzer {
    var lastSnapshot: Option<Snapshot>
    /** The first snapshot and all changes reported since. */
    ghost var first: Snapshot
    ghost var reported: seq<Change>

    ghost predicate Valid()
      reads this
    {
      lastSnapshot.Some? ==> Patch(first, reported) == lastSnapshot.value && Undo(lastSnapshot.value, reported) == first
    }

    constructor ()
      ensures Valid() && lastSnapshot.None?
    {
      lastSnapshot := None;
      first, reported := map[], [];
    }

    /** `lldp` is None when the snapshot is to be read from the store. */
    method Analyze(lldp: Option<map<string, Neighbor>>, stored: seq<TopologyEntry>) returns (changes: seq<Change>)
      requires Valid()
      modifies this
      ensures Valid()
      ensures lastSnapshot == Some(if lldp.Some? then FromLldp(lldp.value) else FromStore(stored))
      ensures lldp.Some? ==>
                && (forall p :: p in lastSnapshot.value <==> p in lldp.value && lldp.value[p].hostname != "")
                && (forall p :: p in lastSnapshot.value ==> lastSnapshot.value[p] == lldp.value[p])
      ensures lldp.None? ==>
                && (forall p :: p in lastSnapshot.value <==> HasPort(stored, p))
                && (forall i :: LastFor(stored, i) ==>
                      && stored[i].localPort in lastSnapshot.value
                      && lastSnapshot.value[stored[i].localPort].hostname == stored[i].neighborHostname
                      && lastSnapshot.value[stored[i].localPort].port == stored[i].neighborPort)
      ensures old(lastSnapshot).None? ==> changes == [] && reported == [] && lastSnapshot == Some(first)
      ensures old(lastSnapshot).Some? ==>
                && IsDiff(old(lastSnapshot).value, lastSnapshot.value, changes)
                && reported == old(reported) + changes && first == old(first)
      ensures old(lastSnapshot).Some? ==>
                var before, now := old(lastSnapshot).value, lastSnapshot.value;
                && (forall i, j :: 0 <= i < j < |changes| ==> changes[i].localPort != changes[j].localPort)
                && (forall p, n :: NeighborAdded(p, n) in changes <==> p !in before && p in now && n == now[p])
                && (forall p, n, o :: NeighborChanged(p, n, o) in changes <==>
                      p in before && p in now && o == before[p] && n == now[p] && o != n)
                && (forall p, o :: NeighborRemoved(p, o) in changes <==> p in before && p !in now && o == before[p])
    {
      var current: Snapshot;
      FromStoreTells(stored);
      if lldp.Some? {
        current := FromLldp(lldp.value);
      } else {
        current := ReadStore(stored);
      }
      if lastSnapshot.None? {
        lastSnapshot := Some(current);
        first, reported := current, [];
        return [];
      }
      changes := Diff(lastSnapshot.value, current);
      DiffRoundTrip(lastSnapshot.value, current, changes);
      PatchConcat(first, reported, changes);
      UndoConcat(current, reported, changes);
      reported := reported + changes;
      lastSnapshot := Some(current);
    }
  }

  method ReadStore(entries: seq<TopologyEntry>) returns (s: Snapshot)
    ensures s == FromStore(entries)
  {
    s := map[];
    for i := 0 to |entries|
      invariant s == FromStore(entries[..i])
    {
      assert entries[..i + 1][..i] == entries[..i];
      s := s[entries[i].localPort := Neighbor(entries[i].neighborHostname, entries[i].neighborPort)];
    }
    assert entries[..|entries|] == entries;
  }

  /** New and changed neighbours first, then the removed ones; within each group in any order. */
  method Diff(before: Snapshot, current: Snapshot) returns (changes: seq<Change>)
    ensures IsDiff(before, current, changes)
  {
    changes := [];
    var ports := current.Keys;
    while ports != {}
      invariant ports <= current.Keys
      invariant OncePerPort(changes)
      invariant forall c :: c in changes <==>
                  Happened(before, current, c) && c.localPort in current && c.localPort !in ports
    {
      var port :| port in ports;
      ports := ports - {port};
      if port !in before {
        changes := changes + [NeighborAdded(port, current[port])];
      } else if before[port].hostname != current[port].hostname || before[port].port != current[port].port {
        changes := changes + [NeighborChanged(port, current[port], before[port])];
      }
    }
    ports := before.Keys;
    while ports != {}
      invariant ports <= before.Keys
      invariant OncePerPort(changes)
      invariant forall c :: c in changes <==>
                  Happened(before, current, c) && (c.localPort in current || c.localPort !in ports)
    {
      var port :| port in ports;
      ports := ports - {port};
      if port !in current {
        changes := changes + [NeighborRemoved(port, before[port])];
      }
    }
  }
}
