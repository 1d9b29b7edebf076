/** From LLDP topology entries to the endpoints of peer switches. */
module Discovery {
  import opened Sequences
  import opened Wrappers

  datatype TopologyEntry = TopologyEntry(localPort: string, neighborHostname: string, neighborPort: string)

  datatype Endpoint = Endpoint(hostname: string, address: string, port: int)

  ghost predicate Listed(entries: seq<TopologyEntry>, h: string) {
    exists e :: e in entries && e.neighborHostname == h
  }

  /** `h` is a named neighbour whose address can be resolved. */
  ghost predicate Discoverable(entries: seq<TopologyEntry>, resolve: string -> Option<string>, h: string) {
    h != "" && Listed(entries, h) && resolve(h).Some?
  }

  function Hostnames(endpoints: seq<Endpoint>): seq<string> {
    seq(|endpoints|, i requires 0 <= i < |endpoints| => endpoints[i].hostname)
  }

  lemma HostnamesAsSet(endpoints: seq<Endpoint>)
    ensures forall h :: h in Hostnames(endpoints) <==> h in set e | e in endpoints :: e.hostname
  {
    forall h | h in Hostnames(endpoints) ensures exists e :: e in endpoints && e.hostname == h {
      var i :| 0 <= i < |endpoints| && Hostnames(endpoints)[i] == h;
      assert endpoints[i] in endpoints;
    }
    forall e | e in endpoints ensures e.hostname in Hostnames(endpoints) {
      var i :| 0 <= i < |endpoints| && endpoints[i] == e;
      assert Hostnames(endpoints)[i] == e.hostname;
    }
  }

  lemma ListedExtends(entries: seq<TopologyEntry>, k: nat)
    requires k < |entries|
    ensures forall h :: Listed(entries[..k + 1], h) <==> Listed(entries[..k], h) || h == entries[k].neighborHostname
  {
    assert entries[..k + 1] == entries[..k] + [entries[k]];
    forall h | Listed(entries[..k], h) || h == entries[k].neighborHostname ensures Listed(entries[..k + 1], h) {
      if h == entries[k].neighborHostname {
        assert entries[k] in entries[..k + 1];
      } else {
        var e :| e in entries[..k] && e.neighborHostname == h;
        assert e in entries[..k + 1];
      }
    }
  }

  /** One endpoint for each discoverable neighbour, however many ports lead to it. */
  method DiscoverPeers(entries: seq<TopologyEntry>, resolve: string -> Option<string>, port: int)
    returns (endpoints: seq<Endpoint>)
    ensures Distinct(Hostnames(endpoints))
    ensures forall h :: h in Hostnames(endpoints) <==> Discoverable(entries, resolve, h)
    ensures forall h :: (exists i :: 0 <= i < |endpoints| && endpoints[i].hostname == h) <==>
              h != "" && (exists e :: e in entries && e.neighborHostname == h) && resolve(h).Some?
    ensures forall i, j :: 0 <= i < j < |endpoints| ==> endpoints[i].hostname != endpoints[j].hostname
    ensures forall e :: e in endpoints ==> resolve(e.hostname) == Some(e.address) && e.port == port
  {
    var seenHostnames: set<string> := {};
    endpoints := [];
    for k := 0 to |entries|
      invariant forall h :: h in seenHostnames <==> h != "" && Listed(entries[..k], h)
      invariant Distinct(Hostnames(endpoints))
      invariant forall h :: h in Hostnames(endpoints) <==> h in seenHostnames && resolve(h).Some?
      invariant forall e :: e in endpoints ==> resolve(e.hostname) == Some(e.address) && e.port == port
    {
      var hostname := entries[k].neighborHostname;
      ListedExtends(entries, k);
      if hostname != "" && hostname !in seenHostnames {
        seenHostnames := seenHostnames + {hostname};
        var address := resolve(hostname);
        if address.Some? {
          assert Hostnames(endpoints + [Endpoint(hostname, address.value, port)]) == Hostnames(endpoints) + [hostname];
          endpoints := endpoints + [Endpoint(hostname, address.value, port)];
        }
      }
    }
    assert entries[..|entries|] == entries;
    forall h ensures h in Hostnames(endpoints) <==> exists i :: 0 <= i < |endpoints| && endpoints[i].hostname == h {
      if i :| 0 <= i < |endpoints| && endpoints[i].hostname == h {
        assert Hostnames(endpoints)[i] == h;
      }
    }
    forall i, j | 0 <= i < j < |endpoints| ensures endpoints[i].hostname != endpoints[j].hostname {
      assert Hostnames(endpoints)[i] != Hostnames(endpoints)[j];
    }
  }
}
