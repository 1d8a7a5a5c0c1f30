/** What `rebuild_topology` computes, as functions of its inputs: the
    neighbour map and the uplink ports derived from the link list, the
    host ports derived from each switch's port list, and the ECMP group
    commands `install_ecmp_group_on_leaf` sends.  The controller class
    (module SpineLeafController) computes the same values with loops and is
    proved equal to these functions; the lemmas here state what the
    values mean. */
module Topology {
  import opened Common
  import opened OpenFlow

  /** A switch as `get_all_switch` reports it: `sw.dp.id` and the numbers
      of `sw.ports`. */
  datatype SwitchDesc = SwitchDesc(dpid: Dpid, ports: seq<PortNo>)

  datatype LinkEnd = LinkEnd(dpid: Dpid, portNo: PortNo)

  /** A link as `get_all_link` reports it. */
  datatype Link = Link(src: LinkEnd, dst: LinkEnd)

  /** switch -> neighbour switch -> local port towards it */
  type Neighbors = map<Dpid, map<Dpid, PortNo>>
  /** switch -> set of ports */
  type PortSets = map<Dpid, set<PortNo>>

  /** `d.get(dpid, set())` */
  function PortsOf(d: PortSets, dpid: Dpid): set<PortNo>
  {
    if dpid in d then d[dpid] else {}
  }

  function SwitchIds(switches: seq<SwitchDesc>): set<Dpid>
  {
    set k | 0 <= k < |switches| :: switches[k].dpid
  }

  /** Every link names switches of the switch list; otherwise the link
      loop of `rebuild_topology` raises `KeyError`. */
  predicate EndpointsKnown(switches: seq<SwitchDesc>, links: seq<Link>)
  {
    forall k :: 0 <= k < |links| ==>
      links[k].src.dpid in SwitchIds(switches) && links[k].dst.dpid in SwitchIds(switches)
  }

  /** `{sw.dp.id: {} for sw in switches}` */
  function EmptyNeighbors(switches: seq<SwitchDesc>): (nb: Neighbors)
    ensures nb.Keys == SwitchIds(switches)
  {
    map d | d in SwitchIds(switches) :: map[]
  }

  /** `{sw.dp.id: set() for sw in switches}` */
  function EmptyUplinks(switches: seq<SwitchDesc>): (up: PortSets)
    ensures up.Keys == SwitchIds(switches)
  {
    map d | d in SwitchIds(switches) :: {}
  }

  /** One iteration of the link loop, neighbour part. */
  function AddLinkNeighbors(nb: Neighbors, l: Link): (r: Neighbors)
    requires l.src.dpid in nb && l.dst.dpid in nb
    ensures r.Keys == nb.Keys
  {
    var row1: map<Dpid, PortNo> := nb[l.src.dpid][l.dst.dpid := l.src.portNo];
    var nb1 := nb[l.src.dpid := row1];
    var row2: map<Dpid, PortNo> := nb1[l.dst.dpid][l.src.dpid := l.dst.portNo];
    nb1[l.dst.dpid := row2]
  }

  /** One iteration of the link loop, uplink part. */
  function AddLinkUplinks(up: PortSets, l: Link): (r: PortSets)
    requires l.src.dpid in up && l.dst.dpid in up
    ensures r.Keys == up.Keys
  {
    var up1 := up[l.src.dpid := up[l.src.dpid] + {l.src.portNo}];
    up1[l.dst.dpid := up1[l.dst.dpid] + {l.dst.portNo}]
  }

  lemma EndpointsKnownPrefix(switches: seq<SwitchDesc>, links: seq<Link>, n: nat)
    requires EndpointsKnown(switches, links) && n <= |links|
    ensures EndpointsKnown(switches, links[..n])
  {
  }

  /** The neighbour map after the link loop has run over `links`. */
  function LinkNeighbors(switches: seq<SwitchDesc>, links: seq<Link>): (nb: Neighbors)
    requires EndpointsKnown(switches, links)
    ensures nb.Keys == SwitchIds(switches)
  {
    if links == [] then EmptyNeighbors(switches)
    else
      EndpointsKnownPrefix(switches, links, |links| - 1);
      AddLinkNeighbors(LinkNeighbors(switches, links[..|links| - 1]), links[|links| - 1])
  }

  /** One more turn of the link loop. */
  lemma LinkLoopStep(switches: seq<SwitchDesc>, links: seq<Link>, i: nat)
    requires i < |links| && EndpointsKnown(switches, links[..i])
    requires links[i].src.dpid in SwitchIds(switches) && links[i].dst.dpid in SwitchIds(switches)
    ensures EndpointsKnown(switches, links[..i + 1])
    ensures LinkNeighbors(switches, links[..i + 1]) == AddLinkNeighbors(LinkNeighbors(switches, links[..i]), links[i])
    ensures LinkUplinks(switches, links[..i + 1]) == AddLinkUplinks(LinkUplinks(switches, links[..i]), links[i])
  {
    assert links[..i + 1][..i] == links[..i];
  }

  /** The uplink sets after the link loop has run over `links`. */
  function LinkUplinks(switches: seq<SwitchDesc>, links: seq<Link>): (up: PortSets)
    requires EndpointsKnown(switches, links)
    ensures up.Keys == SwitchIds(switches)
  {
    if links == [] then EmptyUplinks(switches)
    else
      EndpointsKnownPrefix(switches, links, |links| - 1);
      AddLinkUplinks(LinkUplinks(switches, links[..|links| - 1]), links[|links| - 1])
  }

  /** Link `l` has an end at port `p` of switch `d`. */
  predicate EndAt(l: Link, d: Dpid, p: PortNo)
  {
    l.src == LinkEnd(d, p) || l.dst == LinkEnd(d, p)
  }

  /** Link `l` joins switch `a` to switch `b`, in either direction. */
  predicate Joins(l: Link, a: Dpid, b: Dpid)
  {
    (l.src.dpid == a && l.dst.dpid == b) || (l.dst.dpid == a && l.src.dpid == b)
  }

  /** The uplink ports of a switch are exactly the ports at which some
      link ends: each link adds both of its endpoint ports and nothing
      else is ever added. */
  lemma {:induction false} UplinksAreLinkEnds(switches: seq<SwitchDesc>, links: seq<Link>, d: Dpid, p: PortNo)
    requires EndpointsKnown(switches, links)
    requires d in SwitchIds(switches)
    ensures p in LinkUplinks(switches, links)[d] <==> exists k :: 0 <= k < |links| && EndAt(links[k], d, p)
  {
    if links != [] {
      var n := |links| - 1;
      EndpointsKnownPrefix(switches, links, n);
      UplinksAreLinkEnds(switches, links[..n], d, p);
      AddLinkUplinksAt(LinkUplinks(switches, links[..n]), links[n], d, p);
      if p in LinkUplinks(switches, links[..n])[d] {
        var k :| 0 <= k < n && EndAt(links[..n][k], d, p);
        assert EndAt(links[k], d, p);
      }
      if exists k :: 0 <= k < |links| && EndAt(links[k], d, p) {
        var k :| 0 <= k < |links| && EndAt(links[k], d, p);
        if k < n {
          assert EndAt(links[..n][k], d, p);
        }
      }
    }
  }

  /** What one iteration of the link loop does to the uplinks of `d`. */
  lemma AddLinkUplinksAt(up: PortSets, l: Link, d: Dpid, p: PortNo)
    requires l.src.dpid in up && l.dst.dpid in up && d in up
    ensures p in AddLinkUplinks(up, l)[d] <==> p in up[d] || EndAt(l, d, p)
  {
  }

  /** What one iteration of the link loop does to entry `a`, `b`. */
  lemma AddLinkNeighborsAt(nb: Neighbors, l: Link, a: Dpid, b: Dpid)
    requires l.src.dpid in nb && l.dst.dpid in nb && a in nb
    ensures b in AddLinkNeighbors(nb, l)[a] <==> b in nb[a] || Joins(l, a, b)
    ensures b in AddLinkNeighbors(nb, l)[a] ==>
              AddLinkNeighbors(nb, l)[a][b] in {l.src.portNo, l.dst.portNo} + (if b in nb[a] then {nb[a][b]} else {})
    ensures b in AddLinkNeighbors(nb, l)[a] && !Joins(l, a, b) ==> AddLinkNeighbors(nb, l)[a][b] == nb[a][b]
    ensures b in AddLinkNeighbors(nb, l)[a] && Joins(l, a, b) ==>
              AddLinkNeighbors(nb, l)[a][b] == (if l.dst == LinkEnd(a, AddLinkNeighbors(nb, l)[a][b]) then l.dst.portNo else l.src.portNo)
  {
  }

  /** A neighbour entry exists exactly for the pairs of switches some link
      joins, so the neighbour relation is symmetric. */
  lemma {:induction false} NeighborsAreLinks(switches: seq<SwitchDesc>, links: seq<Link>, a: Dpid, b: Dpid)
    requires EndpointsKnown(switches, links)
    requires a in SwitchIds(switches)
    ensures b in LinkNeighbors(switches, links)[a] <==> exists k :: 0 <= k < |links| && Joins(links[k], a, b)
  {
    if links != [] {
      var n := |links| - 1;
      EndpointsKnownPrefix(switches, links, n);
      NeighborsAreLinks(switches, links[..n], a, b);
      var nb := LinkNeighbors(switches, links[..n]);
      AddLinkNeighborsAt(nb, links[n], a, b);
      if b in nb[a] {
        var k :| 0 <= k < n && Joins(links[..n][k], a, b);
        assert Joins(links[k], a, b);
      }
      if exists k :: 0 <= k < |links| && Joins(links[k], a, b) {
        var k :| 0 <= k < |links| && Joins(links[k], a, b);
        if k < n {
          assert Joins(links[..n][k], a, b);
        }
      }
    }
  }

  /** The port recorded for a neighbour is one of the switch's uplinks. */
  lemma {:induction false} NeighborPortIsUplink(switches: seq<SwitchDesc>, links: seq<Link>, a: Dpid, b: Dpid)
    requires EndpointsKnown(switches, links)
    requires a in SwitchIds(switches)
    requires b in LinkNeighbors(switches, links)[a]
    ensures LinkNeighbors(switches, links)[a][b] in LinkUplinks(switches, links)[a]
  {
    var n := |links| - 1;
    var l := links[n];
    EndpointsKnownPrefix(switches, links, n);
    var nb := LinkNeighbors(switches, links[..n]);
    var up := LinkUplinks(switches, links[..n]);
    AddLinkNeighborsAt(nb, l, a, b);
    var port := AddLinkNeighbors(nb, l)[a][b];
    if Joins(l, a, b) {
      assert EndAt(l, a, port) by {
        if l.dst == LinkEnd(a, port) {
        } else {
          assert port == l.src.portNo;
        }
      }
      assert port in AddLinkUplinks(up, l)[a];
    } else {
      NeighborPortIsUplink(switches, links[..n], a, b);
      assert port in up[a];
    }
  }

  /** Every link creates an entry on both of its switches. */
  lemma NeighborsSymmetric(switches: seq<SwitchDesc>, links: seq<Link>, a: Dpid, b: Dpid)
    requires EndpointsKnown(switches, links)
    requires a in SwitchIds(switches)
    requires b in LinkNeighbors(switches, links)[a]
    ensures b in LinkNeighbors(switches, links) && a in LinkNeighbors(switches, links)[b]
  {
    NeighborsAreLinks(switches, links, a, b);
    var k :| 0 <= k < |links| && Joins(links[k], a, b);
    assert Joins(links[k], b, a);
    NeighborsAreLinks(switches, links, b, a);
  }

  // ---------------------------------------------------------------------
  // Host ports

  /** The loop over `sw.ports`: a port is a host port when it is neither
      OFPP_LOCAL nor an uplink. */
  function HostPortSet(ports: seq<PortNo>, uplinks: set<PortNo>): (hp: set<PortNo>)
    ensures forall p :: p in hp <==> p in ports && p != OFPP_LOCAL && p !in uplinks
  {
    if ports == [] then {}
    else
      var p := ports[|ports| - 1];
      var rest := HostPortSet(ports[..|ports| - 1], uplinks);
      assert forall q :: q in ports <==> q in ports[..|ports| - 1] || q == p;
      if p == OFPP_LOCAL || p in uplinks then rest else rest + {p}
  }

  /** The host port map after the loop over `switches`: every listed
      switch's entry is overwritten, every other entry of `prior` stays. */
  function HostPortsAfter(prior: PortSets, switches: seq<SwitchDesc>, up: PortSets): (hp: PortSets)
    ensures hp.Keys == prior.Keys + SwitchIds(switches)
  {
    if switches == [] then prior
    else
      var sw := switches[|switches| - 1];
      var prev := HostPortsAfter(prior, switches[..|switches| - 1], up);
      assert SwitchIds(switches) == SwitchIds(switches[..|switches| - 1]) + {sw.dpid};
      prev[sw.dpid := HostPortSet(sw.ports, PortsOf(up, sw.dpid))]
  }

  lemma SwitchIdsSnoc(switches: seq<SwitchDesc>)
    requires switches != []
    ensures SwitchIds(switches) == SwitchIds(switches[..|switches| - 1]) + {switches[|switches| - 1].dpid}
  {
    var n := |switches| - 1;
    forall d | d in SwitchIds(switches[..n]) ensures d in SwitchIds(switches) {
      var k :| 0 <= k < n && switches[..n][k].dpid == d;
      assert switches[k].dpid == d;
    }
  }

  /** No later switch of the list has the same dpid as the one at `k`. */
  predicate LastWithId(switches: seq<SwitchDesc>, k: nat)
    requires k < |switches|
  {
    forall j :: k < j < |switches| ==> switches[j].dpid != switches[k].dpid
  }

  /** After the loop an entry for a switch that is no longer listed keeps
      its old value: stale host ports survive a rebuild. */
  lemma {:induction false} HostPortsStale(prior: PortSets, switches: seq<SwitchDesc>, up: PortSets, d: Dpid)
    requires d !in SwitchIds(switches) && d in prior
    ensures HostPortsAfter(prior, switches, up)[d] == prior[d]
  {
    if switches != [] {
      SwitchIdsSnoc(switches);
      HostPortsStale(prior, switches[..|switches| - 1], up, d);
    }
  }

  /** After the loop a listed switch's host ports are its ports minus its
      uplinks minus OFPP_LOCAL (the last listing wins when a dpid
      repeats). */
  lemma {:induction false} HostPortsListed(prior: PortSets, switches: seq<SwitchDesc>, up: PortSets, k: nat)
    requires k < |switches| && LastWithId(switches, k)
    ensures HostPortsAfter(prior, switches, up)[switches[k].dpid]
              == HostPortSet(switches[k].ports, PortsOf(up, switches[k].dpid))
  {
    var n := |switches| - 1;
    HostPortsAfterSnoc(prior, switches, up);
    if k < n {
      assert switches[n].dpid != switches[k].dpid;
      assert switches[..n][k] == switches[k];
      assert LastWithId(switches[..n], k);
      HostPortsListed(prior, switches[..n], up, k);
    }
  }

  /** One step of the loop over the switch list. */
  lemma HostPortsAfterSnoc(prior: PortSets, switches: seq<SwitchDesc>, up: PortSets)
    requires switches != []
    ensures var sw := switches[|switches| - 1];
      HostPortsAfter(prior, switches, up)
        == HostPortsAfter(prior, switches[..|switches| - 1], up)[sw.dpid := HostPortSet(sw.ports, PortsOf(up, sw.dpid))]
  {
  }

  /** Port classification: on a listed switch the host ports and the
      uplinks are disjoint, OFPP_LOCAL is never a host port, and every
      port of the switch is an uplink, a host port or OFPP_LOCAL. */
  lemma Classification(switches: seq<SwitchDesc>, links: seq<Link>, prior: PortSets, k: nat)
    requires EndpointsKnown(switches, links)
    requires k < |switches| && LastWithId(switches, k)
    ensures var up := LinkUplinks(switches, links);
            var d := switches[k].dpid;
            var hp := HostPortsAfter(prior, switches, up)[d];
            && hp !! up[d]
            && OFPP_LOCAL !in hp
            && forall p :: p in switches[k].ports ==> p in hp || p in up[d] || p == OFPP_LOCAL
  {
    var up := LinkUplinks(switches, links);
    var d := switches[k].dpid;
    HostPortsListed(prior, switches, up, k);
  }

  /** Rebuilding twice with the same switch and link lists leaves the same
      host ports as rebuilding once. */
  lemma {:induction false} HostPortsIdempotent(prior: PortSets, switches: seq<SwitchDesc>, up: PortSets)
    ensures HostPortsAfter(HostPortsAfter(prior, switches, up), switches, up) == HostPortsAfter(prior, switches, up)
  {
    HostPortsOverwrite(prior, switches, up);
    HostPortsOverwrite(HostPortsAfter(prior, switches, up), switches, up);
    var redone := HostPortsAfter(map[], switches, up);
    assert (prior + redone) + redone == prior + redone;
  }

  /** The loop overwrites entries independently of what was there. */
  lemma {:induction false} HostPortsOverwrite(prior: PortSets, switches: seq<SwitchDesc>, up: PortSets)
    ensures HostPortsAfter(prior, switches, up) == prior + HostPortsAfter(map[], switches, up)
  {
    if switches != [] {
      HostPortsOverwrite(prior, switches[..|switches| - 1], up);
    }
  }

  // ---------------------------------------------------------------------
  // ECMP group

  /** One output bucket per port, in the given order. */
  function Buckets(ports: seq<PortNo>): (b: seq<seq<Action>>)
    ensures |b| == |ports|
    ensures forall k :: 0 <= k < |b| ==> b[k] == [Output(ports[k])]
  {
    if ports == [] then [] else Buckets(ports[..|ports| - 1]) + [[Output(ports[|ports| - 1])]]
  }

  /** What `install_ecmp_group_on_leaf(dpid)` sends. */
  function EcmpInstall(datapaths: set<Dpid>, up: PortSets, dpid: Dpid): (r: seq<Command>)
    ensures r == [] || (&& |r| == 2 && r[0].GroupDelete? && r[1].GroupAdd?
                        && r[0].dpid == dpid && r[1].dpid == dpid
                        && r[0].groupId == ECMP_GROUP_ID && r[1].groupId == ECMP_GROUP_ID)
  {
    if dpid !in datapaths then []
    else
      var uplinks := SortedSeq(PortsOf(up, dpid));
      if uplinks == [] then []
      else [GroupDelete(dpid, Select, ECMP_GROUP_ID), GroupAdd(dpid, Select, ECMP_GROUP_ID, Buckets(uplinks))]
  }

  /** The ports of a bucket list of single-output buckets. */
  function BucketPorts(b: seq<seq<Action>>): seq<PortNo>
    requires forall k :: 0 <= k < |b| ==> |b[k]| == 1 && b[k][0].Output?
  {
    seq(|b|, k requires 0 <= k < |b| => b[k][0].port)
  }

  /** `install_ecmp_group_on_leaf` sends nothing for an unregistered switch
      or one without uplinks; otherwise it sends exactly a DELETE of group
      100 followed by an ADD of SELECT group 100 with one output bucket per
      uplink, in ascending port order, so that equal uplink sets always
      give equal bucket lists. */
  lemma EcmpInstallShape(datapaths: set<Dpid>, up: PortSets, dpid: Dpid)
    ensures var cmds := EcmpInstall(datapaths, up, dpid);
            cmds == [] <==> dpid !in datapaths || PortsOf(up, dpid) == {}
    ensures var cmds := EcmpInstall(datapaths, up, dpid);
            cmds != [] ==>
              && |cmds| == 2
              && cmds[0] == GroupDelete(dpid, Select, ECMP_GROUP_ID)
              && cmds[1].GroupAdd? && cmds[1].dpid == dpid
              && cmds[1].groupType == Select && cmds[1].groupId == ECMP_GROUP_ID
              && |cmds[1].buckets| == |PortsOf(up, dpid)|
              && (forall k :: 0 <= k < |cmds[1].buckets| ==>
                    |cmds[1].buckets[k]| == 1 && cmds[1].buckets[k][0].Output?)
              && StrictlyIncreasing(BucketPorts(cmds[1].buckets))
              && (forall p :: p in BucketPorts(cmds[1].buckets) <==> p in PortsOf(up, dpid))
  {
    var cmds := EcmpInstall(datapaths, up, dpid);
    if cmds != [] {
      var u := SortedSeq(PortsOf(up, dpid));
      assert BucketPorts(cmds[1].buckets) == u;
    }
  }

  /** Any ascending listing of the uplinks yields the installed buckets. */
  lemma EcmpBucketsDeterministic(datapaths: set<Dpid>, up: PortSets, dpid: Dpid, listing: seq<PortNo>)
    requires dpid in datapaths && PortsOf(up, dpid) != {}
    requires StrictlyIncreasing(listing) && forall p :: p in listing <==> p in PortsOf(up, dpid)
    ensures EcmpInstall(datapaths, up, dpid)[1].buckets == Buckets(listing)
  {
    SortedUnique(listing, SortedSeq(PortsOf(up, dpid)));
  }

  /** The group pass that ends `rebuild_topology`, over the host port
      entries listed in `dpids`. */
  function EcmpPass(dpids: seq<Dpid>, hostPorts: PortSets, datapaths: set<Dpid>, up: PortSets): seq<Command>
  {
    if dpids == [] then []
    else
      var d := dpids[|dpids| - 1];
      EcmpPass(dpids[..|dpids| - 1], hostPorts, datapaths, up)
        + (if PortsOf(hostPorts, d) != {} then EcmpInstall(datapaths, up, d) else [])
  }

  /** One more switch of the pass. */
  lemma EcmpPassStep(dpids: seq<Dpid>, m: nat, hostPorts: PortSets, datapaths: set<Dpid>, up: PortSets)
    requires m < |dpids|
    ensures EcmpPass(dpids[..m + 1], hostPorts, datapaths, up)
      == EcmpPass(dpids[..m], hostPorts, datapaths, up)
         + (if PortsOf(hostPorts, dpids[m]) != {} then EcmpInstall(datapaths, up, dpids[m]) else [])
  {
    assert dpids[..m + 1][..m] == dpids[..m];
  }

  /** Messages sent so far by the pass, followed by those of one more
      switch, are the messages of the longer pass. */
  lemma EcmpPassExtend(dpids: seq<Dpid>, m: nat, hostPorts: PortSets, datapaths: set<Dpid>, up: PortSets,
                       s0: seq<Command>, s1: seq<Command>, s2: seq<Command>)
    requires m < |dpids|
    requires s1 == s0 + EcmpPass(dpids[..m], hostPorts, datapaths, up)
    requires s2 == s1 + (if PortsOf(hostPorts, dpids[m]) != {} then EcmpInstall(datapaths, up, dpids[m]) else [])
    ensures s2 == s0 + EcmpPass(dpids[..m + 1], hostPorts, datapaths, up)
  {
    EcmpPassStep(dpids, m, hostPorts, datapaths, up);
  }

  /** The pass sends only commands of group 100, and only to listed
      switches that are eligible leaves. */
  lemma {:induction false} EcmpPassGroups(dpids: seq<Dpid>, hostPorts: PortSets, datapaths: set<Dpid>, up: PortSets)
    ensures forall k :: 0 <= k < |EcmpPass(dpids, hostPorts, datapaths, up)| ==>
              EcmpGroupCommand(EcmpPass(dpids, hostPorts, datapaths, up)[k], dpids, hostPorts, datapaths, up)
  {
    if dpids != [] {
      var n := |dpids| - 1;
      var d := dpids[n];
      EcmpPassGroups(dpids[..n], hostPorts, datapaths, up);
      var prev: seq<Command> := EcmpPass(dpids[..n], hostPorts, datapaths, up);
      var tail: seq<Command> := if PortsOf(hostPorts, d) != {} then EcmpInstall(datapaths, up, d) else [];
      assert EcmpPass(dpids, hostPorts, datapaths, up) == prev + tail;
      forall k | 0 <= k < |prev + tail|
        ensures EcmpGroupCommand((prev + tail)[k], dpids, hostPorts, datapaths, up)
      {
        if k < |prev| {
          assert (prev + tail)[k] == prev[k];
          assert EcmpGroupCommand(prev[k], dpids[..n], hostPorts, datapaths, up);
          assert prev[k].dpid in dpids;
        } else {
          assert (prev + tail)[k] == tail[k - |prev|];
          assert SortedSeq(PortsOf(up, d)) != [];
        }
      }
    }
  }

  /** A command the pass over `dpids` may send: a command of group 100 on
      a listed switch that is an eligible leaf. */
  predicate EcmpGroupCommand(c: Command, dpids: seq<Dpid>, hostPorts: PortSets, datapaths: set<Dpid>, up: PortSets)
  {
    && (c.GroupDelete? || c.GroupAdd?) && c.groupId == ECMP_GROUP_ID
    && c.dpid in dpids && EcmpLeaf(hostPorts, datapaths, up, c.dpid)
  }

  /** The group pass over every entry of `host_ports`. */
  function EcmpCommands(hostPorts: PortSets, datapaths: set<Dpid>, up: PortSets): (r: seq<Command>)
    ensures forall k :: 0 <= k < |r| ==>
              && (r[k].GroupDelete? || r[k].GroupAdd?) && r[k].groupId == ECMP_GROUP_ID
              && r[k].dpid in hostPorts && EcmpLeaf(hostPorts, datapaths, up, r[k].dpid)
  {
    EcmpPassGroups(SortedSeq(hostPorts.Keys), hostPorts, datapaths, up);
    EcmpPass(SortedSeq(hostPorts.Keys), hostPorts, datapaths, up)
  }

  /** A switch that is registered, has host ports and has uplinks. */
  predicate EcmpLeaf(hostPorts: PortSets, datapaths: set<Dpid>, up: PortSets, d: Dpid)
  {
    PortsOf(hostPorts, d) != {} && d in datapaths && PortsOf(up, d) != {}
  }

  /** How many ADDs of a group on switch `d` a command list holds. */
  function GroupAddsOn(cmds: seq<Command>, d: Dpid): nat
  {
    if cmds == [] then 0
    else GroupAddsOn(cmds[..|cmds| - 1], d) + (if cmds[|cmds| - 1].GroupAdd? && cmds[|cmds| - 1].dpid == d then 1 else 0)
  }

  lemma {:induction false} GroupAddsOnConcat(a: seq<Command>, b: seq<Command>, d: Dpid)
    ensures GroupAddsOn(a + b, d) == GroupAddsOn(a, d) + GroupAddsOn(b, d)
    decreases |b|
  {
    if b != [] {
      GroupAddsOnConcat(a, b[..|b| - 1], d);
      assert (a + b)[..|a + b| - 1] == a + b[..|b| - 1];
      assert (a + b)[|a + b| - 1] == b[|b| - 1];
    } else {
      assert a + b == a;
    }
  }

  lemma EcmpInstallAdds(datapaths: set<Dpid>, up: PortSets, dpid: Dpid, d: Dpid)
    ensures GroupAddsOn(EcmpInstall(datapaths, up, dpid), d) ==
              if dpid == d && dpid in datapaths && PortsOf(up, dpid) != {} then 1 else 0
  {
    var cmds := EcmpInstall(datapaths, up, dpid);
    if cmds != [] {
      assert cmds[..1] == [cmds[0]];
      assert GroupAddsOn([cmds[0]], d) == 0 by {
        assert [cmds[0]][..0] == [];
      }
    }
  }

  /** Over a list of distinct dpids the pass adds the group on switch `d`
      once if `d` is listed and is an ECMP leaf, and never otherwise. */
  lemma {:induction false} EcmpPassAdds(dpids: seq<Dpid>, hostPorts: PortSets, datapaths: set<Dpid>, up: PortSets, d: Dpid)
    requires StrictlyIncreasing(dpids)
    ensures GroupAddsOn(EcmpPass(dpids, hostPorts, datapaths, up), d) ==
              if d in dpids && EcmpLeaf(hostPorts, datapaths, up, d) then 1 else 0
  {
    if dpids != [] {
      var n := |dpids| - 1;
      var last := dpids[n];
      EcmpPassAdds(dpids[..n], hostPorts, datapaths, up, d);
      EcmpInstallAdds(datapaths, up, last, d);
      GroupAddsOnConcat(EcmpPass(dpids[..n], hostPorts, datapaths, up),
                        if PortsOf(hostPorts, last) != {} then EcmpInstall(datapaths, up, last) else [], d);
      assert d in dpids <==> d in dpids[..n] || d == last;
      assert last !in dpids[..n];
    }
  }

  /** Every group ADD of the pass is for a listed ECMP leaf and carries
      exactly that leaf's current uplinks, ascending: no stale bucket
      survives. */
  lemma {:induction false} EcmpPassBuckets(dpids: seq<Dpid>, hostPorts: PortSets, datapaths: set<Dpid>, up: PortSets, k: nat)
    requires k < |EcmpPass(dpids, hostPorts, datapaths, up)|
    requires EcmpPass(dpids, hostPorts, datapaths, up)[k].GroupAdd?
    ensures var c := EcmpPass(dpids, hostPorts, datapaths, up)[k];
            && c.dpid in dpids && EcmpLeaf(hostPorts, datapaths, up, c.dpid)
            && c.buckets == Buckets(SortedSeq(PortsOf(up, c.dpid)))
  {
    var n := |dpids| - 1;
    var prev := EcmpPass(dpids[..n], hostPorts, datapaths, up);
    if k < |prev| {
      EcmpPassBuckets(dpids[..n], hostPorts, datapaths, up, k);
    }
  }

  /** A rebuild sends the group DELETE/ADD pair exactly once to every
      registered switch that has host ports and uplinks, and to no other
      switch. */
  lemma EcmpOncePerLeaf(hostPorts: PortSets, datapaths: set<Dpid>, up: PortSets, d: Dpid)
    ensures GroupAddsOn(EcmpCommands(hostPorts, datapaths, up), d) ==
              if EcmpLeaf(hostPorts, datapaths, up, d) then 1 else 0
  {
    EcmpPassAdds(SortedSeq(hostPorts.Keys), hostPorts, datapaths, up, d);
  }
}
