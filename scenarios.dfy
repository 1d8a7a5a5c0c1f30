/** Concrete fabrics run through the model: one spine S1 (dpid 1) and two
    leaves L1 (dpid 2) and L2 (dpid 3).  Each leaf has port 1 up to the
    spine and host ports 2 and 3; the spine reaches L1 on its port 1 and
    L2 on its port 2. */
module Scenarios {
  import opened Common
  import opened OpenFlow
  import opened Topology
  import opened Forwarding

  const S1: Dpid := 1
  const L1: Dpid := 2
  const L2: Dpid := 3

  /** The switches as the topology API lists them (LOCAL included). */
  function FabricSwitches(): seq<SwitchDesc>
  {
    [SwitchDesc(S1, [1, 2, OFPP_LOCAL]), SwitchDesc(L1, [1, 2, 3, OFPP_LOCAL]), SwitchDesc(L2, [1, 2, 3, OFPP_LOCAL])]
  }

  /** The links, one per direction, as the topology API lists them. */
  function FabricLinks(): seq<Link>
  {
    [Link(LinkEnd(L1, 1), LinkEnd(S1, 1)), Link(LinkEnd(S1, 1), LinkEnd(L1, 1)),
     Link(LinkEnd(L2, 1), LinkEnd(S1, 2)), Link(LinkEnd(S1, 2), LinkEnd(L2, 1))]
  }

  lemma SortedOne(x: nat)
    ensures SortedSeq({x}) == [x]
  {
    SortedUnique(SortedSeq({x}), [x]);
  }

  lemma SortedTwo(x: nat, y: nat)
    requires x < y
    ensures SortedSeq({x, y}) == [x, y]
  {
    SortedUnique(SortedSeq({x, y}), [x, y]);
  }

  lemma FabricKnown()
    ensures SwitchIds(FabricSwitches()) == {S1, L1, L2}
    ensures EndpointsKnown(FabricSwitches(), FabricLinks())
  {
    var sw := FabricSwitches();
    assert sw[0].dpid == S1 && sw[1].dpid == L1 && sw[2].dpid == L2;
    forall d ensures d in SwitchIds(sw) <==> d in {S1, L1, L2} {
      if d in SwitchIds(sw) {
        var k :| 0 <= k < |sw| && sw[k].dpid == d;
      }
    }
  }

  /** A map over the three switches is given by its three entries. */
  lemma FabricMap<V>(m: map<Dpid, V>, s1: V, l1: V, l2: V)
    requires m.Keys == {S1, L1, L2}
    requires m[S1] == s1 && m[L1] == l1 && m[L2] == l2
    ensures m == map[S1 := s1, L1 := l1, L2 := l2]
  {
  }

  /** The uplink sets after the first `n` links. */
  function UplinksAfter(n: nat): PortSets
  {
    if n == 0 then map[S1 := {}, L1 := {}, L2 := {}]
    else if n <= 2 then map[S1 := {1}, L1 := {1}, L2 := {}]
    else map[S1 := {1, 2}, L1 := {1}, L2 := {1}]
  }

  /** The neighbour maps after the first `n` links. */
  function NeighborsAfter(n: nat): Neighbors
  {
    if n == 0 then map[S1 := map[], L1 := map[], L2 := map[]]
    else if n <= 2 then map[S1 := map[L1 := 1], L1 := map[S1 := 1], L2 := map[]]
    else map[S1 := map[L1 := 1, L2 := 2], L1 := map[S1 := 1], L2 := map[S1 := 1]]
  }

  /** One iteration of the link loop on this fabric, uplink part. */
  lemma UplinksStep(n: nat)
    requires 1 <= n <= 4
    ensures AddLinkUplinks(UplinksAfter(n - 1), FabricLinks()[n - 1]) == UplinksAfter(n)
  {
    var r := AddLinkUplinks(UplinksAfter(n - 1), FabricLinks()[n - 1]);
    var want := UplinksAfter(n);
    assert r[S1] == want[S1] && r[L1] == want[L1] && r[L2] == want[L2];
    FabricMap(r, want[S1], want[L1], want[L2]);
  }

  /** One iteration of the link loop on this fabric, neighbour part. */
  lemma NeighborsStep(n: nat)
    requires 1 <= n <= 4
    ensures AddLinkNeighbors(NeighborsAfter(n - 1), FabricLinks()[n - 1]) == NeighborsAfter(n)
  {
    var r := AddLinkNeighbors(NeighborsAfter(n - 1), FabricLinks()[n - 1]);
    var want := NeighborsAfter(n);
    assert r[S1] == want[S1] && r[L1] == want[L1] && r[L2] == want[L2];
    FabricMap(r, want[S1], want[L1], want[L2]);
  }

  lemma {:induction false} FabricUplinksPrefix(sw: seq<SwitchDesc>, links: seq<Link>, n: nat)
    requires sw == FabricSwitches() && links == FabricLinks() && n <= 4
    ensures EndpointsKnown(sw, links[..n])
    ensures LinkUplinks(sw, links[..n]) == UplinksAfter(n)
  {
    FabricKnown();
    EndpointsKnownPrefix(sw, links, n);
    if n == 0 {
      var u0 := EmptyUplinks(sw);
      assert u0[S1] == {} && u0[L1] == {} && u0[L2] == {};
      FabricMap(u0, {}, {}, {});
    } else {
      FabricUplinksPrefix(sw, links, n - 1);
      assert links[..n][..n - 1] == links[..n - 1];
      UplinksStep(n);
    }
  }

  lemma {:induction false} FabricNeighborsPrefix(sw: seq<SwitchDesc>, links: seq<Link>, n: nat)
    requires sw == FabricSwitches() && links == FabricLinks() && n <= 4
    ensures EndpointsKnown(sw, links[..n])
    ensures LinkNeighbors(sw, links[..n]) == NeighborsAfter(n)
  {
    FabricKnown();
    EndpointsKnownPrefix(sw, links, n);
    if n == 0 {
      var n0 := EmptyNeighbors(sw);
      assert n0[S1] == map[] && n0[L1] == map[] && n0[L2] == map[];
      FabricMap(n0, map[], map[], map[]);
    } else {
      FabricNeighborsPrefix(sw, links, n - 1);
      assert links[..n][..n - 1] == links[..n - 1];
      NeighborsStep(n);
    }
  }

  /** A rebuild of this fabric finds ports 1 and 2 of the spine and port 1
      of each leaf to be uplinks, that the spine reaches L1 on port 1 and
      L2 on port 2, and that each leaf reaches the spine on port 1. */
  lemma FabricLinkLoop()
    ensures EndpointsKnown(FabricSwitches(), FabricLinks())
    ensures LinkUplinks(FabricSwitches(), FabricLinks()) == map[S1 := {1, 2}, L1 := {1}, L2 := {1}]
    ensures LinkNeighbors(FabricSwitches(), FabricLinks()) == map[S1 := map[L1 := 1, L2 := 2], L1 := map[S1 := 1], L2 := map[S1 := 1]]
  {
    FabricUplinksPrefix(FabricSwitches(), FabricLinks(), 4);
    FabricNeighborsPrefix(FabricSwitches(), FabricLinks(), 4);
    assert FabricLinks()[..4] == FabricLinks();
  }

  /** ... and that the spine has no host port while each leaf has host
      ports 2 and 3; LOCAL is never one. */
  lemma {:induction false} FabricHostPorts()
    ensures HostPortsAfter(map[], FabricSwitches(), map[S1 := {1, 2}, L1 := {1}, L2 := {1}]) == map[S1 := {}, L1 := {2, 3}, L2 := {2, 3}]
  {
    var sw := FabricSwitches();
    var up := map[S1 := {1, 2}, L1 := {1}, L2 := {1}];
    assert sw[..3] == sw;
    assert sw[..3][..2] == [sw[0], sw[1]];
    assert sw[..3][..2][..1] == [sw[0]];
    assert sw[..3][..2][..1][..0] == [];
    var h0 := HostPortSet(sw[0].ports, up[S1]);
    var h1 := HostPortSet(sw[1].ports, up[L1]);
    var h2 := HostPortSet(sw[2].ports, up[L2]);
    assert h0 == {} by {
      forall p ensures p in h0 <==> p in {} {
      }
    }
    assert h1 == {2, 3} by {
      forall p ensures p in h1 <==> p in {2, 3} {
      }
    }
    assert h2 == {2, 3} by {
      forall p ensures p in h2 <==> p in {2, 3} {
      }
    }
    var hp := HostPortsAfter(map[], sw, up);
    assert hp == HostPortsAfter(map[], sw[..2], up)[L2 := h2];
    assert HostPortsAfter(map[], sw[..2], up) == HostPortsAfter(map[], sw[..1], up)[L1 := h1];
    assert HostPortsAfter(map[], sw[..1], up) == map[S1 := h0];
    FabricMap(hp, {}, {2, 3}, {2, 3});
  }

  /** The controller's dictionaries once that rebuild has run and hosts
      AA (on L1, port 2) and BB (on L2, port 3) have been located. */
  function FabricTables(macToDpid: map<Mac, Dpid>): Tables
  {
    Tables({S1, L1, L2}, macToDpid,
           map["AA" := Location(L1, 2), "BB" := Location(L2, 3)],
           map[],
           map[S1 := {1, 2}, L1 := {1}, L2 := {1}],
           map[S1 := {}, L1 := {2, 3}, L2 := {2, 3}],
           map[S1 := map[L1 := 1, L2 := 2], L1 := map[S1 := 1], L2 := map[S1 := 1]])
  }

  /** A frame from BB to AA arriving at L2 on host port 3 is sent into the
      fabric: a priority-15 rule on L2 for destination AA pointing at
      group 100, and a packet-out through that group. */
  lemma SourceLeafUsesGroup(bufferId: nat)
    ensures var msg := PacketInMsg(L2, 3, bufferId, Some(Frame("AA", "BB", 0x0800, None, true)));
            UnicastCommands(FabricTables(map[]), msg, "AA") ==
              [FlowMod(L2, 0, 15, MatchEthDst("AA"), [Group(ECMP_GROUP_ID)]),
               PacketOut(L2, bufferId, 3, [Group(ECMP_GROUP_ID)], Payload(msg))]
  {
  }

  /** The same frame arriving at the spine on its port 2 (from L2) is sent
      on towards L1: a priority-15 rule on S1 for destination AA out of
      port 1. */
  lemma TransitSpineUsesNeighborPort(bufferId: nat)
    ensures var msg := PacketInMsg(S1, 2, bufferId, Some(Frame("AA", "BB", 0x0800, None, true)));
            UnicastCommands(FabricTables(map[]), msg, "AA") ==
              [FlowMod(S1, 0, 15, MatchEthDst("AA"), [Output(1)]),
               PacketOut(S1, bufferId, 2, [Output(1)], Payload(msg))]
  {
  }

  /** A broadcast frame arriving at L1 on port 2 goes out of port 3 only:
      not back out of port 2, not up the uplink, and no rule. */
  lemma BroadcastOnLeaf(bufferId: nat)
    ensures var msg := PacketInMsg(L1, 2, bufferId, Some(Frame(BROADCAST, "AA", 0x0800, None, true)));
            UnicastCommands(FabricTables(map[]), msg, BROADCAST) ==
              [PacketOut(L1, bufferId, 2, [Output(3)], Payload(msg))]
  {
    var t := FabricTables(map[]);
    assert PortsOf(t.hostPorts, L1) == {2, 3};
    assert IsGroupAddress(BROADCAST);
    FloodFromPortTwo();
  }

  /** Flooding from port 2 of a leaf whose host ports are 2 and 3. */
  lemma FloodFromPortTwo()
    ensures FloodActions({2, 3}, 2) == [Output(3)]
  {
    SortedTwo(2, 3);
    assert Without([2, 3], 2) == [3];
    assert Outputs([3]) == [Output(3)];
  }

  /** Once AA has been seen on L1, the packet-in handler drops a frame for
      AA that reaches L2: nothing is sent and no location is learned,
      although the forwarding decision above would have sent it on. */
  lemma KnownRemoteDestinationDropped(bufferId: nat)
    ensures var msg := PacketInMsg(L2, 3, bufferId, Some(Frame("AA", "BB", 0x0800, None, true)));
            var step := PacketIn(FabricTables(map["AA" := L1]), msg);
            && step.sent == []
            && step.tables.hostLocations == FabricTables(map[]).hostLocations
            && step.tables.macToDpid == map["AA" := L1, "BB" := L2]
  {
  }

  /** With `ip_to_mac = {"10.0.0.2": "00:11"}`, an ARP request for
      10.0.0.2 arriving on any port of any switch is answered with a reply
      from 00:11 out of that same port, and nothing is flooded. */
  lemma ArpProxyScenario(t: Tables, dpid: Dpid, inPort: PortNo, bufferId: nat)
    requires t.ipToMac == map["10.0.0.2" := "00:11"]
    requires BROADCAST !in t.macToDpid
    ensures var req := ArpRecord(ARP_REQUEST, "00:22", "10.0.0.1", "00:00:00:00:00:00", "10.0.0.2");
            var msg := PacketInMsg(dpid, inPort, bufferId, Some(Frame(BROADCAST, "00:22", ETH_TYPE_ARP, Some(req), false)));
            PacketIn(t, msg).sent == [ArpReply(dpid, inPort, "00:11", "00:22", "10.0.0.2", "10.0.0.1")]
  {
    var req := ArpRecord(ARP_REQUEST, "00:22", "10.0.0.1", "00:00:00:00:00:00", "10.0.0.2");
    var eth := Frame(BROADCAST, "00:22", ETH_TYPE_ARP, Some(req), false);
    var msg := PacketInMsg(dpid, inPort, bufferId, Some(eth));
    assert !SeenElsewhere(t, msg, eth);
    var t3 := ArpLearn(LearnAttachment(LearnSource(t, msg, eth), msg, eth.src), msg, eth, req);
    assert t3.ipToMac == map["10.0.0.2" := "00:11", "10.0.0.1" := "00:22"];
    assert ProxyAnswer(t3, req);
  }
}
