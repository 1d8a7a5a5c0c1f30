/** The controller application itself: a class whose fields are the
    dictionaries of `SpineLeafController` and whose methods are its event
    handlers.  Every message handed to `send_msg` is appended to `sent`.
    Each handler is proved to leave the dictionaries and `sent` exactly as
    the functions of modules Topology and Forwarding say. */
module SpineLeafController {
  import opened Common
  import opened OpenFlow
  import opened Topology
  import opened Forwarding

  // ---------------------------------------------------------------------
  // The loops that build lists and sets

  /** `for p in host_ports: if p != in_port: actions.append(Output(p))` */
  method FloodList(hostPorts: set<PortNo>, inPort: PortNo) returns (actions: seq<Action>)
    ensures actions == FloodActions(hostPorts, inPort)
  {
    actions := OutputsExcept(SortedSeq(hostPorts), inPort);
  }

  /** The same loop over the ports in the order they are listed. */
  method OutputsExcept(ports: seq<PortNo>, inPort: PortNo) returns (actions: seq<Action>)
    ensures actions == Outputs(Without(ports, inPort))
  {
    actions := [];
    for i := 0 to |ports|
      invariant actions == Outputs(Without(ports[..i], inPort))
    {
      OutputsExceptStep(ports, i, inPort);
      if ports[i] != inPort {
        actions := actions + [Output(ports[i])];
      }
    }
    assert ports[..|ports|] == ports;
  }

  /** One more port of the loop. */
  lemma OutputsExceptStep(ports: seq<PortNo>, i: nat, inPort: PortNo)
    requires i < |ports|
    ensures Outputs(Without(ports[..i + 1], inPort))
      == Outputs(Without(ports[..i], inPort)) + (if ports[i] != inPort then [Output(ports[i])] else [])
  {
    assert ports[..i + 1] == ports[..i] + [ports[i]];
    WithoutSnoc(ports[..i], ports[i], inPort);
    if ports[i] != inPort {
      OutputsSnoc(Without(ports[..i], inPort), ports[i]);
    }
  }

  /** `for _, port_no in neighbor_map.items(): if port_no != in_port: ...` */
  method NeighborFloodList(neighbors: map<Dpid, PortNo>, inPort: PortNo) returns (actions: seq<Action>)
    ensures actions == NeighborOutputs(SortedSeq(neighbors.Keys), neighbors, inPort)
  {
    var keys := SortedSeq(neighbors.Keys);
    assert forall j :: 0 <= j < |keys| ==> keys[j] in neighbors;
    actions := NeighborOutputsOver(keys, neighbors, inPort);
  }

  /** The same loop over the neighbours listed in `keys`, in that order. */
  method NeighborOutputsOver(keys: seq<Dpid>, neighbors: map<Dpid, PortNo>, inPort: PortNo) returns (actions: seq<Action>)
    requires forall j :: 0 <= j < |keys| ==> keys[j] in neighbors
    ensures actions == NeighborOutputs(keys, neighbors, inPort)
  {
    actions := [];
    for i := 0 to |keys|
      invariant actions == NeighborOutputs(keys[..i], neighbors, inPort)
    {
      NeighborOutputsStep(keys, i, neighbors, inPort);
      var portNo := neighbors[keys[i]];
      if portNo != inPort {
        actions := actions + [Output(portNo)];
      }
    }
    assert keys[..|keys|] == keys;
  }

  /** `for port in uplinks: buckets.append(OFPBucket(actions=[Output(port)]))` */
  method BucketList(uplinks: seq<PortNo>) returns (buckets: seq<seq<Action>>)
    ensures buckets == Buckets(uplinks)
  {
    buckets := [];
    for i := 0 to |uplinks|
      invariant buckets == Buckets(uplinks[..i])
    {
      assert uplinks[..i + 1][..i] == uplinks[..i];
      buckets := buckets + [[Output(uplinks[i])]];
    }
    assert uplinks[..|uplinks|] == uplinks;
  }

  /** The inner loop of the host-port pass of `rebuild_topology`: skip
      OFPP_LOCAL, keep every port that is not an uplink. */
  method HostPortScan(ports: seq<PortNo>, uplinks: set<PortNo>) returns (hostPorts: set<PortNo>)
    ensures hostPorts == HostPortSet(ports, uplinks)
  {
    hostPorts := {};
    for i := 0 to |ports|
      invariant hostPorts == HostPortSet(ports[..i], uplinks)
    {
      assert ports[..i + 1][..i] == ports[..i];
      if ports[i] == OFPP_LOCAL {
        continue;
      }
      if ports[i] !in uplinks {
        hostPorts := hostPorts + {ports[i]};
      }
    }
    assert ports[..|ports|] == ports;
  }

  /** The link loop of `rebuild_topology`.  `ok` is false when a link
      names a switch that is not listed (the source's `KeyError`). */
  method LinkLoop(switches: seq<SwitchDesc>, links: seq<Link>) returns (ok: bool, neighborPorts: Neighbors, uplinks: PortSets)
    ensures ok <==> EndpointsKnown(switches, links)
    ensures ok ==> neighborPorts == LinkNeighbors(switches, links) && uplinks == LinkUplinks(switches, links)
  {
    neighborPorts := EmptyNeighbors(switches);
    uplinks := EmptyUplinks(switches);
    for i := 0 to |links|
      invariant EndpointsKnown(switches, links[..i])
      invariant neighborPorts == LinkNeighbors(switches, links[..i])
      invariant uplinks == LinkUplinks(switches, links[..i])
    {
      var link := links[i];
      if link.src.dpid !in neighborPorts || link.dst.dpid !in neighborPorts {
        assert links[i] == link;
        return false, neighborPorts, uplinks;
      }
      LinkLoopStep(switches, links, i);
      var srcRow: map<Dpid, PortNo> := neighborPorts[link.src.dpid][link.dst.dpid := link.src.portNo];
      neighborPorts := neighborPorts[link.src.dpid := srcRow];
      var dstRow: map<Dpid, PortNo> := neighborPorts[link.dst.dpid][link.src.dpid := link.dst.portNo];
      neighborPorts := neighborPorts[link.dst.dpid := dstRow];
      uplinks := uplinks[link.src.dpid := uplinks[link.src.dpid] + {link.src.portNo}];
      uplinks := uplinks[link.dst.dpid := uplinks[link.dst.dpid] + {link.dst.portNo}];
    }
    assert links[..|links|] == links;
    ok := true;
  }

  // ---------------------------------------------------------------------
  // What the handlers are specified by

  /** The two rules `switch_features_handler` installs: the table-miss rule
      and the ARP rule, both sending whole packets to the controller. */
  function ConnectRules(dpid: Dpid): (r: seq<Command>)
    ensures |r| == 2
    ensures forall k :: 0 <= k < 2 ==>
              r[k].FlowMod? && r[k].dpid == dpid && r[k].tableId == 0 &&
              r[k].actions == [OutputMaxLen(OFPP_CONTROLLER, OFPCML_NO_BUFFER)]
    ensures r[0].priority == 0 && r[0].matchFields == MatchAll
    ensures r[1].priority == 5 && r[1].matchFields == MatchEthType(ETH_TYPE_ARP)
  {
    [FlowMod(dpid, 0, 0, MatchAll, [OutputMaxLen(OFPP_CONTROLLER, OFPCML_NO_BUFFER)]),
     FlowMod(dpid, 0, 5, MatchEthType(ETH_TYPE_ARP), [OutputMaxLen(OFPP_CONTROLLER, OFPCML_NO_BUFFER)])]
  }

  /** The dictionaries after `rebuild_topology` with the given switch and
      link lists: neighbours and uplinks replaced, host ports overwritten
      for the listed switches only. */
  function Rebuilt(t: Tables, switches: seq<SwitchDesc>, links: seq<Link>): (r: Tables)
    requires EndpointsKnown(switches, links)
    ensures r.datapaths == t.datapaths && r.macToDpid == t.macToDpid &&
            r.hostLocations == t.hostLocations && r.ipToMac == t.ipToMac
    ensures r.hostPorts.Keys == t.hostPorts.Keys + SwitchIds(switches)
  {
    var up := LinkUplinks(switches, links);
    t.(switchNeighbors := LinkNeighbors(switches, links),
       uplinkPorts := up,
       hostPorts := HostPortsAfter(t.hostPorts, switches, up))
  }

  /** What `rebuild_topology` sends: the group pass over the new tables. */
  function RebuildCommands(t: Tables, switches: seq<SwitchDesc>, links: seq<Link>): seq<Command>
    requires EndpointsKnown(switches, links)
  {
    var r := Rebuilt(t, switches, links);
    EcmpCommands(r.hostPorts, r.datapaths, r.uplinkPorts)
  }

  /** A second rebuild with no change in between changes nothing: the same
      classification, and the same group commands with the same buckets. */
  lemma RebuildIdempotent(t: Tables, switches: seq<SwitchDesc>, links: seq<Link>)
    requires EndpointsKnown(switches, links)
    ensures Rebuilt(Rebuilt(t, switches, links), switches, links) == Rebuilt(t, switches, links)
    ensures RebuildCommands(Rebuilt(t, switches, links), switches, links) == RebuildCommands(t, switches, links)
  {
    HostPortsIdempotent(t.hostPorts, switches, LinkUplinks(switches, links));
  }

  /** After any rebuild, every registered switch with host ports and
      uplinks gets exactly one ADD of group 100, whose buckets are exactly
      its current uplinks in ascending order; no other switch gets one. */
  lemma RebuildGroupsConsistent(t: Tables, switches: seq<SwitchDesc>, links: seq<Link>, d: Dpid)
    requires EndpointsKnown(switches, links)
    ensures var r := Rebuilt(t, switches, links);
            GroupAddsOn(RebuildCommands(t, switches, links), d) ==
              if EcmpLeaf(r.hostPorts, r.datapaths, r.uplinkPorts, d) then 1 else 0
    ensures var r := Rebuilt(t, switches, links);
            var cmds := RebuildCommands(t, switches, links);
            forall k :: 0 <= k < |cmds| && cmds[k].GroupAdd? ==>
              && EcmpLeaf(r.hostPorts, r.datapaths, r.uplinkPorts, cmds[k].dpid)
              && cmds[k].buckets == Buckets(SortedSeq(PortsOf(r.uplinkPorts, cmds[k].dpid)))
  {
    var r := Rebuilt(t, switches, links);
    EcmpOncePerLeaf(r.hostPorts, r.datapaths, r.uplinkPorts, d);
    var cmds := RebuildCommands(t, switches, links);
    forall k | 0 <= k < |cmds| && cmds[k].GroupAdd?
      ensures EcmpLeaf(r.hostPorts, r.datapaths, r.uplinkPorts, cmds[k].dpid)
      ensures cmds[k].buckets == Buckets(SortedSeq(PortsOf(r.uplinkPorts, cmds[k].dpid)))
    {
      EcmpPassBuckets(SortedSeq(r.hostPorts.Keys), r.hostPorts, r.datapaths, r.uplinkPorts, k);
    }
  }

  /** A switch that has left the switch list keeps its old `host_ports`
      entry through a rebuild, but loses its uplink and neighbour entries,
      so the group pass that visits its stale entry sends it nothing. */
  lemma StaleEntryEmitsNothing(t: Tables, switches: seq<SwitchDesc>, links: seq<Link>, d: Dpid)
    requires EndpointsKnown(switches, links)
    requires d in t.hostPorts && d !in SwitchIds(switches)
    ensures var r := Rebuilt(t, switches, links);
            && d in r.hostPorts && r.hostPorts[d] == t.hostPorts[d]
            && d !in r.uplinkPorts && d !in r.switchNeighbors
            && EcmpInstall(r.datapaths, r.uplinkPorts, d) == []
    ensures var cmds := RebuildCommands(t, switches, links);
            forall k :: 0 <= k < |cmds| ==> cmds[k].dpid != d
  {
    var up := LinkUplinks(switches, links);
    HostPortsStale(t.hostPorts, switches, up, d);
  }

  /** What `recompute_groups_for_switch(dpid)` sends after the rebuild:
      the group again, when the switch has host ports. */
  function RecomputeExtra(t: Tables, dpid: Dpid): seq<Command>
  {
    if PortsOf(t.hostPorts, dpid) != {} then EcmpInstall(t.datapaths, t.uplinkPorts, dpid) else []
  }

  /** A leaf that is registered and has uplinks is sent its group twice by
      `recompute_groups_for_switch`: once by the rebuild, once more after. */
  lemma RecomputeInstallsTwice(t: Tables, switches: seq<SwitchDesc>, links: seq<Link>, d: Dpid)
    requires EndpointsKnown(switches, links)
    requires var r := Rebuilt(t, switches, links);
             EcmpLeaf(r.hostPorts, r.datapaths, r.uplinkPorts, d)
    ensures var r := Rebuilt(t, switches, links);
            GroupAddsOn(RebuildCommands(t, switches, links) + RecomputeExtra(r, d), d) == 2
  {
    var r := Rebuilt(t, switches, links);
    RebuildGroupsConsistent(t, switches, links, d);
    EcmpInstallAdds(r.datapaths, r.uplinkPorts, d, d);
    GroupAddsOnConcat(RebuildCommands(t, switches, links), RecomputeExtra(r, d), d);
  }

  // ---------------------------------------------------------------------
  // The application

  class Controller {
    var datapaths: set<Dpid>
    var macToDpid: map<Mac, Dpid>
    var hostLocations: map<Mac, Location>
    var ipToMac: map<Ip, Mac>
    var uplinkPorts: PortSets
    var hostPorts: PortSets
    var switchNeighbors: Neighbors
    /** Every message handed to `send_msg`, oldest first. */
    var sent: seq<Command>

    /** The dictionaries as one value. */
    function Snapshot(): Tables
      reads this
    {
      Tables(datapaths, macToDpid, hostLocations, ipToMac, uplinkPorts, hostPorts, switchNeighbors)
    }

    constructor()
      ensures Snapshot() == Tables({}, map[], map[], map[], map[], map[], map[])
      ensures sent == []
    {
      datapaths := {};
      macToDpid := map[];
      hostLocations := map[];
      ipToMac := map[];
      uplinkPorts := map[];
      hostPorts := map[];
      switchNeighbors := map[];
      sent := [];
    }

    /** `datapath.send_msg(c)` */
    method Send(c: Command)
      modifies this
      ensures Snapshot() == old(Snapshot())
      ensures sent == old(sent) + [c]
    {
      sent := sent + [c];
    }

    /** `add_flow(datapath, priority, match, actions)` in table 0. */
    method AddFlow(dpid: Dpid, priority: nat, matchFields: Match, actions: seq<Action>)
      modifies this
      ensures Snapshot() == old(Snapshot())
      ensures sent == old(sent) + [FlowMod(dpid, 0, priority, matchFields, actions)]
    {
      Send(FlowMod(dpid, 0, priority, matchFields, actions));
    }

    /** `switch_features_handler` */
    method SwitchFeaturesHandler(dpid: Dpid)
      modifies this
      ensures Snapshot() == old(Snapshot()).(datapaths := old(datapaths) + {dpid})
      ensures sent == old(sent) + ConnectRules(dpid)
    {
      var actions := [OutputMaxLen(OFPP_CONTROLLER, OFPCML_NO_BUFFER)];
      AddFlow(dpid, 0, MatchAll, actions);
      AddFlow(dpid, 5, MatchEthType(ETH_TYPE_ARP), actions);
      datapaths := datapaths + {dpid};
    }

    /** `install_ecmp_group_on_leaf` */
    method InstallEcmpGroupOnLeaf(dpid: Dpid)
      modifies this
      ensures Snapshot() == old(Snapshot())
      ensures sent == old(sent) + EcmpInstall(datapaths, uplinkPorts, dpid)
    {
      if dpid !in datapaths {
        return;
      }
      var uplinks := SortedSeq(PortsOf(uplinkPorts, dpid));
      if uplinks == [] {
        return;
      }
      var buckets := BucketList(uplinks);
      Send(GroupDelete(dpid, Select, ECMP_GROUP_ID));
      Send(GroupAdd(dpid, Select, ECMP_GROUP_ID, buckets));
    }

    /** `rebuild_topology`, given what the topology API lists.  `ok` is
        false when a link names a switch that is not listed: the source
        raises `KeyError` then, before changing anything. */
    method RebuildTopology(switches: seq<SwitchDesc>, links: seq<Link>) returns (ok: bool)
      modifies this
      ensures ok <==> EndpointsKnown(switches, links)
      ensures !ok ==> Snapshot() == old(Snapshot()) && sent == old(sent)
      ensures ok ==> Snapshot() == Rebuilt(old(Snapshot()), switches, links)
      ensures ok ==> sent == old(sent) + RebuildCommands(old(Snapshot()), switches, links)
    {
      var neighborPorts, uplinks;
      ok, neighborPorts, uplinks := LinkLoop(switches, links);
      if !ok {
        return;
      }
      switchNeighbors := neighborPorts;
      uplinkPorts := uplinks;
      ClassifyHostPorts(switches);
      InstallEcmpGroups();
    }

    /** The host-port pass of `rebuild_topology`: each listed switch's
        entry is overwritten with its ports that are neither LOCAL nor an
        uplink. */
    method ClassifyHostPorts(switches: seq<SwitchDesc>)
      modifies this
      ensures hostPorts == HostPortsAfter(old(hostPorts), switches, uplinkPorts)
      ensures Snapshot() == old(Snapshot()).(hostPorts := hostPorts)
      ensures sent == old(sent)
    {
      for j := 0 to |switches|
        invariant hostPorts == HostPortsAfter(old(hostPorts), switches[..j], uplinkPorts)
        invariant Snapshot() == old(Snapshot()).(hostPorts := hostPorts)
        invariant sent == old(sent)
      {
        assert switches[..j + 1][..j] == switches[..j];
        var sw := switches[j];
        var found := HostPortScan(sw.ports, PortsOf(uplinkPorts, sw.dpid));
        hostPorts := hostPorts[sw.dpid := found];
      }
      assert switches[..|switches|] == switches;
    }

    /** The group pass of `rebuild_topology`: every switch with host ports
        gets its group (re)installed. */
    method InstallEcmpGroups()
      modifies this
      ensures Snapshot() == old(Snapshot())
      ensures sent == old(sent) + EcmpCommands(hostPorts, datapaths, uplinkPorts)
    {
      InstallEcmpGroupsOver(SortedSeq(hostPorts.Keys));
    }

    /** The same pass over the switches listed in `dpids`, in that order. */
    method InstallEcmpGroupsOver(dpids: seq<Dpid>)
      modifies this
      ensures Snapshot() == old(Snapshot())
      ensures sent == old(sent) + EcmpPass(dpids, hostPorts, datapaths, uplinkPorts)
    {
      ghost var t := Snapshot();
      for m := 0 to |dpids|
        invariant Snapshot() == t
        invariant sent == old(sent) + EcmpPass(dpids[..m], t.hostPorts, t.datapaths, t.uplinkPorts)
      {
        assert hostPorts == t.hostPorts && datapaths == t.datapaths && uplinkPorts == t.uplinkPorts;
        ghost var before := sent;
        if PortsOf(hostPorts, dpids[m]) != {} {
          InstallEcmpGroupOnLeaf(dpids[m]);
        }
        EcmpPassExtend(dpids, m, t.hostPorts, t.datapaths, t.uplinkPorts, old(sent), before, sent);
      }
      assert dpids[..|dpids|] == dpids;
    }

    /** `recompute_groups_for_switch`: a rebuild, then the group of `dpid`
        once more if it has host ports.  A `KeyError` of the rebuild
        propagates, and nothing more is done. */
    method RecomputeGroupsForSwitch(switches: seq<SwitchDesc>, links: seq<Link>, dpid: Dpid) returns (ok: bool)
      modifies this
      ensures ok <==> EndpointsKnown(switches, links)
      ensures !ok ==> Snapshot() == old(Snapshot()) && sent == old(sent)
      ensures ok ==> Snapshot() == Rebuilt(old(Snapshot()), switches, links)
      ensures ok ==> sent == old(sent) + RebuildCommands(old(Snapshot()), switches, links) + RecomputeExtra(Snapshot(), dpid)
    {
      ok := RebuildTopology(switches, links);
      if !ok {
        return;
      }
      if PortsOf(hostPorts, dpid) != {} {
        InstallEcmpGroupOnLeaf(dpid);
      }
    }

    /** `port_status_handler`, without its metrics: whatever the reason,
        the switch's groups are recomputed. */
    method PortStatusHandler(switches: seq<SwitchDesc>, links: seq<Link>, dpid: Dpid) returns (ok: bool)
      modifies this
      ensures ok <==> EndpointsKnown(switches, links)
      ensures !ok ==> Snapshot() == old(Snapshot()) && sent == old(sent)
      ensures ok ==> Snapshot() == Rebuilt(old(Snapshot()), switches, links)
      ensures ok ==> sent == old(sent) + RebuildCommands(old(Snapshot()), switches, links) + RecomputeExtra(Snapshot(), dpid)
    {
      ok := RecomputeGroupsForSwitch(switches, links, dpid);
    }

    /** `packetout(datapath, msg, actions)` */
    method PacketOut(msg: PacketInMsg, actions: seq<Action>)
      modifies this
      ensures Snapshot() == old(Snapshot())
      ensures sent == old(sent) + [PacketOutFor(msg, actions)]
    {
      var data := if msg.bufferId != OFP_NO_BUFFER then None else msg.data;
      Send(OpenFlow.PacketOut(msg.dpid, msg.bufferId, msg.inPort, actions, data));
    }

    /** `send_arp_reply` */
    method SendArpReply(dpid: Dpid, outPort: PortNo, srcMac: Mac, dstMac: Mac, srcIp: Ip, dstIp: Ip)
      modifies this
      ensures Snapshot() == old(Snapshot())
      ensures sent == old(sent) + [ArpReply(dpid, outPort, srcMac, dstMac, srcIp, dstIp)]
    {
      var reply := Frame(dstMac, srcMac, ETH_TYPE_ARP, Some(ArpRecord(ARP_REPLY, srcMac, srcIp, dstMac, dstIp)), false);
      Send(OpenFlow.PacketOut(dpid, OFP_NO_BUFFER, OFPP_CONTROLLER, [Output(outPort)], Some(reply)));
    }

    /** `handle_arp` */
    method HandleArp(msg: PacketInMsg, eth: Frame, a: ArpRecord)
      modifies this
      ensures Snapshot() == ArpLearn(old(Snapshot()), msg, eth, a)
      ensures sent == old(sent) + ArpCommands(Snapshot(), msg, eth, a)
    {
      if a.srcIp != "" && eth.src != "" {
        ipToMac := ipToMac[a.srcIp := eth.src];
        if msg.inPort in PortsOf(hostPorts, msg.dpid) {
          hostLocations := hostLocations[eth.src := Location(msg.dpid, msg.inPort)];
        }
      }
      ghost var learned := Snapshot();
      assert learned == ArpLearn(old(Snapshot()), msg, eth, a);
      if a.opcode == ARP_REQUEST {
        if a.dstIp in ipToMac && ipToMac[a.dstIp] != "" {
          SendArpReply(msg.dpid, msg.inPort, ipToMac[a.dstIp], eth.src, a.dstIp, a.srcIp);
          return;
        }
      }
      assert !ProxyAnswer(learned, a);
      var actions := ArpFloodList(msg.dpid, msg.inPort);
      if actions != [] {
        Send(PacketOutFor(msg, actions));
      }
    }

    /** The actions `handle_arp` floods with: on a leaf the host ports
        except the ingress one, and group 100 when the packet came from a
        host; on a spine every neighbour except the ingress port. */
    method ArpFloodList(dpid: Dpid, inPort: PortNo) returns (actions: seq<Action>)
      ensures actions == ArpFloodActions(Snapshot(), dpid, inPort)
    {
      var leafPorts := PortsOf(hostPorts, dpid);
      if leafPorts != {} {
        actions := FloodList(leafPorts, inPort);
        if inPort in leafPorts {
          actions := actions + [Group(ECMP_GROUP_ID)];
        }
      } else {
        actions := NeighborFloodList(NeighborsOf(Snapshot(), dpid), inPort);
      }
    }

    /** The `add_flow` + `packetout` pair `forward_unicast` ends with
        when it knows where to send the packet. */
    method InstallAndPacketOut(msg: PacketInMsg, priority: nat, dst: Mac, actions: seq<Action>)
      modifies this
      ensures Snapshot() == old(Snapshot())
      ensures sent == old(sent) + InstallAndSend(msg, priority, dst, actions)
    {
      AddFlow(msg.dpid, priority, MatchEthDst(dst), actions);
      PacketOut(msg, actions);
    }

    /** The unknown-destination tail of `forward_unicast`. */
    method FloodUnknownDestination(msg: PacketInMsg)
      modifies this
      ensures Snapshot() == old(Snapshot())
      ensures sent == old(sent) + FloodUnknown(Snapshot(), msg)
    {
      var leafPorts := PortsOf(hostPorts, msg.dpid);
      var outActions := FloodList(leafPorts, msg.inPort);
      if msg.inPort in leafPorts {
        outActions := outActions + [Group(ECMP_GROUP_ID)];
      }
      assert outActions == DiscoveryActions(leafPorts, msg.inPort);
      if outActions != [] {
        PacketOut(msg, outActions);
      }
    }

    /** `forward_unicast` */
    method ForwardUnicast(msg: PacketInMsg, dst: Mac)
      modifies this
      ensures Snapshot() == old(Snapshot())
      ensures sent == old(sent) + UnicastCommands(Snapshot(), msg, dst)
    {
      ghost var t := Snapshot();
      var leafPorts := PortsOf(hostPorts, msg.dpid);
      if IsGroupAddress(dst) {
        var actions := FloodList(leafPorts, msg.inPort);
        Send(PacketOutFor(msg, actions));
        return;
      }
      if dst in hostLocations {
        UnicastKnown(t, msg, dst);
        var loc := hostLocations[dst];
        if loc.dpid == msg.dpid {
          InstallAndPacketOut(msg, 20, dst, [Output(loc.port)]);
          return;
        } else if msg.inPort in leafPorts {
          InstallAndPacketOut(msg, 15, dst, [Group(ECMP_GROUP_ID)]);
          return;
        } else {
          var outPort := PortTowards(Snapshot(), msg.dpid, loc.dpid);
          if outPort.Some? && outPort.value != 0 {
            InstallAndPacketOut(msg, 15, dst, [Output(outPort.value)]);
            return;
          }
        }
      }
      FloodUnknownDestination(msg);
    }

    /** `packet_in_handler` */
    method PacketInHandler(msg: PacketInMsg)
      modifies this
      ensures Snapshot() == PacketIn(old(Snapshot()), msg).tables
      ensures sent == old(sent) + PacketIn(old(Snapshot()), msg).sent
    {
      if msg.data.None? {
        return;
      }
      var eth := msg.data.value;
      macToDpid := macToDpid[eth.src := msg.dpid];
      if eth.dst in macToDpid {
        var srcDpid := macToDpid[eth.src];
        var dstDpid := macToDpid[eth.dst];
        if srcDpid != dstDpid {
          return;
        }
      }
      if eth.ethertype == ETH_TYPE_LLDP {
        return;
      }
      if msg.inPort in PortsOf(hostPorts, msg.dpid) {
        hostLocations := hostLocations[eth.src := Location(msg.dpid, msg.inPort)];
      }
      if eth.arp.Some? {
        HandleArp(msg, eth, eth.arp.value);
        return;
      }
      if eth.ipv4 {
        ForwardUnicast(msg, eth.dst);
        return;
      }
      ForwardUnicast(msg, eth.dst);
      Send(OpenFlow.PacketOut(msg.dpid, OFP_NO_BUFFER, msg.inPort, [Output(OFPP_FLOOD)], msg.data));
    }
  }
}
