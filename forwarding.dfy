/** What one packet-in does to the controller's dictionaries and which
    messages it sends, as functions of the dictionaries before it:
    `packet_in_handler` and the helpers it calls (`handle_arp`,
    `send_arp_reply`, `forward_unicast`, `get_port_towards`, `packetout`).
    The controller class (module SpineLeafController) is proved to behave
    as these functions say; the lemmas here state what that behaviour is. */
module Forwarding {
  import opened Common
  import opened OpenFlow
  import opened Topology

  /** `host_locations[mac] = (dpid, port)` */
  datatype Location = Location(dpid: Dpid, port: PortNo)

  /** The controller's dictionaries at one moment. */
  datatype Tables = Tables(
    datapaths: set<Dpid>,
    macToDpid: map<Mac, Dpid>,
    hostLocations: map<Mac, Location>,
    ipToMac: map<Ip, Mac>,
    uplinkPorts: PortSets,
    hostPorts: PortSets,
    switchNeighbors: Neighbors)

  /** `switch_neighbors.get(dpid, {})` */
  function NeighborsOf(t: Tables, dpid: Dpid): map<Dpid, PortNo>
  {
    if dpid in t.switchNeighbors then t.switchNeighbors[dpid] else map[]
  }

  /** `get_port_towards(src, dst)`: the port towards a direct neighbour,
      else the lowest-numbered uplink, else nothing. */
  function PortTowards(t: Tables, src: Dpid, dst: Dpid): (r: Option<PortNo>)
    ensures dst in NeighborsOf(t, src) ==> r == Some(NeighborsOf(t, src)[dst])
    ensures dst !in NeighborsOf(t, src) ==> (r == None <==> PortsOf(t.uplinkPorts, src) == {})
    ensures dst !in NeighborsOf(t, src) && r.Some? ==>
              r.value in PortsOf(t.uplinkPorts, src) &&
              forall q :: q in PortsOf(t.uplinkPorts, src) ==> r.value <= q
  {
    var neighbors := NeighborsOf(t, src);
    if dst in neighbors then Some(neighbors[dst])
    else
      var upl := SortedSeq(PortsOf(t.uplinkPorts, src));
      if upl == [] then None
      else
        assert forall q :: q in PortsOf(t.uplinkPorts, src) ==> upl[0] <= q by {
          forall q | q in PortsOf(t.uplinkPorts, src) ensures upl[0] <= q {
            var k :| 0 <= k < |upl| && upl[k] == q;
          }
        }
        Some(upl[0])
  }

  // ---------------------------------------------------------------------
  // Action lists

  /** `[OFPActionOutput(p) for p in host_ports if p != in_port]` */
  function FloodActions(hostPorts: set<PortNo>, inPort: PortNo): seq<Action>
  {
    Outputs(Without(SortedSeq(hostPorts), inPort))
  }

  /** The host ports except the ingress one, then group 100 when the
      packet came in on a host port (sent up into the fabric). */
  function DiscoveryActions(hostPorts: set<PortNo>, inPort: PortNo): seq<Action>
  {
    FloodActions(hostPorts, inPort) + (if inPort in hostPorts then [Group(ECMP_GROUP_ID)] else [])
  }

  /** The loop over a spine's neighbour map: one output per neighbour
      whose port is not the ingress port. */
  function NeighborOutputs(keys: seq<Dpid>, neighbors: map<Dpid, PortNo>, inPort: PortNo): seq<Action>
    requires forall j :: 0 <= j < |keys| ==> keys[j] in neighbors
  {
    if keys == [] then []
    else
      var k := keys[|keys| - 1];
      NeighborOutputs(keys[..|keys| - 1], neighbors, inPort)
        + (if neighbors[k] != inPort then [Output(neighbors[k])] else [])
  }

  /** One more neighbour of the flood. */
  lemma NeighborOutputsStep(keys: seq<Dpid>, i: nat, neighbors: map<Dpid, PortNo>, inPort: PortNo)
    requires i < |keys| && forall j :: 0 <= j < |keys| ==> keys[j] in neighbors
    ensures NeighborOutputs(keys[..i + 1], neighbors, inPort)
      == NeighborOutputs(keys[..i], neighbors, inPort)
         + (if neighbors[keys[i]] != inPort then [Output(neighbors[keys[i]])] else [])
  {
    assert keys[..i + 1][..i] == keys[..i];
  }

  /** The actions `handle_arp` floods an ARP packet with. */
  function ArpFloodActions(t: Tables, dpid: Dpid, inPort: PortNo): seq<Action>
  {
    var hostPorts := PortsOf(t.hostPorts, dpid);
    if hostPorts != {} then DiscoveryActions(hostPorts, inPort)
    else
      var neighbors := NeighborsOf(t, dpid);
      NeighborOutputs(SortedSeq(neighbors.Keys), neighbors, inPort)
  }

  // ---------------------------------------------------------------------
  // Commands

  /** `packetout(datapath, msg, actions)` */
  function PacketOutFor(msg: PacketInMsg, actions: seq<Action>): Command
  {
    PacketOut(msg.dpid, msg.bufferId, msg.inPort, actions, Payload(msg))
  }

  /** `add_flow` matching `eth_dst`, then `packetout` with the same actions. */
  function InstallAndSend(msg: PacketInMsg, priority: nat, dst: Mac, actions: seq<Action>): seq<Command>
  {
    [FlowMod(msg.dpid, 0, priority, MatchEthDst(dst), actions), PacketOutFor(msg, actions)]
  }

  /** `dst_mac == mac.BROADCAST or dst_mac.startswith('01:')` */
  predicate IsGroupAddress(mac: Mac)
  {
    mac == BROADCAST || (|mac| >= 3 && mac[..3] == "01:")
  }

  /** The unknown-destination tail of `forward_unicast`. */
  function FloodUnknown(t: Tables, msg: PacketInMsg): seq<Command>
  {
    var actions := DiscoveryActions(PortsOf(t.hostPorts, msg.dpid), msg.inPort);
    if actions == [] then [] else [PacketOutFor(msg, actions)]
  }

  /** What `forward_unicast` sends for destination `dst`. */
  function UnicastCommands(t: Tables, msg: PacketInMsg, dst: Mac): (r: seq<Command>)
    ensures |r| <= 2
    ensures forall k :: 0 <= k < |r| ==> r[k].dpid == msg.dpid && (r[k].FlowMod? || r[k].PacketOut?)
  {
    var hostPorts := PortsOf(t.hostPorts, msg.dpid);
    if IsGroupAddress(dst) then [PacketOutFor(msg, FloodActions(hostPorts, msg.inPort))]
    else if dst in t.hostLocations then
      var loc := t.hostLocations[dst];
      if loc.dpid == msg.dpid then InstallAndSend(msg, 20, dst, [Output(loc.port)])
      else if msg.inPort in hostPorts then InstallAndSend(msg, 15, dst, [Group(ECMP_GROUP_ID)])
      else
        match PortTowards(t, msg.dpid, loc.dpid)
        case Some(p) => if p != 0 then InstallAndSend(msg, 15, dst, [Output(p)]) else FloodUnknown(t, msg)
        case None => FloodUnknown(t, msg)
    else FloodUnknown(t, msg)
  }

  /** What `send_arp_reply` sends: an ARP reply built from the given
      addresses, out of `outPort`, injected by the controller. */
  function ArpReply(dpid: Dpid, outPort: PortNo, srcMac: Mac, dstMac: Mac, srcIp: Ip, dstIp: Ip): (r: Command)
    ensures r.PacketOut? && r.dpid == dpid && r.bufferId == OFP_NO_BUFFER && r.inPort == OFPP_CONTROLLER
    ensures r.actions == [Output(outPort)]
    ensures r.data.Some? && r.data.value.ethertype == ETH_TYPE_ARP && r.data.value.arp.Some?
    ensures var f := r.data.value; var a := f.arp.value;
            && a.opcode == ARP_REPLY
            && f.src == a.srcMac == srcMac && f.dst == a.dstMac == dstMac
            && a.srcIp == srcIp && a.dstIp == dstIp
  {
    PacketOut(dpid, OFP_NO_BUFFER, OFPP_CONTROLLER, [Output(outPort)],
              Some(Frame(dstMac, srcMac, ETH_TYPE_ARP, Some(ArpRecord(ARP_REPLY, srcMac, srcIp, dstMac, dstIp)), false)))
  }

  /** `host_locations[mac] = (dpid, in_port)`, done only when the ingress
      port is one of the switch's host ports. */
  function LearnAttachment(t: Tables, msg: PacketInMsg, mac: Mac): (r: Tables)
    ensures r.(hostLocations := t.hostLocations) == t
    ensures msg.inPort !in PortsOf(t.hostPorts, msg.dpid) ==> r == t
    ensures msg.inPort in PortsOf(t.hostPorts, msg.dpid) ==>
              && r.hostLocations.Keys == t.hostLocations.Keys + {mac}
              && r.hostLocations[mac] == Location(msg.dpid, msg.inPort)
              && forall m :: m in t.hostLocations && m != mac ==> r.hostLocations[m] == t.hostLocations[m]
  {
    if msg.inPort in PortsOf(t.hostPorts, msg.dpid)
    then t.(hostLocations := t.hostLocations[mac := Location(msg.dpid, msg.inPort)])
    else t
  }

  /** The learning at the top of `handle_arp`. */
  function ArpLearn(t: Tables, msg: PacketInMsg, eth: Frame, a: ArpRecord): (r: Tables)
    ensures r.(ipToMac := t.ipToMac, hostLocations := t.hostLocations) == t
    ensures a.srcIp != "" && eth.src != "" ==> r.ipToMac == t.ipToMac[a.srcIp := eth.src]
    ensures a.srcIp == "" || eth.src == "" ==> r == t
    ensures forall m :: m in r.hostLocations && m != eth.src ==>
              m in t.hostLocations && r.hostLocations[m] == t.hostLocations[m]
  {
    if a.srcIp != "" && eth.src != "" then
      LearnAttachment(t.(ipToMac := t.ipToMac[a.srcIp := eth.src]), msg, eth.src)
    else t
  }

  /** The target of an ARP request when the controller knows its MAC. */
  predicate ProxyAnswer(t: Tables, a: ArpRecord)
  {
    a.opcode == ARP_REQUEST && a.dstIp in t.ipToMac && t.ipToMac[a.dstIp] != ""
  }

  /** What `handle_arp` sends, given the dictionaries after its learning. */
  function ArpCommands(t: Tables, msg: PacketInMsg, eth: Frame, a: ArpRecord): (r: seq<Command>)
    ensures |r| <= 1
    ensures forall k :: 0 <= k < |r| ==> r[k].PacketOut? && r[k].dpid == msg.dpid
    ensures ProxyAnswer(t, a) ==> |r| == 1 && r[0].actions == [Output(msg.inPort)]
  {
    if ProxyAnswer(t, a) then
      [ArpReply(msg.dpid, msg.inPort, t.ipToMac[a.dstIp], eth.src, a.dstIp, a.srcIp)]
    else
      var actions := ArpFloodActions(t, msg.dpid, msg.inPort);
      if actions == [] then [] else [PacketOutFor(msg, actions)]
  }

  /** The dictionaries after a packet-in, and the messages it sent. */
  datatype Step = Step(tables: Tables, sent: seq<Command>)

  /** `mac_to_dpid` once the source of the frame has been learned. */
  function LearnSource(t: Tables, msg: PacketInMsg, eth: Frame): (r: Tables)
    ensures r.(macToDpid := t.macToDpid) == t
    ensures r.macToDpid.Keys == t.macToDpid.Keys + {eth.src}
    ensures r.macToDpid[eth.src] == msg.dpid
    ensures forall m :: m in t.macToDpid && m != eth.src ==> r.macToDpid[m] == t.macToDpid[m]
  {
    t.(macToDpid := t.macToDpid[eth.src := msg.dpid])
  }

  /** The early return of `packet_in_handler`: the destination was last
      seen on another switch. */
  predicate SeenElsewhere(t: Tables, msg: PacketInMsg, eth: Frame): (r: bool)
    ensures r <==> eth.dst != eth.src && eth.dst in t.macToDpid && t.macToDpid[eth.dst] != msg.dpid
  {
    var m := LearnSource(t, msg, eth).macToDpid;
    eth.dst in m && m[eth.dst] != msg.dpid
  }

  /** `packet_in_handler` */
  function PacketIn(t: Tables, msg: PacketInMsg): (r: Step)
    ensures && r.tables.datapaths == t.datapaths && r.tables.uplinkPorts == t.uplinkPorts
            && r.tables.hostPorts == t.hostPorts && r.tables.switchNeighbors == t.switchNeighbors
    ensures |r.sent| <= 3
    ensures forall k :: 0 <= k < |r.sent| ==> r.sent[k].dpid == msg.dpid && (r.sent[k].FlowMod? || r.sent[k].PacketOut?)
  {
    match msg.data
    case None => Step(t, [])
    case Some(eth) =>
      var t1 := LearnSource(t, msg, eth);
      if SeenElsewhere(t, msg, eth) then Step(t1, [])
      else if eth.ethertype == ETH_TYPE_LLDP then Step(t1, [])
      else
        var t2 := LearnAttachment(t1, msg, eth.src);
        match eth.arp
        case Some(a) =>
          var t3 := ArpLearn(t2, msg, eth, a);
          Step(t3, ArpCommands(t3, msg, eth, a))
        case None =>
          var cmds := UnicastCommands(t2, msg, eth.dst);
          if eth.ipv4 then Step(t2, cmds)
          else Step(t2, cmds + [PacketOut(msg.dpid, OFP_NO_BUFFER, msg.inPort, [Output(OFPP_FLOOD)], msg.data)])
  }

  // ---------------------------------------------------------------------
  // Properties of the action lists

  /** The output actions of `Outputs(ports)` name exactly the ports listed. */
  lemma OutputsPorts(ports: seq<PortNo>)
    ensures forall p :: p in OutputPorts(Outputs(ports)) <==> p in ports
  {
    var acts := Outputs(ports);
    forall p | p in ports ensures p in OutputPorts(acts) {
      var k :| 0 <= k < |ports| && ports[k] == p;
      assert acts[k].Output? && acts[k].port == p;
    }
  }

  /** The host flood outputs to every host port except the ingress one
      and to nothing else. */
  lemma FloodActionsPorts(hostPorts: set<PortNo>, inPort: PortNo)
    ensures forall k :: 0 <= k < |FloodActions(hostPorts, inPort)| ==> FloodActions(hostPorts, inPort)[k].Output?
    ensures OutputPorts(FloodActions(hostPorts, inPort)) == hostPorts - {inPort}
  {
    var sorted := SortedSeq(hostPorts);
    var ports := Without(sorted, inPort);
    OutputsPorts(ports);
    var acts := Outputs(ports);
    forall p ensures p in OutputPorts(acts) <==> p in hostPorts - {inPort} {
      assert p in ports <==> p in sorted && p != inPort;
    }
  }

  /** ... and to each of them once. */
  lemma FloodActionsOnce(hostPorts: set<PortNo>, inPort: PortNo)
    ensures |FloodActions(hostPorts, inPort)| == |hostPorts - {inPort}|
    ensures var acts := FloodActions(hostPorts, inPort);
            forall i, j :: 0 <= i < j < |acts| ==> acts[i] != acts[j]
  {
    SortedWithout(hostPorts, inPort);
    var ports := SortedSeq(hostPorts - {inPort});
    var acts := Outputs(ports);
    forall i, j | 0 <= i < j < |acts| ensures acts[i] != acts[j] {
      assert ports[i] < ports[j];
    }
  }

  /** The spine's ARP flood outputs to every neighbour port except the
      ingress one, and to nothing else. */
  lemma {:induction false} NeighborOutputsPorts(keys: seq<Dpid>, neighbors: map<Dpid, PortNo>, inPort: PortNo)
    requires forall k :: k in keys ==> k in neighbors
    ensures var acts := NeighborOutputs(keys, neighbors, inPort);
            && (forall k :: 0 <= k < |acts| ==> acts[k].Output? && acts[k].port != inPort)
            && OutputPorts(acts) == (set k | k in keys :: neighbors[k]) - {inPort}
  {
    if keys != [] {
      var n := |keys| - 1;
      NeighborOutputsPorts(keys[..n], neighbors, inPort);
      var prev := NeighborOutputs(keys[..n], neighbors, inPort);
      var acts := NeighborOutputs(keys, neighbors, inPort);
      assert forall k :: k in keys <==> k in keys[..n] || k == keys[n];
      if neighbors[keys[n]] != inPort {
        assert acts == prev + [Output(neighbors[keys[n]])];
        assert OutputPorts(acts) == OutputPorts(prev) + {neighbors[keys[n]]} by {
          forall p | p in OutputPorts(acts) ensures p in OutputPorts(prev) + {neighbors[keys[n]]} {
            var i :| 0 <= i < |acts| && acts[i].Output? && acts[i].port == p;
            if i < |prev| {
              assert prev[i] == acts[i];
            }
          }
          forall p | p in OutputPorts(prev) ensures p in OutputPorts(acts) {
            var i :| 0 <= i < |prev| && prev[i].Output? && prev[i].port == p;
            assert acts[i] == prev[i];
          }
          assert acts[|prev|] == Output(neighbors[keys[n]]);
        }
      } else {
        assert acts == prev;
      }
    }
  }

  // ---------------------------------------------------------------------
  // Properties of a packet-in

  /** Every decodable frame, LLDP included, records its source MAC as last
      seen on this switch; an undecodable one changes nothing and sends
      nothing. */
  lemma CoarseLearning(t: Tables, msg: PacketInMsg)
    ensures msg.data.None? ==> PacketIn(t, msg) == Step(t, [])
    ensures msg.data.Some? ==> PacketIn(t, msg).tables.macToDpid == t.macToDpid[msg.data.value.src := msg.dpid]
  {
    match msg.data
    case None =>
    case Some(eth) =>
      var t1 := LearnSource(t, msg, eth);
      if !SeenElsewhere(t, msg, eth) && eth.ethertype != ETH_TYPE_LLDP {
        var t2 := LearnAttachment(t1, msg, eth.src);
        assert t2.macToDpid == t1.macToDpid;
        if eth.arp.Some? {
          assert PacketIn(t, msg).tables == ArpLearn(t2, msg, eth, eth.arp.value);
        } else {
          assert PacketIn(t, msg).tables == t2;
        }
      }
  }

  /** Whether a packet-in records the source's attachment point: the frame
      is decoded, its destination was not last seen elsewhere, it is not
      LLDP, and it came in on a host port. */
  predicate LearnsLocation(t: Tables, msg: PacketInMsg)
  {
    msg.data.Some? && !SeenElsewhere(t, msg, msg.data.value) &&
    msg.data.value.ethertype != ETH_TYPE_LLDP && msg.inPort in PortsOf(t.hostPorts, msg.dpid)
  }

  /** The attachment map after a packet-in: the source is (re)placed at
      the ingress point when `LearnsLocation`, and nothing else changes.
      The second recording in `handle_arp` writes the same entry again. */
  lemma LocationsAfterPacketIn(t: Tables, msg: PacketInMsg)
    ensures PacketIn(t, msg).tables.hostLocations ==
      if LearnsLocation(t, msg)
      then t.hostLocations[msg.data.value.src := Location(msg.dpid, msg.inPort)]
      else t.hostLocations
  {
    match msg.data
    case None =>
    case Some(eth) =>
      var t1 := LearnSource(t, msg, eth);
      if !SeenElsewhere(t, msg, eth) && eth.ethertype != ETH_TYPE_LLDP {
        var t2 := LearnAttachment(t1, msg, eth.src);
        if eth.arp.Some? {
          ArpRelearns(t1, msg, eth, eth.arp.value);
          assert PacketIn(t, msg).tables == ArpLearn(t2, msg, eth, eth.arp.value);
        } else {
          assert PacketIn(t, msg).tables == t2;
        }
      }
  }

  /** The recording at the top of `handle_arp` repeats the one just made
      by `packet_in_handler`, so it changes no attachment point. */
  lemma ArpRelearns(t: Tables, msg: PacketInMsg, eth: Frame, a: ArpRecord)
    ensures var t2 := LearnAttachment(t, msg, eth.src);
      ArpLearn(t2, msg, eth, a).hostLocations == t2.hostLocations
  {
    var t2 := LearnAttachment(t, msg, eth.src);
    if a.srcIp != "" && eth.src != "" {
      var u := t2.(ipToMac := t2.ipToMac[a.srcIp := eth.src]);
      assert u.hostPorts == t.hostPorts;
    }
  }

  /** A host's attachment point is only ever recorded from a host port of
      the switch the frame arrived on, and only for the frame's source. */
  lemma FineLocationSoundness(t: Tables, msg: PacketInMsg, m: Mac)
    requires m in PacketIn(t, msg).tables.hostLocations
    ensures var loc := PacketIn(t, msg).tables.hostLocations[m];
            (m in t.hostLocations && loc == t.hostLocations[m]) ||
            (msg.data.Some? && m == msg.data.value.src && loc == Location(msg.dpid, msg.inPort) &&
             msg.inPort in PortsOf(t.hostPorts, msg.dpid))
  {
    LocationsAfterPacketIn(t, msg);
  }

  /** A frame arriving on a port that is not a host port of its switch
      (an uplink, say) leaves every recorded attachment point alone. */
  lemma NoLearningFromFabric(t: Tables, msg: PacketInMsg)
    requires msg.inPort !in PortsOf(t.hostPorts, msg.dpid)
    ensures PacketIn(t, msg).tables.hostLocations == t.hostLocations
  {
    LocationsAfterPacketIn(t, msg);
  }

  /** `ip_to_mac` changes exactly when an ARP frame gets past the early
      returns with a non-empty sender address and source MAC: the sender
      address is then bound to the source MAC. */
  lemma IpLearning(t: Tables, msg: PacketInMsg)
    ensures PacketIn(t, msg).tables.ipToMac ==
              if && msg.data.Some?
                 && !SeenElsewhere(t, msg, msg.data.value)
                 && msg.data.value.ethertype != ETH_TYPE_LLDP
                 && msg.data.value.arp.Some?
                 && msg.data.value.arp.value.srcIp != ""
                 && msg.data.value.src != ""
              then t.ipToMac[msg.data.value.arp.value.srcIp := msg.data.value.src]
              else t.ipToMac
  {
    match msg.data
    case None =>
    case Some(eth) =>
      var t1 := LearnSource(t, msg, eth);
      if !SeenElsewhere(t, msg, eth) && eth.ethertype != ETH_TYPE_LLDP {
        var t2 := LearnAttachment(t1, msg, eth.src);
        assert t2.ipToMac == t.ipToMac;
        if eth.arp.Some? {
          var t3 := ArpLearn(t2, msg, eth, eth.arp.value);
          assert PacketIn(t, msg).tables == t3;
        } else {
          assert PacketIn(t, msg).tables == t2;
        }
      }
  }

  /** Packet-in dispatch, first two steps: a destination last seen on
      another switch ends the handler with nothing sent and no attachment
      point learned; so does an LLDP frame. */
  lemma EarlyReturns(t: Tables, msg: PacketInMsg)
    requires msg.data.Some?
    requires SeenElsewhere(t, msg, msg.data.value) || msg.data.value.ethertype == ETH_TYPE_LLDP
    ensures PacketIn(t, msg).sent == []
    ensures PacketIn(t, msg).tables == LearnSource(t, msg, msg.data.value)
  {
  }

  /** Packet-in dispatch, remaining steps: ARP goes only to `handle_arp`,
      IPv4 only to `forward_unicast`, and anything else to
      `forward_unicast` followed by one packet-out to OFPP_FLOOD. */
  lemma Dispatch(t: Tables, msg: PacketInMsg)
    requires msg.data.Some?
    requires !SeenElsewhere(t, msg, msg.data.value) && msg.data.value.ethertype != ETH_TYPE_LLDP
    ensures var eth := msg.data.value;
            var step := PacketIn(t, msg);
            && (eth.arp.Some? ==> step.sent == ArpCommands(step.tables, msg, eth, eth.arp.value)
                                  && |step.sent| <= 1
                                  && forall k :: 0 <= k < |step.sent| ==> step.sent[k].PacketOut?)
            && (eth.arp.None? && eth.ipv4 ==> step.sent == UnicastCommands(step.tables, msg, eth.dst))
            && (eth.arp.None? && !eth.ipv4 ==>
                  step.sent == UnicastCommands(step.tables, msg, eth.dst)
                               + [PacketOut(msg.dpid, OFP_NO_BUFFER, msg.inPort, [Output(OFPP_FLOOD)], msg.data)])
  {
  }

  /** Proxy ARP: a request whose target IP is known is answered by a single
      packet-out on the ingress port carrying a reply from the target's MAC
      to the requester, with the two IPs swapped, and nothing is flooded. */
  lemma ArpProxy(t: Tables, msg: PacketInMsg, eth: Frame, a: ArpRecord)
    requires ProxyAnswer(t, a)
    ensures var cmds := ArpCommands(t, msg, eth, a);
            && |cmds| == 1
            && cmds[0].PacketOut? && cmds[0].dpid == msg.dpid
            && cmds[0].actions == [Output(msg.inPort)]
            && cmds[0].inPort == OFPP_CONTROLLER
            && cmds[0].data.Some?
            && var reply := cmds[0].data.value;
               && reply.src == t.ipToMac[a.dstIp] && reply.dst == eth.src
               && reply.ethertype == ETH_TYPE_ARP
               && reply.arp == Some(ArpRecord(ARP_REPLY, t.ipToMac[a.dstIp], a.dstIp, eth.src, a.srcIp))
  {
  }

  /** The discovery actions: the host ports except the ingress one, and
      group 100 exactly when the ingress port is a host port. */
  lemma DiscoveryActionsPorts(hostPorts: set<PortNo>, inPort: PortNo)
    ensures OutputPorts(DiscoveryActions(hostPorts, inPort)) == hostPorts - {inPort}
    ensures Group(ECMP_GROUP_ID) in DiscoveryActions(hostPorts, inPort) <==> inPort in hostPorts
    ensures DiscoveryActions(hostPorts, inPort) == [] <==> hostPorts - {inPort} == {} && inPort !in hostPorts
  {
    FloodActionsPorts(hostPorts, inPort);
    FloodActionsOnce(hostPorts, inPort);
    var flood := FloodActions(hostPorts, inPort);
    if inPort in hostPorts {
      OutputPortsWithGroup(flood, ECMP_GROUP_ID);
    } else {
      assert DiscoveryActions(hostPorts, inPort) == flood;
    }
    assert Group(ECMP_GROUP_ID) !in flood;
  }

  /** A group action adds no output port. */
  lemma OutputPortsWithGroup(acts: seq<Action>, g: nat)
    ensures OutputPorts(acts + [Group(g)]) == OutputPorts(acts)
  {
    var all := acts + [Group(g)];
    forall p | p in OutputPorts(all) ensures p in OutputPorts(acts) {
      var i :| 0 <= i < |all| && all[i].Output? && all[i].port == p;
      assert i < |acts| && acts[i] == all[i];
    }
    forall p | p in OutputPorts(acts) ensures p in OutputPorts(all) {
      var i :| 0 <= i < |acts| && acts[i].Output? && acts[i].port == p;
      assert all[i] == acts[i];
    }
  }

  /** ARP flooding without a known answer sends the flood actions in one
      packet-out, or nothing when there is no action. */
  lemma ArpFlood(t: Tables, msg: PacketInMsg, eth: Frame, a: ArpRecord)
    requires !ProxyAnswer(t, a)
    ensures var cmds := ArpCommands(t, msg, eth, a);
            var acts := ArpFloodActions(t, msg.dpid, msg.inPort);
            && (cmds == [] <==> acts == [])
            && (cmds != [] ==> cmds == [PacketOutFor(msg, acts)])
  {
  }

  /** On a switch with host ports (a leaf) the ARP flood goes to the host
      ports except the ingress one, plus group 100 exactly when the ingress
      port is a host port. */
  lemma ArpFloodLeaf(t: Tables, dpid: Dpid, inPort: PortNo)
    requires PortsOf(t.hostPorts, dpid) != {}
    ensures var hp := PortsOf(t.hostPorts, dpid);
            var acts := ArpFloodActions(t, dpid, inPort);
            && OutputPorts(acts) == hp - {inPort}
            && (Group(ECMP_GROUP_ID) in acts <==> inPort in hp)
  {
    DiscoveryActionsPorts(PortsOf(t.hostPorts, dpid), inPort);
  }

  /** On a switch without host ports (a spine) the ARP flood goes to every
      neighbour's port except the ingress one, and only to ports. */
  lemma ArpFloodSpine(t: Tables, dpid: Dpid, inPort: PortNo)
    requires PortsOf(t.hostPorts, dpid) == {}
    ensures var nb := NeighborsOf(t, dpid);
            var acts := ArpFloodActions(t, dpid, inPort);
            && OutputPorts(acts) == (set k | k in nb :: nb[k]) - {inPort}
            && (forall k :: 0 <= k < |acts| ==> acts[k].Output?)
  {
    var nb := NeighborsOf(t, dpid);
    NeighborOutputsPorts(SortedSeq(nb.Keys), nb, inPort);
    assert (set k | k in SortedSeq(nb.Keys) :: nb[k]) == (set k | k in nb :: nb[k]);
  }

  /** A group address (broadcast, or a MAC starting with `01:`) goes out of
      the host ports except the ingress one, in one packet-out, and never
      makes the controller install a rule. */
  lemma UnicastGroupAddress(t: Tables, msg: PacketInMsg, dst: Mac)
    requires IsGroupAddress(dst)
    ensures var cmds := UnicastCommands(t, msg, dst);
            && |cmds| == 1 && cmds[0].PacketOut?
            && OutputPorts(cmds[0].actions) == PortsOf(t.hostPorts, msg.dpid) - {msg.inPort}
            && forall k :: 0 <= k < |cmds[0].actions| ==> cmds[0].actions[k].Output?
  {
    FloodActionsPorts(PortsOf(t.hostPorts, msg.dpid), msg.inPort);
  }

  /** The forwarding decision for a known, individual destination: a rule
      matching `eth_dst` with priority 20 towards the recorded port when the
      host is on this switch; with priority 15 towards group 100 when it is
      elsewhere and the packet came from a host port; with priority 15
      towards `get_port_towards` otherwise.  Each rule is followed by a
      packet-out with the same actions. */
  lemma UnicastKnown(t: Tables, msg: PacketInMsg, dst: Mac)
    requires !IsGroupAddress(dst) && dst in t.hostLocations
    ensures var loc := t.hostLocations[dst];
            var cmds := UnicastCommands(t, msg, dst);
            && (loc.dpid == msg.dpid ==> cmds == InstallAndSend(msg, 20, dst, [Output(loc.port)]))
            && (loc.dpid != msg.dpid && msg.inPort in PortsOf(t.hostPorts, msg.dpid) ==>
                  cmds == InstallAndSend(msg, 15, dst, [Group(ECMP_GROUP_ID)]))
            && (loc.dpid != msg.dpid && msg.inPort !in PortsOf(t.hostPorts, msg.dpid) ==>
                  var towards := PortTowards(t, msg.dpid, loc.dpid);
                  if towards.Some? && towards.value != 0
                  then cmds == InstallAndSend(msg, 15, dst, [Output(towards.value)])
                  else cmds == FloodUnknown(t, msg))
  {
  }

  /** Whatever it decides, `forward_unicast` installs only `eth_dst` rules
      of priority 15 or 20, never touches groups, and follows every rule
      with a packet-out carrying the rule's actions. */
  lemma UnicastShape(t: Tables, msg: PacketInMsg, dst: Mac)
    ensures var cmds := UnicastCommands(t, msg, dst);
            && |cmds| <= 2
            && (forall k :: 0 <= k < |cmds| ==> cmds[k].FlowMod? || cmds[k].PacketOut?)
            && (forall k :: 0 <= k < |cmds| && cmds[k].FlowMod? ==>
                  && cmds[k].matchFields == MatchEthDst(dst)
                  && cmds[k].priority in {15, 20}
                  && k + 1 < |cmds| && cmds[k + 1] == PacketOutFor(msg, cmds[k].actions))
            && (IsGroupAddress(dst) ==> forall k :: 0 <= k < |cmds| ==> !cmds[k].FlowMod?)
  {
    var cmds := UnicastCommands(t, msg, dst);
    if IsGroupAddress(dst) {
      assert |cmds| == 1 && cmds[0].PacketOut?;
    } else if dst in t.hostLocations {
      var loc := t.hostLocations[dst];
      if loc.dpid == msg.dpid {
        InstallAndSendShape(msg, 20, dst, [Output(loc.port)]);
      } else if msg.inPort in PortsOf(t.hostPorts, msg.dpid) {
        InstallAndSendShape(msg, 15, dst, [Group(ECMP_GROUP_ID)]);
      } else {
        match PortTowards(t, msg.dpid, loc.dpid)
        case Some(p) =>
          if p != 0 {
            InstallAndSendShape(msg, 15, dst, [Output(p)]);
          } else {
            FloodUnknownShape(t, msg);
          }
        case None => FloodUnknownShape(t, msg);
      }
    } else {
      FloodUnknownShape(t, msg);
    }
  }

  /** A rule followed by the packet-out carrying its actions. */
  lemma InstallAndSendShape(msg: PacketInMsg, priority: nat, dst: Mac, actions: seq<Action>)
    requires priority in {15, 20}
    ensures var cmds := InstallAndSend(msg, priority, dst, actions);
            && |cmds| == 2 && cmds[0].FlowMod? && cmds[1].PacketOut?
            && cmds[0].matchFields == MatchEthDst(dst) && cmds[0].priority in {15, 20}
            && cmds[1] == PacketOutFor(msg, cmds[0].actions)
  {
  }

  /** The unknown-destination tail sends at most one packet-out. */
  lemma FloodUnknownShape(t: Tables, msg: PacketInMsg)
    ensures var cmds := FloodUnknown(t, msg);
            |cmds| <= 1 && forall k :: 0 <= k < |cmds| ==> cmds[k].PacketOut?
  {
  }

  /** Unknown destination: a packet-out to the host ports except the
      ingress one, plus group 100 exactly when the ingress port is a host
      port, and no rule; nothing at all when that leaves no action. */
  lemma UnicastUnknown(t: Tables, msg: PacketInMsg, dst: Mac)
    requires !IsGroupAddress(dst) && dst !in t.hostLocations
    ensures var cmds := UnicastCommands(t, msg, dst);
            var hp := PortsOf(t.hostPorts, msg.dpid);
            && |cmds| <= 1
            && (cmds == [] <==> hp - {msg.inPort} == {} && msg.inPort !in hp)
            && (cmds != [] ==>
                  && cmds[0].PacketOut?
                  && OutputPorts(cmds[0].actions) == hp - {msg.inPort}
                  && (Group(ECMP_GROUP_ID) in cmds[0].actions <==> msg.inPort in hp))
  {
    DiscoveryActionsPorts(PortsOf(t.hostPorts, msg.dpid), msg.inPort);
  }
}
