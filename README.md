# Spine-leaf SDN controller — a Dafny model

This project models the core of a small software-defined data-centre fabric.

- **The controller** is a Ryu OpenFlow 1.3 application. It learns the fabric's topology and classifies every switch port as an uplink (towards another switch) or a host port. On every leaf it installs an ECMP "select" group over the leaf's uplinks. It answers ARP requests for addresses it already knows and floods the rest. It forwards unicast traffic by installing a destination rule and then sending the packet out.
- **The metrics exporter** derives counts from the controller's tables:
  - switches per type;
  - ports per type;
  - spine-to-leaf and leaf-to-spine links;
  - hosts per leaf;
  - flows per table.
  It also turns port-statistics replies into per-port rows.
- **The Mininet topology builder** creates `num_spines` spines and `num_leaves` leaves, with `hosts_per_leaf` hosts under each leaf. It links every leaf to every spine.
- **The traffic script** enumerates the nine default hosts and the unordered host pairs, optionally keeping only pairs on different leaves.

Modules, one per concern:

- `Common`: ascending listings of sets, which stand in for Python's set and dictionary iteration order, and counting maps.
- `OpenFlow`: ports, actions, matches and the commands the controller sends.
- `Topology`: the link loop, host-port classification and the ECMP group commands of `rebuild_topology`, as functions.
- `Forwarding`: the controller's tables as a value `Tables`, with `PacketIn` as the specification of `packet_in_handler`, `handle_arp`, `forward_unicast` and `get_port_towards`.
- `SpineLeafController`: the controller as a `class Controller`.
  - Its fields are the controller's dictionaries: `datapaths`, `mac_to_dpid`, `host_locations`, `ip_to_mac`, `uplink_ports`, `host_ports` and `switch_neighbors`.
  - A field `sent` records every OpenFlow message it sends, in order.
  - Every handler is a method proved against the functions of `Topology` and `Forwarding`.
- `Metrics`: the exporter's counting loops, as methods proved against set-cardinality specifications.
- `Scenarios`: a concrete three-switch fabric with one spine and two leaves, and the forwarding decisions on it.
- `Formatting`: decimal and hexadecimal rendering, with round-trip proofs.
- `SpineLeafTopo`: `SpineLeafTopo.build` as a method that records the `addSwitch`, `addHost` and `addLink` calls.
- `TrafficPairs`: `get_all_hosts` and `get_host_pairs`.

Behaviours of the code that the model reproduces:

- An IPv4 frame goes to `forward_unicast` and the handler returns at once. Only non-IPv4, non-ARP frames get the extra `OFPP_FLOOD` packet-out afterwards (`spine_leaf_controller.py:254-266`).
- Once both MACs of a frame are known on different switches, the frame is dropped. `Scenarios.KnownRemoteDestinationDropped` shows this.
- No switch-disconnect handler exists.
- In `forward_unicast`, `if out_port:` treats port 0 as no port and falls through to flooding.
- The "total traffic" branch of `handle_port_stats_reply` can never run. It is only reached for ports below `0xffffff00`, but it needs a port above `OFPP_MAX` (`0xffffff00`). `Metrics.HandlePortStatsReply` proves the totals stay zero.

## Model

| member | source | states |
|---|---|---|
| Common.SortedSeq | ryu_controller/spine_leaf_controller.py:173-175 | the `sorted(...)` listing of a set of ports: strictly increasing, and holding exactly the set's elements |
| Common.SortedUnique | ryu_controller/spine_leaf_controller.py:173-175 | any two strictly increasing listings of the same elements are equal, so the sorted uplink order is determined by the set alone |
| Common.Without | ryu_controller/spine_leaf_controller.py:295-297 | removing the ingress port from a listing keeps exactly the other ports, and keeps the listing sorted |
| Common.SortedWithout | ryu_controller/spine_leaf_controller.py:295-297 | removing the ingress port from the sorted listing gives the sorted listing of the set without that port |
| Common.Inc | ryu_controller/metrics_exporter.py:531 | `d[k] = d.get(k, 0) + 1`: adds key k with count one more than before; every other key and count is unchanged |
| Common.SumValuesInc | ryu_controller/metrics_exporter.py:531 | each increment raises the sum of all counts by exactly one |
| OpenFlow.Outputs | ryu_controller/spine_leaf_controller.py:179-182 | one output action per listed port, in the same order |
| Topology.LinkNeighbors | ryu_controller/spine_leaf_controller.py:127-136 | the neighbour map built from the links has exactly one entry per discovered switch |
| Topology.LinkLoopStep | ryu_controller/spine_leaf_controller.py:130-136 | one iteration of the link loop records the link's two ends in both the neighbour map and the uplink sets |
| Topology.LinkUplinks | ryu_controller/spine_leaf_controller.py:128-136 | the uplink map has exactly one entry per discovered switch |
| Topology.UplinksAreLinkEnds | ryu_controller/spine_leaf_controller.py:130-136 | a port is an uplink of a switch iff some discovered link ends at that switch and port |
| Topology.NeighborsAreLinks | ryu_controller/spine_leaf_controller.py:130-136 | b is a neighbour of a iff some discovered link joins a and b, in either direction |
| Topology.NeighborPortIsUplink | ryu_controller/spine_leaf_controller.py:130-136 | the port recorded towards a neighbour is always one of the switch's uplinks |
| Topology.NeighborsSymmetric | ryu_controller/spine_leaf_controller.py:130-136 | the neighbour relation is symmetric: if b is a neighbour of a, then a is a neighbour of b |
| Topology.HostPortSet | ryu_controller/spine_leaf_controller.py:142-151 | a port is a host port iff the switch lists it, it is not `OFPP_LOCAL`, and it is not an uplink |
| Topology.HostPortsAfter | ryu_controller/spine_leaf_controller.py:142-151 | after the host-port loop, host_ports has an entry for every earlier key and every discovered switch |
| Topology.HostPortsStale | ryu_controller/spine_leaf_controller.py:142-151 | entries of switches that are no longer discovered are left as they were |
| Topology.HostPortsListed | ryu_controller/spine_leaf_controller.py:142-151 | each discovered switch's entry is the host-port set computed from its own port list and uplinks |
| Topology.Classification | ryu_controller/spine_leaf_controller.py:142-151 | host and uplink ports are disjoint, `OFPP_LOCAL` is never a host port, and every listed port other than `OFPP_LOCAL` is one or the other |
| Topology.HostPortsIdempotent | ryu_controller/spine_leaf_controller.py:142-151 | running the classification twice gives the same host_ports as running it once |
| Topology.HostPortsOverwrite | ryu_controller/spine_leaf_controller.py:142-151 | the new host_ports is the old map overridden by the fresh classification |
| Topology.Buckets | ryu_controller/spine_leaf_controller.py:179-182 | one bucket per uplink, in order, each holding a single output to that uplink |
| Topology.EcmpInstallShape | ryu_controller/spine_leaf_controller.py:166-196 | nothing is sent iff the datapath is unknown or the switch has no uplinks. Otherwise exactly a group delete, then a select-group add for group 100 with one single-output bucket per uplink, in ascending port order |
| Topology.EcmpInstall | ryu_controller/spine_leaf_controller.py:166-196 | installing the ECMP group on one switch sends nothing, or exactly a delete of group 100 followed by an add of group 100, both on that switch |
| Topology.EcmpBucketsDeterministic | ryu_controller/spine_leaf_controller.py:173-182 | the buckets depend only on the uplink set: any sorted listing of it gives the same buckets |
| Topology.EcmpPassAdds | ryu_controller/spine_leaf_controller.py:154-156 | the ECMP pass over the sorted switch ids adds a group exactly once on each leaf that has host ports, a datapath and uplinks, and never on any other switch |
| Topology.EcmpPassBuckets | ryu_controller/spine_leaf_controller.py:154-156 | every group add of the pass is on such a leaf and carries the buckets of its sorted uplinks |
| Topology.EcmpOncePerLeaf | ryu_controller/spine_leaf_controller.py:154-156 | over the whole host_ports map, each leaf gets exactly one group add |
| Topology.EcmpPassGroups | ryu_controller/spine_leaf_controller.py:154-156 | the pass over a list of switches sends only group commands of group 100, and only to listed switches that are eligible leaves |
| Topology.EcmpCommands | ryu_controller/spine_leaf_controller.py:154-156 | the ECMP loop over host_ports sends only group commands of group 100, and only to switches that have an entry in host_ports and are eligible leaves (non-empty host ports, a datapath and uplinks) |
| Forwarding.PortTowards | ryu_controller/spine_leaf_controller.py:390-397 | a direct neighbour gets its recorded port. Otherwise the result is the lowest uplink, or none iff the switch has no uplinks |
| Forwarding.OutputsPorts | ryu_controller/spine_leaf_controller.py:295-297 | the output actions name exactly the listed ports |
| Forwarding.FloodActionsPorts | ryu_controller/spine_leaf_controller.py:295-297 | the host flood outputs to exactly the host ports other than the ingress port, and holds nothing but outputs |
| Forwarding.FloodActionsOnce | ryu_controller/spine_leaf_controller.py:295-297 | each such host port gets exactly one output action, with no repeats |
| Forwarding.NeighborOutputsPorts | ryu_controller/spine_leaf_controller.py:301-306 | the spine flood outputs to exactly the neighbour ports other than the ingress port |
| Forwarding.CoarseLearning | ryu_controller/spine_leaf_controller.py:213-221 | a frame without Ethernet changes nothing and sends nothing. Any other frame records its source MAC on the receiving switch |
| Forwarding.LocationsAfterPacketIn | ryu_controller/spine_leaf_controller.py:221-242 | host_locations changes only by recording the source at (switch, ingress port), and only when the frame gets past the early returns |
| Forwarding.FineLocationSoundness | ryu_controller/spine_leaf_controller.py:241-242 | every learned location is either unchanged or the source's ingress on a host port of the receiving switch |
| Forwarding.NoLearningFromFabric | ryu_controller/spine_leaf_controller.py:241-242 | a packet arriving on a non-host port never changes host_locations |
| Forwarding.IpLearning | ryu_controller/spine_leaf_controller.py:245-277 | ip_to_mac changes exactly when an ARP frame gets past the early returns with a non-empty sender IP and source MAC; it then binds that IP to that MAC, and is otherwise unchanged |
| Forwarding.EarlyReturns | ryu_controller/spine_leaf_controller.py:223-233 | a frame whose endpoints are known on different switches, and an LLDP frame, send nothing and only learn the source |
| Forwarding.Dispatch | ryu_controller/spine_leaf_controller.py:244-266 | ARP frames go to the ARP handler, which sends at most one packet-out. IPv4 goes to unicast forwarding only. Anything else goes to unicast forwarding followed by an `OFPP_FLOOD` packet-out |
| Forwarding.ArpProxy | ryu_controller/spine_leaf_controller.py:283-288 | a request for a known IP yields exactly one ARP reply out of the ingress port, from the known MAC to the requester, with the IPs swapped |
| Forwarding.DiscoveryActionsPorts | ryu_controller/spine_leaf_controller.py:293-300 | the leaf flood outputs to the host ports other than the ingress port. It adds the ECMP group iff the ingress is a host port, and is empty exactly when neither applies |
| Forwarding.ArpFlood | ryu_controller/spine_leaf_controller.py:290-312 | an ARP frame that is not proxied yields one packet-out with the flood actions, or nothing when those are empty |
| Forwarding.ArpFloodLeaf | ryu_controller/spine_leaf_controller.py:293-300 | on a switch with host ports, the ARP flood covers the other host ports, plus the ECMP group iff it came in on a host port |
| Forwarding.ArpFloodSpine | ryu_controller/spine_leaf_controller.py:301-306 | on a switch without host ports, the ARP flood outputs to every neighbour port except the ingress port |
| Forwarding.UnicastGroupAddress | ryu_controller/spine_leaf_controller.py:339-346 | a broadcast or multicast destination gets a single packet-out to the other host ports and installs no rule |
| Forwarding.UnicastKnown | ryu_controller/spine_leaf_controller.py:349-377 | a known destination behaves as follows: on the same switch, a priority-20 rule to its port; from a host port, a priority-15 rule to the ECMP group; otherwise a priority-15 rule towards its switch, or the unknown-destination flood when no non-zero port is found. Each rule is followed by the packet-out |
| Forwarding.UnicastShape | ryu_controller/spine_leaf_controller.py:333-388 | unicast forwarding sends at most two messages. Every rule matches the destination MAC at priority 15 or 20 and is followed by a packet-out with the same actions. Group addresses install no rule |
| Forwarding.UnicastUnknown | ryu_controller/spine_leaf_controller.py:380-388 | an unknown destination gets at most one packet-out: to the other host ports, plus the ECMP group iff the ingress is a host port |
| Forwarding.SeenElsewhere | ryu_controller/spine_leaf_controller.py:223-229 | the cross-leaf early return is taken iff the destination differs from the source and is known on a switch other than the receiving one |
| Forwarding.LearnSource | ryu_controller/spine_leaf_controller.py:221 | only mac_to_dpid changes: the source MAC is added or rebound to the receiving switch, and every other entry is kept |
| Forwarding.LearnAttachment | ryu_controller/spine_leaf_controller.py:240-242 | only host_locations changes, and only on a host port of the receiving switch, where the source MAC is bound to (switch, ingress port) and every other entry is kept |
| Forwarding.ArpLearn | ryu_controller/spine_leaf_controller.py:275-280 | only ip_to_mac and host_locations change. With a non-empty sender IP and source MAC, the IP is bound to the MAC; otherwise nothing changes. No location other than the source's changes |
| Forwarding.ArpReply | ryu_controller/spine_leaf_controller.py:314-331 | an unbuffered packet-out from the controller port with a single output to the given port, carrying an ARP reply frame whose Ethernet and ARP addresses are the given ones |
| Forwarding.ArpCommands | ryu_controller/spine_leaf_controller.py:282-312 | the ARP handler sends at most one packet-out on the receiving switch; a proxied request sends exactly one, out of the ingress port |
| Forwarding.UnicastCommands | ryu_controller/spine_leaf_controller.py:333-388 | unicast forwarding sends at most two messages, all flow-mods or packet-outs on the receiving switch |
| Forwarding.PacketIn | ryu_controller/spine_leaf_controller.py:205-268 | a packet-in never changes datapaths or the topology tables, and sends at most three messages, all flow-mods or packet-outs on the receiving switch |
| SpineLeafController.FloodList | ryu_controller/spine_leaf_controller.py:295-297 | the loop builds the host flood actions of the specification |
| SpineLeafController.NeighborFloodList | ryu_controller/spine_leaf_controller.py:301-306 | the loop over the neighbours builds the spine flood actions of the specification |
| SpineLeafController.BucketList | ryu_controller/spine_leaf_controller.py:179-182 | the bucket loop builds one single-output bucket per uplink, in order |
| SpineLeafController.HostPortScan | ryu_controller/spine_leaf_controller.py:144-150 | the port loop collects exactly the host ports of one switch |
| SpineLeafController.LinkLoop | ryu_controller/spine_leaf_controller.py:127-136 | succeeds iff every link endpoint is a discovered switch (the source raises KeyError otherwise), and then yields the specified neighbour and uplink maps |
| SpineLeafController.ConnectRules | ryu_controller/spine_leaf_controller.py:52-59 | the table-miss rule (priority 0, match all) and the ARP rule (priority 5, `eth_type=0x0806`), both in table 0 with the single action "output to the controller port with max length `OFPCML_NO_BUFFER` (0xffff)", so whole packets reach the controller |
| SpineLeafController.Rebuilt | ryu_controller/spine_leaf_controller.py:121-164 | a rebuild leaves datapaths, mac_to_dpid, host_locations and ip_to_mac unchanged, and classifies every discovered switch |
| SpineLeafController.RebuildIdempotent | ryu_controller/spine_leaf_controller.py:121-164 | rebuilding twice from the same discovery gives the same tables and the same commands as rebuilding once |
| SpineLeafController.RebuildGroupsConsistent | ryu_controller/spine_leaf_controller.py:121-164 | a rebuild adds exactly one ECMP group on every eligible leaf and none elsewhere, each with the buckets of that leaf's sorted uplinks |
| SpineLeafController.RecomputeInstallsTwice | ryu_controller/spine_leaf_controller.py:198-202 | recomputing one leaf's groups installs its group twice: once in the rebuild and once more explicitly |
| SpineLeafController.StaleEntryEmitsNothing | ryu_controller/spine_leaf_controller.py:139-175 | a host_ports entry of a switch that is no longer discovered survives the rebuild unchanged, but the switch has no uplink entry, so the rebuild sends it no group commands |
| SpineLeafController.OutputsExcept | ryu_controller/spine_leaf_controller.py:295-297 | the loop builds one output action per listed port other than the ingress port, in order |
| SpineLeafController.NeighborOutputsOver | ryu_controller/spine_leaf_controller.py:303-306 | the loop over the neighbour entries builds one output per neighbour port other than the ingress port, as the spine flood specification says |
| SpineLeafController.Controller.constructor | ryu_controller/spine_leaf_controller.py:19-33 | all tables start empty and nothing has been sent |
| SpineLeafController.Controller.AddFlow | ryu_controller/spine_leaf_controller.py:65-79 | sends one table-0 flow-mod and changes no table |
| SpineLeafController.Controller.SwitchFeaturesHandler | ryu_controller/spine_leaf_controller.py:47-63 | sends exactly the two connect rules (table-miss and ARP, each outputting to the controller with `OFPCML_NO_BUFFER`) and records the datapath; nothing else changes |
| SpineLeafController.Controller.InstallEcmpGroupOnLeaf | ryu_controller/spine_leaf_controller.py:166-196 | sends exactly the group commands of the specification and changes no table |
| SpineLeafController.Controller.RebuildTopology | ryu_controller/spine_leaf_controller.py:121-164 | on a link to an unknown switch, nothing changes. Otherwise the tables become the rebuilt tables and exactly the ECMP commands are sent |
| SpineLeafController.Controller.ClassifyHostPorts | ryu_controller/spine_leaf_controller.py:142-151 | only host_ports changes, to the classification of the discovered switches |
| SpineLeafController.Controller.InstallEcmpGroups | ryu_controller/spine_leaf_controller.py:154-156 | sends the ECMP commands for every switch with host ports and changes no table |
| SpineLeafController.Controller.RecomputeGroupsForSwitch | ryu_controller/spine_leaf_controller.py:198-202 | a rebuild followed by one more group install on the given switch |
| SpineLeafController.Controller.PortStatusHandler | ryu_controller/spine_leaf_controller.py:87-104 | a port event recomputes the groups of the reporting switch (the intended behaviour; see "Left out") |
| SpineLeafController.Controller.PacketOut | ryu_controller/spine_leaf_controller.py:399-405 | sends one packet-out carrying the buffer id, ingress port and data of the packet-in |
| SpineLeafController.Controller.SendArpReply | ryu_controller/spine_leaf_controller.py:314-331 | sends one ARP reply out of the given port and changes no table |
| SpineLeafController.Controller.HandleArp | ryu_controller/spine_leaf_controller.py:270-312 | learns from the ARP sender and then sends exactly the proxy reply or flood of the specification |
| SpineLeafController.Controller.ArpFloodList | ryu_controller/spine_leaf_controller.py:290-306 | builds the leaf or spine flood actions of the specification |
| SpineLeafController.Controller.ForwardUnicast | ryu_controller/spine_leaf_controller.py:333-388 | sends exactly the unicast commands of the specification and changes no table |
| SpineLeafController.Controller.PacketInHandler | ryu_controller/spine_leaf_controller.py:205-268 | the new tables and the messages sent are exactly those of the packet-in specification |
| Metrics.GetSwitchType | ryu_controller/metrics_exporter.py:359-365 | a switch is a spine iff its dpid is at most 2, and a leaf otherwise |
| Metrics.GetPortType | ryu_controller/metrics_exporter.py:367-374 | uplink iff an uplink of the switch; host iff not an uplink but a host port; unknown iff neither |
| Metrics.PortTypeAfterRebuild | ryu_controller/metrics_exporter.py:367-374 | after a rebuild, every port a switch lists, other than `OFPP_LOCAL`, has a known type |
| Metrics.UpdateSwitchMetrics | ryu_controller/metrics_exporter.py:376-396 | the spine and leaf counts are the sizes of the two type classes and add up to the number of datapaths. One status write per datapath, with its type |
| Metrics.CountSwitchTypes | ryu_controller/metrics_exporter.py:381-393 | the loop's spine and leaf counts are the sizes of the two type classes of the datapaths, with one status write per datapath carrying its type |
| Metrics.SwitchTypesPartition | ryu_controller/metrics_exporter.py:384-387 | every switch is counted as exactly one of spine or leaf |
| Metrics.UpdatePortMetrics | ryu_controller/metrics_exporter.py:398-414 | one row per datapath, whose uplink and host counts are the sizes of its port sets and whose total is their sum |
| Metrics.PortTotalAfterRebuild | ryu_controller/metrics_exporter.py:405-410 | after a rebuild, the total port count equals the number of distinct non-local listed ports and uplinks |
| Metrics.CountCrossNeighbors | ryu_controller/metrics_exporter.py:444-450 | the inner loop counts exactly the leaf neighbours of a spine, or the spine neighbours of a leaf |
| Metrics.CountLinks | ryu_controller/metrics_exporter.py:440-450 | one neighbour-count write per switch; spine_to_leaf and leaf_to_spine are the numbers of directed spine-leaf and leaf-spine neighbour pairs |
| Metrics.UpdateTopologyMetrics | ryu_controller/metrics_exporter.py:434-460 | one neighbour-count write per switch, with its neighbour count. spine_to_leaf and leaf_to_spine are the numbers of directed spine-leaf and leaf-spine neighbour pairs |
| Metrics.CrossCountsSymmetric | ryu_controller/metrics_exporter.py:447-450 | on a symmetric neighbour map, the two link counts are equal |
| Metrics.LinkCountsAgreeAfterRebuild | ryu_controller/metrics_exporter.py:459-460 | after any rebuild, spine_to_leaf equals leaf_to_spine |
| Metrics.UpdateHostMetrics | ryu_controller/metrics_exporter.py:462-475 | learned hosts and IPs are the sizes of the two tables. Each leaf with hosts is counted with its number of MACs, and the counts add up to the number of hosts on leaves |
| Metrics.HostTallyStep | ryu_controller/metrics_exporter.py:469-471 | one iteration of the host loop keeps the per-leaf tally exact |
| Metrics.CountHostsPerLeaf | ryu_controller/metrics_exporter.py:468-471 | the tally has a key for exactly the leaves with learned hosts, each mapped to its number of MACs, and the counts add up to the number of hosts on leaves |
| Metrics.HandleFlowStatsReply | ryu_controller/metrics_exporter.py:520-559 | one count per table that occurs, equal to the number of its flow records; the counts add up to the number of records |
| Metrics.FlowTallyStep | ryu_controller/metrics_exporter.py:527-531 | one iteration of the flow loop keeps the per-table tally exact |
| Metrics.PhysicalPorts | ryu_controller/metrics_exporter.py:491-493 | keeps exactly the records of ports below `0xffffff00` |
| Metrics.HandlePortStatsReply | ryu_controller/metrics_exporter.py:482-518 | one row per kept port, in order, with its dpid, port, port type and counters; the total-traffic counters never move |
| Metrics.PortRows | ryu_controller/metrics_exporter.py:495-506 | each row carries the port's number, type and counters |
| Metrics.ArpOpcodeName | ryu_controller/metrics_exporter.py:623-626 | "request" iff the opcode is 1, "reply" for every other opcode |
| Scenarios.FabricKnown | ryu_controller/spine_leaf_controller.py:127-136 | in the one-spine, two-leaf fabric, every link endpoint is a discovered switch |
| Scenarios.FabricLinkLoop | ryu_controller/spine_leaf_controller.py:130-136 | the spine's uplinks are ports 1 and 2, and each leaf's uplink is port 1, with the matching neighbour ports |
| Scenarios.FabricHostPorts | ryu_controller/spine_leaf_controller.py:142-151 | the spine has no host ports, and each leaf has host ports 2 and 3 |
| Scenarios.SourceLeafUsesGroup | ryu_controller/spine_leaf_controller.py:361-368 | an IPv4 packet from a host on leaf 2 to a host on leaf 1 installs a rule to the ECMP group and sends the packet there |
| Scenarios.TransitSpineUsesNeighborPort | ryu_controller/spine_leaf_controller.py:369-377 | on the spine, the same packet is sent towards leaf 1's port |
| Scenarios.BroadcastOnLeaf | ryu_controller/spine_leaf_controller.py:339-346 | a broadcast from host port 2 of leaf 1 goes only to host port 3 |
| Scenarios.KnownRemoteDestinationDropped | ryu_controller/spine_leaf_controller.py:223-229 | a packet whose endpoints are known on different leaves is dropped without any message |
| Scenarios.ArpProxyScenario | ryu_controller/spine_leaf_controller.py:283-288 | an ARP request for 10.0.0.2, with 10.0.0.2 known as 00:11, yields exactly one reply from 00:11 back out of the ingress port |
| Formatting.Digits | mininet/spine_leaf.py:17 | digits of a number in base 2 to 16: at least one, each a valid digit, and no leading zero for a positive number |
| Formatting.PadZerosValue | mininet/spine_leaf.py:17 | zero-padding a run of hex digits on the left keeps it a run of hex digits with the same value |
| Formatting.DigitsRoundTrip | mininet/spine_leaf.py:17 | reading the digits back gives the number |
| Formatting.DigitsLength | mininet/spine_leaf.py:17 | a number below b^k has at most k digits |
| Formatting.ValueLeadingZeros | mininet/spine_leaf.py:17 | leading zeros do not change the value |
| Formatting.ValueConcat | mininet/spine_leaf.py:32 | the value of a concatenation is the first part shifted by the second part's length, plus the second part |
| Formatting.Dec | mininet/spine_leaf.py:32-35 | `str(n)` has at least one character; its digits and value are stated by Formatting.DecRoundTrip |
| Formatting.Hex016 | mininet/spine_leaf.py:17 | `"{:016x}".format(n)` has at least 16 characters, all hex digits, and reads back as n |
| Formatting.DecRoundTrip | mininet/spine_leaf.py:32 | `str(n)` read back is n |
| Formatting.DecInjective | mininet/spine_leaf.py:34 | different numbers have different decimal names |
| Formatting.Hex016Shape | mininet/spine_leaf.py:17 | every number below 16^16 becomes exactly 16 lowercase hex digits |
| Formatting.Hex016Distinct | mininet/spine_leaf.py:17 | different numbers get different dpid strings |
| Formatting.DecConcatOneDigit | mininet/spine_leaf.py:32 | `int("{}{}".format(a, c))` for a one-digit c is 10·a + c |
| SpineLeafTopo.Spines | mininet/spine_leaf.py:15-19 | spines s1..sn, in order, with dpids 1..n |
| SpineLeafTopo.Leaves | mininet/spine_leaf.py:23-27 | leaves l1..lm, in order, with dpids following the spines' |
| SpineLeafTopo.Row | mininet/spine_leaf.py:30-37 | the hosts or access links of one leaf, for hosts 1..n in order |
| SpineLeafTopo.Grid | mininet/spine_leaf.py:23-43 | the nested loops produce m·n records |
| SpineLeafTopo.GridProjection | mininet/spine_leaf.py:23-37 | two nested loops over the same bounds line up position by position, so a field of one grid's records is the other grid's element |
| SpineLeafTopo.HostName | mininet/spine_leaf.py:34 | `"h{}{}".format(l, h)` has at least three characters; its injectivity and its first letter are stated by SpineLeafTopo.HostNameInjective and SpineLeafTopo.NameKinds |
| SpineLeafTopo.Octet | mininet/spine_leaf.py:32 | `int("{}{}".format(l, h))` is l shifted left by the number of decimal digits of h, plus h |
| SpineLeafTopo.HostIp | mininet/spine_leaf.py:35 | the address starts with `10.0.0.` and ends with `/24` |
| SpineLeafTopo.Build | mininet/spine_leaf.py:12-43 | switches are the spines then the leaves. Hosts are the leaf-by-leaf grid. Links are every host's access link, then every leaf-spine fabric link |
| SpineLeafTopo.AddSpines | mininet/spine_leaf.py:14-19 | the spine loop adds spines 1..n |
| SpineLeafTopo.AddLeaves | mininet/spine_leaf.py:22-37 | the leaf loop adds each leaf, followed by its hosts and their links |
| SpineLeafTopo.AddHosts | mininet/spine_leaf.py:30-37 | the host loop adds hosts 1..n of a leaf, each with its access link |
| SpineLeafTopo.AddFabric | mininet/spine_leaf.py:40-43 | one link for every leaf and spine, leaf-major |
| SpineLeafTopo.GridMember | mininet/spine_leaf.py:40-43 | a record is in the grid iff it is f(a, b) for some leaf a and some column b |
| SpineLeafTopo.GridNoDup | mininet/spine_leaf.py:40-43 | an injective record function gives a grid with no repeats |
| SpineLeafTopo.SpineNameInjective | mininet/spine_leaf.py:18 | distinct spine numbers get distinct names |
| SpineLeafTopo.LeafNameInjective | mininet/spine_leaf.py:26 | distinct leaf numbers get distinct names |
| SpineLeafTopo.HostNameInjective | mininet/spine_leaf.py:34 | with at most 9 hosts per leaf, distinct (leaf, host) get distinct names |
| SpineLeafTopo.NameKinds | mininet/spine_leaf.py:18-34 | host, leaf and spine names start with h, l and s, and never coincide |
| SpineLeafTopo.OctetFormula | mininet/spine_leaf.py:32 | the last octet is 10·leaf + host when the host number is a single digit |
| SpineLeafTopo.HostNamesCollide | mininet/spine_leaf.py:32-35 | host 11 of leaf 1 and host 1 of leaf 11 get the same name and the same IP |
| SpineLeafTopo.SwitchIds | mininet/spine_leaf.py:15-27 | the k-th switch's dpid reads as k+1 in hex, and all switch dpids and names are distinct |
| SpineLeafTopo.DpidShape | mininet/spine_leaf.py:17-25 | every dpid is 16 lowercase hex digits |
| SpineLeafTopo.SpineRuleMatchesBuild | ryu_controller/metrics_exporter.py:359-365 | the exporter's `dpid <= 2` rule agrees with the builder's spine numbering iff there are exactly two spines |
| SpineLeafTopo.LinkInventory | mininet/spine_leaf.py:12-43 | m·h hosts and m·h + m·s links, which are exactly the access links and the fabric links |
| SpineLeafTopo.FabricLinksOnce | mininet/spine_leaf.py:40-43 | every leaf-spine pair is linked exactly once |
| SpineLeafTopo.HostLinkedOnce | mininet/spine_leaf.py:30-37 | every host has exactly one link, its access link to its own leaf |
| SpineLeafTopo.OnlyLinkOfHost | mininet/spine_leaf.py:30-37 | any built link that touches a host is that host's access link |
| SpineLeafTopo.HostsDistinct | mininet/spine_leaf.py:30-36 | with at most 9 hosts per leaf, all host names and IPs are distinct |
| TrafficPairs.GetAllHosts | mininet/simulate_traffic.py:15-22 | the hosts h11..h33 in leaf-major order |
| TrafficPairs.DefaultHosts | mininet/simulate_traffic.py:18-21 | the nine names, written out |
| TrafficPairs.HostNamesMatchBuild | mininet/simulate_traffic.py:18-21 | the script's names are the names the topology builder gives its hosts |
| TrafficPairs.RowPairs | mininet/simulate_traffic.py:30-37 | the pairs of one source with each later host, in order |
| TrafficPairs.PairsFrom | mininet/simulate_traffic.py:30-37 | the inner loop for source i yields the filtered pairs of that source with each later host, in order |
| TrafficPairs.FilterConcat | mininet/simulate_traffic.py:31-36 | filtering distributes over concatenation |
| TrafficPairs.HostPairs | mininet/simulate_traffic.py:29-38 | the double loop yields the filtered list of all pairs (i < j) |
| TrafficPairs.GetHostPairs | mininet/simulate_traffic.py:25-38 | the filtered pairs of the nine default hosts |
| TrafficPairs.PairCount | mininet/simulate_traffic.py:29-30 | n hosts give n(n-1)/2 pairs |
| TrafficPairs.PairMember | mininet/simulate_traffic.py:29-30 | a pair is listed iff it is (hosts[a], hosts[b]) with a < b |
| TrafficPairs.RowMember | mininet/simulate_traffic.py:30 | a pair is in row i iff it is (hosts[i], hosts[b]) with b > i |
| TrafficPairs.PairsUnique | mininet/simulate_traffic.py:29-37 | with distinct hosts, no pair repeats, no host is paired with itself, and no pair appears in both orders |
| TrafficPairs.FilterMember | mininet/simulate_traffic.py:31-36 | a pair is kept iff it is listed and, when excluding, its two names differ in the second character; without exclusion the list is unchanged |
| TrafficPairs.FilterSubsequence | mininet/simulate_traffic.py:31-37 | the kept pairs are a subsequence of all pairs, in order |
| TrafficPairs.SameLeafByName | mininet/simulate_traffic.py:32-35 | for single-digit leaves and hosts, the second character matches iff the two hosts are on the same leaf |
| TrafficPairs.AllKept | mininet/simulate_traffic.py:31-37 | the kept count is the sum over sources of their later hosts on other leaves |
| TrafficPairs.DefaultPairCounts | mininet/simulate_traffic.py:25-38 | the default hosts give 36 pairs, and 27 when same-leaf pairs are excluded |

## Left out

- Iteration order: Python leaves set iteration order unspecified, and dictionaries iterate in insertion order (Python 3.7 and later). The model replaces both with ascending order of port numbers and dpids. Counts do not depend on this, but the order of the ECMP commands across leaves (spine_leaf_controller.py:154), of the spine ARP-flood actions (spine_leaf_controller.py:304) and of the gauge writes (metrics_exporter.py:381, 400, 440, 444, 469, 474, 558) can differ from the program's.
- The Prometheus client, the HTTP endpoint, threads, the periodic `_monitor` loop, clocks and floating point are left out. That covers flow-install timing, uptime, throughput, flow duration and the flow-age histogram.
- The `host_location`, `link_status`, per-port and per-flow counter gauges, and the cross-leaf traffic counter are left out. They are observations only and change no controller state.
- SpineLeafController.Controller.PortStatusHandler: models only the intended recompute of the reporting switch's groups. As written, the `port_status.labels(...)` calls at spine_leaf_controller.py:100 and :102 pass the label `port_state`, while the gauge declares `dpid`, `port_no` and `port_type` (metrics_exporter.py:88-92). The labels call therefore raises before line 104, and nothing is rebuilt or sent.
- The OpenFlow stats requests sent by `update_port_metrics`, `update_flow_metrics` and `update_group_metrics` are left out. Only their counting is modelled.
- The packet-in rate computation in `handle_packet_in` is left out, because it depends on time.
- The `try/except` around the flood packet-out is left out: a send is modelled as always succeeding.
- `handler_switch_enter`, `handler_link_add` and `handler_link_del` (spine_leaf_controller.py:106-119) only log and call `rebuild_topology`, so SpineLeafController.Controller.RebuildTopology stands for all three; the log lines are left out.
- `get_all_switch` and `get_all_link` are parameters, the switch and link lists that topology discovery returns.
- Packet parsing with Ryu's `packet` library is abstracted into a `Frame` value: source, destination, ethertype, an optional ARP record and an IPv4 flag.
- `add_flow`'s `buffer_id`, `table_id` and `inst` arguments are left out. No caller passes them, so every rule goes to table 0 with apply-actions.
- The `protocols='OpenFlow13'` argument and the `TCLink` class of the topology builder are left out. The bandwidth and delay values are kept.
- `net.get(...)` is modelled by the host's name: the script's host objects are identified by name.
- ryu_controller/base_switch.py, mininet/auto_start.py, mininet/traffic_generator.py and the traffic-running functions of mininet/simulate_traffic.py are not part of this model.
- Formatting.Dec: its own contract states only that the result is non-empty; the digits and the value are stated by Formatting.DecRoundTrip, which keeps string proofs that use `Dec` cheap.
- SpineLeafTopo.HostName: its own contract states only the length; the name's meaning is stated by SpineLeafTopo.HostNameInjective and SpineLeafTopo.NameKinds.
- SpineLeafTopo.HostNameInjective: proved only for at most 9 hosts per leaf. Beyond that, `h{l}{h}` names and IPs collide, as SpineLeafTopo.HostNamesCollide shows.
- SpineLeafTopo.HostsDistinct: proved only for at most 9 hosts per leaf, for the same reason.
- SpineLeafTopo.SpineRuleMatchesBuild: the exporter's `dpid <= 2` rule is proved to agree with the builder only when there are exactly two spines. With any other number, some switches are counted as the wrong type.
- TrafficPairs.HostPairs: requires every host name to have at least two characters when excluding same-leaf pairs. The source would raise IndexError on a shorter name.
- TrafficPairs.SameLeafByName: proved only for single-digit leaf and host numbers. The second character of the name identifies the leaf only then.
