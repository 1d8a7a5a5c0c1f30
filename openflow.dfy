/** The vocabulary the controller speaks: OpenFlow 1.3 port numbers,
    actions, matches and the messages it hands to `send_msg`, and the
    decoded frames that arrive in a packet-in.  Numbers are those of the
    OpenFlow Switch Specification 1.3 (reserved ports, section 4.5; groups,
    section 5.6) and of RFC 826 (ARP opcodes). */
module OpenFlow {
  import opened Common

  type Dpid = nat
  type PortNo = nat
  type Mac = string
  type Ip = string

  /** Highest number of a physical port (`OFPP_MAX`). */
  const OFPP_MAX: PortNo := 0xffff_ff00
  /** Reserved port: every physical port except the ingress one. */
  const OFPP_FLOOD: PortNo := 0xffff_fffb
  /** Reserved port: the controller. */
  const OFPP_CONTROLLER: PortNo := 0xffff_fffd
  /** Reserved port: the switch's own local networking stack. */
  const OFPP_LOCAL: PortNo := 0xffff_fffe
  /** `buffer_id` meaning "the packet is carried in the message itself". */
  const OFP_NO_BUFFER: nat := 0xffff_ffff

  /** The one group identifier the controller uses for ECMP on a leaf. */
  const ECMP_GROUP_ID: nat := 100

  const ETH_TYPE_ARP: nat := 0x0806
  const ETH_TYPE_LLDP: nat := 0x88cc
  const ARP_REQUEST: nat := 1
  const ARP_REPLY: nat := 2

  /** `mac.BROADCAST` */
  const BROADCAST: Mac := "ff:ff:ff:ff:ff:ff"

  /** `OFPCML_NO_BUFFER`: a controller output sends the whole packet and
      the switch keeps no buffer for it (`ofp_controller_max_len` in OpenFlow 1.3). */
  const OFPCML_NO_BUFFER: nat := 0xffff

  /** `Output(p)` is `OFPActionOutput(p)` with Ryu's default `max_len`;
      `OutputMaxLen(p, n)` is `OFPActionOutput(p, n)` with an explicit one,
      which the switch only uses when `p` is the controller port. */
  datatype Action = Output(port: PortNo) | OutputMaxLen(port: PortNo, maxLen: nat) | Group(groupId: nat)

  datatype Match =
    | MatchAll                       // `OFPMatch()`: the table-miss rule
    | MatchEthType(ethType: nat)     // `OFPMatch(eth_type=...)`
    | MatchEthDst(ethDst: Mac)       // `OFPMatch(eth_dst=...)`

  datatype GroupType = Select

  /** An ARP payload, as Ryu's `arp.arp` decodes it. */
  datatype ArpRecord = ArpRecord(opcode: nat, srcMac: Mac, srcIp: Ip, dstMac: Mac, dstIp: Ip)

  /** A decoded frame: the Ethernet header, the ARP record if the frame
      carries one, and whether an IPv4 header was found. */
  datatype Frame = Frame(dst: Mac, src: Mac, ethertype: nat, arp: Option<ArpRecord>, ipv4: bool)

  /** A packet-in: the switch, the ingress port (`msg.match['in_port']`),
      the buffer the switch kept the packet in, and the frame, `None` when
      no Ethernet header could be decoded. */
  datatype PacketInMsg = PacketInMsg(dpid: Dpid, inPort: PortNo, bufferId: nat, data: Option<Frame>)

  /** One message sent to switch `dpid` with `send_msg`. */
  datatype Command =
    | FlowMod(dpid: Dpid, tableId: nat, priority: nat, matchFields: Match, actions: seq<Action>)
    | GroupDelete(dpid: Dpid, groupType: GroupType, groupId: nat)
    | GroupAdd(dpid: Dpid, groupType: GroupType, groupId: nat, buckets: seq<seq<Action>>)
    | PacketOut(dpid: Dpid, bufferId: nat, inPort: PortNo, actions: seq<Action>, data: Option<Frame>)

  /** `[OFPActionOutput(p) for p in ports]` */
  function Outputs(ports: seq<PortNo>): (r: seq<Action>)
    ensures |r| == |ports|
    ensures forall k :: 0 <= k < |r| ==> r[k] == Output(ports[k])
  {
    if ports == [] then [] else Outputs(ports[..|ports| - 1]) + [Output(ports[|ports| - 1])]
  }

  lemma OutputsSnoc(ports: seq<PortNo>, p: PortNo)
    ensures Outputs(ports + [p]) == Outputs(ports) + [Output(p)]
  {
    assert (ports + [p])[..|ports|] == ports;
  }

  /** The ports named by the output actions of a list. */
  function OutputPorts(actions: seq<Action>): set<PortNo>
  {
    set k | 0 <= k < |actions| && actions[k].Output? :: actions[k].port
  }

  /** The data a packet-out carries for a packet-in: nothing when the
      switch buffered the packet, else the packet itself. */
  function Payload(msg: PacketInMsg): Option<Frame>
  {
    if msg.bufferId != OFP_NO_BUFFER then None else msg.data
  }
}
