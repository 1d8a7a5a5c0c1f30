/** The counting side of the Prometheus exporter: how it types switches
    and ports, and the gauges its update loops compute from the
    controller's dictionaries.  The Prometheus objects themselves are
    replaced by the values the loops would write into them; the
    dictionaries are read from a `Tables` snapshot of the controller. */
module Metrics {
  import opened Common
  import opened OpenFlow
  import opened Topology
  import opened Forwarding
  import SpineLeafController

  datatype SwitchType = Spine | Leaf
  datatype PortType = Uplink | HostPort | Unknown

  /** `get_switch_type`: the rule is hard-wired to the default fabric,
      whose spines are the dpids 1 and 2. */
  function GetSwitchType(dpid: Dpid): (r: SwitchType)
    ensures r == Spine <==> dpid <= 2
    ensures r == Leaf <==> dpid > 2
  {
    if dpid <= 2 then Spine else Leaf
  }

  /** `get_port_type`: uplinks are looked up first, then host ports. */
  function GetPortType(t: Tables, dpid: Dpid, port: PortNo): (r: PortType)
    ensures r == Uplink <==> port in PortsOf(t.uplinkPorts, dpid)
    ensures r == HostPort <==> port !in PortsOf(t.uplinkPorts, dpid) && port in PortsOf(t.hostPorts, dpid)
    ensures r == Unknown <==> port !in PortsOf(t.uplinkPorts, dpid) && port !in PortsOf(t.hostPorts, dpid)
  {
    if port in PortsOf(t.uplinkPorts, dpid) then Uplink
    else if port in PortsOf(t.hostPorts, dpid) then HostPort
    else Unknown
  }

  /** After a rebuild the port typing of a listed switch agrees with the
      classification: the uplink-first order never matters because the
      two sets are disjoint, and only OFPP_LOCAL can stay unknown. */
  lemma PortTypeAfterRebuild(t: Tables, switches: seq<SwitchDesc>, links: seq<Link>, k: nat, p: PortNo)
    requires EndpointsKnown(switches, links)
    requires k < |switches| && LastWithId(switches, k)
    ensures var r := SpineLeafController.Rebuilt(t, switches, links);
            var d := switches[k].dpid;
            && (GetPortType(r, d, p) == HostPort <==> p in r.hostPorts[d])
            && (GetPortType(r, d, p) == Uplink <==> p in r.uplinkPorts[d])
            && (p in switches[k].ports && p != OFPP_LOCAL ==> GetPortType(r, d, p) != Unknown)
  {
    Classification(switches, links, t.hostPorts, k);
  }

  // ---------------------------------------------------------------------
  // update_switch_metrics

  function SwitchesOfType(datapaths: set<Dpid>, ty: SwitchType): set<Dpid>
  {
    set d | d in datapaths && GetSwitchType(d) == ty
  }

  /** The elements of a prefix of a list. */
  function PrefixSet(s: seq<nat>, i: nat): set<nat>
    requires i <= |s|
  {
    set x | x in s[..i]
  }

  lemma PrefixSetStep(s: seq<nat>, i: nat)
    requires i < |s| && StrictlyIncreasing(s)
    ensures PrefixSet(s, i + 1) == PrefixSet(s, i) + {s[i]}
    ensures s[i] !in PrefixSet(s, i)
  {
    assert s[..i + 1] == s[..i] + [s[i]];
    forall x | x in s[..i] ensures x < s[i] {
      var j :| 0 <= j < i && s[..i][j] == x;
    }
  }

  /** The elements of a list. */
  function Elements(s: seq<nat>): set<nat>
  {
    set x | x in s
  }

  lemma PrefixSetZero(s: seq<nat>)
    ensures PrefixSet(s, 0) == {}
  {
    assert s[..0] == [];
  }

  lemma PrefixSetAll(s: seq<nat>)
    ensures PrefixSet(s, |s|) == Elements(s)
  {
    assert s[..|s|] == s;
  }

  /** One write of the `datapath_status` gauge: the switch, labelled
      with its type, is marked connected. */
  datatype StatusWrite = StatusWrite(dpid: Dpid, switchType: SwitchType)

  /** `update_switch_metrics`: the spine and leaf counts, and the status
      writes, one per connected switch, in ascending dpid order. */
  method UpdateSwitchMetrics(t: Tables) returns (spineCount: nat, leafCount: nat, status: seq<StatusWrite>)
    ensures spineCount == |SwitchesOfType(t.datapaths, Spine)|
    ensures leafCount == |SwitchesOfType(t.datapaths, Leaf)|
    ensures spineCount + leafCount == |t.datapaths|
    ensures |status| == |t.datapaths|
    ensures forall k :: 0 <= k < |status| ==>
              status[k] == StatusWrite(SortedSeq(t.datapaths)[k], GetSwitchType(SortedSeq(t.datapaths)[k]))
  {
    var dpids := SortedSeq(t.datapaths);
    spineCount, leafCount, status := CountSwitchTypes(dpids);
    assert Elements(dpids) == t.datapaths;
    SwitchTypesPartition(t.datapaths);
  }

  /** The loop of `update_switch_metrics` over a list of distinct dpids. */
  method CountSwitchTypes(dpids: seq<Dpid>) returns (spineCount: nat, leafCount: nat, status: seq<StatusWrite>)
    requires StrictlyIncreasing(dpids)
    ensures spineCount == |SwitchesOfType(Elements(dpids), Spine)|
    ensures leafCount == |SwitchesOfType(Elements(dpids), Leaf)|
    ensures |status| == |dpids|
    ensures forall k :: 0 <= k < |status| ==> status[k] == StatusWrite(dpids[k], GetSwitchType(dpids[k]))
  {
    spineCount, leafCount, status := 0, 0, [];
    for i := 0 to |dpids|
      invariant spineCount == |SwitchesOfType(PrefixSet(dpids, i), Spine)|
      invariant leafCount == |SwitchesOfType(PrefixSet(dpids, i), Leaf)|
      invariant |status| == i
      invariant forall k :: 0 <= k < i ==> status[k] == StatusWrite(dpids[k], GetSwitchType(dpids[k]))
    {
      var dpid := dpids[i];
      SwitchCountStep(dpids, i, Spine);
      SwitchCountStep(dpids, i, Leaf);
      var switchType := GetSwitchType(dpid);
      if switchType == Spine {
        spineCount := spineCount + 1;
      } else {
        leafCount := leafCount + 1;
      }
      status := status + [StatusWrite(dpid, switchType)];
    }
    PrefixSetAll(dpids);
  }

  /** Every switch is a spine or a leaf, and not both. */
  lemma SwitchTypesPartition(ds: set<Dpid>)
    ensures |SwitchesOfType(ds, Spine)| + |SwitchesOfType(ds, Leaf)| == |ds|
  {
    var spines, leaves := SwitchesOfType(ds, Spine), SwitchesOfType(ds, Leaf);
    assert ds == spines + leaves;
    DisjointUnionSize(spines, leaves);
  }

  lemma SwitchCountStep(s: seq<nat>, i: nat, ty: SwitchType)
    requires i < |s| && StrictlyIncreasing(s)
    ensures |SwitchesOfType(PrefixSet(s, i + 1), ty)|
              == |SwitchesOfType(PrefixSet(s, i), ty)| + (if GetSwitchType(s[i]) == ty then 1 else 0)
  {
    PrefixSetStep(s, i);
    SwitchesOfTypeAdd(PrefixSet(s, i), s[i], ty);
  }

  lemma SwitchesOfTypeAdd(ds: set<Dpid>, x: Dpid, ty: SwitchType)
    requires x !in ds
    ensures |SwitchesOfType(ds + {x}, ty)| == |SwitchesOfType(ds, ty)| + (if GetSwitchType(x) == ty then 1 else 0)
  {
    if GetSwitchType(x) == ty {
      assert SwitchesOfType(ds + {x}, ty) == SwitchesOfType(ds, ty) + {x};
    } else {
      assert SwitchesOfType(ds + {x}, ty) == SwitchesOfType(ds, ty);
    }
  }

  // ---------------------------------------------------------------------
  // update_port_metrics

  /** The three `port_count` gauges of one switch. */
  datatype PortCount = PortCount(dpid: Dpid, uplink: nat, host: nat, total: nat)

  /** One row per connected switch, in ascending dpid order. */
  method UpdatePortMetrics(t: Tables) returns (rows: seq<PortCount>)
    ensures |rows| == |t.datapaths|
    ensures forall d :: d in t.datapaths <==> exists k :: 0 <= k < |rows| && rows[k].dpid == d
    ensures forall k :: 0 <= k < |rows| ==>
              && rows[k].uplink == |PortsOf(t.uplinkPorts, rows[k].dpid)|
              && rows[k].host == |PortsOf(t.hostPorts, rows[k].dpid)|
              && rows[k].total == rows[k].uplink + rows[k].host
  {
    var dpids := SortedSeq(t.datapaths);
    rows := [];
    for i := 0 to |dpids|
      invariant |rows| == i
      invariant forall k :: 0 <= k < i ==> rows[k].dpid == dpids[k]
      invariant forall k :: 0 <= k < |rows| ==>
                  && rows[k].uplink == |PortsOf(t.uplinkPorts, rows[k].dpid)|
                  && rows[k].host == |PortsOf(t.hostPorts, rows[k].dpid)|
                  && rows[k].total == rows[k].uplink + rows[k].host
    {
      var uplinkCount := |PortsOf(t.uplinkPorts, dpids[i])|;
      var hostCount := |PortsOf(t.hostPorts, dpids[i])|;
      rows := rows + [PortCount(dpids[i], uplinkCount, hostCount, uplinkCount + hostCount)];
    }
    forall d | d in t.datapaths ensures exists k :: 0 <= k < |rows| && rows[k].dpid == d {
      var k :| 0 <= k < |dpids| && dpids[k] == d;
      assert rows[k].dpid == d;
    }
  }

  /** After a rebuild the `'total'` count of a listed switch counts each
      of its ports at most once: it is the number of its listed ports
      other than OFPP_LOCAL, together with the link ends at it. */
  lemma PortTotalAfterRebuild(t: Tables, switches: seq<SwitchDesc>, links: seq<Link>, k: nat)
    requires EndpointsKnown(switches, links)
    requires k < |switches| && LastWithId(switches, k)
    ensures var r := SpineLeafController.Rebuilt(t, switches, links);
            var d := switches[k].dpid;
            |PortsOf(r.uplinkPorts, d)| + |PortsOf(r.hostPorts, d)|
              == |(set p | p in switches[k].ports && p != OFPP_LOCAL) + r.uplinkPorts[d]|
  {
    var r := SpineLeafController.Rebuilt(t, switches, links);
    var d := switches[k].dpid;
    Classification(switches, links, t.hostPorts, k);
    HostPortsListed(t.hostPorts, switches, r.uplinkPorts, k);
    var up := r.uplinkPorts[d];
    var hp := r.hostPorts[d];
    assert (set p | p in switches[k].ports && p != OFPP_LOCAL) + up == hp + up;
    assert |hp + up| == |hp| + |up| by { DisjointUnionSize(hp, up); }
  }

  lemma DisjointUnionSize<T>(a: set<T>, b: set<T>)
    requires a !! b
    ensures |a + b| == |a| + |b|
  {
    assert (a + b) - b == a;
  }

  // ---------------------------------------------------------------------
  // update_topology_metrics

  /** Neighbour entry `a -> b` goes from a switch of type `from` to one
      of type `to`. */
  predicate Crosses(a: Dpid, b: Dpid, from: SwitchType, to: SwitchType)
  {
    GetSwitchType(a) == from && GetSwitchType(b) == to
  }

  /** The neighbour entries whose source is in `srcs` and whose ends have
      the given types. */
  function CrossPairsFrom(nb: Neighbors, srcs: set<Dpid>, from: SwitchType, to: SwitchType): set<(Dpid, Dpid)>
  {
    set a, b | a in srcs && a in nb.Keys && b in nb[a].Keys && Crosses(a, b, from, to) :: (a, b)
  }

  /** All neighbour entries from a `from` switch to a `to` switch: what
      the `link_count` gauge counts for `spine_to_leaf` (Spine, Leaf) and
      `leaf_to_spine` (Leaf, Spine); same-type pairs are in neither. */
  function CrossPairs(nb: Neighbors, from: SwitchType, to: SwitchType): set<(Dpid, Dpid)>
  {
    CrossPairsFrom(nb, nb.Keys, from, to)
  }

  /** The members of `xs` that entry `a -> b` with `b` among them
      would count for the given pair of types. */
  function CrossIn(a: Dpid, xs: set<Dpid>, from: SwitchType, to: SwitchType): set<Dpid>
  {
    set b | b in xs && Crosses(a, b, from, to)
  }

  /** The neighbours of one switch that a given pair of types selects. */
  function CrossTargets(a: Dpid, row: map<Dpid, PortNo>, from: SwitchType, to: SwitchType): set<Dpid>
  {
    CrossIn(a, row.Keys, from, to)
  }

  /** The inner loop of `update_topology_metrics`: the entries of one
      neighbour map that go from spine to leaf and from leaf to spine. */
  method CountCrossNeighbors(a: Dpid, row: map<Dpid, PortNo>) returns (spineToLeaf: nat, leafToSpine: nat)
    ensures spineToLeaf == |CrossTargets(a, row, Spine, Leaf)|
    ensures leafToSpine == |CrossTargets(a, row, Leaf, Spine)|
  {
    var neighbors := SortedSeq(row.Keys);
    spineToLeaf, leafToSpine := 0, 0;
    var switchType := GetSwitchType(a);
    for j := 0 to |neighbors|
      invariant spineToLeaf == CrossTotal(a, neighbors, j, Spine, Leaf)
      invariant leafToSpine == CrossTotal(a, neighbors, j, Leaf, Spine)
    {
      var neighborType := GetSwitchType(neighbors[j]);
      if switchType == Spine && neighborType == Leaf {
        spineToLeaf := spineToLeaf + 1;
      } else if switchType == Leaf && neighborType == Spine {
        leafToSpine := leafToSpine + 1;
      }
    }
    CrossTotalOfRow(a, row, Spine, Leaf);
    CrossTotalOfRow(a, row, Leaf, Spine);
  }

  /** Over a whole neighbour map, in ascending order, the running count is
      the number of selected neighbours. */
  lemma CrossTotalOfRow(a: Dpid, row: map<Dpid, PortNo>, from: SwitchType, to: SwitchType)
    ensures var s := SortedSeq(row.Keys);
      CrossTotal(a, s, |s|, from, to) == |CrossTargets(a, row, from, to)|
  {
    var s := SortedSeq(row.Keys);
    CrossTotalIsSize(a, s, |s|, from, to);
    PrefixSetAll(s);
    assert PrefixSet(s, |s|) == row.Keys;
  }

  /** How many of the first `j` neighbours in `s` the pair of types
      selects, counted one by one as the loop does. */
  function CrossTotal(a: Dpid, s: seq<nat>, j: nat, from: SwitchType, to: SwitchType): nat
    requires j <= |s|
  {
    if j == 0 then 0
    else CrossTotal(a, s, j - 1, from, to) + (if Crosses(a, s[j - 1], from, to) then 1 else 0)
  }

  /** The running count is the size of the selected set. */
  lemma {:induction false} CrossTotalIsSize(a: Dpid, s: seq<nat>, j: nat, from: SwitchType, to: SwitchType)
    requires j <= |s| && StrictlyIncreasing(s)
    ensures CrossTotal(a, s, j, from, to) == |CrossIn(a, PrefixSet(s, j), from, to)|
  {
    if j == 0 {
      PrefixSetZero(s);
    } else {
      CrossTotalIsSize(a, s, j - 1, from, to);
      CrossCountStep(a, s, j - 1, from, to);
    }
  }

  lemma CrossCountStep(a: Dpid, s: seq<nat>, j: nat, from: SwitchType, to: SwitchType)
    requires j < |s| && StrictlyIncreasing(s)
    ensures |CrossIn(a, PrefixSet(s, j + 1), from, to)|
              == |CrossIn(a, PrefixSet(s, j), from, to)| + (if Crosses(a, s[j], from, to) then 1 else 0)
  {
    PrefixSetStep(s, j);
    CrossInAdd(a, PrefixSet(s, j), s[j], from, to);
  }

  lemma CrossInAdd(a: Dpid, xs: set<Dpid>, x: Dpid, from: SwitchType, to: SwitchType)
    requires x !in xs
    ensures |CrossIn(a, xs + {x}, from, to)| == |CrossIn(a, xs, from, to)| + (if Crosses(a, x, from, to) then 1 else 0)
  {
    if Crosses(a, x, from, to) {
      assert CrossIn(a, xs + {x}, from, to) == CrossIn(a, xs, from, to) + {x};
    } else {
      assert CrossIn(a, xs + {x}, from, to) == CrossIn(a, xs, from, to);
    }
  }

  /** The entries `a -> b` for `b` in `s`. */
  function PairRow(a: Dpid, s: set<Dpid>): set<(Dpid, Dpid)>
  {
    set b | b in s :: (a, b)
  }

  /** One source switch contributes its row of pairs. */
  lemma CrossPairsFromStep(nb: Neighbors, srcs: set<Dpid>, a: Dpid, from: SwitchType, to: SwitchType)
    requires a in nb && a !in srcs
    ensures CrossPairsFrom(nb, srcs + {a}, from, to)
              == CrossPairsFrom(nb, srcs, from, to) + PairRow(a, CrossTargets(a, nb[a], from, to))
    ensures CrossPairsFrom(nb, srcs, from, to) !! PairRow(a, CrossTargets(a, nb[a], from, to))
  {
  }

  /** Pairing every element of a set with a fixed first component keeps
      its size. */
  lemma {:induction false} PairRowSize(a: Dpid, s: set<Dpid>)
    ensures |PairRow(a, s)| == |s|
    decreases |s|
  {
    if s != {} {
      var x :| x in s;
      PairRowSize(a, s - {x});
      assert PairRow(a, s) == PairRow(a, s - {x}) + {(a, x)};
      DisjointUnionSize(PairRow(a, s - {x}), {(a, x)});
    }
  }

  /** One row of the neighbour table more. */
  lemma AddRow(nb: Neighbors, srcs: set<Dpid>, a: Dpid, from: SwitchType, to: SwitchType)
    requires a in nb && a !in srcs
    ensures |CrossPairsFrom(nb, srcs + {a}, from, to)|
              == |CrossPairsFrom(nb, srcs, from, to)| + |CrossTargets(a, nb[a], from, to)|
  {
    CrossPairsFromStep(nb, srcs, a, from, to);
    PairRowSize(a, CrossTargets(a, nb[a], from, to));
    DisjointUnionSize(CrossPairsFrom(nb, srcs, from, to), PairRow(a, CrossTargets(a, nb[a], from, to)));
  }

  /** One write of the `neighbor_count` gauge. */
  datatype NeighborWrite = NeighborWrite(dpid: Dpid, count: nat)

  /** `update_topology_metrics`: the `neighbor_count` writes, one per
      switch of the neighbour table in ascending dpid order, and the two
      `link_count` gauges. */
  method UpdateTopologyMetrics(t: Tables) returns (spineToLeaf: nat, leafToSpine: nat, neighborCount: seq<NeighborWrite>)
    ensures |neighborCount| == |t.switchNeighbors|
    ensures forall k :: 0 <= k < |neighborCount| ==>
              var d := SortedSeq(t.switchNeighbors.Keys)[k];
              neighborCount[k] == NeighborWrite(d, |t.switchNeighbors[d]|)
    ensures spineToLeaf == |CrossPairs(t.switchNeighbors, Spine, Leaf)|
    ensures leafToSpine == |CrossPairs(t.switchNeighbors, Leaf, Spine)|
  {
    var dpids := SortedSeq(t.switchNeighbors.Keys);
    assert |t.switchNeighbors.Keys| == |t.switchNeighbors|;
    spineToLeaf, leafToSpine, neighborCount := CountLinks(t.switchNeighbors, dpids);
    assert Elements(dpids) == t.switchNeighbors.Keys;
  }

  /** The `neighbor_count` write for switch `d`: the size of its
      neighbour map. */
  function NeighborCountWrite(nb: Neighbors, d: Dpid): NeighborWrite
    requires d in nb
  {
    NeighborWrite(d, |nb[d]|)
  }

  /** The outer loop of `update_topology_metrics`, over a list of
      distinct switches of the neighbour table. */
  method CountLinks(nb: Neighbors, dpids: seq<Dpid>) returns (spineToLeaf: nat, leafToSpine: nat, neighborCount: seq<NeighborWrite>)
    requires StrictlyIncreasing(dpids)
    requires forall k :: 0 <= k < |dpids| ==> dpids[k] in nb
    ensures |neighborCount| == |dpids|
    ensures forall k :: 0 <= k < |dpids| ==> neighborCount[k] == NeighborCountWrite(nb, dpids[k])
    ensures spineToLeaf == |CrossPairsFrom(nb, Elements(dpids), Spine, Leaf)|
    ensures leafToSpine == |CrossPairsFrom(nb, Elements(dpids), Leaf, Spine)|
  {
    spineToLeaf, leafToSpine, neighborCount := 0, 0, [];
    for i := 0 to |dpids|
      invariant |neighborCount| == i
      invariant forall k :: 0 <= k < i ==> neighborCount[k] == NeighborCountWrite(nb, dpids[k])
      invariant spineToLeaf == LinkTotal(nb, dpids, i, Spine, Leaf)
      invariant leafToSpine == LinkTotal(nb, dpids, i, Leaf, Spine)
    {
      var dpid := dpids[i];
      neighborCount := neighborCount + [NeighborCountWrite(nb, dpid)];
      var sl, ls := CountCrossNeighbors(dpid, nb[dpid]);
      spineToLeaf, leafToSpine := spineToLeaf + sl, leafToSpine + ls;
    }
    LinkTotalIsSize(nb, dpids, |dpids|, Spine, Leaf);
    LinkTotalIsSize(nb, dpids, |dpids|, Leaf, Spine);
    PrefixSetAll(dpids);
  }

  /** The link count over the first `i` switches of `dpids`, summed row by
      row as the loop does. */
  function LinkTotal(nb: Neighbors, dpids: seq<Dpid>, i: nat, from: SwitchType, to: SwitchType): nat
    requires i <= |dpids| && forall k :: 0 <= k < |dpids| ==> dpids[k] in nb
  {
    if i == 0 then 0
    else LinkTotal(nb, dpids, i - 1, from, to) + |CrossTargets(dpids[i - 1], nb[dpids[i - 1]], from, to)|
  }

  /** The running sum is the size of the set of selected entries. */
  lemma {:induction false} LinkTotalIsSize(nb: Neighbors, dpids: seq<Dpid>, i: nat, from: SwitchType, to: SwitchType)
    requires i <= |dpids| && StrictlyIncreasing(dpids)
    requires forall k :: 0 <= k < |dpids| ==> dpids[k] in nb
    ensures LinkTotal(nb, dpids, i, from, to) == |CrossPairsFrom(nb, PrefixSet(dpids, i), from, to)|
  {
    if i == 0 {
      PrefixSetZero(dpids);
    } else {
      LinkTotalIsSize(nb, dpids, i - 1, from, to);
      LinkCountStep(nb, dpids, i - 1, from, to);
    }
  }

  lemma LinkCountStep(nb: Neighbors, dpids: seq<Dpid>, i: nat, from: SwitchType, to: SwitchType)
    requires i < |dpids| && StrictlyIncreasing(dpids) && dpids[i] in nb
    ensures |CrossPairsFrom(nb, PrefixSet(dpids, i + 1), from, to)|
              == |CrossPairsFrom(nb, PrefixSet(dpids, i), from, to)| + |CrossTargets(dpids[i], nb[dpids[i]], from, to)|
  {
    PrefixSetStep(dpids, i);
    AddRow(nb, PrefixSet(dpids, i), dpids[i], from, to);
  }

  /** The entries of a set of pairs, each reversed. */
  function Swapped(s: set<(Dpid, Dpid)>): set<(Dpid, Dpid)>
  {
    set p | p in s :: (p.1, p.0)
  }

  /** Swapping the components of a set of pairs keeps its size. */
  lemma {:induction false} SwappedSize(s: set<(Dpid, Dpid)>)
    ensures |Swapped(s)| == |s|
    decreases |s|
  {
    if s != {} {
      var x :| x in s;
      SwappedSize(s - {x});
      assert Swapped(s) == Swapped(s - {x}) + {(x.1, x.0)};
      DisjointUnionSize(Swapped(s - {x}), {(x.1, x.0)});
    }
  }

  /** A symmetric neighbour map has as many spine-to-leaf entries as
      leaf-to-spine entries. */
  lemma CrossCountsSymmetric(nb: Neighbors)
    requires forall a, b :: a in nb && b in nb[a] ==> b in nb && a in nb[b]
    ensures |CrossPairs(nb, Spine, Leaf)| == |CrossPairs(nb, Leaf, Spine)|
  {
    var sl := CrossPairs(nb, Spine, Leaf);
    assert CrossPairs(nb, Leaf, Spine) == Swapped(sl) by {
      forall q | q in CrossPairs(nb, Leaf, Spine) ensures q in Swapped(sl) {
        assert (q.1, q.0) in sl;
      }
    }
    SwappedSize(sl);
  }

  /** Hence after a rebuild the two `link_count` gauges agree: every link
      between a spine and a leaf is counted once in each direction. */
  lemma LinkCountsAgreeAfterRebuild(t: Tables, switches: seq<SwitchDesc>, links: seq<Link>)
    requires EndpointsKnown(switches, links)
    ensures var nb := SpineLeafController.Rebuilt(t, switches, links).switchNeighbors;
            |CrossPairs(nb, Spine, Leaf)| == |CrossPairs(nb, Leaf, Spine)|
  {
    var nb := LinkNeighbors(switches, links);
    forall a, b | a in nb && b in nb[a] ensures b in nb && a in nb[b] {
      NeighborsSymmetric(switches, links, a, b);
    }
    CrossCountsSymmetric(nb);
  }

  // ---------------------------------------------------------------------
  // update_host_metrics

  /** `host_locations`: where each learned MAC sits. */
  type Locations = map<Mac, Location>

  /** The MACs among `macs` located on switch `d`. */
  function MacsOn(locs: Locations, macs: set<Mac>, d: Dpid): set<Mac>
    requires macs <= locs.Keys
  {
    set m | m in macs && locs[m].dpid == d
  }

  /** The MACs among `macs` located on a leaf. */
  function MacsOnLeaves(locs: Locations, macs: set<Mac>): set<Mac>
    requires macs <= locs.Keys
  {
    set m | m in macs && GetSwitchType(locs[m].dpid) == Leaf
  }

  /** The leaves on which some MAC of `macs` is located. */
  function LeavesWithHosts(locs: Locations, macs: set<Mac>): set<Dpid>
    requires macs <= locs.Keys
  {
    set m | m in MacsOnLeaves(locs, macs) :: locs[m].dpid
  }

  /** What the `hosts_per_leaf` tally holds once the MACs of `done` have
      been visited. */
  ghost predicate HostTally(locs: Locations, done: set<Mac>, hostsPerLeaf: map<Dpid, nat>)
    requires done <= locs.Keys
  {
    && hostsPerLeaf.Keys == LeavesWithHosts(locs, done)
    && (forall d :: d in hostsPerLeaf ==> hostsPerLeaf[d] == |MacsOn(locs, done, d)|)
    && SumValues(hostsPerLeaf) == |MacsOnLeaves(locs, done)|
  }

  /** `update_host_metrics`: the learned host and IP counts, and the
      `hosts_per_leaf` tally, whose counters add up to the number of
      hosts located on leaves. */
  method UpdateHostMetrics(t: Tables) returns (learnedHosts: nat, learnedIps: nat, hostsPerLeaf: map<Dpid, nat>)
    ensures learnedHosts == |t.hostLocations| && learnedIps == |t.ipToMac|
    ensures hostsPerLeaf.Keys == LeavesWithHosts(t.hostLocations, t.hostLocations.Keys)
    ensures forall d :: d in hostsPerLeaf ==> hostsPerLeaf[d] == |MacsOn(t.hostLocations, t.hostLocations.Keys, d)|
    ensures SumValues(hostsPerLeaf) == |MacsOnLeaves(t.hostLocations, t.hostLocations.Keys)|
  {
    learnedHosts, learnedIps := |t.hostLocations|, |t.ipToMac|;
    hostsPerLeaf := CountHostsPerLeaf(t.hostLocations);
  }

  /** The loop of `update_host_metrics` over the learned MACs. */
  method CountHostsPerLeaf(locs: Locations) returns (hostsPerLeaf: map<Dpid, nat>)
    ensures HostTally(locs, locs.Keys, hostsPerLeaf)
  {
    hostsPerLeaf := map[];
    var rest := locs.Keys;
    ghost var done: set<Mac> := {};
    while rest != {}
      invariant done + rest == locs.Keys && done !! rest
      invariant HostTally(locs, done, hostsPerLeaf)
      decreases |rest|
    {
      var mac :| mac in rest;
      var dpid := locs[mac].dpid;
      HostTallyStep(locs, done, mac, hostsPerLeaf);
      if GetSwitchType(dpid) == Leaf {
        hostsPerLeaf := Inc(hostsPerLeaf, dpid);
      }
      rest := rest - {mac};
      done := done + {mac};
    }
  }

  /** Visiting one more MAC keeps the tally right. */
  lemma HostTallyStep(locs: Locations, done: set<Mac>, mac: Mac, hostsPerLeaf: map<Dpid, nat>)
    requires done <= locs.Keys && mac in locs && mac !in done
    requires HostTally(locs, done, hostsPerLeaf)
    ensures var d := locs[mac].dpid;
            HostTally(locs, done + {mac}, if GetSwitchType(d) == Leaf then Inc(hostsPerLeaf, d) else hostsPerLeaf)
  {
    if GetSwitchType(locs[mac].dpid) == Leaf {
      HostTallyLeaf(locs, done, mac, hostsPerLeaf);
    } else {
      HostTallyNotLeaf(locs, done, mac, hostsPerLeaf);
    }
  }

  lemma HostTallyLeaf(locs: Locations, done: set<Mac>, mac: Mac, hostsPerLeaf: map<Dpid, nat>)
    requires done <= locs.Keys && mac in locs && mac !in done
    requires GetSwitchType(locs[mac].dpid) == Leaf
    requires HostTally(locs, done, hostsPerLeaf)
    ensures HostTally(locs, done + {mac}, Inc(hostsPerLeaf, locs[mac].dpid))
  {
    var d := locs[mac].dpid;
    HostStep(locs, done, mac);
    HostCountsStep(locs, done, mac, hostsPerLeaf);
    SumValuesInc(hostsPerLeaf, d);
  }

  lemma HostTallyNotLeaf(locs: Locations, done: set<Mac>, mac: Mac, hostsPerLeaf: map<Dpid, nat>)
    requires done <= locs.Keys && mac in locs && mac !in done
    requires GetSwitchType(locs[mac].dpid) != Leaf
    requires HostTally(locs, done, hostsPerLeaf)
    ensures HostTally(locs, done + {mac}, hostsPerLeaf)
  {
    HostStep(locs, done, mac);
  }

  /** The counter of the MAC's leaf goes up by one, the others stay. */
  lemma HostCountsStep(locs: Locations, done: set<Mac>, mac: Mac, hostsPerLeaf: map<Dpid, nat>)
    requires done <= locs.Keys && mac in locs && mac !in done
    requires GetSwitchType(locs[mac].dpid) == Leaf
    requires hostsPerLeaf.Keys == LeavesWithHosts(locs, done)
    requires forall d :: d in hostsPerLeaf ==> hostsPerLeaf[d] == |MacsOn(locs, done, d)|
    ensures var r := Inc(hostsPerLeaf, locs[mac].dpid);
            forall d :: d in r ==> r[d] == |MacsOn(locs, done + {mac}, d)|
  {
    HostStep(locs, done, mac);
  }

  /** Taking one more MAC into account. */
  lemma HostStep(locs: Locations, done: set<Mac>, mac: Mac)
    requires done <= locs.Keys && mac in locs && mac !in done
    ensures var d := locs[mac].dpid;
            var leaf := GetSwitchType(d) == Leaf;
            && MacsOnLeaves(locs, done + {mac}) == MacsOnLeaves(locs, done) + (if leaf then {mac} else {})
            && mac !in MacsOnLeaves(locs, done)
            && LeavesWithHosts(locs, done + {mac}) == LeavesWithHosts(locs, done) + (if leaf then {d} else {})
            && MacsOn(locs, done + {mac}, d) == MacsOn(locs, done, d) + {mac}
            && mac !in MacsOn(locs, done, d)
            && forall e :: e != d ==> MacsOn(locs, done + {mac}, e) == MacsOn(locs, done, e)
  {
  }

  // ---------------------------------------------------------------------
  // handle_flow_stats_reply

  /** One record of a flow-stats reply; only the fields the count reads. */
  datatype FlowStat = FlowStat(tableId: nat, priority: nat)

  /** The positions of the records of table `tid` among the first `n`. */
  function RecordsOf(body: seq<FlowStat>, n: nat, tid: nat): set<nat>
    requires n <= |body|
  {
    set k | 0 <= k < n && body[k].tableId == tid
  }

  /** The tables that have a record among the first `n`. */
  function TablesSeen(body: seq<FlowStat>, n: nat): set<nat>
    requires n <= |body|
  {
    set k | 0 <= k < n :: body[k].tableId
  }

  /** What the `flow_counts` tally holds after the first `n` records. */
  ghost predicate FlowTally(body: seq<FlowStat>, n: nat, flowCounts: map<nat, nat>)
    requires n <= |body|
  {
    && flowCounts.Keys == TablesSeen(body, n)
    && (forall tid :: tid in flowCounts ==> flowCounts[tid] == |RecordsOf(body, n, tid)|)
    && SumValues(flowCounts) == n
  }

  /** The `flow_counts` tally of `handle_flow_stats_reply`: one counter
      per table that has a record, equal to the number of its records;
      the counters add up to the length of the reply. */
  method HandleFlowStatsReply(body: seq<FlowStat>) returns (flowCounts: map<nat, nat>)
    ensures flowCounts.Keys == TablesSeen(body, |body|)
    ensures forall tid :: tid in flowCounts ==> flowCounts[tid] == |RecordsOf(body, |body|, tid)|
    ensures SumValues(flowCounts) == |body|
  {
    flowCounts := map[];
    for i := 0 to |body|
      invariant FlowTally(body, i, flowCounts)
    {
      FlowTallyStep(body, i, flowCounts);
      flowCounts := Inc(flowCounts, body[i].tableId);
    }
  }

  /** Counting one more record keeps the tally right. */
  lemma FlowTallyStep(body: seq<FlowStat>, i: nat, flowCounts: map<nat, nat>)
    requires i < |body| && FlowTally(body, i, flowCounts)
    ensures FlowTally(body, i + 1, Inc(flowCounts, body[i].tableId))
  {
    var tableId := body[i].tableId;
    TablesSeenStep(body, i);
    CountsStep(body, i, flowCounts);
    SumValuesInc(flowCounts, tableId);
  }

  lemma TablesSeenStep(body: seq<FlowStat>, i: nat)
    requires i < |body|
    ensures TablesSeen(body, i + 1) == TablesSeen(body, i) + {body[i].tableId}
  {
  }

  /** The counters after one more record, table by table. */
  lemma CountsStep(body: seq<FlowStat>, i: nat, flowCounts: map<nat, nat>)
    requires i < |body| && flowCounts.Keys == TablesSeen(body, i)
    requires forall tid :: tid in flowCounts ==> flowCounts[tid] == |RecordsOf(body, i, tid)|
    ensures var m := Inc(flowCounts, body[i].tableId);
      forall tid :: tid in m ==> m[tid] == |RecordsOf(body, i + 1, tid)|
  {
    var tableId := body[i].tableId;
    RecordsStep(body, i);
    if tableId !in flowCounts {
      NoRecordsYet(body, i, tableId);
    }
  }

  lemma RecordsStep(body: seq<FlowStat>, i: nat)
    requires i < |body|
    ensures RecordsOf(body, i + 1, body[i].tableId) == RecordsOf(body, i, body[i].tableId) + {i}
    ensures i !in RecordsOf(body, i, body[i].tableId)
    ensures forall tid :: tid != body[i].tableId ==> RecordsOf(body, i + 1, tid) == RecordsOf(body, i, tid)
  {
  }

  lemma NoRecordsYet(body: seq<FlowStat>, i: nat, tid: nat)
    requires i <= |body| && tid !in TablesSeen(body, i)
    ensures RecordsOf(body, i, tid) == {}
  {
  }

  // ---------------------------------------------------------------------
  // handle_port_stats_reply

  /** One record of a port-stats reply. */
  datatype PortStat = PortStat(
    portNo: PortNo,
    rxPackets: nat, txPackets: nat,
    rxBytes: nat, txBytes: nat,
    rxErrors: nat, txErrors: nat,
    rxDropped: nat, txDropped: nat)

  /** The counters written for one port, with its labels. */
  datatype PortRow = PortRow(dpid: Dpid, portNo: PortNo, portType: PortType, stat: PortStat)

  /** The `total_traffic_*` increments of one reply. */
  datatype Traffic = Traffic(txBytes: int, rxBytes: int, txPackets: int, rxPackets: int)

  /** Port numbers from 0xffffff00 up are reserved ports; the reply
      handler skips them. */
  const RESERVED_PORTS: PortNo := 0xffff_ff00

  /** The records the handler writes counters for, in reply order. */
  function PhysicalPorts(body: seq<PortStat>): (r: seq<PortStat>)
    ensures forall s :: s in r <==> s in body && s.portNo < RESERVED_PORTS
    ensures |r| <= |body|
  {
    if body == [] then []
    else
      var rest := PhysicalPorts(body[..|body| - 1]);
      var s := body[|body| - 1];
      assert forall x :: x in body <==> x in body[..|body| - 1] || x == s;
      if s.portNo >= RESERVED_PORTS then rest else rest + [s]
  }

  /** `handle_port_stats_reply`: one row of counters per non-reserved
      port, labelled with its type, in reply order; the total-traffic
      counters are never incremented, because their guard
      `port_no > OFPP_MAX` only holds for ports the loop has already
      skipped. */
  method HandlePortStatsReply(t: Tables, dpid: Dpid, body: seq<PortStat>) returns (rows: seq<PortRow>, totals: Traffic)
    ensures |rows| == |PhysicalPorts(body)|
    ensures forall k :: 0 <= k < |rows| ==>
              rows[k] == PortRow(dpid, PhysicalPorts(body)[k].portNo, GetPortType(t, dpid, PhysicalPorts(body)[k].portNo), PhysicalPorts(body)[k])
    ensures totals == Traffic(0, 0, 0, 0)
  {
    rows := [];
    totals := Traffic(0, 0, 0, 0);
    for i := 0 to |body|
      invariant rows == PortRows(t, dpid, PhysicalPorts(body[..i]))
      invariant totals == Traffic(0, 0, 0, 0)
    {
      PortRowsStep(t, dpid, body, i);
      var stat := body[i];
      var portType := GetPortType(t, dpid, stat.portNo);
      if stat.portNo >= RESERVED_PORTS {
        continue;
      }
      rows := rows + [PortRow(dpid, stat.portNo, portType, stat)];
      if stat.portNo > OFPP_MAX {
        totals := Traffic(totals.txBytes + stat.txBytes, totals.rxBytes + stat.rxBytes,
                          totals.txPackets + stat.txPackets, totals.rxPackets + stat.rxPackets);
      }
    }
    assert body[..|body|] == body;
  }

  lemma PortRowsStep(t: Tables, dpid: Dpid, body: seq<PortStat>, i: nat)
    requires i < |body|
    ensures PortRows(t, dpid, PhysicalPorts(body[..i + 1]))
              == PortRows(t, dpid, PhysicalPorts(body[..i]))
                 + if body[i].portNo >= RESERVED_PORTS then [] else [PortRow(dpid, body[i].portNo, GetPortType(t, dpid, body[i].portNo), body[i])]
  {
    assert body[..i + 1][..i] == body[..i];
    if body[i].portNo < RESERVED_PORTS {
      var ps := PhysicalPorts(body[..i]);
      assert PhysicalPorts(body[..i + 1]) == ps + [body[i]];
      assert (ps + [body[i]])[..|ps|] == ps;
    }
  }

  /** The rows written for a list of records. */
  function PortRows(t: Tables, dpid: Dpid, stats: seq<PortStat>): (r: seq<PortRow>)
    ensures |r| == |stats|
    ensures forall k :: 0 <= k < |r| ==> r[k] == PortRow(dpid, stats[k].portNo, GetPortType(t, dpid, stats[k].portNo), stats[k])
  {
    if stats == [] then []
    else PortRows(t, dpid, stats[..|stats| - 1]) + [PortRow(dpid, stats[|stats| - 1].portNo, GetPortType(t, dpid, stats[|stats| - 1].portNo), stats[|stats| - 1])]
  }

  // ---------------------------------------------------------------------
  // handle_arp_packet

  /** The `opcode` label of the `arp_packets` counter: only opcode 1 is a
      request, every other opcode is counted as a reply. */
  function ArpOpcodeName(opcode: nat): (r: string)
    ensures r == "request" <==> opcode == ARP_REQUEST
    ensures r == "reply" <==> opcode != ARP_REQUEST
  {
    if opcode == ARP_REQUEST then "request" else "reply"
  }
}
