/** The Mininet topology the controller is written for: `num_spines`
    spine switches, `num_leaves` leaf switches, `hosts_per_leaf` hosts
    under each leaf, and a full mesh of leaf-spine links.  The builder
    calls `addSwitch`, `addHost` and `addLink` in a fixed order; the model
    records those calls as three lists. */
module SpineLeafTopo {
  import opened Common
  import opened Formatting
  import Metrics

  /** `addSwitch(name, dpid=..., protocols='OpenFlow13')` */
  datatype SwitchRec = SwitchRec(name: string, dpid: string)
  /** `addHost(name, ip=...)` */
  datatype HostRec = HostRec(name: string, ip: string)
  /** `addLink(node1, node2, bw=..., delay=...)` on a traffic-controlled
      link: bandwidth in Mbit/s, and the delay string when one is given. */
  datatype LinkRec = LinkRec(node1: string, node2: string, bw: nat, delay: Option<string>)

  const HOST_LINK_BW: nat := 1
  const FABRIC_LINK_BW: nat := 10
  const FABRIC_LINK_DELAY: string := "1ms"

  // ---------------------------------------------------------------------
  // Names, addresses and records of one node or link

  function SpineName(s: nat): string { "s" + Dec(s) }
  function LeafName(l: nat): string { "l" + Dec(l) }
  /** `"h{}{}".format(l, h)`: an `h`, then at least one character for
      the leaf and one for the host. */
  function HostName(l: nat, h: nat): (r: string)
    ensures |r| >= 3
  {
    "h" + Dec(l) + Dec(h)
  }

  /** `int("{}{}".format(l, h))`: the last octet of host `h` under leaf
      `l`, which is `l` shifted left by as many decimal places as `h` has
      digits, plus `h`. */
  function Octet(l: nat, h: nat): (r: nat)
    ensures r == l * Pow(10, |Dec(h)|) + h
  {
    DecRoundTrip(l);
    DecRoundTrip(h);
    ValueConcat(Dec(l), Dec(h), 10);
    Value(Dec(l) + Dec(h), 10)
  }

  /** `"10.0.0.{}/24".format(last_octet)` */
  function HostIp(l: nat, h: nat): (r: string)
    ensures |r| > 10 && r[..7] == "10.0.0." && r[|r| - 3..] == "/24"
  {
    "10.0.0." + Dec(Octet(l, h)) + "/24"
  }

  /** Spine `s` has datapath id `s`. */
  function SpineRec(s: nat): SwitchRec { SwitchRec(SpineName(s), Hex016(s)) }
  /** Leaf `l` has datapath id `numSpines + l`, so leaf ids follow the spines'. */
  function LeafRec(numSpines: nat, l: nat): SwitchRec { SwitchRec(LeafName(l), Hex016(numSpines + l)) }
  function HostRecOf(l: nat, h: nat): HostRec { HostRec(HostName(l, h), HostIp(l, h)) }
  /** The access link of host `h`, from its leaf `l`. */
  function HostLink(l: nat, h: nat): LinkRec { LinkRec(LeafName(l), HostName(l, h), HOST_LINK_BW, None) }
  /** The fabric link from leaf `l` to spine `s`. */
  function FabricLink(l: nat, s: nat): LinkRec
  {
    LinkRec(LeafName(l), SpineName(s), FABRIC_LINK_BW, Some(FABRIC_LINK_DELAY))
  }

  // ---------------------------------------------------------------------
  // What the loops produce

  /** Spines 1..n, in order. */
  function Spines(n: nat): (r: seq<SwitchRec>)
    ensures |r| == n && forall k :: 0 <= k < n ==> r[k] == SpineRec(k + 1)
  {
    if n == 0 then [] else Spines(n - 1) + [SpineRec(n)]
  }

  /** Leaves 1..n, in order. */
  function Leaves(numSpines: nat, n: nat): (r: seq<SwitchRec>)
    ensures |r| == n && forall k :: 0 <= k < n ==> r[k] == LeafRec(numSpines, k + 1)
  {
    if n == 0 then [] else Leaves(numSpines, n - 1) + [LeafRec(numSpines, n)]
  }

  /** What the inner loop of a nested loop appends for outer index `i`:
      `f(i, 1)`, ..., `f(i, n)`. */
  function Row<T>(i: nat, n: nat, f: (nat, nat) -> T): (r: seq<T>)
    ensures |r| == n && forall k :: 0 <= k < n ==> r[k] == f(i, k + 1)
  {
    if n == 0 then [] else Row(i, n - 1, f) + [f(i, n)]
  }

  /** What a nested loop appends in all: rows 1..m of `n` elements each. */
  function Grid<T>(m: nat, n: nat, f: (nat, nat) -> T): (r: seq<T>)
    ensures |r| == m * n
  {
    if m == 0 then [] else Grid(m - 1, n, f) + Row(m, n, f)
  }

  /** Two nested loops over the same bounds line up element by element:
      when `p` recovers `f`'s element from `g`'s, it does so at every
      position of the two grids. */
  lemma {:induction false} GridProjection<A, B>(m: nat, n: nat, f: (nat, nat) -> A, g: (nat, nat) -> B, p: B -> A)
    requires forall i: nat, j: nat :: p(g(i, j)) == f(i, j)
    ensures var u, v := Grid(m, n, f), Grid(m, n, g);
      |u| == |v| && forall k :: 0 <= k < |u| ==> u[k] == p(v[k])
  {
    if m > 0 {
      GridProjection(m - 1, n, f, g, p);
      var u, v := Grid(m - 1, n, f), Grid(m - 1, n, g);
      var ru, rv := Row(m, n, f), Row(m, n, g);
      assert Grid(m, n, f) == u + ru;
      assert Grid(m, n, g) == v + rv;
      forall k | 0 <= k < |u + ru| ensures (u + ru)[k] == p((v + rv)[k]) {
        if k >= |u| {
          assert ru[k - |u|] == f(m, k - |u| + 1) && rv[k - |u|] == g(m, k - |u| + 1);
        }
      }
    }
  }

  function Names(s: seq<SwitchRec>): (r: seq<string>)
    ensures |r| == |s| && forall k :: 0 <= k < |s| ==> r[k] == s[k].name
  {
    if s == [] then [] else Names(s[..|s| - 1]) + [s[|s| - 1].name]
  }

  // ---------------------------------------------------------------------
  // The builder

  /** `SpineLeafTopo.build`: spines first, then each leaf followed by its
      hosts and their access links, then every leaf-spine link with the
      leaf loop outermost. */
  method Build(numSpines: nat, numLeaves: nat, hostsPerLeaf: nat)
    returns (switches: seq<SwitchRec>, hosts: seq<HostRec>, links: seq<LinkRec>)
    ensures switches == Spines(numSpines) + Leaves(numSpines, numLeaves)
    ensures hosts == Grid(numLeaves, hostsPerLeaf, HostRecOf)
    ensures links == Grid(numLeaves, hostsPerLeaf, HostLink) + Grid(numLeaves, numSpines, FabricLink)
  {
    var spineSwitches := AddSpines(numSpines);
    var leafSwitches, hostLinks;
    leafSwitches, hosts, hostLinks := AddLeaves(numSpines, numLeaves, hostsPerLeaf);
    var fabric := AddFabric(Names(leafSwitches), Names(spineSwitches));
    switches := spineSwitches + leafSwitches;
    links := hostLinks + fabric;
  }

  /** The spine loop of `build`. */
  method AddSpines(numSpines: nat) returns (switches: seq<SwitchRec>)
    ensures switches == Spines(numSpines)
  {
    switches := [];
    for s := 1 to numSpines + 1
      invariant switches == Spines(s - 1)
    {
      switches := switches + [SwitchRec(SpineName(s), Hex016(s))];
    }
  }

  /** The leaf loop of `build`, with the host loop nested in it. */
  method AddLeaves(numSpines: nat, numLeaves: nat, hostsPerLeaf: nat)
    returns (switches: seq<SwitchRec>, hosts: seq<HostRec>, links: seq<LinkRec>)
    ensures switches == Leaves(numSpines, numLeaves)
    ensures hosts == Grid(numLeaves, hostsPerLeaf, HostRecOf)
    ensures links == Grid(numLeaves, hostsPerLeaf, HostLink)
  {
    switches, hosts, links := [], [], [];
    for l := 1 to numLeaves + 1
      invariant switches == Leaves(numSpines, l - 1)
      invariant hosts == Grid(l - 1, hostsPerLeaf, HostRecOf)
      invariant links == Grid(l - 1, hostsPerLeaf, HostLink)
    {
      var swId := numSpines + l;
      var leaf := SwitchRec(LeafName(l), Hex016(swId));
      switches := switches + [leaf];
      var leafHosts, leafLinks := AddHosts(l, leaf.name, hostsPerLeaf);
      hosts := hosts + leafHosts;
      links := links + leafLinks;
    }
  }

  /** The host loop nested in the leaf loop: the hosts of leaf `l`, each
      with its access link from the leaf named `leafName`. */
  method AddHosts(l: nat, leafName: string, hostsPerLeaf: nat)
    returns (hosts: seq<HostRec>, links: seq<LinkRec>)
    requires leafName == LeafName(l)
    ensures hosts == Row(l, hostsPerLeaf, HostRecOf)
    ensures links == Row(l, hostsPerLeaf, HostLink)
  {
    hosts, links := [], [];
    for h := 1 to hostsPerLeaf + 1
      invariant hosts == Row(l, h - 1, HostRecOf)
      invariant links == Row(l, h - 1, HostLink)
    {
      var lastOctet := Octet(l, h);
      var host := HostRec(HostName(l, h), "10.0.0." + Dec(lastOctet) + "/24");
      hosts := hosts + [host];
      links := links + [LinkRec(leafName, host.name, HOST_LINK_BW, None)];
    }
  }

  /** The fabric loop of `build`: every leaf to every spine, leaves
      outermost, over the name lists the first two loops collected. */
  method AddFabric(leaves: seq<string>, spines: seq<string>) returns (links: seq<LinkRec>)
    requires forall k :: 0 <= k < |leaves| ==> leaves[k] == LeafName(k + 1)
    requires forall k :: 0 <= k < |spines| ==> spines[k] == SpineName(k + 1)
    ensures links == Grid(|leaves|, |spines|, FabricLink)
  {
    links := [];
    for i := 0 to |leaves|
      invariant links == Grid(i, |spines|, FabricLink)
    {
      for j := 0 to |spines|
        invariant links == Grid(i, |spines|, FabricLink) + Row(i + 1, j, FabricLink)
      {
        links := links + [LinkRec(leaves[i], spines[j], FABRIC_LINK_BW, Some(FABRIC_LINK_DELAY))];
      }
    }
  }

  // ---------------------------------------------------------------------
  // Lists without repetition, and what a nested loop produces

  predicate NoDup<T(==)>(s: seq<T>)
  {
    forall i, j :: 0 <= i < j < |s| ==> s[i] != s[j]
  }

  /** In a list without repetition each member occurs exactly once. */
  lemma {:induction false} NoDupCount<T>(s: seq<T>, x: T)
    requires NoDup(s) && x in s
    ensures multiset(s)[x] == 1
  {
    var s', y := s[..|s| - 1], s[|s| - 1];
    assert s == s' + [y];
    if y == x {
      assert x !in s' by {
        forall i | 0 <= i < |s'| ensures s'[i] != x {
          assert s[i] != s[|s| - 1];
        }
      }
    } else {
      NoDupCount(s', x);
    }
  }

  lemma NoDupConcat<T>(a: seq<T>, b: seq<T>)
    requires NoDup(a) && NoDup(b)
    requires forall x :: x in a ==> x !in b
    ensures NoDup(a + b)
  {
    forall i, j | 0 <= i < j < |a + b| ensures (a + b)[i] != (a + b)[j] {
      if j < |a| {
        assert a[i] != a[j];
      } else if i >= |a| {
        assert b[i - |a|] != b[j - |a|];
      } else {
        assert (a + b)[i] in a && (a + b)[j] in b;
      }
    }
  }

  /** `f` gives different values at different index pairs of the grid. */
  ghost predicate InjectiveOn<T>(f: (nat, nat) -> T, m: nat, n: nat)
  {
    forall a: nat, b: nat, c: nat, d: nat ::
      1 <= a <= m && 1 <= b <= n && 1 <= c <= m && 1 <= d <= n && f(a, b) == f(c, d) ==> a == c && b == d
  }

  /** The members of a grid are the values at its index pairs. */
  lemma {:induction false} GridMember<T>(m: nat, n: nat, f: (nat, nat) -> T, x: T)
    ensures x in Grid(m, n, f) <==> exists a: nat, b: nat :: 1 <= a <= m && 1 <= b <= n && x == f(a, b)
  {
    if m > 0 {
      GridMember(m - 1, n, f, x);
      var r := Row(m, n, f);
      if x in r {
        var k :| 0 <= k < n && r[k] == x;
        assert x == f(m, k + 1);
      }
      if exists a: nat, b: nat :: 1 <= a <= m && 1 <= b <= n && x == f(a, b) {
        var a: nat, b: nat :| 1 <= a <= m && 1 <= b <= n && x == f(a, b);
        if a == m {
          assert r[b - 1] == x;
        }
      }
    }
  }

  /** A grid of an injective function has no repetition. */
  lemma {:induction false} GridNoDup<T>(m: nat, n: nat, f: (nat, nat) -> T)
    requires InjectiveOn(f, m, n)
    ensures NoDup(Grid(m, n, f))
  {
    if m > 0 {
      assert InjectiveOn(f, m - 1, n);
      GridNoDup(m - 1, n, f);
      var r := Row(m, n, f);
      assert NoDup(r) by {
        forall i, j | 0 <= i < j < n ensures r[i] != r[j] {
          assert r[i] == f(m, i + 1) && r[j] == f(m, j + 1);
        }
      }
      forall x | x in Grid(m - 1, n, f) ensures x !in r {
        GridMember(m - 1, n, f, x);
        var a: nat, b: nat :| 1 <= a <= m - 1 && 1 <= b <= n && x == f(a, b);
        forall k | 0 <= k < n ensures r[k] != x {
          assert r[k] == f(m, k + 1);
        }
      }
      NoDupConcat(Grid(m - 1, n, f), r);
    }
  }

  // ---------------------------------------------------------------------
  // Names

  /** Different spine numbers give different names. */
  lemma SpineNameInjective(s: nat, t: nat)
    requires SpineName(s) == SpineName(t)
    ensures s == t
  {
    assert Dec(s) == SpineName(s)[1..];
    DecInjective(s, t);
  }

  lemma LeafNameInjective(l: nat, m: nat)
    requires LeafName(l) == LeafName(m)
    ensures l == m
  {
    assert Dec(l) == LeafName(l)[1..];
    DecInjective(l, m);
  }

  /** With at most nine hosts per leaf a host name determines its leaf and
      its position: the host number is the last digit, the leaf number
      what comes between it and the 'h'. */
  lemma HostNameInjective(l: nat, h: nat, m: nat, g: nat)
    requires h <= 9 && g <= 9
    requires HostName(l, h) == HostName(m, g)
    ensures l == m && h == g
  {
    SingleDigit(h, 10);
    SingleDigit(g, 10);
    var x := HostName(l, h);
    assert x[|x| - 1] == DigitChar(h);
    assert CharValue(DigitChar(h)) == h && CharValue(DigitChar(g)) == g;
    assert Dec(l) == x[1..|x| - 1];
    assert Dec(m) == HostName(m, g)[1..|x| - 1];
    DecInjective(l, m);
  }

  /** Host, leaf and spine names never coincide: they start with
      different letters. */
  lemma NameKinds(l: nat, h: nat, s: nat, m: nat)
    ensures HostName(l, h)[0] == 'h' && LeafName(m)[0] == 'l' && SpineName(s)[0] == 's'
    ensures HostName(l, h) != LeafName(m) && HostName(l, h) != SpineName(s)
    ensures LeafName(m) != SpineName(s)
  {
    assert HostName(l, h) == "h" + (Dec(l) + Dec(h));
  }

  /** `"{}{}".format(l, h)` read as a number is `10 * l + h` while `h` has
      one digit. */
  lemma OctetFormula(l: nat, h: nat)
    requires h <= 9
    ensures Octet(l, h) == 10 * l + h
  {
    DecConcatOneDigit(l, h);
  }

  /** With ten or more hosts per leaf two hosts can get the same name and
      the same address: host 11 of leaf 1 and host 1 of leaf 11 are both
      "h111" at 10.0.0.111. */
  lemma HostNamesCollide()
    ensures HostName(1, 11) == HostName(11, 1)
    ensures HostIp(1, 11) == HostIp(11, 1)
  {
    assert Dec(11) == Dec(1) + Dec(1);
    assert Dec(1) + Dec(11) == Dec(11) + Dec(1);
  }

  lemma Unframe(p: string, a: string, b: string, q: string)
    requires p + a + q == p + b + q
    ensures a == b
  {
    assert |a| == |b|;
    assert a == (p + a + q)[|p|..|p| + |a|];
  }

  // ---------------------------------------------------------------------
  // Properties of the built topology

  /** Switch `k` of the list: spine `k + 1`, or leaf `k + 1 - num_spines`,
      with datapath id `k + 1` either way. */
  lemma SwitchAt(numSpines: nat, numLeaves: nat, k: nat)
    requires k < numSpines + numLeaves
    ensures var sw := Spines(numSpines) + Leaves(numSpines, numLeaves);
      && sw[k].dpid == Hex016(k + 1)
      && sw[k].name == if k < numSpines then SpineName(k + 1) else LeafName(k - numSpines + 1)
  {
    if k >= numSpines {
      assert (Spines(numSpines) + Leaves(numSpines, numLeaves))[k] == Leaves(numSpines, numLeaves)[k - numSpines];
    }
  }

  /** Switch `k` of the list (spines, then leaves) has datapath id
      `k + 1`: its DPID string reads back as that number in base 16.  So
      spines are 1..num_spines, leaves num_spines+1..num_spines+num_leaves,
      and no two switches share a DPID or a name. */
  lemma SwitchIds(numSpines: nat, numLeaves: nat)
    ensures var sw := Spines(numSpines) + Leaves(numSpines, numLeaves);
      && (forall k :: 0 <= k < |sw| ==> AllDigits(sw[k].dpid, 16) && Value(sw[k].dpid, 16) == k + 1)
      && (forall i, j :: 0 <= i < j < |sw| ==> sw[i].dpid != sw[j].dpid && sw[i].name != sw[j].name)
  {
    var sw := Spines(numSpines) + Leaves(numSpines, numLeaves);
    forall k | 0 <= k < |sw| ensures AllDigits(sw[k].dpid, 16) && Value(sw[k].dpid, 16) == k + 1 {
      SwitchAt(numSpines, numLeaves, k);
    }
    forall i, j | 0 <= i < j < |sw| ensures sw[i].dpid != sw[j].dpid && sw[i].name != sw[j].name {
      DistinctDpids(numSpines, numLeaves, i, j);
      DistinctSwitchNames(numSpines, numLeaves, i, j);
    }
  }

  lemma DistinctDpids(numSpines: nat, numLeaves: nat, i: nat, j: nat)
    requires i < j < numSpines + numLeaves
    ensures var sw := Spines(numSpines) + Leaves(numSpines, numLeaves);
      sw[i].dpid != sw[j].dpid
  {
    SwitchDpid(numSpines, numLeaves, i);
    SwitchDpid(numSpines, numLeaves, j);
    Hex016Distinct(i + 1, j + 1);
  }

  lemma SwitchDpid(numSpines: nat, numLeaves: nat, k: nat)
    requires k < numSpines + numLeaves
    ensures (Spines(numSpines) + Leaves(numSpines, numLeaves))[k].dpid == Hex016(k + 1)
  {
    SwitchAt(numSpines, numLeaves, k);
  }

  lemma DistinctSwitchNames(numSpines: nat, numLeaves: nat, i: nat, j: nat)
    requires i < j < numSpines + numLeaves
    ensures var sw := Spines(numSpines) + Leaves(numSpines, numLeaves);
      sw[i].name != sw[j].name
  {
    SwitchAt(numSpines, numLeaves, i);
    SwitchAt(numSpines, numLeaves, j);
    DistinctNames(numSpines, i, j);
  }

  /** The names `build` gives to switch positions `i` and `j`. */
  lemma DistinctNames(numSpines: nat, i: nat, j: nat)
    requires i < j
    ensures (if i < numSpines then SpineName(i + 1) else LeafName(i - numSpines + 1))
         != (if j < numSpines then SpineName(j + 1) else LeafName(j - numSpines + 1))
  {
    if j < numSpines {
      if SpineName(i + 1) == SpineName(j + 1) {
        SpineNameInjective(i + 1, j + 1);
      }
    } else if i >= numSpines {
      if LeafName(i - numSpines + 1) == LeafName(j - numSpines + 1) {
        LeafNameInjective(i - numSpines + 1, j - numSpines + 1);
      }
    } else {
      NameKinds(0, 0, i + 1, j - numSpines + 1);
    }
  }

  /** Every DPID string is exactly 16 lowercase hexadecimal digits as long
      as there are fewer than 16^16 switches. */
  lemma DpidShape(numSpines: nat, numLeaves: nat)
    requires numSpines + numLeaves < Pow(16, 16)
    ensures var sw := Spines(numSpines) + Leaves(numSpines, numLeaves);
      forall k :: 0 <= k < |sw| ==> |sw[k].dpid| == 16 && AllDigits(sw[k].dpid, 16)
  {
    var sw := Spines(numSpines) + Leaves(numSpines, numLeaves);
    forall k | 0 <= k < |sw| ensures |sw[k].dpid| == 16 && AllDigits(sw[k].dpid, 16) {
      SwitchAt(numSpines, numLeaves, k);
      Hex016Shape(k + 1);
    }
  }

  /** The metrics exporter's rule (a spine exactly when the datapath id is
      at most 2) gives every id of the built fabric the role `build` gave
      it: ids 1..num_spines are spines (see `SwitchIds`). */
  ghost predicate TypingAgrees(numSpines: nat, numLeaves: nat)
  {
    forall id: nat :: 1 <= id <= numSpines + numLeaves ==>
      (Metrics.GetSwitchType(id) == Metrics.Spine <==> id <= numSpines)
  }

  /** That rule classifies every switch of the built fabric as it was
      built exactly when the fabric has the default two spines (given at
      least three switches, or any leaf at all). */
  lemma SpineRuleMatchesBuild(numSpines: nat, numLeaves: nat)
    requires numSpines >= 3 || numLeaves >= 1
    ensures TypingAgrees(numSpines, numLeaves) <==> numSpines == 2
  {
    if numSpines >= 3 {
      assert Metrics.GetSwitchType(3) == Metrics.Leaf;
    } else if numSpines != 2 {
      assert Metrics.GetSwitchType(numSpines + 1) == Metrics.Spine;
    }
  }

  /** `build`'s link list, in order. */
  function BuiltLinks(numSpines: nat, numLeaves: nat, hostsPerLeaf: nat): seq<LinkRec>
  {
    Grid(numLeaves, hostsPerLeaf, HostLink) + Grid(numLeaves, numSpines, FabricLink)
  }

  /** The topology has `num_leaves * hosts_per_leaf` hosts and as many
      access links, plus `num_leaves * num_spines` fabric links; every
      link is one of the two kinds. */
  lemma LinkInventory(numSpines: nat, numLeaves: nat, hostsPerLeaf: nat, x: LinkRec)
    ensures |Grid(numLeaves, hostsPerLeaf, HostRecOf)| == numLeaves * hostsPerLeaf
    ensures |BuiltLinks(numSpines, numLeaves, hostsPerLeaf)| == numLeaves * hostsPerLeaf + numLeaves * numSpines
    ensures x in BuiltLinks(numSpines, numLeaves, hostsPerLeaf) <==>
      (exists l: nat, h: nat :: 1 <= l <= numLeaves && 1 <= h <= hostsPerLeaf && x == HostLink(l, h)) ||
      (exists l: nat, s: nat :: 1 <= l <= numLeaves && 1 <= s <= numSpines && x == FabricLink(l, s))
  {
    GridMember(numLeaves, hostsPerLeaf, HostLink, x);
    GridMember(numLeaves, numSpines, FabricLink, x);
  }

  lemma FabricLinkInjective(numLeaves: nat, numSpines: nat)
    ensures InjectiveOn(FabricLink, numLeaves, numSpines)
  {
    forall a: nat, b: nat, c: nat, d: nat |
      1 <= a <= numLeaves && 1 <= b <= numSpines && 1 <= c <= numLeaves && 1 <= d <= numSpines &&
      FabricLink(a, b) == FabricLink(c, d)
      ensures a == c && b == d
    {
      LeafNameInjective(a, c);
      SpineNameInjective(b, d);
    }
  }

  /** No access link goes to a spine. */
  lemma NoFabricLinkAmongHostLinks(numLeaves: nat, hostsPerLeaf: nat, l: nat, s: nat)
    ensures FabricLink(l, s) !in Grid(numLeaves, hostsPerLeaf, HostLink)
  {
    GridMember(numLeaves, hostsPerLeaf, HostLink, FabricLink(l, s));
    forall a: nat, b: nat ensures FabricLink(l, s) != HostLink(a, b) {
      NameKinds(a, b, s, l);
    }
  }

  /** Each leaf is linked to each spine exactly once. */
  lemma FabricLinksOnce(numSpines: nat, numLeaves: nat, hostsPerLeaf: nat, l: nat, s: nat)
    requires 1 <= l <= numLeaves && 1 <= s <= numSpines
    ensures multiset(BuiltLinks(numSpines, numLeaves, hostsPerLeaf))[FabricLink(l, s)] == 1
  {
    var x := FabricLink(l, s);
    var hostLinks, fabric := Grid(numLeaves, hostsPerLeaf, HostLink), Grid(numLeaves, numSpines, FabricLink);
    NoFabricLinkAmongHostLinks(numLeaves, hostsPerLeaf, l, s);
    FabricLinkInjective(numLeaves, numSpines);
    GridNoDup(numLeaves, numSpines, FabricLink);
    GridMember(numLeaves, numSpines, FabricLink, x);
    NoDupCount(fabric, x);
    assert multiset(hostLinks + fabric) == multiset(hostLinks) + multiset(fabric);
  }

  lemma HostLinkInjective(numLeaves: nat, hostsPerLeaf: nat)
    requires hostsPerLeaf <= 9
    ensures InjectiveOn(HostLink, numLeaves, hostsPerLeaf)
    ensures InjectiveOn(HostRecOf, numLeaves, hostsPerLeaf)
  {
    forall a: nat, b: nat, c: nat, d: nat |
      1 <= a <= numLeaves && 1 <= b <= hostsPerLeaf && 1 <= c <= numLeaves && 1 <= d <= hostsPerLeaf &&
      HostName(a, b) == HostName(c, d)
      ensures a == c && b == d
    {
      HostNameInjective(a, b, c, d);
    }
  }

  /** With at most nine hosts per leaf, each host has exactly one link:
      the access link from its own leaf, listed once. */
  lemma HostLinkedOnce(numSpines: nat, numLeaves: nat, hostsPerLeaf: nat, l: nat, h: nat)
    requires hostsPerLeaf <= 9 && 1 <= l <= numLeaves && 1 <= h <= hostsPerLeaf
    ensures var links := BuiltLinks(numSpines, numLeaves, hostsPerLeaf);
      && multiset(links)[HostLink(l, h)] == 1
      && forall x :: x in links && (x.node1 == HostName(l, h) || x.node2 == HostName(l, h)) ==> x == HostLink(l, h)
  {
    var y := HostLink(l, h);
    var hostLinks, fabric := Grid(numLeaves, hostsPerLeaf, HostLink), Grid(numLeaves, numSpines, FabricLink);
    HostLinkInjective(numLeaves, hostsPerLeaf);
    GridNoDup(numLeaves, hostsPerLeaf, HostLink);
    GridMember(numLeaves, hostsPerLeaf, HostLink, y);
    NoDupCount(hostLinks, y);
    NoHostLinkAmongFabric(numLeaves, numSpines, l, h);
    assert multiset(hostLinks + fabric) == multiset(hostLinks) + multiset(fabric);
    forall x: LinkRec | x in hostLinks + fabric && (x.node1 == HostName(l, h) || x.node2 == HostName(l, h))
      ensures x == y
    {
      OnlyLinkOfHost(numSpines, numLeaves, hostsPerLeaf, l, h, x);
    }
  }

  /** No fabric link goes to a host. */
  lemma NoHostLinkAmongFabric(numLeaves: nat, numSpines: nat, l: nat, h: nat)
    ensures HostLink(l, h) !in Grid(numLeaves, numSpines, FabricLink)
  {
    GridMember(numLeaves, numSpines, FabricLink, HostLink(l, h));
    forall a: nat, b: nat ensures HostLink(l, h) != FabricLink(a, b) {
      NameKinds(l, h, b, a);
    }
  }

  lemma OnlyLinkOfHost(numSpines: nat, numLeaves: nat, hostsPerLeaf: nat, l: nat, h: nat, x: LinkRec)
    requires hostsPerLeaf <= 9 && h <= 9
    requires x in BuiltLinks(numSpines, numLeaves, hostsPerLeaf)
    requires x.node1 == HostName(l, h) || x.node2 == HostName(l, h)
    ensures x == HostLink(l, h)
  {
    LinkInventory(numSpines, numLeaves, hostsPerLeaf, x);
    if exists a: nat, b: nat :: 1 <= a <= numLeaves && 1 <= b <= hostsPerLeaf && x == HostLink(a, b) {
      var a: nat, b: nat :| 1 <= a <= numLeaves && 1 <= b <= hostsPerLeaf && x == HostLink(a, b);
      NameKinds(l, h, 0, a);
      HostNameInjective(a, b, l, h);
    } else {
      var a: nat, b: nat :| 1 <= a <= numLeaves && 1 <= b <= numSpines && x == FabricLink(a, b);
      NameKinds(l, h, b, a);
    }
  }

  /** With at most nine hosts per leaf no two hosts share a name or an
      address. */
  lemma HostsDistinct(numLeaves: nat, hostsPerLeaf: nat)
    requires hostsPerLeaf <= 9
    ensures var hosts := Grid(numLeaves, hostsPerLeaf, HostRecOf);
      forall i, j :: 0 <= i < j < |hosts| ==> hosts[i].name != hosts[j].name && hosts[i].ip != hosts[j].ip
  {
    var hosts := Grid(numLeaves, hostsPerLeaf, HostRecOf);
    HostLinkInjective(numLeaves, hostsPerLeaf);
    GridNoDup(numLeaves, hostsPerLeaf, HostRecOf);
    forall i, j | 0 <= i < j < |hosts| ensures hosts[i].name != hosts[j].name && hosts[i].ip != hosts[j].ip {
      GridMember(numLeaves, hostsPerLeaf, HostRecOf, hosts[i]);
      GridMember(numLeaves, hostsPerLeaf, HostRecOf, hosts[j]);
      var a: nat, b: nat :| 1 <= a <= numLeaves && 1 <= b <= hostsPerLeaf && hosts[i] == HostRecOf(a, b);
      var c: nat, d: nat :| 1 <= c <= numLeaves && 1 <= d <= hostsPerLeaf && hosts[j] == HostRecOf(c, d);
      assert hosts[i] != hosts[j];
      if hosts[i].name == hosts[j].name {
        HostNameInjective(a, b, c, d);
      }
      if hosts[i].ip == hosts[j].ip {
        Unframe("10.0.0.", Dec(Octet(a, b)), Dec(Octet(c, d)), "/24");
        DecInjective(Octet(a, b), Octet(c, d));
        OctetFormula(a, b);
        OctetFormula(c, d);
      }
    }
  }
}
