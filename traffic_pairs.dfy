/** The host enumeration of the traffic simulation script: the nine
    default hosts, and every pair of them (optionally only the pairs that
    cross the fabric) to run traffic between.  A host object is modelled by
    its name, which is what the script uses to find it and to read its
    leaf. */
module TrafficPairs {
  import opened Formatting
  import opened SpineLeafTopo

  type Host = string
  type HostPair = (Host, Host)

  // ---------------------------------------------------------------------
  // get_all_hosts

  /** `get_all_hosts`: `h<l><h>` for leaves 1..3 and hosts 1..3, leaf by
      leaf. */
  method GetAllHosts() returns (hosts: seq<Host>)
    ensures hosts == Grid(3, 3, HostName)
  {
    hosts := [];
    for l := 1 to 4
      invariant hosts == Grid(l - 1, 3, HostName)
    {
      for h := 1 to 4
        invariant hosts == Grid(l - 1, 3, HostName) + Row(l, h - 1, HostName)
      {
        hosts := hosts + ["h" + Dec(l) + Dec(h)];
      }
    }
  }

  /** The nine names, written out. */
  lemma DefaultHosts()
    ensures Grid(3, 3, HostName) == ["h11", "h12", "h13", "h21", "h22", "h23", "h31", "h32", "h33"]
  {
    var r1, r2, r3 := Row(1, 3, HostName), Row(2, 3, HostName), Row(3, 3, HostName);
    DefaultRow(1);
    assert r1 == ["h11", "h12", "h13"];
    DefaultRow(2);
    assert r2 == ["h21", "h22", "h23"];
    DefaultRow(3);
    assert r3 == ["h31", "h32", "h33"];
    assert Grid(1, 3, HostName) == r1;
    assert Grid(2, 3, HostName) == r1 + r2;
    assert Grid(3, 3, HostName) == r1 + r2 + r3;
  }

  /** The three names under one single-digit leaf. */
  lemma DefaultRow(l: nat)
    requires 1 <= l <= 9
    ensures Row(l, 3, HostName) == [['h', DigitChar(l), '1'], ['h', DigitChar(l), '2'], ['h', DigitChar(l), '3']]
  {
    SingleDigit(l, 10);
    SingleDigit(1, 10);
    SingleDigit(2, 10);
    SingleDigit(3, 10);
    assert HostName(l, 1) == ['h', DigitChar(l), '1'];
    assert HostName(l, 2) == ['h', DigitChar(l), '2'];
    assert HostName(l, 3) == ['h', DigitChar(l), '3'];
  }

  /** The names the script looks up are, in order, the names of the hosts
      the topology builder creates with its defaults (and, generally, with
      any leaf and host counts). */
  lemma HostNamesMatchBuild(numLeaves: nat, hostsPerLeaf: nat)
    ensures var names, hosts := Grid(numLeaves, hostsPerLeaf, HostName), Grid(numLeaves, hostsPerLeaf, HostRecOf);
      |names| == |hosts| && forall k :: 0 <= k < |names| ==> names[k] == hosts[k].name
  {
    GridProjection(numLeaves, hostsPerLeaf, HostName, HostRecOf, (r: HostRec) => r.name);
  }

  // ---------------------------------------------------------------------
  // get_host_pairs

  /** The pairs `(hosts[i], dst)` for `dst` in `hosts[i+1:j]`. */
  function RowPairs<T>(hosts: seq<T>, i: nat, j: nat): (r: seq<(T, T)>)
    requires i < j <= |hosts|
    ensures |r| == j - i - 1
    ensures forall k :: 0 <= k < |r| ==> r[k] == (hosts[i], hosts[i + 1 + k])
  {
    if j == i + 1 then [] else RowPairs(hosts, i, j - 1) + [(hosts[i], hosts[j - 1])]
  }

  /** The pairs of the first `i` sources, each source with every host
      after it. */
  function AllPairs<T>(hosts: seq<T>, i: nat): seq<(T, T)>
    requires i <= |hosts|
  {
    if i == 0 then [] else AllPairs(hosts, i - 1) + RowPairs(hosts, i - 1, |hosts|)
  }

  /** Two hosts on the same leaf: the second characters of their names
      (the leaf digit of `h<l><h>`) agree. */
  predicate SameLeaf(p: HostPair)
  {
    |p.0| >= 2 && |p.1| >= 2 && p.0[1] == p.1[1]
  }

  predicate Kept(p: HostPair, excludeSameLeaf: bool)
  {
    !excludeSameLeaf || !SameLeaf(p)
  }

  /** The pairs of `ps` that survive the `exclude_same_leaf` test, in
      order. */
  function Filter(ps: seq<HostPair>, excludeSameLeaf: bool): (r: seq<HostPair>)
    ensures |r| <= |ps|
  {
    if ps == [] then []
    else
      var last := ps[|ps| - 1];
      Filter(ps[..|ps| - 1], excludeSameLeaf) + if Kept(last, excludeSameLeaf) then [last] else []
  }

  /** Filtering a concatenation filters each part. */
  lemma {:induction false} FilterConcat(a: seq<HostPair>, b: seq<HostPair>, excludeSameLeaf: bool)
    ensures Filter(a + b, excludeSameLeaf) == Filter(a, excludeSameLeaf) + Filter(b, excludeSameLeaf)
    decreases |b|
  {
    if b == [] {
      assert a + b == a;
    } else {
      var b' := b[..|b| - 1];
      assert (a + b)[..|a + b| - 1] == a + b';
      FilterConcat(a, b', excludeSameLeaf);
    }
  }

  /** The loop of `get_host_pairs` over a list of hosts.  Names shorter
      than two characters would make the script fail with an index error
      when same-leaf pairs are excluded, so those are ruled out. */
  method HostPairs(hosts: seq<Host>, excludeSameLeaf: bool) returns (pairs: seq<HostPair>)
    requires excludeSameLeaf ==> forall k :: 0 <= k < |hosts| ==> |hosts[k]| >= 2
    ensures pairs == Filter(AllPairs(hosts, |hosts|), excludeSameLeaf)
  {
    pairs := [];
    for i := 0 to |hosts|
      invariant pairs == Filter(AllPairs(hosts, i), excludeSameLeaf)
    {
      var row := PairsFrom(hosts, i, excludeSameLeaf);
      HostPairsStep(hosts, i, excludeSameLeaf, pairs, row);
      pairs := pairs + row;
    }
  }

  /** The kept pairs of the first `i` sources, then those of source `i`,
      are the kept pairs of the first `i + 1` sources. */
  lemma HostPairsStep(hosts: seq<Host>, i: nat, excludeSameLeaf: bool, pairs: seq<HostPair>, row: seq<HostPair>)
    requires i < |hosts|
    requires pairs == Filter(AllPairs(hosts, i), excludeSameLeaf)
    requires row == Filter(RowPairs(hosts, i, |hosts|), excludeSameLeaf)
    ensures pairs + row == Filter(AllPairs(hosts, i + 1), excludeSameLeaf)
  {
    assert AllPairs(hosts, i + 1) == AllPairs(hosts, i) + RowPairs(hosts, i, |hosts|);
    FilterConcat(AllPairs(hosts, i), RowPairs(hosts, i, |hosts|), excludeSameLeaf);
  }

  /** The inner loop of `get_host_pairs`: source `hosts[i]` with each
      later host, skipping same-leaf pairs when asked to. */
  method PairsFrom(hosts: seq<Host>, i: nat, excludeSameLeaf: bool) returns (pairs: seq<HostPair>)
    requires i < |hosts|
    requires excludeSameLeaf ==> forall k :: 0 <= k < |hosts| ==> |hosts[k]| >= 2
    ensures pairs == Filter(RowPairs(hosts, i, |hosts|), excludeSameLeaf)
  {
    var src := hosts[i];
    pairs := [];
    for j := i + 1 to |hosts|
      invariant pairs == Filter(RowPairs(hosts, i, j), excludeSameLeaf)
    {
      var dst := hosts[j];
      if excludeSameLeaf {
        var srcLeaf := src[1];
        var dstLeaf := dst[1];
        if srcLeaf == dstLeaf {
          continue;
        }
      }
      pairs := pairs + [(src, dst)];
    }
  }

  /** `get_host_pairs(exclude_same_leaf)`. */
  method GetHostPairs(excludeSameLeaf: bool) returns (pairs: seq<HostPair>)
    ensures pairs == Filter(AllPairs(Grid(3, 3, HostName), 9), excludeSameLeaf)
  {
    var hosts := GetAllHosts();
    DefaultHosts();
    pairs := HostPairs(hosts, excludeSameLeaf);
  }

  // ---------------------------------------------------------------------
  // Properties of the enumeration

  /** `n` hosts give `n * (n - 1) / 2` pairs. */
  lemma {:induction false} PairCount<T>(hosts: seq<T>, i: nat)
    requires i <= |hosts|
    ensures 2 * |AllPairs(hosts, i)| == i * (2 * |hosts| - i - 1)
  {
    if i > 0 {
      PairCount(hosts, i - 1);
      AllPairsGrow(hosts, i);
      PairCountStep(|hosts|, i, |AllPairs(hosts, i - 1)|, |AllPairs(hosts, i)|);
    }
  }

  /** The arithmetic of one more source: `n - i` more pairs. */
  lemma PairCountStep(n: int, i: int, prev: int, cur: int)
    requires 2 * prev == (i - 1) * (2 * n - (i - 1) - 1)
    requires cur == prev + (n - i)
    ensures 2 * cur == i * (2 * n - i - 1)
  {
  }

  /** The pairs of the first `i` sources are those of the first `i - 1`,
      then the row of source `i - 1`. */
  lemma AllPairsSnoc<T>(hosts: seq<T>, i: nat)
    requires 0 < i <= |hosts|
    ensures AllPairs(hosts, i) == AllPairs(hosts, i - 1) + RowPairs(hosts, i - 1, |hosts|)
    ensures |AllPairs(hosts, i)| == |AllPairs(hosts, i - 1)| + (|hosts| - i)
  {
  }

  /** One more source adds `|hosts| - i` pairs. */
  lemma AllPairsGrow<T>(hosts: seq<T>, i: nat)
    requires 0 < i <= |hosts|
    ensures |AllPairs(hosts, i)| == |AllPairs(hosts, i - 1)| + (|hosts| - i)
  {
    AllPairsSnoc(hosts, i);
  }

  /** A pair is listed exactly when it is `(hosts[i], hosts[j])` with
      `i < j`. */
  lemma {:induction false} PairMember<T>(hosts: seq<T>, i: nat, p: (T, T))
    requires i <= |hosts|
    ensures p in AllPairs(hosts, i) <==>
      exists a, b :: 0 <= a < i && a < b < |hosts| && p == (hosts[a], hosts[b])
  {
    if i > 0 {
      var prev, row := AllPairs(hosts, i - 1), RowPairs(hosts, i - 1, |hosts|);
      assert AllPairs(hosts, i) == prev + row;
      PairMember(hosts, i - 1, p);
      RowMember(hosts, i - 1, p);
      if p in prev {
        var a, b :| 0 <= a < i - 1 && a < b < |hosts| && p == (hosts[a], hosts[b]);
        assert 0 <= a < i && a < b < |hosts| && p == (hosts[a], hosts[b]);
      } else if p in row {
        var b :| i - 1 < b < |hosts| && p == (hosts[i - 1], hosts[b]);
        assert 0 <= i - 1 < i && i - 1 < b < |hosts| && p == (hosts[i - 1], hosts[b]);
      }
      if exists a, b :: 0 <= a < i && a < b < |hosts| && p == (hosts[a], hosts[b]) {
        var a, b :| 0 <= a < i && a < b < |hosts| && p == (hosts[a], hosts[b]);
        if a < i - 1 {
          assert 0 <= a < i - 1 && a < b < |hosts| && p == (hosts[a], hosts[b]);
        }
      }
    }
  }

  /** A pair is in the row of source `i` exactly when it is
      `(hosts[i], hosts[b])` with `i < b`. */
  lemma RowMember<T>(hosts: seq<T>, i: nat, p: (T, T))
    requires i < |hosts|
    ensures p in RowPairs(hosts, i, |hosts|) <==> exists b :: i < b < |hosts| && p == (hosts[i], hosts[b])
  {
    var row := RowPairs(hosts, i, |hosts|);
    if p in row {
      var k :| 0 <= k < |row| && row[k] == p;
      assert p == (hosts[i], hosts[i + 1 + k]);
    }
    if exists b :: i < b < |hosts| && p == (hosts[i], hosts[b]) {
      var b :| i < b < |hosts| && p == (hosts[i], hosts[b]);
      assert row[b - i - 1] == p;
    }
  }

  /** With distinct hosts, no pair joins a host to itself, no pair is
      listed twice and no pair is listed in both orders: each unordered
      pair of hosts appears exactly once. */
  lemma PairsUnique<T>(hosts: seq<T>)
    requires NoDup(hosts)
    ensures var ps := AllPairs(hosts, |hosts|);
      && NoDup(ps)
      && forall p :: p in ps ==> p.0 != p.1 && (p.1, p.0) !in ps
  {
    var ps := AllPairs(hosts, |hosts|);
    forall p | p in ps ensures p.0 != p.1 && (p.1, p.0) !in ps {
      PairMember(hosts, |hosts|, p);
      PairMember(hosts, |hosts|, (p.1, p.0));
      var a, b :| 0 <= a < b < |hosts| && p == (hosts[a], hosts[b]);
      NoDupIndex(hosts, a, b);
      forall c, d | 0 <= c < d < |hosts| ensures (p.1, p.0) != (hosts[c], hosts[d]) {
        NoDupIndex(hosts, c, b);
        NoDupIndex(hosts, d, a);
      }
    }
    PairsNoDup(hosts, |hosts|);
  }

  /** Equal entries of a list without repetition sit at the same index. */
  lemma NoDupIndex<T>(s: seq<T>, i: nat, j: nat)
    requires NoDup(s) && i < |s| && j < |s|
    ensures s[i] == s[j] <==> i == j
  {
    if i < j {
      assert s[i] != s[j];
    } else if j < i {
      assert s[j] != s[i];
    }
  }

  lemma {:induction false} PairsNoDup<T>(hosts: seq<T>, i: nat)
    requires NoDup(hosts) && i <= |hosts|
    ensures NoDup(AllPairs(hosts, i))
  {
    if i > 0 {
      PairsNoDup(hosts, i - 1);
      var prev, row := AllPairs(hosts, i - 1), RowPairs(hosts, i - 1, |hosts|);
      AllPairsSnoc(hosts, i);
      RowNoDup(hosts, i - 1);
      RowsDisjoint(hosts, i - 1);
      NoDupConcat(prev, row);
    }
  }

  /** No pair of the first `i` sources' rows reappears in row `i`. */
  lemma RowsDisjoint<T>(hosts: seq<T>, i: nat)
    requires NoDup(hosts) && i < |hosts|
    ensures forall p :: p in AllPairs(hosts, i) ==> p !in RowPairs(hosts, i, |hosts|)
  {
    forall p | p in AllPairs(hosts, i) ensures p !in RowPairs(hosts, i, |hosts|) {
      RowDisjoint(hosts, i, p);
    }
  }

  /** One source's row has no repeated pair. */
  lemma RowNoDup<T>(hosts: seq<T>, i: nat)
    requires NoDup(hosts) && i < |hosts|
    ensures NoDup(RowPairs(hosts, i, |hosts|))
  {
    var row := RowPairs(hosts, i, |hosts|);
    forall x, y | 0 <= x < y < |row| ensures row[x] != row[y] {
      NoDupIndex(hosts, i + 1 + x, i + 1 + y);
    }
  }

  /** A pair of an earlier source is not in the row of source `i`. */
  lemma RowDisjoint<T>(hosts: seq<T>, i: nat, p: (T, T))
    requires NoDup(hosts) && i < |hosts|
    requires p in AllPairs(hosts, i)
    ensures p !in RowPairs(hosts, i, |hosts|)
  {
    var row := RowPairs(hosts, i, |hosts|);
    PairMember(hosts, i, p);
    var a, b :| 0 <= a < i && a < b < |hosts| && p == (hosts[a], hosts[b]);
    NoDupIndex(hosts, a, i);
    forall k | 0 <= k < |row| ensures row[k] != p {
      assert row[k].0 == hosts[i];
    }
  }

  /** Filtering keeps exactly the pairs that pass the test, and without
      the test keeps every pair. */
  lemma {:induction false} FilterMember(ps: seq<HostPair>, excludeSameLeaf: bool, p: HostPair)
    ensures p in Filter(ps, excludeSameLeaf) <==> p in ps && Kept(p, excludeSameLeaf)
    ensures !excludeSameLeaf ==> Filter(ps, excludeSameLeaf) == ps
  {
    if ps != [] {
      var init := ps[..|ps| - 1];
      FilterMember(init, excludeSameLeaf, p);
      assert ps == init + [ps[|ps| - 1]];
    }
  }

  /** `a` is `b` with some elements left out, order kept. */
  predicate Subsequence<T(==)>(a: seq<T>, b: seq<T>)
    decreases |b|
  {
    if a == [] then true
    else if b == [] then false
    else (a[|a| - 1] == b[|b| - 1] && Subsequence(a[..|a| - 1], b[..|b| - 1])) || Subsequence(a, b[..|b| - 1])
  }

  /** The filtered list is a subsequence of the unfiltered one. */
  lemma {:induction false} FilterSubsequence(ps: seq<HostPair>, excludeSameLeaf: bool)
    ensures Subsequence(Filter(ps, excludeSameLeaf), ps)
  {
    if ps != [] {
      var init := ps[..|ps| - 1];
      FilterSubsequence(init, excludeSameLeaf);
      var f := Filter(ps, excludeSameLeaf);
      if !Kept(ps[|ps| - 1], excludeSameLeaf) && f != [] {
        assert f == Filter(init, excludeSameLeaf);
      }
    }
  }

  /** Among the default hosts, two are on the same leaf by the name test
      exactly when they are on the same leaf of the built topology. */
  lemma SameLeafByName(a: nat, b: nat, c: nat, d: nat)
    requires 1 <= a <= 9 && b <= 9 && 1 <= c <= 9 && d <= 9
    ensures SameLeaf((HostName(a, b), HostName(c, d))) <==> a == c
  {
    SingleDigit(a, 10);
    SingleDigit(c, 10);
    assert HostName(a, b)[1] == DigitChar(a);
    assert HostName(c, d)[1] == DigitChar(c);
  }

  // ---------------------------------------------------------------------
  // Counting the default enumeration

  /** How many hosts after `hosts[i]` and before `hosts[j]` are on another
      leaf by the name test. */
  function CrossCount(hosts: seq<Host>, i: nat, j: nat): nat
    requires i < j <= |hosts|
  {
    if j == i + 1 then 0
    else CrossCount(hosts, i, j - 1) + if SameLeaf((hosts[i], hosts[j - 1])) then 0 else 1
  }

  /** The cross-leaf pairs of the first `m` sources. */
  function KeptTotal(hosts: seq<Host>, m: nat): nat
    requires m <= |hosts|
  {
    if m == 0 then 0 else KeptTotal(hosts, m - 1) + CrossCount(hosts, m - 1, |hosts|)
  }

  lemma {:induction false} RowKept(hosts: seq<Host>, i: nat, j: nat)
    requires i < j <= |hosts|
    ensures |Filter(RowPairs(hosts, i, j), true)| == CrossCount(hosts, i, j)
  {
    if j > i + 1 {
      RowKept(hosts, i, j - 1);
      assert RowPairs(hosts, i, j)[..j - i - 2] == RowPairs(hosts, i, j - 1);
    }
  }

  /** Excluding same-leaf pairs keeps `KeptTotal` pairs. */
  lemma {:induction false} AllKept(hosts: seq<Host>, m: nat)
    requires m <= |hosts|
    ensures |Filter(AllPairs(hosts, m), true)| == KeptTotal(hosts, m)
  {
    if m > 0 {
      AllKept(hosts, m - 1);
      KeptGrow(hosts, m);
    }
  }

  /** One more source keeps, besides the earlier sources' kept pairs,
      its cross-leaf partners. */
  lemma KeptGrow(hosts: seq<Host>, m: nat)
    requires 0 < m <= |hosts|
    ensures |Filter(AllPairs(hosts, m), true)|
         == |Filter(AllPairs(hosts, m - 1), true)| + CrossCount(hosts, m - 1, |hosts|)
  {
    AllPairsSnoc(hosts, m);
    FilterConcat(AllPairs(hosts, m - 1), RowPairs(hosts, m - 1, |hosts|), true);
    RowKept(hosts, m - 1, |hosts|);
  }

  /** For the nine default hosts `get_host_pairs()` yields 36 pairs and
      `get_host_pairs(exclude_same_leaf=True)` yields 27: the 9 pairs
      within a leaf (3 per leaf) are dropped. */
  lemma DefaultPairCounts()
    ensures |AllPairs(Grid(3, 3, HostName), 9)| == 36
    ensures |Filter(AllPairs(Grid(3, 3, HostName), 9), false)| == 36
    ensures |Filter(AllPairs(Grid(3, 3, HostName), 9), true)| == 27
  {
    DefaultHosts();
    var d := ["h11", "h12", "h13", "h21", "h22", "h23", "h31", "h32", "h33"];
    PairCount(d, 9);
    FilterMember(AllPairs(d, 9), false, ("", ""));
    AllKept(d, 9);
    DefaultKept();
  }

  /** Six cross-leaf partners for each host of leaf 1, three for each of
      leaf 2, none after the hosts of leaf 3. */
  lemma DefaultKept()
    ensures KeptTotal(["h11", "h12", "h13", "h21", "h22", "h23", "h31", "h32", "h33"], 9) == 27
  {
    var d := ["h11", "h12", "h13", "h21", "h22", "h23", "h31", "h32", "h33"];
    assert CrossCount(d, 0, 9) == 6 && CrossCount(d, 1, 9) == 6 && CrossCount(d, 2, 9) == 6;
    assert CrossCount(d, 3, 9) == 3 && CrossCount(d, 4, 9) == 3 && CrossCount(d, 5, 9) == 3;
    assert CrossCount(d, 6, 9) == 0 && CrossCount(d, 7, 9) == 0 && CrossCount(d, 8, 9) == 0;
    assert KeptTotal(d, 3) == 18;
    assert KeptTotal(d, 6) == 27;
  }
}
