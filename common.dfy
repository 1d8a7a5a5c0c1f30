/** Helpers shared by the whole model: an optional value, the ascending
    enumeration of a finite set of naturals (Python's `sorted(...)`), and
    per-key tallies (a Python `dict` of counters). */
module Common {

  datatype Option<+T> = None | Some(value: T)

  /** Strictly ascending, hence free of duplicates. */
  predicate StrictlyIncreasing(s: seq<nat>)
  {
    forall i, j :: 0 <= i < j < |s| ==> s[i] < s[j]
  }

  predicate IsMin(m: nat, s: set<nat>)
  {
    m in s && forall y :: y in s ==> m <= y
  }

  lemma {:induction false} MinExists(s: set<nat>)
    requires s != {}
    ensures exists m :: IsMin(m, s)
  {
    var x :| x in s;
    if s == {x} {
      assert IsMin(x, s);
    } else {
      MinExists(s - {x});
      var m :| IsMin(m, s - {x});
      forall y | y in s ensures x <= y || m <= y {
        if y != x {
          assert y in s - {x};
        }
      }
      if x < m {
        assert IsMin(x, s);
      } else {
        assert IsMin(m, s);
      }
    }
  }

  /** The least element of a non-empty set. */
  function MinOf(s: set<nat>): (m: nat)
    requires s != {}
    ensures m in s
    ensures forall y :: y in s ==> m <= y
  {
    MinExists(s);
    var m :| IsMin(m, s);
    m
  }

  /** `sorted(s)`: the elements of `s`, each once, in ascending order. */
  function SortedSeq(s: set<nat>): (r: seq<nat>)
    ensures StrictlyIncreasing(r)
    ensures |r| == |s|
    ensures forall x :: x in r <==> x in s
    decreases |s|
  {
    if s == {} then []
    else
      var m := MinOf(s);
      var rest := SortedSeq(s - {m});
      assert forall x :: x in rest ==> m < x;
      [m] + rest
  }

  /** A strictly increasing sequence is determined by its elements: two
      runs of `sorted` over the same set give the same list. */
  lemma {:induction false} SortedUnique(a: seq<nat>, b: seq<nat>)
    requires StrictlyIncreasing(a) && StrictlyIncreasing(b)
    requires forall x :: x in a <==> x in b
    ensures a == b
  {
    if a == [] {
      if b != [] {
        FirstIsMember(b);
        assert false;
      }
    } else {
      assert b != [] by { assert a[0] in b; }
      SameHead(a, b);
      SameTailMembers(a, b);
      SortedUnique(a[1..], b[1..]);
      assert a == [a[0]] + a[1..] && b == [b[0]] + b[1..];
    }
  }

  /** Two increasing lists with the same members start alike. */
  lemma SameHead(a: seq<nat>, b: seq<nat>)
    requires a != [] && b != []
    requires StrictlyIncreasing(a) && StrictlyIncreasing(b)
    requires forall x :: x in a <==> x in b
    ensures a[0] == b[0]
  {
    assert forall k :: 0 <= k < |a| ==> a[0] <= a[k];
    assert forall k :: 0 <= k < |b| ==> b[0] <= b[k];
    assert a[0] in b && b[0] in a;
  }

  /** ... and, once the heads are dropped, still have the same members. */
  lemma SameTailMembers(a: seq<nat>, b: seq<nat>)
    requires a != [] && b != [] && a[0] == b[0]
    requires StrictlyIncreasing(a) && StrictlyIncreasing(b)
    requires forall x :: x in a <==> x in b
    ensures forall x :: x in a[1..] <==> x in b[1..]
  {
    forall x
      ensures x in a[1..] <==> x in b[1..]
    {
      if x in a[1..] {
        var k :| 1 <= k < |a| && a[k] == x;
        assert a[0] < x;
        assert x in b;
      }
      if x in b[1..] {
        var k :| 1 <= k < |b| && b[k] == x;
        assert b[0] < x;
        assert x in a;
      }
    }
  }

  lemma FirstIsMember(s: seq<nat>)
    requires s != []
    ensures s[0] in s
  {
  }

  /** The list with every occurrence of `x` dropped
      (`[p for p in s if p != x]`). */
  function Without(s: seq<nat>, x: nat): (r: seq<nat>)
    ensures forall y :: y in r <==> y in s && y != x
    ensures StrictlyIncreasing(s) ==> StrictlyIncreasing(r)
  {
    if s == [] then []
    else if s[|s| - 1] == x then Without(s[..|s| - 1], x)
    else
      var r := Without(s[..|s| - 1], x);
      assert StrictlyIncreasing(s) ==> StrictlyIncreasing(r + [s[|s| - 1]]) by {
        if StrictlyIncreasing(s) {
          assert StrictlyIncreasing(s[..|s| - 1]);
          forall y | y in r ensures y < s[|s| - 1] {
            assert y in s[..|s| - 1];
            var k :| 0 <= k < |s| - 1 && s[k] == y;
          }
          var t := r + [s[|s| - 1]];
          forall i, j | 0 <= i < j < |t| ensures t[i] < t[j] {
            if j == |t| - 1 {
              assert t[i] in r;
            }
          }
        }
      }
      r + [s[|s| - 1]]
  }

  /** `Without` walks its list front to back. */
  lemma WithoutSnoc(s: seq<nat>, y: nat, x: nat)
    ensures Without(s + [y], x) == Without(s, x) + (if y != x then [y] else [])
  {
    assert (s + [y])[..|s|] == s;
  }

  /** Skipping one element while walking a sorted set is the same as
      walking the sorted set without that element. */
  lemma SortedWithout(s: set<nat>, x: nat)
    ensures Without(SortedSeq(s), x) == SortedSeq(s - {x})
  {
    SortedUnique(Without(SortedSeq(s), x), SortedSeq(s - {x}));
  }

  // ---------------------------------------------------------------------
  // Tallies: a dict of counters, `d[k] = d.get(k, 0) + 1`.

  /** `d[k] = d.get(k, 0) + 1` */
  function Inc<K>(d: map<K, nat>, k: K): (r: map<K, nat>)
    ensures r.Keys == d.Keys + {k}
    ensures r[k] == (if k in d then d[k] else 0) + 1
    ensures forall j :: j in d && j != k ==> r[j] == d[j]
  {
    d[k := (if k in d then d[k] else 0) + 1]
  }

  /** The sum of all counters of a tally. */
  ghost function SumValues<K>(d: map<K, nat>): nat
    decreases |d|
  {
    if d == map[] then 0
    else
      var k :| k in d;
      assert |d - {k}| < |d| by { MapRemoveSize(d, k); }
      d[k] + SumValues(d - {k})
  }

  lemma MapRemoveSize<K>(d: map<K, nat>, k: K)
    requires k in d
    ensures |d - {k}| == |d| - 1
  {
    assert (d - {k}).Keys == d.Keys - {k};
    assert |d.Keys| == |d|;
    assert |(d - {k}).Keys| == |d - {k}|;
  }

  /** The sum does not depend on the key `SumValues` happens to pick. */
  lemma {:induction false} SumValuesRemove<K>(d: map<K, nat>, k: K)
    requires k in d
    ensures SumValues(d) == d[k] + SumValues(d - {k})
    decreases |d|
  {
    var j :| j in d && SumValues(d) == d[j] + SumValues(d - {j});
    if j != k {
      MapRemoveSize(d, j);
      MapRemoveSize(d, k);
      SumValuesRemove(d - {j}, k);
      SumValuesRemove(d - {k}, j);
      assert (d - {j}) - {k} == (d - {k}) - {j};
    }
  }

  /** Incrementing one counter raises the sum by one. */
  lemma {:induction false} SumValuesInc<K>(d: map<K, nat>, k: K)
    ensures SumValues(Inc(d, k)) == SumValues(d) + 1
  {
    var r := Inc(d, k);
    SumValuesRemove(r, k);
    if k in d {
      SumValuesRemove(d, k);
      assert r - {k} == d - {k};
    } else {
      assert r - {k} == d;
    }
  }
}
